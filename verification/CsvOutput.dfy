/**
 The CSV renderer, and a reader for the format of section 2 of RFC 4180 with line feeds as line breaks: reading
 what the renderer writes gives back the grid of header and cell texts.
 */
module CsvOutput {
  import opened Text

  // ----- Writing -----

  predicate Special(c: char) {
    c == '"' || c == ',' || c == '\n' || c == '\r'
  }

  predicate NeedsQuote(s: string) {
    exists k :: 0 <= k < |s| && Special(s[k])
  }

  function Doubled(s: string): string {
    if s == "" then "" else Doubled(s[..|s| - 1]) + if s[|s| - 1] == '"' then "\"\"" else [s[|s| - 1]]
  }

  function Escape(s: string): string {
    if NeedsQuote(s) then "\"" + Doubled(s) + "\"" else s
  }

  method CsvEscape(s: string) returns (r: string)
    ensures r == Escape(s)
  {
    var needsQuote := false;
    for i := 0 to |s|
      invariant !needsQuote && forall k :: 0 <= k < i ==> !Special(s[k])
    {
      if Special(s[i]) {
        needsQuote := true;
        break;
      }
    }
    if !needsQuote { return s; }
    r := "\"";
    for i := 0 to |s|
      invariant r == "\"" + Doubled(s[..i])
    {
      assert s[..i + 1][..i] == s[..i];
      if s[i] == '"' { r := r + "\"\""; } else { r := r + [s[i]]; }
    }
    assert s[..|s|] == s;
    r := r + "\"";
  }

  // A field without commas, quotes and line ends is written as it is. Any other is put in quotes, and nothing in it
  // has changed but that there is one more quote for each of its own.
  lemma EscapeTells(s: string)
    ensures ('"' !in s && ',' !in s && '\n' !in s && '\r' !in s) <==> Escape(s) == s
    ensures Escape(s) != s ==>
              var n := |Escape(s)|;
              n == |s| + 2 + Count('"', s) && Escape(s)[0] == '"' && Escape(s)[n - 1] == '"'
  {
    DoubledLength(s);
    if NeedsQuote(s) {
      var k :| 0 <= k < |s| && Special(s[k]);
      assert |Escape(s)| > |s|;
    }
    if c :| c in s && Special(c) { assert NeedsQuote(s); }
  }

  lemma {:induction false} DoubledLength(s: string)
    ensures |Doubled(s)| == |s| + Count('"', s)
  {
    if s != "" {
      var n := |s| - 1;
      DoubledLength(s[..n]);
      CountConcat('"', s[..n], [s[n]]);
      assert s == s[..n] + [s[n]] && [s[n]][1..] == "";
    }
  }

  // What follows the first c cells of a line.
  function From(cells: seq<string>, c: nat): string
    requires c <= |cells|
    decreases |cells| - c
  {
    if c == |cells| then "\n" else (if c > 0 then "," else "") + Escape(cells[c]) + From(cells, c + 1)
  }

  function Lines(grid: seq<seq<string>>): string {
    if grid == [] then "" else From(grid[0], 0) + Lines(grid[1..])
  }

  method WriteLine(prefix: string, cells: seq<string>) returns (text: string)
    ensures text == prefix + From(cells, 0)
  {
    text := prefix;
    for c := 0 to |cells|
      invariant text + From(cells, c) == prefix + From(cells, 0)
    {
      ghost var before := text;
      if c > 0 { text := text + ","; }
      var cell := CsvEscape(cells[c]);
      text := text + cell;
      assert text + From(cells, c + 1) == before + From(cells, c);
    }
    text := text + "\n";
  }

  function Grid(names: seq<string>, rows: seq<seq<string>>, showHeaders: bool): seq<seq<string>> {
    if showHeaders then [names] + rows else rows
  }

  method Render(names: seq<string>, rows: seq<seq<string>>, showHeaders: bool)
      returns (text: string, rowsRendered: nat, colsRendered: nat)
    ensures text == Lines(Grid(names, rows, showHeaders))
    ensures rowsRendered == |rows| && colsRendered == |names|
  {
    text := "";
    ghost var all := Lines(Grid(names, rows, showHeaders));
    if showHeaders {
      text := WriteLine(text, names);
      assert Grid(names, rows, true)[1..] == rows;
    }
    for r := 0 to |rows|
      invariant text + Lines(rows[r..]) == all
    {
      ghost var before := text;
      assert rows[r..][1..] == rows[r + 1..];
      text := WriteLine(text, rows[r]);
      Associate(before, From(rows[r], 0), Lines(rows[r + 1..]));
    }
    return text, |rows|, |names|;
  }

  // ----- Reading -----

  datatype Read<+T> = Bad | Read(value: T, rest: string)

  // The rest of a quoted field; two quotes stand for one.
  function ReadQuoted(s: string): (r: Read<string>)
    ensures r.Read? ==> |r.rest| < |s|
    decreases |s|
  {
    if s == "" then Bad
    else if s[0] == '"' && (|s| == 1 || s[1] != '"') then Read("", s[1..])
    else match ReadQuoted(if s[0] == '"' then s[2..] else s[1..])
      case Bad => Bad
      case Read(t, rest) => Read([s[0]] + t, rest)
  }

  // A field without quotes has no quote and no carriage return in it.
  function ReadPlain(s: string): (r: Read<string>)
    ensures r.Read? ==> |r.rest| <= |s|
  {
    if s == "" || s[0] == ',' || s[0] == '\n' then Read("", s)
    else if Special(s[0]) then Bad
    else match ReadPlain(s[1..])
      case Bad => Bad
      case Read(t, rest) => Read([s[0]] + t, rest)
  }

  function ReadField(s: string): (r: Read<string>)
    ensures r.Read? ==> |r.rest| <= |s|
  {
    if s != "" && s[0] == '"' then ReadQuoted(s[1..]) else ReadPlain(s)
  }

  // One record; the last one may lack its line break.
  function ReadRecord(s: string): (r: Read<seq<string>>)
    ensures r.Read? && s != "" ==> |r.rest| < |s|
    ensures r.Read? ==> r.value != []
    decreases |s|
  {
    match ReadField(s)
    case Bad => Bad
    case Read(f, after) =>
      if after == "" then Read([f], "")
      else if after[0] == '\n' then Read([f], after[1..])
      else if after[0] == ',' then
        match ReadRecord(after[1..])
        case Bad => Bad
        case Read(fields, rest) => Read([f] + fields, rest)
      else Bad
  }

  function ReadRecords(s: string): Option<seq<seq<string>>>
    decreases |s|
  {
    if s == "" then Some([])
    else match ReadRecord(s)
      case Bad => None
      case Read(record, rest) =>
        match ReadRecords(rest)
        case None => None
        case Some(records) => Some([record] + records)
  }

  // ----- The round trip -----

  predicate Ends(rest: string) {
    rest != "" && (rest[0] == ',' || rest[0] == '\n')
  }

  lemma {:induction false} DoubledFront(s: string)
    requires s != ""
    ensures Doubled(s) == (if s[0] == '"' then "\"\"" else [s[0]]) + Doubled(s[1..])
  {
    var n := |s| - 1;
    if n > 0 {
      DoubledFront(s[..n]);
      assert s[..n][1..] == s[1..][..n - 1];
    } else {
      assert s[..0] == "" && s[1..] == "";
    }
  }

  lemma {:induction false} QuotedRoundTrip(s: string, rest: string)
    requires Ends(rest)
    ensures ReadQuoted(Doubled(s) + "\"" + rest) == Read(s, rest)
  {
    var text := Doubled(s) + "\"" + rest;
    if s == "" {
      assert text == "\"" + rest && text[1..] == rest;
    } else {
      DoubledFront(s);
      QuotedRoundTrip(s[1..], rest);
      var more := Doubled(s[1..]) + "\"" + rest;
      if s[0] == '"' {
        assert text == "\"\"" + more && text[2..] == more;
      } else {
        assert text == [s[0]] + more && text[1..] == more;
      }
      assert s == [s[0]] + s[1..];
    }
  }

  lemma {:induction false} PlainRoundTrip(s: string, rest: string)
    requires Ends(rest) && !NeedsQuote(s)
    ensures ReadPlain(s + rest) == Read(s, rest)
  {
    if s == "" {
      assert s + rest == rest;
    } else {
      assert !Special(s[0]);
      assert forall k :: 0 <= k < |s[1..]| ==> s[1..][k] == s[k + 1];
      PlainRoundTrip(s[1..], rest);
      assert (s + rest)[1..] == s[1..] + rest;
      assert s == [s[0]] + s[1..];
    }
  }

  lemma Regroup(q: string, d: string, rest: string)
    ensures q + d + q + rest == q + (d + q + rest)
  {}

  lemma QuotedField(s: string, rest: string)
    requires Ends(rest)
    ensures ReadField("\"" + Doubled(s) + "\"" + rest) == Read(s, rest)
  {
    var more := Doubled(s) + "\"" + rest;
    Regroup("\"", Doubled(s), rest);
    QuotedRoundTrip(s, rest);
    Headed('"', more);
  }

  lemma Headed(c: char, more: string)
    ensures ([c] + more)[0] == c && ([c] + more)[1..] == more
  {}

  lemma FieldRoundTrip(s: string, rest: string)
    requires Ends(rest)
    ensures ReadField(Escape(s) + rest) == Read(s, rest)
  {
    if NeedsQuote(s) {
      QuotedField(s, rest);
    } else {
      PlainRoundTrip(s, rest);
      var text := s + rest;
      assert text[0] == (if s == "" then rest[0] else s[0]);
      assert s != "" ==> !Special(s[0]);
    }
  }

  // The cells from the c-th on.
  lemma {:induction false} RecordRoundTrip(cells: seq<string>, c: nat, rest: string)
    requires c < |cells|
    ensures ReadRecord(Escape(cells[c]) + (From(cells, c + 1) + rest)) == Read(cells[c..], rest)
    decreases |cells| - c
  {
    var after := From(cells, c + 1) + rest;
    var text := Escape(cells[c]) + after;
    if c + 1 == |cells| {
      Headed('\n', rest);
      FieldRoundTrip(cells[c], after);
      assert cells[c..] == [cells[c]];
    } else {
      var next := Escape(cells[c + 1]);
      var more := next + (From(cells, c + 2) + rest);
      CommaFirst(cells, c + 1, rest);
      Headed(',', more);
      RecordRoundTrip(cells, c + 1, rest);
      FieldRoundTrip(cells[c], after);
      assert cells[c..] == [cells[c]] + cells[c + 1..];
    }
  }

  lemma CommaFirst(cells: seq<string>, c: nat, rest: string)
    requires 0 < c < |cells|
    ensures From(cells, c) + rest == "," + (Escape(cells[c]) + (From(cells, c + 1) + rest))
  {
    Regroup4(",", Escape(cells[c]), From(cells, c + 1), rest);
  }

  lemma Regroup4(x: string, y: string, z: string, w: string)
    ensures x + y + z + w == x + (y + (z + w))
  {}

  lemma LineRoundTrip(cells: seq<string>, rest: string)
    requires cells != []
    ensures From(cells, 0) + rest != "" && ReadRecord(From(cells, 0) + rest) == Read(cells, rest)
  {
    RecordRoundTrip(cells, 0, rest);
    assert From(cells, 0) == Escape(cells[0]) + From(cells, 1) by { assert "" + Escape(cells[0]) == Escape(cells[0]); }
    Associate(Escape(cells[0]), From(cells, 1), rest);
    assert cells[0..] == cells;
    NotEmpty(cells, 0);
  }

  lemma {:induction false} NotEmpty(cells: seq<string>, c: nat)
    requires c <= |cells|
    ensures From(cells, c) != ""
    decreases |cells| - c
  {
    if c < |cells| { NotEmpty(cells, c + 1); }
  }

  // Reading the whole output gives back the grid if and only if every line of the grid has a cell.
  lemma GridRoundTrip(grid: seq<seq<string>>)
    ensures ReadRecords(Lines(grid)) == Some(grid) <==> forall r :: 0 <= r < |grid| ==> grid[r] != []
  {
    if forall r :: 0 <= r < |grid| ==> grid[r] != [] {
      ReadsBack(grid);
    } else if ReadRecords(Lines(grid)) == Some(grid) {
      RecordsHaveFields(Lines(grid));
    }
  }

  lemma OneRecordMore(text: string, record: seq<string>, rest: string, records: seq<seq<string>>)
    requires text != "" && ReadRecord(text) == Read(record, rest) && ReadRecords(rest) == Some(records)
    ensures ReadRecords(text) == Some([record] + records)
  {}

  lemma {:induction false} ReadsBack(grid: seq<seq<string>>)
    requires forall r :: 0 <= r < |grid| ==> grid[r] != []
    ensures ReadRecords(Lines(grid)) == Some(grid)
  {
    if grid != [] {
      assert grid[0] != [];
      LineRoundTrip(grid[0], Lines(grid[1..]));
      ReadsBack(grid[1..]);
      OneRecordMore(Lines(grid), grid[0], Lines(grid[1..]), grid[1..]);
      assert grid == [grid[0]] + grid[1..];
    }
  }

  lemma {:induction false} RecordsHaveFields(s: string)
    requires ReadRecords(s).Some?
    ensures forall r :: 0 <= r < |ReadRecords(s).value| ==> ReadRecords(s).value[r] != []
    decreases |s|
  {
    if s != "" { RecordsHaveFields(ReadRecord(s).rest); }
  }

  // For a table, that is to say: it has a column, or nothing is written.
  lemma RenderedTableReadsBack(names: seq<string>, rows: seq<seq<string>>, showHeaders: bool)
    requires forall r :: 0 <= r < |rows| ==> |rows[r]| == |names|
    ensures ReadRecords(Lines(Grid(names, rows, showHeaders))) == Some((if showHeaders then [names] else []) + rows) <==>
              |names| >= 1 || (rows == [] && !showHeaders)
  {
    var grid := Grid(names, rows, showHeaders);
    GridRoundTrip(grid);
    assert (if showHeaders then [names] else []) + rows == grid;
    assert forall r :: 0 <= r < |grid| ==> |grid[r]| == |names|;
    if |names| == 0 && grid != [] { assert grid[0] == []; }
  }
}
