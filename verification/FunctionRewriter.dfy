/**
 The rewriter of GIZMOSQL_...() pseudo-functions: outside quotes, each call is replaced by a literal and, in a
 SELECT context, given an alias.
 */
module FunctionRewriter {
  import opened Text

  // ----- Where an alias is added -----

  predicate IsComparison(c: char) { c == '=' || c == '<' || c == '>' || c == '!' }

  // s begins, in any case, with what the word has from offset off on.
  predicate MatchesFrom(s: string, word: string, off: nat) {
    off <= |word| && |word| - off <= |s| && forall k :: 0 <= k < |word| - off ==> Upper(s[k]) == word[off + k]
  }

  const SELECT_TERMINATORS := ["FROM", "WHERE", "ORDER", "GROUP", "HAVING", "LIMIT", "UNION", "EXCEPT", "INTERSECT"]

  // rest begins with word, in any case, and one of the four blanks that separate words.
  predicate BeginsWithWord(rest: string, word: string) {
    |word| < |rest| && MatchesFrom(rest, word, 0) && rest[|word|] in " \t\n\r"
  }

  // A call in sql[start..end] gets an alias exactly if no comparison operator precedes it and what follows is the
  // end, a comma, semicolon or closing parenthesis, or a keyword that ends a SELECT expression.
  predicate AliasWanted(sql: string, start: nat, end: nat)
    requires start <= end <= |sql|
  {
    !AfterComparison(sql, start) && BeforeEnd(sql, end)
  }

  // The last character before position i that is not blank belongs to a comparison operator.
  predicate AfterComparison(sql: string, i: nat)
    requires i <= |sql|
  {
    i > 0 && if IsSpace(sql[i - 1]) then AfterComparison(sql, i - 1) else IsComparison(sql[i - 1])
  }

  // From position i on, blanks skipped, a SELECT expression cannot go on.
  predicate BeforeEnd(sql: string, i: nat)
    requires i <= |sql|
    decreases |sql| - i
  {
    || i == |sql|
    || if IsSpace(sql[i]) then BeforeEnd(sql, i + 1) else sql[i] in ",;)" || BeforeTerminator(sql[i..])
  }

  predicate BeforeTerminator(rest: string) {
    exists k :: 0 <= k < |SELECT_TERMINATORS| && BeginsWithWord(rest, SELECT_TERMINATORS[k])
  }

  method ShouldAddAlias(sql: string, funcStart: nat, funcEnd: nat) returns (alias: bool)
    requires funcStart <= funcEnd <= |sql|
    ensures alias <==> AliasWanted(sql, funcStart, funcEnd)
  {
    if funcStart > 0 {
      var prev := funcStart - 1;
      while prev > 0 && IsSpace(sql[prev])
        invariant 0 <= prev < funcStart
        invariant AfterComparison(sql, prev + 1) == AfterComparison(sql, funcStart)
      {
        prev := prev - 1;
      }
      var prevChar := sql[prev];
      if IsComparison(prevChar) { return false; }
      if prev > 0 {
        // Each of these ends in a character tested above, so this test never succeeds.
        var two := sql[prev - 1..prev + 1];
        assert two[1] == prevChar;
        if two == "!=" || two == "<>" || two == "<=" || two == ">=" { return false; }
      }
    }
    assert !AfterComparison(sql, funcStart);
    alias := EndsHere(sql, funcEnd);
  }

  // The second half: what follows the call.
  method EndsHere(sql: string, funcEnd: nat) returns (ends: bool)
    requires funcEnd <= |sql|
    ensures ends <==> BeforeEnd(sql, funcEnd)
  {
    var pos := funcEnd;
    while pos < |sql| && IsSpace(sql[pos])
      invariant funcEnd <= pos <= |sql| && BeforeEnd(sql, pos) == BeforeEnd(sql, funcEnd)
    {
      pos := pos + 1;
    }
    if pos >= |sql| { return true; }
    var next := sql[pos];
    if next == ',' || next == ';' { return true; }
    if next == ')' { return true; }
    var rest := sql[pos..];
    if BeginsWithWord(rest, "AS") {
      WordsDiffer(rest);
      return false;
    }
    var k := 0;
    while k < |SELECT_TERMINATORS|
      invariant 0 <= k <= |SELECT_TERMINATORS|
      invariant forall j :: 0 <= j < k ==> !BeginsWithWord(rest, SELECT_TERMINATORS[j])
    {
      if BeginsWithWord(rest, SELECT_TERMINATORS[k]) { return true; }
      k := k + 1;
    }
    // AND, OR, IN, LIKE, BETWEEN, IS and comparison operators mean a condition, and so does anything else.
    return false;
  }

  // AS is not a keyword that ends a SELECT expression: the first letters differ.
  lemma WordsDiffer(rest: string)
    requires BeginsWithWord(rest, "AS")
    ensures forall k :: 0 <= k < |SELECT_TERMINATORS| ==> !BeginsWithWord(rest, SELECT_TERMINATORS[k])
  {
    assert Upper(rest[0]) == "AS"[0 + 0];
    forall k | 0 <= k < |SELECT_TERMINATORS| ensures !BeginsWithWord(rest, SELECT_TERMINATORS[k]) {
      var word := SELECT_TERMINATORS[k];
      assert word[0 + 0] != 'A';
    }
  }

  // ----- The pseudo-functions -----

  // A call that is recognised and the literal that replaces it.
  datatype Entry = Entry(name: string, literal: string)

  // What the server substitutes.
  datatype Values = Values(sessionId: string, instanceId: string, version: string, username: string, role: string,
                           edition: string, instrumentationEnabled: bool, catalog: string, schema: string)

  function Quoted(v: string): string { "'" + v + "'" }

  // The calls in the order in which they are tried. An empty instance id becomes NULL.
  function Table(v: Values): seq<Entry> {
    [ Entry("GIZMOSQL_CURRENT_SESSION()", Quoted(v.sessionId)),
      Entry("GIZMOSQL_CURRENT_INSTANCE()", if v.instanceId == "" then "NULL" else Quoted(v.instanceId)),
      Entry("GIZMOSQL_VERSION()", Quoted(v.version)),
      Entry("GIZMOSQL_USER()", Quoted(v.username)),
      Entry("GIZMOSQL_ROLE()", Quoted(v.role)),
      Entry("GIZMOSQL_EDITION()", Quoted(v.edition)),
      Entry("GIZMOSQL_INSTRUMENTATION_ENABLED()", if v.instrumentationEnabled then "true" else "false"),
      Entry("GIZMOSQL_INSTRUMENTATION_CATALOG()", Quoted(v.catalog)),
      Entry("GIZMOSQL_INSTRUMENTATION_SCHEMA()", Quoted(v.schema)) ]
  }

  predicate CallAt(s: string, name: string) {
    name != "" && MatchesFrom(s, name, 0)
  }

  // The name stands, in any case, at position i.
  predicate NameAt(sql: string, i: nat, name: string) {
    name != "" && i + |name| <= |sql| && forall k :: 0 <= k < |name| ==> Upper(sql[i + k]) == name[k]
  }

  // The first of the calls that stands at position i.
  function FindCall(table: seq<Entry>, sql: string, i: nat): (r: Option<Entry>)
    ensures r.Some? ==> 0 < |r.value.name| <= |sql| - i
  {
    if table == [] then None
    else if NameAt(sql, i, table[0].name) then Some(table[0])
    else FindCall(table[1..], sql, i)
  }

  lemma NameAtSuffix(sql: string, i: nat, name: string)
    requires i <= |sql|
    ensures NameAt(sql, i, name) <==> CallAt(sql[i..], name)
  {
    if NameAt(sql, i, name) {
      forall k | 0 <= k < |name| - 0 ensures Upper(sql[i..][k]) == name[0 + k] { assert sql[i..][k] == sql[i + k]; }
    }
    if CallAt(sql[i..], name) {
      forall k | 0 <= k < |name| ensures Upper(sql[i + k]) == name[k] { assert Upper(sql[i..][k]) == name[0 + k]; }
    }
  }

  lemma {:induction false} FindCallCorrect(table: seq<Entry>, sql: string, i: nat)
    requires i <= |sql|
    ensures var r := FindCall(table, sql, i); r.Some? ==> r.value in table && CallAt(sql[i..], r.value.name)
    ensures FindCall(table, sql, i).None? ==> forall e :: e in table ==> !CallAt(sql[i..], e.name)
  {
    if table != [] {
      NameAtSuffix(sql, i, table[0].name);
      FindCallCorrect(table[1..], sql, i);
    }
  }

  lemma {:induction false} FindCallSuffix(table: seq<Entry>, sql: string, i: nat)
    requires i <= |sql|
    ensures FindCall(table, sql, i) == FindCall(table, sql[i..], 0)
  {
    if table != [] {
      NameAtSuffix(sql, i, table[0].name);
      NameAtSuffix(sql[i..], 0, table[0].name);
      assert sql[i..][0..] == sql[i..];
      FindCallSuffix(table[1..], sql, i);
    }
  }

  // ----- The text as a sequence of segments -----

  // A quoted region with its quotes, an ordinary character, or a call.
  datatype Segment = Region(text: string) | Plain(c: char) | Call(entry: Entry, text: string, alias: bool)

  function Source(seg: Segment): string {
    match seg
    case Region(text) => text
    case Plain(c) => [c]
    case Call(_, text, _) => text
  }

  function Image(seg: Segment): string {
    match seg
    case Region(text) => text
    case Plain(c) => [c]
    case Call(e, _, alias) => e.literal + Alias(e.name, alias)
  }

  function Alias(name: string, alias: bool): string {
    if alias then " AS \"" + name + "\"" else ""
  }

  // From inside a region opened by q: how far it reaches. A backslash protects the next character.
  function RegionLength(q: char, s: string): (n: nat)
    ensures n <= |s|
  {
    if s == "" then 0
    else if s[0] == q then 1
    else var k := if s[0] == '\\' && |s| > 1 then 2 else 1; k + RegionLength(q, s[k..])
  }

  // Where the region that position i lies in ends.
  function RegionEnd(q: char, sql: string, i: nat): (end: nat)
    requires i <= |sql|
    ensures i <= end <= |sql|
    decreases |sql| - i
  {
    if i == |sql| then i
    else if sql[i] == q then i + 1
    else RegionEnd(q, sql, if sql[i] == '\\' && i + 1 < |sql| then i + 2 else i + 1)
  }

  lemma {:induction false} RegionEndSuffix(q: char, sql: string, i: nat)
    requires i <= |sql|
    ensures RegionEnd(q, sql, i) == i + RegionLength(q, sql[i..])
    decreases |sql| - i
  {
    if i < |sql| && sql[i] != q {
      var k := if sql[i] == '\\' && i + 1 < |sql| then 2 else 1;
      assert sql[i..][k..] == sql[i + k..];
      RegionEndSuffix(q, sql, i + k);
    }
  }

  predicate IsQuote(c: char) { c == '\'' || c == '"' }

  // The segment that begins at position i.
  function SegmentAt(table: seq<Entry>, sql: string, i: nat): (seg: Segment)
    requires i < |sql|
    ensures 0 < |Source(seg)| <= |sql| - i
  {
    if IsQuote(sql[i]) then
      Region(sql[i..RegionEnd(sql[i], sql, i + 1)])
    else match FindCall(table, sql, i)
      case None => Plain(sql[i])
      case Some(e) =>
        var end := i + |e.name|;
        Call(e, sql[i..end], AliasWanted(sql, i, end))
  }

  lemma SegmentIsSource(table: seq<Entry>, sql: string, i: nat)
    requires i < |sql|
    ensures var seg := SegmentAt(table, sql, i); sql[i..] == Source(seg) + sql[i + |Source(seg)|..]
  {}

  datatype SegmentList = Nil | Cons(head: Segment, tail: SegmentList)

  function Segments(table: seq<Entry>, sql: string, i: nat): SegmentList
    requires i <= |sql|
    decreases |sql| - i
  {
    if i == |sql| then Nil
    else var seg := SegmentAt(table, sql, i); Cons(seg, Segments(table, sql, i + |Source(seg)|))
  }

  function Sources(segs: SegmentList): string {
    if segs.Nil? then "" else Source(segs.head) + Sources(segs.tail)
  }

  function Images(segs: SegmentList): string {
    if segs.Nil? then "" else Image(segs.head) + Images(segs.tail)
  }

  // The rewritten text.
  function Rewritten(table: seq<Entry>, sql: string): string {
    Images(Segments(table, sql, 0))
  }

  // ----- The rewriter -----

  method ReplaceGizmoSQLFunctions(sql: string, v: Values) returns (result: string)
    ensures result == Rewritten(Table(v), sql)
  {
    result := Rewrite(sql, Table(v));
  }

  method Rewrite(sql: string, table: seq<Entry>) returns (result: string)
    ensures result == Rewritten(table, sql)
  {
    result := "";
    var i := 0;
    ghost var segs := Segments(table, sql, 0);
    ghost var all := Images(segs);
    while i < |sql|
      invariant 0 <= i <= |sql| && segs == Segments(table, sql, i)
      invariant result + Images(segs) == all
    {
      var image;
      image, i := RewriteHead(sql, table, i, segs);
      Associate(result, image, Images(segs.tail));
      segs := segs.tail;
      result := result + image;
    }
  }

  lemma SegmentsStep(table: seq<Entry>, sql: string, i: nat)
    requires i < |sql|
    ensures var seg := SegmentAt(table, sql, i);
            Segments(table, sql, i) == Cons(seg, Segments(table, sql, i + |Source(seg)|))
  {}

  method RewriteHead(sql: string, table: seq<Entry>, start: nat, ghost segs: SegmentList) returns (image: string, i: nat)
    requires start < |sql| && segs == Segments(table, sql, start)
    ensures start < i <= |sql| && segs.Cons? && image == Image(segs.head) && segs.tail == Segments(table, sql, i)
  {
    SegmentsStep(table, sql, start);
    image, i := RewriteSegment(sql, table, start);
  }

  // One round of the loop: the image of the segment at position start, and where the next one begins.
  method RewriteSegment(sql: string, table: seq<Entry>, start: nat) returns (result: string, i: nat)
    requires start < |sql|
    ensures start < i <= |sql|
    ensures var seg := SegmentAt(table, sql, start); result == Image(seg) && i == start + |Source(seg)|
  {
    i := start;
    if IsQuote(sql[i]) {
      result, i := CopyRegion(sql, i);
    } else {
      match FindCall(table, sql, i) {
        case Some(e) =>
          var end := i + |e.name|;
          var alias := ShouldAddAlias(sql, i, end);
          result := e.literal;
          if alias {
            result := result + " AS \"" + e.name + "\"";
          }
          i := end;
        case None =>
          result := [sql[i]];
          i := i + 1;
      }
    }
  }

  // The two loops that skip quoted text.
  method CopyRegion(sql: string, start: nat) returns (text: string, i: nat)
    requires start < |sql|
    ensures i == RegionEnd(sql[start], sql, start + 1) && text == sql[start..i]
  {
    var q := sql[start];
    text, i := [q], start + 1;
    ghost var reach := RegionEnd(q, sql, i);
    while i < |sql| && sql[i] != q
      invariant start < i <= |sql| && text == sql[start..i]
      invariant RegionEnd(q, sql, i) == reach
    {
      if sql[i] == '\\' && i + 1 < |sql| {
        SliceSnoc(sql, start, i);
        text := text + [sql[i]];
        i := i + 1;
      }
      if i < |sql| {
        SliceSnoc(sql, start, i);
        text := text + [sql[i]];
        i := i + 1;
      }
    }
    if i < |sql| {
      SliceSnoc(sql, start, i);
      text := text + [sql[i]];
      i := i + 1;
    }
  }

  lemma SliceSnoc(s: string, a: nat, b: nat)
    requires a <= b < |s|
    ensures s[a..b + 1] == s[a..b] + [s[b]]
  {}

  // ----- The segments make up the text, and the result is made of their images -----

  lemma {:induction false} SegmentsCoverTheText(table: seq<Entry>, sql: string, i: nat)
    requires i <= |sql|
    ensures Sources(Segments(table, sql, i)) == sql[i..]
    decreases |sql| - i
  {
    if i < |sql| {
      SegmentIsSource(table, sql, i);
      SegmentsCoverTheText(table, sql, i + |Source(SegmentAt(table, sql, i))|);
    }
  }

  // ----- When nothing is rewritten -----

  // Scanned from its beginning, the text has a call outside quotes.
  predicate HasCall(table: seq<Entry>, s: string)
    decreases |s|
  {
    s != "" &&
    if IsQuote(s[0]) then HasCall(table, s[1 + RegionLength(s[0], s[1..])..])
    else FindCall(table, s, 0).Some? || HasCall(table, s[1..])
  }

  // No quotes or backslashes, no F, no LL and no UE, and a closing parenthesis at the end: nothing that a literal
  // could be mistaken for.
  predicate Harmless(s: string) {
    s != "" && s[|s| - 1] == ')' && Clean(s)
  }

  predicate Clean(s: string) {
    && (forall k :: 0 <= k < |s| ==> s[k] != '\'' && s[k] != '"' && s[k] != '\\' && s[k] != 'F')
    && (forall k :: 0 < k < |s| ==> !(s[k] == 'L' && s[k - 1] == 'L') && !(s[k] == 'E' && s[k - 1] == 'U'))
  }

  // The scanner itself reads 'x' as one quoted region.
  predicate Closes(x: string) {
    x == "" || (x[0] != '\'' && if x[0] == '\\' then |x| > 1 && Closes(x[2..]) else Closes(x[1..]))
  }

  ghost predicate GoodEntry(e: Entry) {
    && Harmless(e.name) && e.name[0] == 'G'
    && (e.literal == "NULL" || e.literal == "true" || e.literal == "false"
        || exists x :: e.literal == Quoted(x) && Closes(x))
  }

  ghost predicate GoodTable(table: seq<Entry>) {
    forall e :: e in table ==> GoodEntry(e)
  }

  // The same, said of a position in the text.
  predicate HasCallFrom(table: seq<Entry>, sql: string, i: nat)
    requires i <= |sql|
    decreases |sql| - i
  {
    i < |sql| &&
    if IsQuote(sql[i]) then HasCallFrom(table, sql, RegionEnd(sql[i], sql, i + 1))
    else FindCall(table, sql, i).Some? || HasCallFrom(table, sql, i + 1)
  }

  lemma {:induction false} HasCallSuffix(table: seq<Entry>, sql: string, i: nat)
    requires i <= |sql|
    ensures HasCallFrom(table, sql, i) <==> HasCall(table, sql[i..])
    decreases |sql| - i
  {
    if i < |sql| {
      var s := sql[i..];
      FindCallSuffix(table, sql, i);
      RegionEndSuffix(sql[i], sql, i + 1);
      assert s[1..] == sql[i + 1..];
      if IsQuote(sql[i]) {
        var n := RegionLength(s[0], s[1..]);
        assert s[1 + n..] == sql[i + 1 + n..];
        HasCallSuffix(table, sql, i + 1 + n);
      } else {
        HasCallSuffix(table, sql, i + 1);
      }
    }
  }

  // Each call of the list is one of a good entry, found in the text.
  ghost predicate CallsFound(segs: SegmentList) {
    segs.Cons? ==>
      && CallsFound(segs.tail)
      && (segs.head.Call? ==> IsFound(segs.head.entry, segs.head.text))
  }

  ghost predicate IsFound(e: Entry, text: string) {
    GoodEntry(e) && CallAt(text, e.name)
  }

  predicate NoCall(segs: SegmentList) {
    segs.Nil? || (!segs.head.Call? && NoCall(segs.tail))
  }

  lemma {:induction false} ImagesDiffer(segs: SegmentList)
    requires CallsFound(segs)
    ensures Images(segs) == Sources(segs) <==> NoCall(segs)
  {
    match segs {
      case Nil =>
      case Cons(seg, tail) =>
        ImagesDiffer(tail);
        if seg.Call? {
          var more := Alias(seg.entry.name, seg.alias) + Images(tail);
          CallStartsWithG(seg.entry, seg.text);
          Associate(seg.entry.literal, Alias(seg.entry.name, seg.alias), Images(tail));
          HeadsDiffer(seg.entry.literal, more, seg.text + Sources(tail));
        } else {
          SamePrefix(Source(seg), Images(tail), Sources(tail));
        }
    }
  }

  lemma SegmentFound(table: seq<Entry>, sql: string, i: nat)
    requires i < |sql| && GoodTable(table) && SegmentAt(table, sql, i).Call?
    ensures var seg := SegmentAt(table, sql, i); IsFound(seg.entry, seg.text)
  {
    FindCallCorrect(table, sql, i);
    var e := FindCall(table, sql, i).value;
    assert sql[i..][..|e.name|] == sql[i..i + |e.name|];
  }

  lemma CallsFoundStep(table: seq<Entry>, sql: string, i: nat, tail: SegmentList)
    requires i < |sql| && GoodTable(table) && CallsFound(tail)
    ensures CallsFound(Cons(SegmentAt(table, sql, i), tail))
  {
    if SegmentAt(table, sql, i).Call? { SegmentFound(table, sql, i); }
  }

  lemma {:induction false} SegmentsFound(table: seq<Entry>, sql: string, i: nat)
    requires i <= |sql| && GoodTable(table)
    ensures CallsFound(Segments(table, sql, i))
    decreases |sql| - i
  {
    if i < |sql| {
      var next := i + |Source(SegmentAt(table, sql, i))|;
      SegmentsFound(table, sql, next);
      CallsFoundStep(table, sql, i, Segments(table, sql, next));
    }
  }

  lemma NoCallStep(table: seq<Entry>, sql: string, i: nat, tail: SegmentList)
    requires i < |sql|
    requires NoCall(tail) <==> !HasCallFrom(table, sql, i + |Source(SegmentAt(table, sql, i))|)
    ensures NoCall(Cons(SegmentAt(table, sql, i), tail)) <==> !HasCallFrom(table, sql, i)
  {}

  lemma {:induction false} HasCallIsACall(table: seq<Entry>, sql: string, i: nat)
    requires i <= |sql|
    ensures NoCall(Segments(table, sql, i)) <==> !HasCallFrom(table, sql, i)
    decreases |sql| - i
  {
    if i < |sql| {
      var next := i + |Source(SegmentAt(table, sql, i))|;
      HasCallIsACall(table, sql, next);
      NoCallStep(table, sql, i, Segments(table, sql, next));
    }
  }

  // The rewriter is the identity exactly on the texts without a call outside quotes.
  lemma UnchangedIfNoCall(table: seq<Entry>, sql: string)
    requires GoodTable(table)
    ensures Rewritten(table, sql) == sql <==> !HasCall(table, sql)
  {
    SegmentsFound(table, sql, 0);
    HasCallIsACall(table, sql, 0);
    HasCallSuffix(table, sql, 0);
    SegmentsCoverTheText(table, sql, 0);
    ImagesDiffer(Segments(table, sql, 0));
    assert sql[0..] == sql;
  }

  lemma HeadsDiffer(a: string, b: string, s: string)
    requires a != "" && s != "" && a[0] != s[0]
    ensures a + b != s
  {
    assert (a + b)[0] == a[0];
  }

  lemma SamePrefix(a: string, x: string, y: string)
    ensures a + x == a + y <==> x == y
  {
    if a + x == a + y {
      assert x == (a + x)[|a|..] && y == (a + y)[|a|..];
    }
  }

  lemma CallStartsWithG(e: Entry, s: string)
    requires GoodEntry(e) && CallAt(s, e.name)
    ensures Upper(s[0]) == 'G' && e.literal != "" && Upper(e.literal[0]) != 'G'
  {
    assert Upper(s[0]) == e.name[0 + 0];
  }

  // ----- Rewriting twice -----

  // A name cannot go on with the text a literal begins with.
  lemma LiteralBreaksName(e: Entry, name: string, off: nat, rest: string)
    requires GoodEntry(e) && off < |name| && Harmless(name)
    ensures !MatchesFrom(e.literal + rest, name, off)
  {
    var s, n := e.literal + rest, |name| - off;
    if e.literal == "NULL" || e.literal == "true" {
      var pair := if e.literal == "NULL" then 'L' else 'U';
      var k := if n < 4 then n - 1 else if name[off + 2] != pair then 2 else 3;
      assert n >= 4 ==> s[2] == e.literal[2] && s[3] == e.literal[3] && name[off + 3] == name[off + 2 + 1];
      assert Upper(s[k]) != name[off + k];
    } else {
      assert Upper(s[0]) != name[off + 0];
    }
  }

  // What the proof needs to know about the segments of a text: regions are closed unless they are the last
  // segment, and no call begins at an ordinary character.
  ghost predicate Proper(table: seq<Entry>, segs: SegmentList) {
    segs.Cons? ==>
      && Proper(table, segs.tail)
      && match segs.head
         case Region(text) =>
           && text != "" && IsQuote(text[0])
           && (segs.tail.Nil? || Closed(text))
           && RegionLength(text[0], text[1..]) == |text| - 1
         case Plain(c) => !IsQuote(c) && forall e :: e in table ==> !CallAt([c] + Sources(segs.tail), e.name)
         case Call(e, _, _) => GoodEntry(e)
  }

  // The region ends where the text does, whatever follows.
  ghost predicate Closed(text: string)
    requires text != ""
  {
    forall y: string :: RegionLength(text[0], text[1..] + y) == |text| - 1
  }

  // A region that ends before the text does is closed by its quote.
  lemma {:induction false} RegionCloses(q: char, s: string, y: string)
    requires RegionLength(q, s) < |s|
    ensures RegionLength(q, s[..RegionLength(q, s)] + y) == RegionLength(q, s)
    decreases |s|
  {
    var n := RegionLength(q, s);
    var t := s[..n] + y;
    if s[0] == q {
    } else if s[0] == '\\' && |s| > 1 {
      RegionCloses(q, s[2..], y);
      assert t[2..] == s[2..][..n - 2] + y;
    } else {
      RegionCloses(q, s[1..], y);
      assert t[1..] == s[1..][..n - 1] + y;
    }
  }

  lemma RegionEnds(q: char, s: string)
    ensures RegionLength(q, s[..RegionLength(q, s)]) == RegionLength(q, s)
  {
    if RegionLength(q, s) < |s| {
      RegionCloses(q, s, "");
      assert s[..RegionLength(q, s)] + "" == s[..RegionLength(q, s)];
    } else {
      assert s[..|s|] == s;
    }
  }

  lemma {:induction false} SegmentsProper(table: seq<Entry>, sql: string, i: nat)
    requires i <= |sql| && GoodTable(table)
    ensures Proper(table, Segments(table, sql, i))
    decreases |sql| - i
  {
    if i < |sql| {
      var seg := SegmentAt(table, sql, i);
      var next := i + |Source(seg)|;
      SegmentsProper(table, sql, next);
      SegmentProper(table, sql, i, Segments(table, sql, next));
    }
  }

  lemma SegmentProper(table: seq<Entry>, sql: string, i: nat, tail: SegmentList)
    requires i < |sql| && GoodTable(table) && Proper(table, tail)
    requires tail == Segments(table, sql, i + |Source(SegmentAt(table, sql, i))|)
    ensures Proper(table, Cons(SegmentAt(table, sql, i), tail))
  {
    if IsQuote(sql[i]) {
      RegionProper(sql, i);
    } else if FindCall(table, sql, i).None? {
      PlainProper(table, sql, i, tail);
    } else {
      SegmentFound(table, sql, i);
    }
  }

  lemma PlainProper(table: seq<Entry>, sql: string, i: nat, tail: SegmentList)
    requires i < |sql| && !IsQuote(sql[i]) && FindCall(table, sql, i).None? && tail == Segments(table, sql, i + 1)
    ensures forall e :: e in table ==> !CallAt([sql[i]] + Sources(tail), e.name)
  {
    SegmentsCoverTheText(table, sql, i + 1);
    FindCallCorrect(table, sql, i);
    assert sql[i..] == [sql[i]] + sql[i + 1..];
  }

  lemma RegionProper(sql: string, i: nat)
    requires i < |sql|
    ensures var end := RegionEnd(sql[i], sql, i + 1);
            var text := sql[i..end];
            RegionLength(text[0], text[1..]) == |text| - 1 && (end < |sql| ==> Closed(text))
  {
    var q, s := sql[i], sql[i + 1..];
    var n := RegionLength(q, s);
    var text := sql[i..i + 1 + n];
    assert text[1..] == s[..n];
    RegionEndSuffix(q, sql, i + 1);
    RegionEnds(q, s);
    if i + 1 + n < |sql| {
      forall y: string ensures RegionLength(q, text[1..] + y) == |text| - 1 { RegionCloses(q, s, y); }
    }
  }

  // A call that would begin before these segments and reach into their images was already in the text.
  lemma {:induction false} CallWasThere(table: seq<Entry>, segs: SegmentList, name: string, off: nat)
    requires Proper(table, segs) && off <= |name| && Harmless(name)
    requires MatchesFrom(Images(segs), name, off)
    ensures MatchesFrom(Sources(segs), name, off)
    decreases segs
  {
    if off < |name| {
      assert Upper(Images(segs)[0]) == name[off];
      match segs.head {
        case Region(text) =>
        case Call(e, text, alias) =>
          Associate(e.literal, Alias(e.name, alias), Images(segs.tail));
          LiteralBreaksName(e, name, off, Alias(e.name, alias) + Images(segs.tail));
        case Plain(c) =>
          MatchesTail(c, Images(segs.tail), name, off);
          CallWasThere(table, segs.tail, name, off + 1);
          MatchesTail(c, Sources(segs.tail), name, off);
      }
    }
  }

  lemma MatchesTail(c: char, s: string, name: string, off: nat)
    requires off < |name|
    ensures MatchesFrom([c] + s, name, off) <==> Upper(c) == name[off] && MatchesFrom(s, name, off + 1)
  {
    var t := [c] + s;
    assert t[0] == c && name[off + 0] == name[off];
    if MatchesFrom(t, name, off) {
      forall k | 0 <= k < |name| - (off + 1) ensures Upper(s[k]) == name[off + 1 + k] {
        assert s[k] == t[k + 1] && name[off + (k + 1)] == name[off + 1 + k];
      }
    }
    if Upper(c) == name[off] && MatchesFrom(s, name, off + 1) {
      forall k | 0 <= k < |name| - off ensures Upper(t[k]) == name[off + k] {
        if k > 0 { assert t[k] == s[k - 1] && name[off + 1 + (k - 1)] == name[off + k]; }
      }
      assert MatchesFrom(t, name, off);
    }
  }

  // A text whose ordinary characters begin no call, with a closed region in front of it.
  lemma CallAfterRegion(table: seq<Entry>, region: string, s: string)
    requires region != "" && IsQuote(region[0]) && RegionLength(region[0], region[1..] + s) == |region| - 1
    ensures HasCall(table, region + s) == HasCall(table, s)
  {
    var t := region + s;
    assert t[1..] == region[1..] + s;
    assert t[1 + RegionLength(t[0], t[1..])..] == s;
  }

  lemma CallAfterPlain(table: seq<Entry>, c: char, s: string)
    requires !IsQuote(c) && forall e :: e in table ==> !CallAt([c] + s, e.name)
    ensures HasCall(table, [c] + s) == HasCall(table, s)
  {
    FindCallCorrect(table, [c] + s, 0);
    assert ([c] + s)[0..] == [c] + s;
    assert ([c] + s)[1..] == s;
  }

  // Characters that are neither quotes nor the G all names begin with.
  lemma {:induction false} CallAfterWord(table: seq<Entry>, w: string, s: string)
    requires GoodTable(table) && forall k :: 0 <= k < |w| ==> !IsQuote(w[k]) && Upper(w[k]) != 'G'
    ensures HasCall(table, w + s) == HasCall(table, s)
  {
    if w == "" {
      assert w + s == s;
    } else {
      CallAfterWord(table, w[1..], s);
      assert w + s == [w[0]] + (w[1..] + s);
      var t := [w[0]] + (w[1..] + s);
      forall e | e in table ensures !CallAt(t, e.name) {
        assert Upper(t[0]) != e.name[0 + 0];
      }
      CallAfterPlain(table, w[0], w[1..] + s);
    }
  }

  lemma {:induction false} QuotedCloses(x: string, s: string)
    requires Closes(x)
    ensures RegionLength('\'', x + "'" + s) == |x| + 1
    decreases |x|
  {
    if x != "" {
      var k := if x[0] == '\\' then 2 else 1;
      assert (x + "'" + s)[k..] == x[k..] + "'" + s;
      QuotedCloses(x[k..], s);
    }
  }

  lemma {:induction false} NameCloses(name: string, s: string)
    requires forall k :: 0 <= k < |name| ==> name[k] != '"' && name[k] != '\\'
    ensures RegionLength('"', name + "\"" + s) == |name| + 1
  {
    if name != "" {
      assert (name + "\"" + s)[1..] == name[1..] + "\"" + s;
      NameCloses(name[1..], s);
    }
  }

  // The image of a call brings no call with it.
  lemma CallAfterImage(table: seq<Entry>, e: Entry, alias: bool, s: string)
    requires GoodTable(table) && GoodEntry(e)
    ensures HasCall(table, e.literal + Alias(e.name, alias) + s) == HasCall(table, s)
  {
    var rest := Alias(e.name, alias) + s;
    Associate(e.literal, Alias(e.name, alias), s);
    if x :| e.literal == Quoted(x) && Closes(x) {
      QuotedCloses(x, rest);
      assert Quoted(x)[1..] + rest == x + "'" + rest;
      CallAfterRegion(table, Quoted(x), rest);
    } else {
      CallAfterWord(table, e.literal, rest);
    }
    CallAfterAlias(table, e, alias, s);
  }

  lemma CallAfterName(table: seq<Entry>, name: string, s: string)
    requires forall k :: 0 <= k < |name| ==> name[k] != '"' && name[k] != '\\'
    ensures HasCall(table, "\"" + name + "\"" + s) == HasCall(table, s)
  {
    var region := "\"" + name + "\"";
    NameCloses(name, s);
    assert region[1..] + s == name + "\"" + s;
    CallAfterRegion(table, region, s);
  }

  lemma CallAfterAlias(table: seq<Entry>, e: Entry, alias: bool, s: string)
    requires GoodTable(table) && GoodEntry(e)
    ensures HasCall(table, Alias(e.name, alias) + s) == HasCall(table, s)
  {
    if alias {
      AliasSplits(e.name, s);
      CallAfterWord(table, " AS ", "\"" + e.name + "\"" + s);
      CallAfterName(table, e.name, s);
    } else {
      assert Alias(e.name, alias) + s == s;
    }
  }

  lemma AliasSplits(name: string, s: string)
    ensures Alias(name, true) + s == " AS " + ("\"" + name + "\"" + s)
  {
    var q := "\"";
    assert " AS \"" == " AS " + q;
    assert " AS " + q + name + q + s == " AS " + (q + name + q + s);
  }

  lemma {:induction false} NoCallInImages(table: seq<Entry>, segs: SegmentList)
    requires GoodTable(table) && Proper(table, segs)
    ensures !HasCall(table, Images(segs))
  {
    match segs {
      case Nil =>
      case Cons(seg, tail) =>
        NoCallInImages(table, tail);
        match seg {
          case Region(text) =>
            if tail.Nil? { assert text[1..] + "" == text[1..]; }
            CallAfterRegion(table, text, Images(tail));
          case Call(e, text, alias) =>
            CallAfterImage(table, e, alias, Images(tail));
          case Plain(c) =>
            forall e | e in table ensures !CallAt([c] + Images(tail), e.name) {
              if CallAt([c] + Images(tail), e.name) {
                MatchesTail(c, Images(tail), e.name, 0);
                CallWasThere(table, tail, e.name, 1);
                MatchesTail(c, Sources(tail), e.name, 0);
              }
            }
            CallAfterPlain(table, c, Images(tail));
        }
    }
  }

  // Rewriting a rewritten text changes nothing, if the scanner reads each substituted value as one quoted literal.
  lemma RewritingIsIdempotent(table: seq<Entry>, sql: string)
    requires GoodTable(table)
    ensures Rewritten(table, Rewritten(table, sql)) == Rewritten(table, sql)
  {
    SegmentsProper(table, sql, 0);
    NoCallInImages(table, Segments(table, sql, 0));
    UnchangedIfNoCall(table, Rewritten(table, sql));
  }

  lemma HarmlessCurrentSession() ensures Harmless("GIZMOSQL_CURRENT_SESSION()") {}

  lemma HarmlessCurrentInstance() ensures Harmless("GIZMOSQL_CURRENT_INSTANCE()") {}

  lemma HarmlessVersion() ensures Harmless("GIZMOSQL_VERSION()") {}

  lemma HarmlessUser() ensures Harmless("GIZMOSQL_USER()") {}

  lemma HarmlessRole() ensures Harmless("GIZMOSQL_ROLE()") {}

  lemma HarmlessEdition() ensures Harmless("GIZMOSQL_EDITION()") {}

  lemma CleanConcat(a: string, b: string)
    requires Clean(a) && Clean(b) && a != "" && a[|a| - 1] == '_'
    ensures Clean(a + b)
  {
    var s := a + b;
    forall k | 0 < k < |s| ensures !(s[k] == 'L' && s[k - 1] == 'L') && !(s[k] == 'E' && s[k - 1] == 'U') {
      if k < |a| { assert s[k] == a[k]; } else if k > |a| { assert s[k] == b[k - |a|] && s[k - 1] == b[k - |a| - 1]; }
    }
  }

  const INSTRUMENTATION := "GIZMOSQL_INSTRUMENTATION_"

  lemma HarmlessInstrumentation(tail: string)
    requires Harmless(tail)
    ensures Harmless(INSTRUMENTATION + tail) && (INSTRUMENTATION + tail)[0] == 'G'
  {
    CleanConcat(INSTRUMENTATION, tail);
    var s := INSTRUMENTATION + tail;
    assert s[|s| - 1] == tail[|tail| - 1];
  }

  lemma InstrumentationNames()
    ensures "GIZMOSQL_INSTRUMENTATION_ENABLED()" == INSTRUMENTATION + "ENABLED()"
    ensures "GIZMOSQL_INSTRUMENTATION_CATALOG()" == INSTRUMENTATION + "CATALOG()"
    ensures "GIZMOSQL_INSTRUMENTATION_SCHEMA()" == INSTRUMENTATION + "SCHEMA()"
  {}

  lemma QuotedEntryIsGood(name: string, x: string)
    requires Harmless(name) && name[0] == 'G' && Closes(x)
    ensures GoodEntry(Entry(name, Quoted(x)))
  {}

  // A value without quotes and backslashes is read as one literal.
  lemma {:induction false} PlainValuesClose(x: string)
    requires '\'' !in x && '\\' !in x
    ensures Closes(x)
  {
    if x != "" { PlainValuesClose(x[1..]); }
  }

  // The server's table is good if the scanner reads each value, between quotes, as one literal.
  lemma ServerTableIsGood(v: Values)
    requires Closes(v.sessionId) && Closes(v.instanceId) && Closes(v.version) && Closes(v.username) && Closes(v.role)
    requires Closes(v.edition) && Closes(v.catalog) && Closes(v.schema)
    ensures GoodTable(Table(v))
  {
    PlainEntriesAreGood(v);
    InstrumentationEntriesAreGood(v);
    forall e | e in Table(v) ensures GoodEntry(e) {}
  }

  lemma PlainEntriesAreGood(v: Values)
    requires Closes(v.sessionId) && Closes(v.instanceId) && Closes(v.version) && Closes(v.username) && Closes(v.role)
    requires Closes(v.edition)
    ensures forall i :: 0 <= i < 6 ==> GoodEntry(Table(v)[i])
  {
    HarmlessCurrentSession();
    HarmlessCurrentInstance();
    HarmlessVersion();
    HarmlessUser();
    HarmlessRole();
    HarmlessEdition();
    QuotedEntryIsGood("GIZMOSQL_CURRENT_SESSION()", v.sessionId);
    QuotedEntryIsGood("GIZMOSQL_CURRENT_INSTANCE()", v.instanceId);
    QuotedEntryIsGood("GIZMOSQL_VERSION()", v.version);
    QuotedEntryIsGood("GIZMOSQL_USER()", v.username);
    QuotedEntryIsGood("GIZMOSQL_ROLE()", v.role);
    QuotedEntryIsGood("GIZMOSQL_EDITION()", v.edition);
  }

  lemma InstrumentationEntriesAreGood(v: Values)
    requires Closes(v.catalog) && Closes(v.schema)
    ensures forall i :: 6 <= i < 9 ==> GoodEntry(Table(v)[i])
  {
    InstrumentationNames();
    HarmlessInstrumentation("ENABLED()");
    HarmlessInstrumentation("CATALOG()");
    HarmlessInstrumentation("SCHEMA()");
    QuotedEntryIsGood(INSTRUMENTATION + "CATALOG()", v.catalog);
    QuotedEntryIsGood(INSTRUMENTATION + "SCHEMA()", v.schema);
  }

  lemma ServerRewritingIsIdempotent(v: Values, sql: string)
    requires Closes(v.sessionId) && Closes(v.instanceId) && Closes(v.version) && Closes(v.username) && Closes(v.role)
    requires Closes(v.edition) && Closes(v.catalog) && Closes(v.schema)
    ensures Rewritten(Table(v), Rewritten(Table(v), sql)) == Rewritten(Table(v), sql)
  {
    ServerTableIsGood(v);
    RewritingIsIdempotent(Table(v), sql);
  }
}
