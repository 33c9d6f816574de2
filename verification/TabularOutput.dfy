/**
 The box and table output modes: borders, headers, rows, dot rows and a footer inside the table. Text is modelled
 by display columns: one for each byte of a value, one for each border character, the ellipsis and the middle dot.
 */
module TabularOutput {
  import opened Text
  import opened ColumnWidths

  const ELLIPSIS := '\U{2026}'
  const MIDDLE_DOT := '\U{B7}'

  // The characters of a border style: corners, lines, tees and cross.
  datatype BorderStyle = BorderStyle(tl: char, tr: char, bl: char, br: char, h: char, v: char,
                                     tt: char, bt: char, lt: char, rt: char, cx: char)

  // Cell values are the strings shown, the null value included.
  datatype Table = Table(names: seq<string>, types: seq<string>, numeric: seq<bool>, rows: seq<seq<string>>) {
    predicate Valid() {
      && |types| == |names| && |numeric| == |names|
      && forall r :: 0 <= r < |rows| ==> |rows[r]| == |names|
    }
  }

  // ----- Pieces of a line -----

  function Repeat(c: char, n: int): string {
    if n <= 0 then "" else Repeat(c, n - 1) + [c]
  }

  function Concat(pieces: seq<string>): string {
    if pieces == [] then "" else Concat(pieces[..|pieces| - 1]) + pieces[|pieces| - 1]
  }

  lemma ConcatSnoc(left: char, pieces: seq<string>, c: nat)
    requires c < |pieces|
    ensures [left] + Concat(pieces[..c + 1]) == [left] + Concat(pieces[..c]) + pieces[c]
  {
    assert pieces[..c + 1][..c] == pieces[..c];
  }

  // What is shown of a value in a column of this width.
  function Truncated(val: string, width: int): string {
    if |val| <= width then val
    else if width <= 1 then [ELLIPSIS]
    else val[..width - 1] + [ELLIPSIS]
  }

  function Cell(val: string, width: int, rightAlign: bool, border: char): string {
    var shown := Truncated(val, width);
    var padding := Repeat(' ', width - |shown|);
    (if rightAlign then " " + padding + shown else " " + shown + padding) + " " + [border]
  }

  function CenteredCell(val: string, width: int, border: char): string {
    var shown := Truncated(val, width);
    var left := TruncDiv(width - |shown|, 2);
    " " + Repeat(' ', left) + shown + Repeat(' ', width - |shown| - left) + " " + [border]
  }

  function DotCell(width: int, border: char): string {
    var left := TruncDiv(width, 2);
    " " + Repeat(' ', left) + [MIDDLE_DOT] + Repeat(' ', width - left - 1) + " " + [border]
  }

  // ----- Lines, for column widths ws -----

  function BorderLine(ws: seq<int>, left: char, mid: char, right: char, h: char): string {
    [left] + Concat(seq(|ws|, c requires 0 <= c < |ws| => Repeat(h, ws[c] + 2) + [if c + 1 < |ws| then mid else right]))
  }

  function DataLine(row: seq<string>, ws: seq<int>, numeric: seq<bool>, v: char): string
    requires |ws| <= |row| && |ws| <= |numeric|
  {
    [v] + Concat(seq(|ws|, c requires 0 <= c < |ws| => Cell(row[c], ws[c], numeric[c], v)))
  }

  function HeaderLine(texts: seq<string>, ws: seq<int>, v: char): string
    requires |ws| <= |texts|
  {
    [v] + Concat(seq(|ws|, c requires 0 <= c < |ws| => CenteredCell(texts[c], ws[c], v)))
  }

  function DotLine(ws: seq<int>, v: char): string {
    [v] + Concat(seq(|ws|, c requires 0 <= c < |ws| => DotCell(ws[c], v)))
  }

  function FooterLine(text: string, inner: int, v: char): string {
    [v] + " " + text + Repeat(' ', Max(0, inner - 2 - |text|)) + " " + [v]
  }

  // Width between the outer borders.
  function Inner(ws: seq<int>): int {
    Sum(ws) + 3 * |ws| - 1
  }

  lemma {:induction false} RepeatLength(c: char, n: int)
    ensures |Repeat(c, n)| == Max(0, n)
  {
    if n > 0 { RepeatLength(c, n - 1); }
  }

  lemma {:induction false} ConcatLength(pieces: seq<string>, ws: seq<int>)
    requires |pieces| == |ws| && forall c :: 0 <= c < |ws| ==> |pieces[c]| == ws[c] + 3
    ensures |Concat(pieces)| == Sum(ws) + 3 * |ws|
  {
    if ws != [] {
      ConcatLength(pieces[..|ws| - 1], ws[..|ws| - 1]);
    }
  }

  lemma TruncatedFits(val: string, width: int)
    requires width >= 1
    ensures |Truncated(val, width)| <= width
    ensures |val| <= width ==> Truncated(val, width) == val
  {}

  lemma CellLengths(val: string, width: int, rightAlign: bool, border: char)
    requires width >= 1
    ensures |Cell(val, width, rightAlign, border)| == width + 3
    ensures |CenteredCell(val, width, border)| == width + 3
    ensures |DotCell(width, border)| == width + 3
  {
    TruncatedFits(val, width);
    var padding := width - |Truncated(val, width)|;
    RepeatLength(' ', padding);
    RepeatLength(' ', padding / 2);
    RepeatLength(' ', padding - padding / 2);
    RepeatLength(' ', width / 2);
    RepeatLength(' ', width - width / 2 - 1);
  }

  // What is read off a cell: a value that fits stands at its place with blanks around it; of one that does not
  // fit there is what leaves room for the ellipsis, and the ellipsis.
  ghost predicate Shows(s: string, val: string, width: int, at: int, border: char)
    requires width >= 1
  {
    && |s| == width + 3 && s[0] == ' ' && s[width + 1] == ' ' && s[width + 2] == border
    && if |val| <= width then
         && 1 <= at <= width + 1 - |val| && s[at..at + |val|] == val
         && forall k :: 0 < k < width + 1 && !(at <= k < at + |val|) ==> s[k] == ' '
       else
         s[1..width] == val[..width - 1] && s[width] == ELLIPSIS
  }

  lemma PaddedShows(val: string, width: int, before: int, border: char)
    requires width >= 1 && 0 <= before <= Max(0, width - |val|) && (before == 0 || |val| < width)
    ensures var shown := Truncated(val, width);
            Shows(" " + Repeat(' ', before) + shown + Repeat(' ', width - |shown| - before) + " " + [border],
                  val, width, 1 + before, border)
  {
    var shown := Truncated(val, width);
    var after := width - |shown| - before;
    RepeatBlank(before);
    RepeatBlank(after);
    var s := " " + Repeat(' ', before) + shown + Repeat(' ', after) + " " + [border];
    assert s[1 + before..1 + before + |shown|] == shown;
    if |val| > width { assert s[1..width] == shown[..width - 1]; }
  }

  lemma {:induction false} RepeatBlank(n: int)
    ensures |Repeat(' ', n)| == Max(0, n) && forall k :: 0 <= k < n ==> Repeat(' ', n)[k] == ' '
  {
    if n > 0 { RepeatBlank(n - 1); }
  }

  lemma CellShows(val: string, width: int, rightAlign: bool, border: char)
    requires width >= 1
    ensures var at := if rightAlign then 1 + Max(0, width - |val|) else 1;
            Shows(Cell(val, width, rightAlign, border), val, width, at, border)
  {
    var shown := Truncated(val, width);
    var free := width - |shown|;
    TruncatedFits(val, width);
    assert free == Max(0, width - |val|);
    if rightAlign {
      PaddedShows(val, width, free, border);
      assert shown + Repeat(' ', 0) == shown;
      assert " " + Repeat(' ', free) + shown + Repeat(' ', 0) == " " + Repeat(' ', free) + shown;
    } else {
      PaddedShows(val, width, 0, border);
      assert " " + Repeat(' ', 0) == " ";
    }
  }

  lemma CenteredCellShows(val: string, width: int, border: char)
    requires width >= 1
    ensures Shows(CenteredCell(val, width, border), val, width, 1 + TruncDiv(Max(0, width - |val|), 2), border)
  {
    TruncatedFits(val, width);
    assert width - |Truncated(val, width)| == Max(0, width - |val|);
    PaddedShows(val, width, TruncDiv(Max(0, width - |val|), 2), border);
  }

  // Every kind of line is as wide as every other.
  lemma BorderWidth(ws: seq<int>, left: char, mid: char, right: char, h: char)
    requires forall c :: 0 <= c < |ws| ==> ws[c] >= 1
    ensures |BorderLine(ws, left, mid, right, h)| == Inner(ws) + 2
  {
    var pieces := seq(|ws|, c requires 0 <= c < |ws| => Repeat(h, ws[c] + 2) + [if c + 1 < |ws| then mid else right]);
    forall c | 0 <= c < |ws| ensures |pieces[c]| == ws[c] + 3 { RepeatLength(h, ws[c] + 2); }
    ConcatLength(pieces, ws);
  }

  lemma DataWidth(row: seq<string>, ws: seq<int>, numeric: seq<bool>, v: char)
    requires forall c :: 0 <= c < |ws| ==> ws[c] >= 1
    requires |ws| <= |row| && |ws| <= |numeric|
    ensures |DataLine(row, ws, numeric, v)| == Inner(ws) + 2
  {
    var pieces := seq(|ws|, c requires 0 <= c < |ws| => Cell(row[c], ws[c], numeric[c], v));
    forall c | 0 <= c < |ws| ensures |pieces[c]| == ws[c] + 3 { CellLengths(row[c], ws[c], numeric[c], v); }
    ConcatLength(pieces, ws);
  }

  lemma HeaderWidth(texts: seq<string>, ws: seq<int>, v: char)
    requires forall c :: 0 <= c < |ws| ==> ws[c] >= 1
    requires |ws| <= |texts|
    ensures |HeaderLine(texts, ws, v)| == Inner(ws) + 2
  {
    var pieces := seq(|ws|, c requires 0 <= c < |ws| => CenteredCell(texts[c], ws[c], v));
    forall c | 0 <= c < |ws| ensures |pieces[c]| == ws[c] + 3 { CellLengths(texts[c], ws[c], false, v); }
    ConcatLength(pieces, ws);
  }

  lemma DotWidth(ws: seq<int>, v: char)
    requires forall c :: 0 <= c < |ws| ==> ws[c] >= 1
    ensures |DotLine(ws, v)| == Inner(ws) + 2
  {
    var pieces := seq(|ws|, c requires 0 <= c < |ws| => DotCell(ws[c], v));
    forall c | 0 <= c < |ws| ensures |pieces[c]| == ws[c] + 3 { CellLengths("", ws[c], false, v); }
    ConcatLength(pieces, ws);
  }

  lemma FooterIsAsWide(text: string, inner: int, v: char)
    requires |text| <= inner - 2
    ensures |FooterLine(text, inner, v)| == inner + 2
  {
    RepeatLength(' ', inner - 2 - |text|);
  }

  // ----- Line feeds -----

  // Only the text shown can bring a line feed into a cell.
  lemma FeedInCell(val: string, width: int, rightAlign: bool, v: char)
    requires v != '\n'
    ensures '\n' in Cell(val, width, rightAlign, v) <==> '\n' in Truncated(val, width)
  {
    RepeatIn(' ', width - |Truncated(val, width)|, '\n');
  }

  lemma FeedInCenteredCell(val: string, width: int, v: char)
    requires v != '\n'
    ensures '\n' in CenteredCell(val, width, v) <==> '\n' in Truncated(val, width)
  {
    var padding := width - |Truncated(val, width)|;
    RepeatIn(' ', TruncDiv(padding, 2), '\n');
    RepeatIn(' ', padding - TruncDiv(padding, 2), '\n');
  }

  // Values are written as they are: what is rendered as one line comes out as one line if and only if nothing that it
  // shows has a line feed.
  lemma DataLineIsOneLine(row: seq<string>, ws: seq<int>, numeric: seq<bool>, v: char)
    requires |ws| <= |row| && |ws| <= |numeric| && v != '\n'
    ensures '\n' in DataLine(row, ws, numeric, v) <==> exists c :: 0 <= c < |ws| && '\n' in Truncated(row[c], ws[c])
  {
    var pieces := seq(|ws|, c requires 0 <= c < |ws| => Cell(row[c], ws[c], numeric[c], v));
    InSomePiece('\n', pieces);
    forall c | 0 <= c < |ws| ensures '\n' in pieces[c] <==> '\n' in Truncated(row[c], ws[c]) {
      FeedInCell(row[c], ws[c], numeric[c], v);
    }
  }

  lemma HeaderLineIsOneLine(texts: seq<string>, ws: seq<int>, v: char)
    requires |ws| <= |texts| && v != '\n'
    ensures '\n' in HeaderLine(texts, ws, v) <==> exists c :: 0 <= c < |ws| && '\n' in Truncated(texts[c], ws[c])
  {
    var pieces := seq(|ws|, c requires 0 <= c < |ws| => CenteredCell(texts[c], ws[c], v));
    InSomePiece('\n', pieces);
    forall c | 0 <= c < |ws| ensures '\n' in pieces[c] <==> '\n' in Truncated(texts[c], ws[c]) {
      FeedInCenteredCell(texts[c], ws[c], v);
    }
  }

  lemma {:induction false} InSomePiece(x: char, pieces: seq<string>)
    ensures x in Concat(pieces) <==> exists c :: 0 <= c < |pieces| && x in pieces[c]
  {
    if pieces != [] {
      var n := |pieces| - 1;
      InSomePiece(x, pieces[..n]);
      if c :| 0 <= c < |pieces| && x in pieces[c] {
        if c < n { assert x in pieces[..n][c]; }
      }
    }
  }

  lemma {:induction false} RepeatIn(c: char, n: int, x: char)
    requires x != c
    ensures x !in Repeat(c, n)
  {
    if n > 0 { RepeatIn(c, n - 1, x); }
  }

  // ----- Rows shown -----

  // footerTotal: -2 if not given, -1 if the total is unknown, otherwise the total number of rows.
  datatype Options = Options(style: BorderStyle, showHeaders: bool, maxRows: int, maxWidth: int, footerTotal: int)

  predicate PreLimited(t: Table, o: Options) {
    (o.footerTotal >= 0 && o.footerTotal > |t.rows|) || o.footerTotal == -1
  }

  predicate TruncatingRows(t: Table, o: Options) {
    PreLimited(t, o) || (o.maxRows > 0 && o.maxRows < |t.rows|)
  }

  function RowsToShow(t: Table, o: Options): nat {
    if !PreLimited(t, o) && o.maxRows > 0 && o.maxRows < |t.rows| then o.maxRows else |t.rows|
  }

  predicate SplitDisplay(t: Table, o: Options) {
    !PreLimited(t, o) && TruncatingRows(t, o) && RowsToShow(t, o) >= 4
  }

  function TopCount(t: Table, o: Options): nat {
    if SplitDisplay(t, o) then RowsToShow(t, o) / 2 else RowsToShow(t, o)
  }

  // Where the rows at the bottom begin; nothing is left of the table unless the display is split.
  function BottomStart(t: Table, o: Options): nat {
    if SplitDisplay(t, o) then |t.rows| - (RowsToShow(t, o) - TopCount(t, o)) else |t.rows|
  }

  // The rows above and below the dots are disjoint, and together as many as are to be shown.
  lemma TopAndBottomAreDisjoint(t: Table, o: Options)
    ensures TopCount(t, o) <= BottomStart(t, o) <= |t.rows|
    ensures TopCount(t, o) + (|t.rows| - BottomStart(t, o)) == RowsToShow(t, o)
    ensures SplitDisplay(t, o) ==> TopCount(t, o) < BottomStart(t, o) && TopCount(t, o) >= 2 && BottomStart(t, o) <= |t.rows| - 2
  {}

  // ----- The whole output -----

  function DataLines(t: Table, lo: nat, hi: nat, ws: seq<int>, v: char): seq<string>
    requires t.Valid() && lo <= hi <= |t.rows| && |ws| <= |t.names|
  {
    seq(hi - lo, i requires 0 <= i < hi - lo => DataLine(t.rows[lo + i], ws, t.numeric, v))
  }

  function Head(t: Table, o: Options, ws: seq<int>): seq<string>
    requires t.Valid() && |ws| <= |t.names|
  {
    var b := o.style;
    [BorderLine(ws, b.tl, b.tt, b.tr, b.h)] +
    if o.showHeaders then [HeaderLine(t.names, ws, b.v), HeaderLine(t.types, ws, b.v), BorderLine(ws, b.lt, b.cx, b.rt, b.h)]
    else []
  }

  function Body(t: Table, o: Options, ws: seq<int>): seq<string>
    requires t.Valid() && |ws| <= |t.names|
  {
    var dots := DotLine(ws, o.style.v);
    TopAndBottomAreDisjoint(t, o);
    DataLines(t, 0, TopCount(t, o), ws, o.style.v)
    + (if SplitDisplay(t, o) || PreLimited(t, o) then [dots, dots, dots] else [])
    + DataLines(t, BottomStart(t, o), |t.rows|, ws, o.style.v)
  }

  function Foot(o: Options, ws: seq<int>, footer: seq<string>): seq<string> {
    var b := o.style;
    [BorderLine(ws, b.lt, b.bt, b.rt, b.h)]
    + seq(|footer|, i requires 0 <= i < |footer| => FooterLine(footer[i], Inner(ws), b.v))
    + [[b.bl] + Repeat(b.h, Inner(ws)) + [b.br]]
  }

  // Whatever the table, limits and headers, the output is a rectangle.
  lemma OutputIsRectangular(t: Table, o: Options, ws: seq<int>, footer: seq<string>)
    requires t.Valid() && ws != [] && |ws| <= |t.names| && forall c :: 0 <= c < |ws| ==> ws[c] >= 1
    requires forall i :: 0 <= i < |footer| ==> |footer[i]| <= Inner(ws) - 2
    ensures forall l :: l in Head(t, o, ws) + Body(t, o, ws) + Foot(o, ws, footer) ==> |l| == Inner(ws) + 2
  {
    HeadIsRectangular(t, o, ws);
    BodyIsRectangular(t, o, ws);
    FootIsRectangular(o, ws, footer);
  }

  lemma HeadIsRectangular(t: Table, o: Options, ws: seq<int>)
    requires t.Valid() && |ws| <= |t.names| && forall c :: 0 <= c < |ws| ==> ws[c] >= 1
    ensures forall l :: l in Head(t, o, ws) ==> |l| == Inner(ws) + 2
  {
    var b := o.style;
    BorderWidth(ws, b.tl, b.tt, b.tr, b.h);
    BorderWidth(ws, b.lt, b.cx, b.rt, b.h);
    HeaderWidth(t.names, ws, b.v);
    HeaderWidth(t.types, ws, b.v);
  }

  lemma BodyIsRectangular(t: Table, o: Options, ws: seq<int>)
    requires t.Valid() && |ws| <= |t.names| && forall c :: 0 <= c < |ws| ==> ws[c] >= 1
    ensures forall l :: l in Body(t, o, ws) ==> |l| == Inner(ws) + 2
  {
    DotWidth(ws, o.style.v);
    forall r | 0 <= r < |t.rows| ensures |DataLine(t.rows[r], ws, t.numeric, o.style.v)| == Inner(ws) + 2 {
      DataWidth(t.rows[r], ws, t.numeric, o.style.v);
    }
  }

  lemma FootIsRectangular(o: Options, ws: seq<int>, footer: seq<string>)
    requires ws != [] && forall c :: 0 <= c < |ws| ==> ws[c] >= 1
    requires forall i :: 0 <= i < |footer| ==> |footer[i]| <= Inner(ws) - 2
    ensures forall l :: l in Foot(o, ws, footer) ==> |l| == Inner(ws) + 2
  {
    var b := o.style;
    BorderWidth(ws, b.lt, b.bt, b.rt, b.h);
    RepeatLength(b.h, Inner(ws));
    Zeros(|ws|);
    SumMonotone(seq(|ws|, i => 0), ws);
    forall i | 0 <= i < |footer| ensures |FooterLine(footer[i], Inner(ws), b.v)| == Inner(ws) + 2 {
      FooterIsAsWide(footer[i], Inner(ws), b.v);
    }
  }

  // ----- The footer -----

  function Plural(n: int, noun: string): string {
    noun + if n != 1 then "s" else ""
  }

  // The rows, and if they differ the rows shown; the columns, and if some are dropped the columns shown.
  function FooterParts(t: Table, o: Options, colsShown: nat): seq<string> {
    var total := if o.footerTotal == -2 then |t.rows| else o.footerTotal;
    var rows := RowsToShow(t, o);
    var cols := |t.names|;
    [if total >= 0 then Digits(total) + Plural(total, " row") else Digits(rows) + Plural(rows, "+ row")]
    + (if TruncatingRows(t, o) && total != rows then ["(" + Digits(rows) + " shown)"] else [])
    + (if cols > 1 || colsShown < cols then [Digits(cols) + Plural(cols, " column")] else [])
    + (if colsShown < cols then ["(" + Digits(colsShown) + " shown)"] else [])
  }

  function Longest(parts: seq<string>): nat {
    if parts == [] then 0
    else var m := Longest(parts[..|parts| - 1]); var n := |parts[|parts| - 1]|; if m < n then n else m
  }

  lemma {:induction false} LongestBounds(parts: seq<string>)
    ensures forall i :: 0 <= i < |parts| ==> |parts[i]| <= Longest(parts)
  {
    if parts != [] { LongestBounds(parts[..|parts| - 1]); }
  }

  function Join(parts: seq<string>): string {
    if parts == [] then ""
    else if |parts| == 1 then parts[0]
    else Join(parts[..|parts| - 1]) + "  " + parts[|parts| - 1]
  }

  function Flatten(groups: seq<seq<string>>): seq<string> {
    if groups == [] then [] else Flatten(groups[..|groups| - 1]) + groups[|groups| - 1]
  }

  // Each line joins the next few parts; all parts appear, in order; every line fits, and would not if it took
  // the first part of the next line.
  ghost predicate IsPacking(parts: seq<string>, avail: int, lines: seq<string>, groups: seq<seq<string>>) {
    && |lines| == |groups| && Flatten(groups) == parts
    && (forall i :: 0 <= i < |lines| ==> groups[i] != [] && lines[i] == Join(groups[i]) && |lines[i]| <= avail)
    && (forall i :: 0 < i < |lines| ==> |lines[i - 1] + "  " + groups[i][0]| > avail)
  }

  // The packing so far, with a line under way.
  ghost predicate Packing(parts: seq<string>, avail: int, lines: seq<string>, groups: seq<seq<string>>,
                          current: string, group: seq<string>)
  {
    && Flatten(groups) + group == parts
    && IsPacking(Flatten(groups), avail, lines, groups)
    && group != [] && current == Join(group) && 0 < |current| <= avail
    && (lines != [] ==> |lines[|lines| - 1] + "  " + group[0]| > avail)
  }

  method PackFooter(parts: seq<string>, avail: int) returns (lines: seq<string>, ghost groups: seq<seq<string>>)
    requires forall i :: 0 <= i < |parts| ==> 0 < |parts[i]| <= avail
    ensures IsPacking(parts, avail, lines, groups)
    ensures forall i :: 0 <= i < |lines| ==> |lines[i]| <= avail
  {
    lines, groups := [], [];
    var current := "";
    ghost var group: seq<string> := [];
    for i := 0 to |parts|
      invariant if i == 0 then lines == [] && groups == [] && current == "" && group == []
                else Packing(parts[..i], avail, lines, groups, current, group)
    {
      var part := parts[i];
      assert parts[..i + 1] == parts[..i] + [part];
      if current == "" {
        current := part;
        group := [part];
      } else {
        var trial := current + "  " + part;
        if |trial| <= avail {
          ExtendGroup(parts[..i], avail, lines, groups, current, group, part);
          current := trial;
          group := group + [part];
        } else {
          AddGroup(parts[..i], avail, lines, groups, current, group);
          lines := lines + [current];
          groups := groups + [group];
          current := part;
          group := [part];
        }
      }
    }
    assert parts[..|parts|] == parts;
    if current != "" {
      AddGroup(parts, avail, lines, groups, current, group);
      lines := lines + [current];
      groups := groups + [group];
    }
  }

  lemma AddGroup(parts: seq<string>, avail: int, lines: seq<string>, groups: seq<seq<string>>,
                 current: string, group: seq<string>)
    requires Packing(parts, avail, lines, groups, current, group)
    ensures Flatten(groups + [group]) == parts
    ensures IsPacking(parts, avail, lines + [current], groups + [group])
  {
    assert (groups + [group])[..|groups|] == groups;
  }

  lemma ExtendGroup(parts: seq<string>, avail: int, lines: seq<string>, groups: seq<seq<string>>,
                    current: string, group: seq<string>, part: string)
    requires Packing(parts, avail, lines, groups, current, group) && |current + "  " + part| <= avail
    ensures Packing(parts + [part], avail, lines, groups, current + "  " + part, group + [part])
  {
    assert (group + [part])[..|group|] == group;
    assert Flatten(groups) + (group + [part]) == parts + [part];
  }

  // ----- The renderer -----

  method Pad(c: char, n: int) returns (s: string)
    ensures s == Repeat(c, n)
  {
    s := "";
    var i := 0;
    while i < n
      invariant 0 <= i && (i <= n || i == 0) && s == Repeat(c, i)
    {
      s := s + [c];
      i := i + 1;
    }
  }

  method RenderCell(val: string, width: int, rightAlign: bool, border: char) returns (s: string)
    ensures s == Cell(val, width, rightAlign, border)
    ensures width >= 1 ==> Shows(s, val, width, if rightAlign then 1 + Max(0, width - |val|) else 1, border)
  {
    if width >= 1 { CellShows(val, width, rightAlign, border); }
    var shown := Truncated(val, width);
    var padding := Pad(' ', width - |shown|);
    if rightAlign {
      s := " " + padding + shown + " " + [border];
    } else {
      s := " " + shown + padding + " " + [border];
    }
  }

  method RenderCellCentered(val: string, width: int, border: char) returns (s: string)
    ensures s == CenteredCell(val, width, border)
    ensures width >= 1 ==> Shows(s, val, width, 1 + TruncDiv(Max(0, width - |val|), 2), border)
  {
    if width >= 1 { CenteredCellShows(val, width, border); }
    var shown := Truncated(val, width);
    var padding := width - |shown|;
    var leftPad := TruncDiv(padding, 2);
    var rightPad := padding - leftPad;
    var left := Pad(' ', leftPad);
    var right := Pad(' ', rightPad);
    s := " " + left + shown + right + " " + [border];
  }

  method RenderBorder(ws: seq<int>, left: char, mid: char, right: char, h: char) returns (s: string)
    ensures s == BorderLine(ws, left, mid, right, h)
  {
    s := [left];
    ghost var pieces := seq(|ws|, c requires 0 <= c < |ws| => Repeat(h, ws[c] + 2) + [if c + 1 < |ws| then mid else right]);
    for c := 0 to |ws|
      invariant s == [left] + Concat(pieces[..c])
    {
      var bar := Pad(h, ws[c] + 2);
      ConcatSnoc(left, pieces, c);
      s := s + (bar + [if c + 1 < |ws| then mid else right]);
    }
    assert pieces[..|ws|] == pieces;
  }

  method RenderDataRow(row: seq<string>, ws: seq<int>, numeric: seq<bool>, v: char) returns (s: string)
    requires |ws| <= |row| && |ws| <= |numeric|
    ensures s == DataLine(row, ws, numeric, v)
  {
    s := [v];
    ghost var pieces := seq(|ws|, c requires 0 <= c < |ws| => Cell(row[c], ws[c], numeric[c], v));
    for c := 0 to |ws|
      invariant s == [v] + Concat(pieces[..c])
    {
      var cell := RenderCell(row[c], ws[c], numeric[c], v);
      ConcatSnoc(v, pieces, c);
      s := s + cell;
    }
    assert pieces[..|ws|] == pieces;
  }

  method RenderHeaderRow(texts: seq<string>, ws: seq<int>, v: char) returns (s: string)
    requires |ws| <= |texts|
    ensures s == HeaderLine(texts, ws, v)
  {
    s := [v];
    ghost var pieces := seq(|ws|, c requires 0 <= c < |ws| => CenteredCell(texts[c], ws[c], v));
    for c := 0 to |ws|
      invariant s == [v] + Concat(pieces[..c])
    {
      var cell := RenderCellCentered(texts[c], ws[c], v);
      ConcatSnoc(v, pieces, c);
      s := s + cell;
    }
    assert pieces[..|ws|] == pieces;
  }

  method RenderDotRow(ws: seq<int>, v: char) returns (s: string)
    ensures s == DotLine(ws, v)
  {
    s := [v];
    ghost var pieces := seq(|ws|, c requires 0 <= c < |ws| => DotCell(ws[c], v));
    for c := 0 to |ws|
      invariant s == [v] + Concat(pieces[..c])
    {
      var leftPad := TruncDiv(ws[c], 2);
      var left := Pad(' ', leftPad);
      var right := Pad(' ', ws[c] - leftPad - 1);
      ConcatSnoc(v, pieces, c);
      s := s + (" " + left + [MIDDLE_DOT] + right + " " + [v]);
    }
    assert pieces[..|ws|] == pieces;
  }

  method RenderRows(t: Table, lo: nat, hi: nat, ws: seq<int>, v: char, lines0: seq<string>) returns (lines: seq<string>)
    requires t.Valid() && lo <= hi <= |t.rows| && |ws| <= |t.names|
    ensures lines == lines0 + DataLines(t, lo, hi, ws, v)
  {
    lines := lines0;
    for r := lo to hi
      invariant lines == lines0 + DataLines(t, lo, hi, ws, v)[..r - lo]
    {
      var line := RenderDataRow(t.rows[r], ws, t.numeric, v);
      lines := lines + [line];
    }
  }

  // Widest value of column c among rows [lo, hi), but at least w.
  function Widest(t: Table, c: nat, lo: nat, hi: nat, w: int): int
    requires t.Valid() && lo <= hi <= |t.rows| && c < |t.names|
    decreases hi
  {
    if lo == hi then w else Max(Widest(t, c, lo, hi - 1, w), |t.rows[hi - 1][c]|)
  }

  lemma {:induction false} WidestIsWidest(t: Table, c: nat, lo: nat, hi: nat, w: int)
    requires t.Valid() && lo <= hi <= |t.rows| && c < |t.names|
    ensures Widest(t, c, lo, hi, w) >= w
    ensures forall r :: lo <= r < hi ==> |t.rows[r][c]| <= Widest(t, c, lo, hi, w)
    ensures Widest(t, c, lo, hi, w) == w || exists r :: lo <= r < hi && |t.rows[r][c]| == Widest(t, c, lo, hi, w)
    decreases hi
  {
    if lo != hi { WidestIsWidest(t, c, lo, hi - 1, w); }
  }

  method UpdateWidthsForRows(t: Table, widths: seq<int>, lo: nat, hi: nat) returns (ws: seq<int>)
    requires t.Valid() && lo <= hi <= |t.rows| && |widths| == |t.names|
    ensures |ws| == |widths| && forall c :: 0 <= c < |ws| ==> ws[c] == Widest(t, c, lo, hi, widths[c])
  {
    ws := widths;
    for r := lo to hi
      invariant |ws| == |widths| && forall c :: 0 <= c < |ws| ==> ws[c] == Widest(t, c, lo, r, widths[c])
    {
      ghost var before := ws;
      for c := 0 to |ws|
        invariant |ws| == |widths|
        invariant forall d :: 0 <= d < |ws| ==> ws[d] == if d < c then Max(before[d], |t.rows[r][d]|) else before[d]
      {
        ws := ws[c := Max(ws[c], |t.rows[r][c]|)];
      }
    }
  }

  // The header and type of a column, if shown, count toward its width.
  function HeaderNeed(t: Table, c: nat, showHeaders: bool): int
    requires t.Valid() && c < |t.names|
  {
    if showHeaders then Max(|t.names[c]|, |t.types[c]|) else 0
  }

  method ComputeColumnWidths(t: Table, showHeaders: bool, rowLimit: nat) returns (ws: seq<int>)
    requires t.Valid()
    ensures |ws| == |t.names|
    ensures var n := if 0 < rowLimit < |t.rows| then rowLimit else |t.rows|;
            forall c :: 0 <= c < |ws| ==> ws[c] == Max(1, Widest(t, c, 0, n, HeaderNeed(t, c, showHeaders)))
  {
    var numCols := |t.names|;
    ws := seq(numCols, i => 0);
    if showHeaders {
      for c := 0 to numCols
        invariant |ws| == numCols && forall d :: 0 <= d < numCols ==> ws[d] == if d < c then |t.names[d]| else 0
      {
        ws := ws[c := |t.names[c]|];
      }
      for c := 0 to numCols
        invariant |ws| == numCols
        invariant forall d :: 0 <= d < numCols ==> ws[d] == if d < c then HeaderNeed(t, d, true) else |t.names[d]|
      {
        ws := ws[c := Max(ws[c], |t.types[c]|)];
      }
    }
    var rowsToScan := if rowLimit > 0 && rowLimit < |t.rows| then rowLimit else |t.rows|;
    ws := UpdateWidthsForRows(t, ws, 0, rowsToScan);
    ghost var scanned := ws;
    for c := 0 to numCols
      invariant |ws| == numCols && forall d :: 0 <= d < numCols ==> ws[d] == if d < c then Max(1, scanned[d]) else scanned[d]
    {
      if ws[c] < 1 { ws := ws[c := 1]; }
    }
  }

  // Wide enough for the header, the type and every row that is shown.
  function NaturalWidth(t: Table, o: Options, c: nat): int
    requires t.Valid() && c < |t.names|
  {
    TopAndBottomAreDisjoint(t, o);
    var top := TopCount(t, o);
    var scanned := if 0 < top < |t.rows| then top else |t.rows|;
    var w := Max(1, Widest(t, c, 0, scanned, HeaderNeed(t, c, o.showHeaders)));
    if SplitDisplay(t, o) then Widest(t, c, BottomStart(t, o), |t.rows|, w) else w
  }

  // In its natural width no column cuts a header, a type or a value that is shown.
  lemma NaturalWidthCutsNothing(t: Table, o: Options, c: nat, r: nat)
    requires t.Valid() && c < |t.names|
    ensures NaturalWidth(t, o, c) >= 1
    ensures o.showHeaders ==> Truncated(t.names[c], NaturalWidth(t, o, c)) == t.names[c]
    ensures o.showHeaders ==> Truncated(t.types[c], NaturalWidth(t, o, c)) == t.types[c]
    ensures r < TopCount(t, o) || BottomStart(t, o) <= r < |t.rows| ==>
              Truncated(t.rows[r][c], NaturalWidth(t, o, c)) == t.rows[r][c]
  {
    TopAndBottomAreDisjoint(t, o);
    var top := TopCount(t, o);
    var scanned := if 0 < top < |t.rows| then top else |t.rows|;
    var need := HeaderNeed(t, c, o.showHeaders);
    WidestIsWidest(t, c, 0, scanned, need);
    WidestIsWidest(t, c, BottomStart(t, o), |t.rows|, Max(1, Widest(t, c, 0, scanned, need)));
  }

  // The last column is widened if the longest part of the footer would not fit.
  function Widened(ws: seq<int>, minInner: int): seq<int>
    requires ws != []
  {
    if minInner > Inner(ws) then ws[|ws| - 1 := ws[|ws| - 1] + (minInner - Inner(ws))] else ws
  }

  lemma WidenedFits(ws: seq<int>, minInner: int)
    requires ws != []
    ensures Inner(Widened(ws, minInner)) == Max(minInner, Inner(ws))
    ensures forall c :: 0 <= c < |ws| ==> Widened(ws, minInner)[c] >= ws[c]
  {
    if minInner > Inner(ws) {
      SumUpdate(ws, |ws| - 1, ws[|ws| - 1] + (minInner - Inner(ws)));
    }
  }

  lemma FooterPartsNonEmpty(t: Table, o: Options, colsShown: nat)
    ensures var parts := FooterParts(t, o, colsShown);
            forall i :: 0 <= i < |parts| ==> 0 < |parts[i]| <= Longest(parts)
  {
    LongestBounds(FooterParts(t, o, colsShown));
    ValueOfDigits(RowsToShow(t, o));
  }

  // The capped widths are the natural ones unless the table is wider than the terminal.
  ghost predicate IsCapped(natural: seq<int>, maxWidth: int, level: int, capped: seq<int>) {
    && natural != [] && 1 <= |capped| <= |natural|
    && if maxWidth <= 0 || Total(natural) <= maxWidth then capped == natural
       else
         && IsLevel(natural, Budget(natural, maxWidth), level)
         && ShowsAsManyAsFit(Levelled(natural, level), maxWidth, |capped|)
         && capped == Levelled(natural, level)[..|capped|]
  }

  // The widths of the columns shown: natural, capped to the terminal, the last one widened for the footer.
  ghost predicate IsLayout(t: Table, o: Options, natural: seq<int>, level: int, capped: seq<int>, ws: seq<int>)
    requires t.Valid()
  {
    && |natural| == |t.names|
    && (forall c :: 0 <= c < |natural| ==> natural[c] == NaturalWidth(t, o, c))
    && IsCapped(natural, o.maxWidth, level, capped)
    && ws == Widened(capped, Longest(FooterParts(t, o, |capped|)) + 2)
  }

  // A column is shown wider than its content if and only if the terminal forces columns to be cut and this one is
  // narrower than the minimum of four and would not fit with all columns capped at its width; or it is the last one
  // shown and the footer needs more room than the capped columns and what cutting it has saved.
  lemma WiderThanContent(t: Table, o: Options, natural: seq<int>, level: int, capped: seq<int>, ws: seq<int>, c: nat)
    requires t.Valid() && IsLayout(t, o, natural, level, capped, ws) && c < |ws|
    requires forall d :: 0 <= d < |natural| ==> natural[d] >= 1
    ensures ws[c] > natural[c] <==>
              || (o.maxWidth > 0 && Total(natural) > o.maxWidth && natural[c] < MIN_COL_WIDTH
                  && Sum(Capped(natural, natural[c])) > Budget(natural, o.maxWidth))
              || (c == |ws| - 1
                  && Longest(FooterParts(t, o, |ws|)) + 2 - Inner(capped) > Max(0, natural[c] - capped[c]))
  {
    if o.maxWidth > 0 && Total(natural) > o.maxWidth {
      GrowsUnlessItFits(natural, Budget(natural, o.maxWidth), level, c);
    }
  }

  // A table without rows whose only column has a name of one letter: its footer makes it five wider.
  lemma WidenedByTheFooter(style: BorderStyle)
    ensures var t := Table(["a"], ["b"], [false], []);
            var o := Options(style, true, 0, 0, -2);
            t.Valid() && IsLayout(t, o, [1], 0, [1], [6])
  {
    var t := Table(["a"], ["b"], [false], []);
    var o := Options(style, true, 0, 0, -2);
    assert Digits(0) == "0";
    assert Plural(0, " row") == " rows";
    assert Digits(0) + Plural(0, " row") == "0 rows";
    assert FooterParts(t, o, 1) == ["0 rows"];
    assert Longest(["0 rows"]) == 6;
    assert Sum([1]) == 1;
  }

  method NaturalWidths(t: Table, o: Options) returns (ws: seq<int>)
    requires t.Valid()
    ensures |ws| == |t.names|
    ensures forall c :: 0 <= c < |ws| ==> ws[c] == NaturalWidth(t, o, c) >= 1
  {
    TopAndBottomAreDisjoint(t, o);
    ws := ComputeColumnWidths(t, o.showHeaders, TopCount(t, o));
    if SplitDisplay(t, o) {
      ws := UpdateWidthsForRows(t, ws, BottomStart(t, o), |t.rows|);
    }
    forall c | 0 <= c < |ws| ensures ws[c] == NaturalWidth(t, o, c) >= 1 {
      NaturalWidthCutsNothing(t, o, c, 0);
    }
  }

  method FitTerminal(widths: seq<int>, maxWidth: int) returns (capped: seq<int>, ghost level: int)
    requires widths != [] && forall c :: 0 <= c < |widths| ==> widths[c] >= 1
    ensures IsCapped(widths, maxWidth, level, capped)
    ensures forall c :: 0 <= c < |capped| ==> capped[c] >= 1
  {
    capped, level := widths, 0;
    if maxWidth > 0 {
      var shown;
      capped, shown, level := CapColumnWidths(widths, maxWidth);
    }
  }

  // Makes room for the longest footer part by widening the last column.
  method FitFooter(widths: seq<int>, minInner: int) returns (ws: seq<int>)
    requires widths != [] && forall c :: 0 <= c < |widths| ==> widths[c] >= 1
    ensures ws == Widened(widths, minInner) && Inner(ws) >= minInner
    ensures forall c :: 0 <= c < |ws| ==> ws[c] >= 1
  {
    WidenedFits(widths, minInner);
    ws := widths;
    if minInner > Inner(ws) {
      ws := ws[|ws| - 1 := ws[|ws| - 1] + (minInner - Inner(ws))];
    }
  }

  method LayOut(t: Table, o: Options) returns (ws: seq<int>, ghost natural: seq<int>, ghost level: int, ghost capped: seq<int>)
    requires t.Valid() && t.names != []
    ensures IsLayout(t, o, natural, level, capped, ws)
    ensures 1 <= |ws| <= |t.names| && |ws| == |capped| && forall c :: 0 <= c < |ws| ==> ws[c] >= 1
    ensures Longest(FooterParts(t, o, |ws|)) <= Inner(ws) - 2
  {
    var widths := NaturalWidths(t, o);
    natural := widths;
    widths, level := FitTerminal(widths, o.maxWidth);
    capped := widths;
    ghost var need := Longest(FooterParts(t, o, |widths|)) + 2;
    ws := FitFooter(widths, Longest(FooterParts(t, o, |widths|)) + 2);
    assert |ws| == |capped| && ws == Widened(capped, need);
  }

  // How the output has come about: the column widths in their three stages, and the lines of the footer with the parts
  // they are made of.
  datatype Layout = Layout(natural: seq<int>, level: int, capped: seq<int>, ws: seq<int>,
                           footer: seq<string>, groups: seq<seq<string>>)

  method RenderTabular(t: Table, o: Options)
      returns (lines: seq<string>, rowsRendered: nat, colsRendered: nat, ghost l: Layout)
    requires t.Valid()
    ensures t.names == [] ==> lines == [] && rowsRendered == 0 && colsRendered == 0
    ensures t.names != [] ==>
              && IsLayout(t, o, l.natural, l.level, l.capped, l.ws) && |l.ws| == colsRendered <= |t.names|
              && rowsRendered == RowsToShow(t, o)
              && IsPacking(FooterParts(t, o, colsRendered), Inner(l.ws) - 2, l.footer, l.groups)
              && lines == Head(t, o, l.ws) + Body(t, o, l.ws) + Foot(o, l.ws, l.footer)
              && forall line :: line in lines ==> |line| == Inner(l.ws) + 2
  {
    if t.names == [] { return [], 0, 0, Layout([], 0, [], [], [], []); }
    TopAndBottomAreDisjoint(t, o);
    ghost var natural, level, capped, groups;
    var widths, footer;
    widths, natural, level, capped := LayOut(t, o);
    rowsRendered, colsRendered := RowsToShow(t, o), |widths|;
    lines := RenderHead(t, o, widths);
    var body := RenderBody(t, o, widths);
    FooterPartsNonEmpty(t, o, colsRendered);
    footer, groups := PackFooter(FooterParts(t, o, colsRendered), Inner(widths) - 2);
    var foot := RenderFoot(o, widths, footer);
    lines := lines + body + foot;
    l := Layout(natural, level, capped, widths, footer, groups);
    OutputIsRectangular(t, o, widths, footer);
  }

  method RenderHead(t: Table, o: Options, ws: seq<int>) returns (lines: seq<string>)
    requires t.Valid() && |ws| <= |t.names|
    ensures lines == Head(t, o, ws)
  {
    var b := o.style;
    var line := RenderBorder(ws, b.tl, b.tt, b.tr, b.h);
    lines := [line];
    if o.showHeaders {
      var names := RenderHeaderRow(t.names, ws, b.v);
      var types := RenderHeaderRow(t.types, ws, b.v);
      line := RenderBorder(ws, b.lt, b.cx, b.rt, b.h);
      lines := lines + [names, types, line];
    }
  }

  method RenderBody(t: Table, o: Options, ws: seq<int>) returns (lines: seq<string>)
    requires t.Valid() && |ws| <= |t.names|
    ensures lines == Body(t, o, ws)
  {
    TopAndBottomAreDisjoint(t, o);
    var v := o.style.v;
    var dots := RenderDotRow(ws, v);
    if SplitDisplay(t, o) {
      lines := RenderRows(t, 0, TopCount(t, o), ws, v, []);
      lines := lines + [dots, dots, dots];
      lines := RenderRows(t, BottomStart(t, o), |t.rows|, ws, v, lines);
    } else {
      lines := RenderRows(t, 0, RowsToShow(t, o), ws, v, []);
      if PreLimited(t, o) {
        lines := lines + [dots, dots, dots];
      }
    }
  }

  method RenderFoot(o: Options, ws: seq<int>, footer: seq<string>) returns (lines: seq<string>)
    ensures lines == Foot(o, ws, footer)
  {
    var b := o.style;
    var line := RenderBorder(ws, b.lt, b.bt, b.rt, b.h);
    lines := [line];
    ghost var texts := seq(|footer|, i requires 0 <= i < |footer| => FooterLine(footer[i], Inner(ws), b.v));
    for i := 0 to |footer|
      invariant lines == [line] + texts[..i]
    {
      var pad := Pad(' ', Max(0, Inner(ws) - 2 - |footer[i]|));
      lines := lines + [[b.v] + " " + footer[i] + pad + " " + [b.v]];
    }
    var bar := Pad(b.h, Inner(ws));
    lines := lines + [[b.bl] + bar + [b.br]];
  }
}
