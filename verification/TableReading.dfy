/**
 What is read off a rendered table: which line shows what, cell by cell, and what the footer tells. The lines are
 looked at from outside, at the columns the widths give.
 */
module TableReading {
  import opened Text
  import opened ColumnWidths
  import opened TabularOutput

  // ----- A line, cell by cell -----

  // Where the cell of column c begins.
  function Offset(ws: seq<int>, c: nat): int
    requires c <= |ws|
  {
    1 + Sum(ws[..c]) + 3 * c
  }

  predicate Wide(ws: seq<int>) {
    forall c :: 0 <= c < |ws| ==> ws[c] >= 1
  }

  // The text at the place of column c, its border on the right included.
  function CellAt(line: string, ws: seq<int>, c: nat): string
    requires c < |ws| && 0 <= Offset(ws, c) <= Offset(ws, c) + ws[c] + 3 <= |line|
  {
    line[Offset(ws, c)..Offset(ws, c) + ws[c] + 3]
  }

  ghost predicate InPlace(line: string, ws: seq<int>, c: nat) {
    c < |ws| && ws[c] >= 1 && 0 <= Offset(ws, c) <= Offset(ws, c) + ws[c] + 3 <= |line|
  }

  // The line shows these values, numbers on the right.
  ghost predicate ShowsRow(line: string, row: seq<string>, ws: seq<int>, numeric: seq<bool>, v: char)
    requires |ws| <= |row| && |ws| <= |numeric|
  {
    && line != "" && line[0] == v && |line| == Offset(ws, |ws|)
    && forall c :: 0 <= c < |ws| ==>
         && InPlace(line, ws, c)
         && Shows(CellAt(line, ws, c), row[c], ws[c], if numeric[c] then 1 + Max(0, ws[c] - |row[c]|) else 1, v)
  }

  // The line shows these texts, each in the middle of its column.
  ghost predicate ShowsTexts(line: string, texts: seq<string>, ws: seq<int>, v: char)
    requires |ws| <= |texts|
  {
    && line != "" && line[0] == v && |line| == Offset(ws, |ws|)
    && forall c :: 0 <= c < |ws| ==>
         && InPlace(line, ws, c)
         && Shows(CellAt(line, ws, c), texts[c], ws[c], 1 + Max(0, ws[c] - |texts[c]|) / 2, v)
  }

  // A dot in the middle of every column.
  ghost predicate ShowsDots(line: string, ws: seq<int>, v: char) {
    && line != "" && line[0] == v && |line| == Offset(ws, |ws|)
    && forall c :: 0 <= c < |ws| ==>
         && InPlace(line, ws, c)
         && Shows(CellAt(line, ws, c), [MIDDLE_DOT], ws[c], 1 + ws[c] / 2, v)
  }

  // A rule with a joint behind every column.
  ghost predicate IsRule(line: string, ws: seq<int>, left: char, joint: char, right: char, h: char) {
    && line != "" && line[0] == left && |line| == Offset(ws, |ws|)
    && forall c :: 0 <= c < |ws| ==>
         && InPlace(line, ws, c)
         && CellAt(line, ws, c)[ws[c] + 2] == (if c < |ws| - 1 then joint else right)
         && forall k :: 0 <= k < ws[c] + 2 ==> CellAt(line, ws, c)[k] == h
  }

  lemma {:induction false} PieceInPlace(first: char, pieces: seq<string>, ws: seq<int>, c: nat)
    requires |pieces| == |ws| && Wide(ws) && forall d :: 0 <= d < |ws| ==> |pieces[d]| == ws[d] + 3
    requires c < |ws|
    ensures |[first] + Concat(pieces)| == Offset(ws, |ws|)
    ensures var line := [first] + Concat(pieces); InPlace(line, ws, c) && CellAt(line, ws, c) == pieces[c]
  {
    var n := |ws| - 1;
    ConcatLength(pieces, ws);
    ConcatLength(pieces[..n], ws[..n]);
    assert ws[..|ws|] == ws && ws[..n + 1] == ws;
    var before := [first] + Concat(pieces[..n]);
    var line := [first] + Concat(pieces);
    assert line == before + pieces[n];
    if c == n {
      SumIsNat(ws[..n]);
    } else {
      PieceInPlace(first, pieces[..n], ws[..n], c);
      assert ws[..n][..c] == ws[..c];
      assert Offset(ws[..n], c) == Offset(ws, c);
      assert CellAt(line, ws, c) == CellAt(before, ws[..n], c);
    }
  }

  lemma {:induction false} SumIsNat(ws: seq<int>)
    requires Wide(ws)
    ensures Sum(ws) >= 0
  {
    if ws != [] { SumIsNat(ws[..|ws| - 1]); }
  }

  // If the piece of column c shows something, then the line shows it at the place of the column.
  lemma PieceShows(line: string, v: char, pieces: seq<string>, ws: seq<int>, c: nat, text: string, at: int)
    requires |pieces| == |ws| && Wide(ws) && c < |ws| && forall d :: 0 <= d < |ws| ==> |pieces[d]| == ws[d] + 3
    requires line == [v] + Concat(pieces) && Shows(pieces[c], text, ws[c], at, v)
    ensures InPlace(line, ws, c) && Shows(CellAt(line, ws, c), text, ws[c], at, v)
    ensures line[0] == v && |line| == Offset(ws, |ws|)
  {
    PieceInPlace(v, pieces, ws, c);
  }

  lemma DataCellShows(row: seq<string>, ws: seq<int>, numeric: seq<bool>, v: char, c: nat)
    requires |ws| <= |row| && |ws| <= |numeric| && Wide(ws) && c < |ws|
    ensures var line := DataLine(row, ws, numeric, v);
            && line != "" && line[0] == v && |line| == Offset(ws, |ws|) && InPlace(line, ws, c)
            && Shows(CellAt(line, ws, c), row[c], ws[c], if numeric[c] then 1 + Max(0, ws[c] - |row[c]|) else 1, v)
  {
    var pieces := seq(|ws|, d requires 0 <= d < |ws| => Cell(row[d], ws[d], numeric[d], v));
    forall d | 0 <= d < |ws| ensures |pieces[d]| == ws[d] + 3 { CellLengths(row[d], ws[d], numeric[d], v); }
    var at := if numeric[c] then 1 + Max(0, ws[c] - |row[c]|) else 1;
    assert Shows(pieces[c], row[c], ws[c], at, v) by { CellShows(row[c], ws[c], numeric[c], v); }
    PieceShows(DataLine(row, ws, numeric, v), v, pieces, ws, c, row[c], at);
  }

  lemma DataLineShows(row: seq<string>, ws: seq<int>, numeric: seq<bool>, v: char)
    requires |ws| <= |row| && |ws| <= |numeric| && Wide(ws) && ws != []
    ensures ShowsRow(DataLine(row, ws, numeric, v), row, ws, numeric, v)
  {
    DataCellShows(row, ws, numeric, v, 0);
    forall c | 0 <= c < |ws|
      ensures InPlace(DataLine(row, ws, numeric, v), ws, c)
      ensures Shows(CellAt(DataLine(row, ws, numeric, v), ws, c), row[c], ws[c],
                    if numeric[c] then 1 + Max(0, ws[c] - |row[c]|) else 1, v)
    {
      DataCellShows(row, ws, numeric, v, c);
    }
  }

  lemma CenteredShows(text: string, width: int, v: char)
    requires width >= 1
    ensures Shows(CenteredCell(text, width, v), text, width, 1 + Max(0, width - |text|) / 2, v)
  {
    CenteredCellShows(text, width, v);
  }

  lemma HeaderCellShows(texts: seq<string>, ws: seq<int>, v: char, c: nat)
    requires |ws| <= |texts| && Wide(ws) && c < |ws|
    ensures var line := HeaderLine(texts, ws, v);
            && line != "" && line[0] == v && |line| == Offset(ws, |ws|) && InPlace(line, ws, c)
            && Shows(CellAt(line, ws, c), texts[c], ws[c], 1 + Max(0, ws[c] - |texts[c]|) / 2, v)
  {
    var pieces := seq(|ws|, d requires 0 <= d < |ws| => CenteredCell(texts[d], ws[d], v));
    forall d | 0 <= d < |ws| ensures |pieces[d]| == ws[d] + 3 { CellLengths(texts[d], ws[d], false, v); }
    var at := 1 + Max(0, ws[c] - |texts[c]|) / 2;
    assert Shows(pieces[c], texts[c], ws[c], at, v) by { CenteredShows(texts[c], ws[c], v); }
    PieceShows(HeaderLine(texts, ws, v), v, pieces, ws, c, texts[c], at);
  }

  lemma HeaderLineShows(texts: seq<string>, ws: seq<int>, v: char)
    requires |ws| <= |texts| && Wide(ws) && ws != []
    ensures ShowsTexts(HeaderLine(texts, ws, v), texts, ws, v)
  {
    HeaderCellShows(texts, ws, v, 0);
    forall c | 0 <= c < |ws|
      ensures InPlace(HeaderLine(texts, ws, v), ws, c)
      ensures Shows(CellAt(HeaderLine(texts, ws, v), ws, c), texts[c], ws[c], 1 + Max(0, ws[c] - |texts[c]|) / 2, v)
    {
      HeaderCellShows(texts, ws, v, c);
    }
  }

  lemma DotCellShows(width: int, v: char)
    requires width >= 1
    ensures Shows(DotCell(width, v), [MIDDLE_DOT], width, 1 + width / 2, v)
  {
    var left := width / 2;
    RepeatBlank(left);
    RepeatBlank(width - left - 1);
    var s := DotCell(width, v);
    assert s[1 + left..1 + left + 1] == [MIDDLE_DOT];
  }

  lemma DotLineCellShows(ws: seq<int>, v: char, c: nat)
    requires Wide(ws) && c < |ws|
    ensures var line := DotLine(ws, v);
            && line != "" && line[0] == v && |line| == Offset(ws, |ws|) && InPlace(line, ws, c)
            && Shows(CellAt(line, ws, c), [MIDDLE_DOT], ws[c], 1 + ws[c] / 2, v)
  {
    var pieces := seq(|ws|, d requires 0 <= d < |ws| => DotCell(ws[d], v));
    forall d | 0 <= d < |ws| ensures |pieces[d]| == ws[d] + 3 { CellLengths("", ws[d], false, v); }
    assert Shows(pieces[c], [MIDDLE_DOT], ws[c], 1 + ws[c] / 2, v) by { DotCellShows(ws[c], v); }
    PieceShows(DotLine(ws, v), v, pieces, ws, c, [MIDDLE_DOT], 1 + ws[c] / 2);
  }

  lemma DotLineShows(ws: seq<int>, v: char)
    requires Wide(ws) && ws != []
    ensures ShowsDots(DotLine(ws, v), ws, v)
  {
    DotLineCellShows(ws, v, 0);
    forall c | 0 <= c < |ws|
      ensures InPlace(DotLine(ws, v), ws, c) && Shows(CellAt(DotLine(ws, v), ws, c), [MIDDLE_DOT], ws[c], 1 + ws[c] / 2, v)
    {
      DotLineCellShows(ws, v, c);
    }
  }

  lemma BorderLineIsRule(ws: seq<int>, left: char, joint: char, right: char, h: char)
    requires Wide(ws) && ws != []
    ensures IsRule(BorderLine(ws, left, joint, right, h), ws, left, joint, right, h)
  {
    var pieces := seq(|ws|, c requires 0 <= c < |ws| => Repeat(h, ws[c] + 2) + [if c + 1 < |ws| then joint else right]);
    forall c | 0 <= c < |ws| ensures |pieces[c]| == ws[c] + 3 { RepeatLength(h, ws[c] + 2); }
    var line := BorderLine(ws, left, joint, right, h);
    PieceInPlace(left, pieces, ws, 0);
    forall c | 0 <= c < |ws|
      ensures InPlace(line, ws, c)
      ensures CellAt(line, ws, c)[ws[c] + 2] == (if c < |ws| - 1 then joint else right)
      ensures forall k :: 0 <= k < ws[c] + 2 ==> CellAt(line, ws, c)[k] == h
    {
      PieceInPlace(left, pieces, ws, c);
      RepeatIsAll(h, ws[c] + 2);
    }
  }

  lemma {:induction false} RepeatIsAll(h: char, n: int)
    ensures |Repeat(h, n)| == Max(0, n) && forall k :: 0 <= k < n ==> Repeat(h, n)[k] == h
  {
    if n > 0 { RepeatIsAll(h, n - 1); }
  }

  // ----- The lines of the table -----

  // There are more rows than the table holds, or nobody knows.
  predicate Limited(t: Table, o: Options) {
    o.footerTotal == -1 || o.footerTotal > |t.rows|
  }

  predicate Cut(t: Table, o: Options) {
    !Limited(t, o) && 0 < o.maxRows < |t.rows|
  }

  // How many rows are shown, and how many of them above the dots.
  function Shown(t: Table, o: Options): nat {
    if Cut(t, o) then o.maxRows else |t.rows|
  }

  predicate Split(t: Table, o: Options) {
    Cut(t, o) && o.maxRows >= 4
  }

  function Top(t: Table, o: Options): nat {
    if Split(t, o) then o.maxRows / 2 else Shown(t, o)
  }

  lemma SameRows(t: Table, o: Options)
    ensures PreLimited(t, o) == Limited(t, o) && SplitDisplay(t, o) == Split(t, o)
    ensures TruncatingRows(t, o) <==> Limited(t, o) || Cut(t, o)
    ensures RowsToShow(t, o) == Shown(t, o) && TopCount(t, o) == Top(t, o)
    ensures BottomStart(t, o) == |t.rows| - (Shown(t, o) - Top(t, o)) || !Split(t, o)
    ensures !Split(t, o) ==> BottomStart(t, o) == |t.rows|
  {}

  // The head: a rule; if headers are shown, the names, the types and another rule.
  lemma HeadShows(t: Table, o: Options, ws: seq<int>)
    requires t.Valid() && 0 < |ws| <= |t.names| && Wide(ws)
    ensures var (head, b) := (Head(t, o, ws), o.style);
            && |head| == (if o.showHeaders then 4 else 1) && IsRule(head[0], ws, b.tl, b.tt, b.tr, b.h)
            && (o.showHeaders ==> ShowsTexts(head[1], t.names, ws, b.v) && ShowsTexts(head[2], t.types, ws, b.v))
            && (o.showHeaders ==> IsRule(head[3], ws, b.lt, b.cx, b.rt, b.h))
  {
    var b := o.style;
    var (top, bottom) := (BorderLine(ws, b.tl, b.tt, b.tr, b.h), BorderLine(ws, b.lt, b.cx, b.rt, b.h));
    assert IsRule(top, ws, b.tl, b.tt, b.tr, b.h) by { BorderLineIsRule(ws, b.tl, b.tt, b.tr, b.h); }
    if o.showHeaders {
      assert IsRule(bottom, ws, b.lt, b.cx, b.rt, b.h) by { BorderLineIsRule(ws, b.lt, b.cx, b.rt, b.h); }
      assert ShowsTexts(HeaderLine(t.names, ws, b.v), t.names, ws, b.v) by { HeaderLineShows(t.names, ws, b.v); }
      assert ShowsTexts(HeaderLine(t.types, ws, b.v), t.types, ws, b.v) by { HeaderLineShows(t.types, ws, b.v); }
    }
    HeadLines(t, o, ws);
  }

  lemma HeadLines(t: Table, o: Options, ws: seq<int>)
    requires t.Valid() && 0 < |ws| <= |t.names|
    ensures var (head, b) := (Head(t, o, ws), o.style);
            && |head| == (if o.showHeaders then 4 else 1) && head[0] == BorderLine(ws, b.tl, b.tt, b.tr, b.h)
            && (o.showHeaders ==>
                  && head[1] == HeaderLine(t.names, ws, b.v) && head[2] == HeaderLine(t.types, ws, b.v)
                  && head[3] == BorderLine(ws, b.lt, b.cx, b.rt, b.h))
  {}

  // The body: the first rows; if rows are left out in the middle or are missing at the end, three lines of dots; and
  // in the former case the last rows.
  lemma BodyShows(t: Table, o: Options, ws: seq<int>)
    requires t.Valid() && 0 < |ws| <= |t.names| && Wide(ws)
    ensures var (body, v, top, shown) := (Body(t, o, ws), o.style.v, Top(t, o), Shown(t, o));
            var dots := if Split(t, o) || Limited(t, o) then 3 else 0;
            && |body| == shown + dots && top <= shown <= |t.rows|
            && (forall i :: 0 <= i < top ==> ShowsRow(body[i], t.rows[i], ws, t.numeric, v))
            && (forall i :: top <= i < top + dots ==> ShowsDots(body[i], ws, v))
            && (forall i :: top + dots <= i < |body| ==> ShowsRow(body[i], t.rows[|t.rows| - |body| + i], ws, t.numeric, v))
  {
    var v, top, shown := o.style.v, Top(t, o), Shown(t, o);
    SameRows(t, o);
    BodyLines(t, o, ws);
    DotLineShows(ws, v);
    forall r | 0 <= r < |t.rows| ensures ShowsRow(DataLine(t.rows[r], ws, t.numeric, v), t.rows[r], ws, t.numeric, v) {
      DataLineShows(t.rows[r], ws, t.numeric, v);
    }
  }

  lemma BodyLines(t: Table, o: Options, ws: seq<int>)
    requires t.Valid() && 0 < |ws| <= |t.names|
    ensures var (body, v, top, shown) := (Body(t, o, ws), o.style.v, Top(t, o), Shown(t, o));
            var dots := if Split(t, o) || Limited(t, o) then 3 else 0;
            && |body| == shown + dots && top <= shown <= |t.rows|
            && (forall i :: 0 <= i < top ==> body[i] == DataLine(t.rows[i], ws, t.numeric, v))
            && (forall i :: top <= i < top + dots ==> body[i] == DotLine(ws, v))
            && (forall i :: top + dots <= i < |body| ==> body[i] == DataLine(t.rows[|t.rows| - |body| + i], ws, t.numeric, v))
  {
    SameRows(t, o);
  }

  // A line of the footer: the text between the borders, and blanks behind it.
  ghost predicate ShowsFooter(line: string, text: string, n: int, v: char) {
    && |line| == n >= 3 + |text| && line[0] == v && line[1] == ' ' && line[2..2 + |text|] == text && line[n - 1] == v
    && forall k :: 2 + |text| <= k < n - 1 ==> line[k] == ' '
  }

  lemma FooterLineShows(text: string, inner: int, v: char)
    requires |text| <= inner - 2
    ensures ShowsFooter(FooterLine(text, inner, v), text, inner + 2, v)
  {
    RepeatBlank(inner - 2 - |text|);
  }

  // The bottom: a rule without joints.
  ghost predicate IsBottom(line: string, n: int, left: char, right: char, h: char) {
    |line| == n >= 2 && line[0] == left && line[n - 1] == right && forall k :: 0 < k < n - 1 ==> line[k] == h
  }

  // The foot: a rule, the lines of the footer from border to border, and the bottom.
  lemma FootShows(o: Options, ws: seq<int>, footer: seq<string>)
    requires 0 < |ws| && Wide(ws) && forall i :: 0 <= i < |footer| ==> |footer[i]| <= Inner(ws) - 2
    ensures var (foot, b, n) := (Foot(o, ws, footer), o.style, Offset(ws, |ws|));
            && |foot| == |footer| + 2 && IsRule(foot[0], ws, b.lt, b.bt, b.rt, b.h)
            && (forall i :: 1 <= i <= |footer| ==> ShowsFooter(foot[i], footer[i - 1], n, b.v))
            && IsBottom(foot[|footer| + 1], n, b.bl, b.br, b.h)
  {
    var b, n := o.style, Offset(ws, |ws|);
    assert ws[..|ws|] == ws;
    SumIsNat(ws);
    assert Inner(ws) == n - 2;
    BorderLineIsRule(ws, b.lt, b.bt, b.rt, b.h);
    RepeatIsAll(b.h, Inner(ws));
    forall i | 0 <= i < |footer| ensures ShowsFooter(FooterLine(footer[i], Inner(ws), b.v), footer[i], n, b.v) {
      FooterLineShows(footer[i], Inner(ws), b.v);
    }
  }

  // ----- The footer -----

  function Ending(n: int): string {
    if n == 1 then "" else "s"
  }

  lemma PluralIs(d: string, n: int, noun: string)
    ensures d + Plural(n, noun) == d + noun + Ending(n)
  {
    Associate(d, noun, Ending(n));
  }

  // The total if it is known, of the rows held otherwise; how many rows are shown, if rows are left out and that is
  // not the total; the columns, if there are several; and how many columns are shown, if some are dropped.
  lemma FooterTells(t: Table, o: Options, cols: nat)
    requires 0 < cols <= |t.names|
    ensures var (parts, shown, n) := (FooterParts(t, o, cols), Shown(t, o), |t.names|);
            var total := if o.footerTotal == -2 then |t.rows| else o.footerTotal;
            var less := (Limited(t, o) || Cut(t, o)) && total != shown;
            var k := if less then 2 else 1;
            && |parts| == k + (if n > 1 then 1 else 0) + (if cols < n then 1 else 0)
            && parts[0] == (if total >= 0 then Digits(total) + " row" + Ending(total) else Digits(shown) + "+ row" + Ending(shown))
            && (less ==> parts[1] == "(" + Digits(shown) + " shown)")
            && (n > 1 ==> parts[k] == Digits(n) + " column" + Ending(n))
            && (cols < n ==> parts[k + 1] == "(" + Digits(cols) + " shown)")
  {
    var (shown, n) := (Shown(t, o), |t.names|);
    var total := if o.footerTotal == -2 then |t.rows| else o.footerTotal;
    var less := (Limited(t, o) || Cut(t, o)) && total != shown;
    SameRows(t, o);
    PluralIs(Digits(shown), shown, "+ row");
    PluralIs(Digits(n), n, " column");
    if total >= 0 { PluralIs(Digits(total), total, " row"); }
    PartsInOrder(if total >= 0 then Digits(total) + Plural(total, " row") else Digits(shown) + Plural(shown, "+ row"),
                 "(" + Digits(shown) + " shown)", less,
                 Digits(n) + Plural(n, " column"), n > 1 || cols < n, "(" + Digits(cols) + " shown)", cols < n);
  }

  lemma PartsInOrder(a: string, b: string, withB: bool, c: string, withC: bool, d: string, withD: bool)
    ensures var parts := [a] + (if withB then [b] else []) + (if withC then [c] else []) + (if withD then [d] else []);
            var k := if withB then 2 else 1;
            && |parts| == k + (if withC then 1 else 0) + (if withD then 1 else 0) && parts[0] == a
            && (withB ==> parts[1] == b) && (withC ==> parts[k] == c) && (withC && withD ==> parts[k + 1] == d)
  {}

  // Parts on one line are two blanks apart.
  lemma PartsOnALine(parts: seq<string>, part: string)
    ensures Join([part]) == part
    ensures parts != [] ==> Join(parts + [part]) == Join(parts) + "  " + part
  {
    assert (parts + [part])[..|parts|] == parts;
  }

  // ----- Widths -----

  // A row is shown.
  predicate IsShown(t: Table, o: Options, r: nat) {
    r < Top(t, o) || |t.rows| - (Shown(t, o) - Top(t, o)) <= r < |t.rows|
  }

  // The natural width of a column is no more than needed: it is one, or there is a name, a type or a shown value as wide.
  lemma NaturalWidthIsNeeded(t: Table, o: Options, c: nat)
    requires t.Valid() && c < |t.names|
    ensures var w := NaturalWidth(t, o, c);
            || w == 1
            || (o.showHeaders && (w == |t.names[c]| || w == |t.types[c]|))
            || exists r :: 0 <= r < |t.rows| && IsShown(t, o, r) && |t.rows[r][c]| == w
  {
    SameRows(t, o);
    var top := TopCount(t, o);
    var scanned := if 0 < top < |t.rows| then top else |t.rows|;
    var need := HeaderNeed(t, c, o.showHeaders);
    var w0 := Max(1, Widest(t, c, 0, scanned, need));
    WidestIsWidest(t, c, 0, scanned, need);
    WidestIsWidest(t, c, BottomStart(t, o), |t.rows|, w0);
  }

  // ----- The terminal -----

  // The width that columns are fitted by is that of the lines. These fit in the terminal if and only if the longest part
  // of the footer does, with its borders and blanks, and, in case there is only one column shown, that column does.
  lemma LinesFitTerminal(t: Table, o: Options, natural: seq<int>, level: int, capped: seq<int>, ws: seq<int>, line: string)
    requires t.Valid() && IsLayout(t, o, natural, level, capped, ws) && o.maxWidth > 0 && |line| == Offset(ws, |ws|)
    ensures |line| == Total(ws)
    ensures |line| <= o.maxWidth <==>
              && Longest(FooterParts(t, o, |ws|)) + 4 <= o.maxWidth
              && (|ws| == 1 ==> capped[0] + 4 <= o.maxWidth)
  {
    var need := Longest(FooterParts(t, o, |ws|)) + 2;
    WidenedFits(capped, need);
    assert ws[..|ws|] == ws && capped[..|capped|] == capped;
    assert |line| == Inner(ws) + 2 == Max(need, Inner(capped)) + 2 && Total(capped) == Inner(capped) + 2;
    if |capped| == 1 { assert capped[..0] == [] && Sum(capped) == Sum(capped[..0]) + capped[0]; }
  }
}
