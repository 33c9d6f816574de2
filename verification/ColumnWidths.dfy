/**
 Fitting the columns of a result table into the terminal: narrow columns keep their natural width and the wide
 ones share what is left, rounded down; columns that still do not fit are dropped from the right.
 */
module ColumnWidths {

  const MIN_COL_WIDTH := 4
  const BORDER_OVERHEAD := 3

  function Min(a: int, b: int): int { if a < b then a else b }

  function Max(a: int, b: int): int { if a < b then b else a }

  // Integer division of C++, which truncates toward zero.
  function TruncDiv(a: int, b: int): int
    requires b > 0
  {
    if a >= 0 then a / b else -((-a) / b)
  }

  function Sum(ws: seq<int>): int {
    if ws == [] then 0 else Sum(ws[..|ws| - 1]) + ws[|ws| - 1]
  }

  // Width of the table: a leading border, and for each column its content, two blanks and a border.
  function Total(ws: seq<int>): int {
    1 + Sum(ws) + |ws| * BORDER_OVERHEAD
  }

  // The widths with everything above the level cut off.
  function Capped(ws: seq<int>, level: int): seq<int> {
    seq(|ws|, i requires 0 <= i < |ws| => Min(ws[i], level))
  }

  // What the columns become at a level: at most the level, but a wide column gets at least 4.
  function Levelled(ws: seq<int>, level: int): seq<int> {
    seq(|ws|, i requires 0 <= i < |ws| => if ws[i] <= level then ws[i] else Max(MIN_COL_WIDTH, level))
  }

  // ----- Lemmas about sums -----

  lemma {:induction false} SumMonotone(a: seq<int>, b: seq<int>)
    requires |a| == |b| && forall i :: 0 <= i < |a| ==> a[i] <= b[i]
    ensures Sum(a) <= Sum(b)
    ensures (exists i :: 0 <= i < |a| && a[i] < b[i]) ==> Sum(a) < Sum(b)
  {
    if a != [] {
      SumMonotone(a[..|a| - 1], b[..|b| - 1]);
      if i :| 0 <= i < |a| && a[i] < b[i] {
        if i < |a| - 1 { assert a[..|a| - 1][i] < b[..|b| - 1][i]; }
      }
    }
  }

  lemma {:induction false} SumUpdate(ws: seq<int>, i: nat, x: int)
    requires i < |ws|
    ensures Sum(ws[i := x]) == Sum(ws) - ws[i] + x
  {
    var n := |ws| - 1;
    if i == n {
      assert ws[i := x][..n] == ws[..n];
    } else {
      SumUpdate(ws[..n], i, x);
      assert ws[i := x][..n] == ws[..n][i := x];
    }
  }

  // ----- The allocator -----

  // The budget of the columns that are not yet fixed, and how many these are.
  function Open(ws: seq<int>, fixed: seq<bool>): seq<int>
    requires |ws| == |fixed|
  {
    seq(|ws|, i requires 0 <= i < |ws| => if fixed[i] then 0 else 1)
  }

  function Fixed(ws: seq<int>, fixed: seq<bool>): seq<int>
    requires |ws| == |fixed|
  {
    seq(|ws|, i requires 0 <= i < |ws| => if fixed[i] then ws[i] else 0)
  }

  // The bookkeeping of the allocator, with everything fixed at or below the share.
  ghost predicate Books(ws: seq<int>, budget: int, fixed: seq<bool>, remaining: int, unfixed: int) {
    && |fixed| == |ws|
    && remaining == budget - Sum(Fixed(ws, fixed))
    && unfixed == Sum(Open(ws, fixed))
  }

  lemma FixOne(ws: seq<int>, budget: int, fixed: seq<bool>, remaining: int, unfixed: int, c: nat)
    requires Books(ws, budget, fixed, remaining, unfixed) && c < |ws| && !fixed[c]
    ensures unfixed >= 1
    ensures Books(ws, budget, fixed[c := true], remaining - ws[c], unfixed - 1)
  {
    SumUpdate(Fixed(ws, fixed), c, ws[c]);
    SumUpdate(Open(ws, fixed), c, 0);
    SumMonotone(seq(|ws|, i => 0), Open(ws, fixed)[c := 0]);
    Zeros(|ws|);
    assert Fixed(ws, fixed[c := true]) == Fixed(ws, fixed)[c := ws[c]];
    assert Open(ws, fixed[c := true]) == Open(ws, fixed)[c := 0];
  }

  // If all columns were fixed, the natural widths would fit.
  lemma SomeOpen(ws: seq<int>, budget: int, fixed: seq<bool>, remaining: int, unfixed: int)
    requires Books(ws, budget, fixed, remaining, unfixed) && Sum(ws) > budget
    ensures unfixed >= 0
    ensures remaining >= 0 ==> unfixed >= 1
  {
    SumMonotone(seq(|ws|, i => 0), Open(ws, fixed));
    Zeros(|ws|);
    if c :| 0 <= c < |ws| && !fixed[c] {
      assert seq(|ws|, i => 0)[c] < Open(ws, fixed)[c];
    } else {
      assert Fixed(ws, fixed) == ws;
    }
  }

  lemma {:induction false} Zeros(n: nat)
    ensures Sum(seq(n, i => 0)) == 0
  {
    if n > 0 {
      Zeros(n - 1);
      assert seq(n, i => 0)[..n - 1] == seq(n - 1, i => 0);
    }
  }

  // What the finished allocation looks like at its level.
  ghost predicate IsLevel(ws: seq<int>, budget: int, level: int) {
    && (exists c :: 0 <= c < |ws| && ws[c] > level)
    && (budget >= |ws| ==> level >= 1 && forall m :: Sum(Capped(ws, m)) <= budget <==> m <= level)
    && (budget < |ws| ==> level <= 0)
  }

  // The first loop: fix the columns that are no wider than the fair share until none is.
  method FixNarrowColumns(ws: seq<int>, available: int) returns (fixed: seq<bool>, remaining: int, unfixed: nat, ghost level: int)
    requires ws != [] && (forall c :: 0 <= c < |ws| ==> ws[c] >= 1) && Sum(ws) > available
    ensures Books(ws, available, fixed, remaining, unfixed) && unfixed >= 1
    ensures level == TruncDiv(remaining, unfixed)
    ensures available >= |ws| <==> level >= 1
    ensures forall c :: 0 <= c < |ws| ==> (fixed[c] <==> ws[c] <= level)
    ensures remaining >= 0 || fixed == seq(|ws|, i => false)
  {
    var numCols := |ws|;
    fixed := seq(numCols, i => false);
    remaining := available;
    unfixed := numCols;
    AllOpen(ws, available);
    level := TruncDiv(remaining, unfixed);
    ShareFits(remaining, unfixed);
    ShareIsPositive(remaining, unfixed);
    var iter := 0;
    while iter < numCols
      invariant 0 <= iter <= numCols - unfixed && unfixed >= 1
      invariant Books(ws, available, fixed, remaining, unfixed)
      invariant forall c :: 0 <= c < numCols && fixed[c] ==> 1 <= ws[c] <= level
      invariant level <= TruncDiv(remaining, unfixed)
      invariant if available >= |ws| then level >= 1
                else fixed == seq(numCols, i => false) && remaining == available && unfixed == numCols
      invariant remaining >= 0 || fixed == seq(numCols, i => false)
    {
      var fairShare := TruncDiv(remaining, Max(1, unfixed));
      ShareFits(remaining, unfixed);
      ShareIsPositive(remaining, unfixed);
      var anyFixed;
      fixed, remaining, unfixed, anyFixed := Pass(ws, available, fixed, remaining, unfixed, fairShare);
      level := fairShare;
      if !anyFixed { return; }
      ShareGrows(remaining, unfixed, fairShare);
      iter := iter + 1;
    }
  }

  // share * n
  function Times(share: int, n: nat): int {
    if n == 0 then 0 else Times(share, n - 1) + share
  }

  // One pass over the columns.
  method Pass(ws: seq<int>, ghost available: int, fixed0: seq<bool>, remaining0: int, unfixed0: nat, fairShare: int)
    returns (fixed: seq<bool>, remaining: int, unfixed: nat, anyFixed: bool)
    requires (forall c :: 0 <= c < |ws| ==> ws[c] >= 1) && Sum(ws) > available
    requires Books(ws, available, fixed0, remaining0, unfixed0) && unfixed0 >= 1
    requires if remaining0 >= 0 then Times(fairShare, unfixed0) <= remaining0 else fairShare <= 0
    ensures Books(ws, available, fixed, remaining, unfixed) && 1 <= unfixed <= unfixed0
    ensures forall c :: 0 <= c < |ws| ==> (fixed[c] <==> fixed0[c] || ws[c] <= fairShare)
    ensures anyFixed ==> unfixed < unfixed0 && remaining >= 0 && fairShare >= 1 && Times(fairShare, unfixed) <= remaining
    ensures !anyFixed ==> fixed == fixed0 && remaining == remaining0 && unfixed == unfixed0
  {
    fixed, remaining, unfixed, anyFixed := fixed0, remaining0, unfixed0, false;
    var c := 0;
    while c < |ws|
      invariant remaining0 >= 0 ==> remaining >= Times(fairShare, unfixed)
      invariant 0 <= c <= |ws| && Books(ws, available, fixed, remaining, unfixed)
      invariant forall d :: 0 <= d < |ws| ==> (fixed[d] <==> fixed0[d] || (d < c && ws[d] <= fairShare))
      invariant if anyFixed then unfixed < unfixed0 && remaining0 >= 0 && fairShare >= 1
                else fixed == fixed0 && remaining == remaining0 && unfixed == unfixed0
    {
      if !fixed[c] && ws[c] <= fairShare {
        FixOne(ws, available, fixed, remaining, unfixed, c);
        fixed := fixed[c := true];
        remaining := remaining - ws[c];
        unfixed := unfixed - 1;
        anyFixed := true;
      }
      c := c + 1;
    }
    if anyFixed {
      TimesIsProduct(fairShare, unfixed);
      SomeOpen(ws, available, fixed, remaining, unfixed);
    }
  }

  lemma {:induction false} TimesIsProduct(share: int, n: nat)
    ensures Times(share, n) == share * n
    ensures share >= 0 ==> Times(share, n) >= 0
  {
    if n > 0 { TimesIsProduct(share, n - 1); }
  }

  lemma AllOpen(ws: seq<int>, budget: int)
    ensures Books(ws, budget, seq(|ws|, i => false), budget, |ws|)
  {
    Zeros(|ws|);
    Ones(|ws|);
    assert Fixed(ws, seq(|ws|, i => false)) == seq(|ws|, i => 0);
    assert Open(ws, seq(|ws|, i => false)) == seq(|ws|, i => 1);
  }

  lemma {:induction false} Ones(n: nat)
    ensures Sum(seq(n, i => 1)) == n
  {
    if n > 0 {
      Ones(n - 1);
      assert seq(n, i => 1)[..n - 1] == seq(n - 1, i => 1);
    }
  }

  lemma DivBounds(n: nat, d: int)
    requires d >= 1
    ensures n / d >= 0 && n / d * d <= n < (n / d + 1) * d
  {
    assert n == n / d * d + n % d;
    assert (n / d + 1) * d == n / d * d + d;
  }

  lemma ShareFits(remaining: int, unfixed: int)
    requires unfixed >= 1
    ensures remaining >= 0 ==> TruncDiv(remaining, unfixed) >= 0 && Times(TruncDiv(remaining, unfixed), unfixed) <= remaining
    ensures remaining >= 0 ==> remaining < Times(TruncDiv(remaining, unfixed) + 1, unfixed)
    ensures remaining < 0 ==> TruncDiv(remaining, unfixed) <= 0
  {
    var share := TruncDiv(remaining, unfixed);
    TimesIsProduct(share, unfixed);
    TimesIsProduct(share + 1, unfixed);
    DivBounds(if remaining >= 0 then remaining else -remaining, unfixed);
  }

  lemma ShareIsPositive(remaining: int, unfixed: int)
    requires unfixed >= 1
    ensures remaining >= unfixed <==> TruncDiv(remaining, unfixed) >= 1
  {
    ShareFits(remaining, unfixed);
    TimesIsProduct(TruncDiv(remaining, unfixed), unfixed);
    TimesIsProduct(TruncDiv(remaining, unfixed) + 1, unfixed);
    if remaining >= unfixed {
      LessFactor(1, TruncDiv(remaining, unfixed) + 1, unfixed);
    } else if TruncDiv(remaining, unfixed) >= 1 {
      ProductNonNegative(TruncDiv(remaining, unfixed) - 1, unfixed);
    }
  }

  lemma ShareGrows(remaining: int, unfixed: int, share: int)
    requires unfixed >= 1 && remaining >= 0 && remaining >= Times(share, unfixed)
    ensures share <= TruncDiv(remaining, unfixed)
  {
    ShareFits(remaining, unfixed);
    TimesIsProduct(share, unfixed);
    TimesIsProduct(TruncDiv(remaining, unfixed) + 1, unfixed);
    LessFactor(share, TruncDiv(remaining, unfixed) + 1, unfixed);
  }

  lemma ProductNonNegative(a: int, b: int)
    requires a >= 0 && b >= 0
    ensures a * b >= 0
  {}

  lemma LessFactor(a: int, b: int, n: int)
    requires n >= 1 && a * n < b * n
    ensures a < b
  {
    if a >= b { ProductNonNegative(a - b, n); }
  }

  // ----- The level -----

  lemma {:induction false} SumCapped(ws: seq<int>, fixed: seq<bool>, m: int)
    requires |fixed| == |ws|
    requires forall c :: 0 <= c < |ws| ==> if fixed[c] then ws[c] <= m else ws[c] >= m
    ensures Sum(Open(ws, fixed)) >= 0
    ensures Sum(Capped(ws, m)) == Sum(Fixed(ws, fixed)) + Times(m, Sum(Open(ws, fixed)))
  {
    if ws != [] {
      var n := |ws| - 1;
      SumCapped(ws[..n], fixed[..n], m);
      assert Capped(ws, m)[..n] == Capped(ws[..n], m);
      assert Fixed(ws, fixed)[..n] == Fixed(ws[..n], fixed[..n]);
      assert Open(ws, fixed)[..n] == Open(ws[..n], fixed[..n]);
    }
  }

  // The fair share at which the first loop stops is the largest level that fits in the budget.
  lemma LevelIsLargest(ws: seq<int>, budget: int, fixed: seq<bool>, remaining: int, unfixed: nat, level: int)
    requires Books(ws, budget, fixed, remaining, unfixed) && unfixed >= 1 && level == TruncDiv(remaining, unfixed)
    requires forall c :: 0 <= c < |ws| ==> (fixed[c] <==> ws[c] <= level)
    requires level >= 1
    ensures forall m :: Sum(Capped(ws, m)) <= budget <==> m <= level
  {
    ShareFits(remaining, unfixed);
    TimesIsProduct(level, unfixed);
    SumCapped(ws, fixed, level);
    SumCapped(ws, fixed, level + 1);
    forall m ensures Sum(Capped(ws, m)) <= budget <==> m <= level {
      if m <= level {
        SumMonotone(Capped(ws, m), Capped(ws, level));
      } else {
        SumMonotone(Capped(ws, level + 1), Capped(ws, m));
      }
    }
  }

  lemma SomeAbove(ws: seq<int>, fixed: seq<bool>, level: int)
    requires |fixed| == |ws| && Sum(Open(ws, fixed)) >= 1
    requires forall c :: 0 <= c < |ws| ==> (fixed[c] <==> ws[c] <= level)
    ensures exists c :: 0 <= c < |ws| && ws[c] > level
  {
    if forall c :: 0 <= c < |ws| ==> fixed[c] {
      assert Open(ws, fixed) == seq(|ws|, i => 0);
      Zeros(|ws|);
    }
  }

  // No way of giving every column that is cut more than the level, and the others their natural width, fits.
  lemma NoBetterAllocation(ws: seq<int>, budget: int, level: int, alloc: seq<int>)
    requires IsLevel(ws, budget, level) && budget >= |ws| && |alloc| == |ws|
    requires forall c :: 0 <= c < |ws| ==> alloc[c] >= Min(ws[c], level + 1)
    ensures Sum(alloc) > budget
  {
    SumMonotone(Capped(ws, level + 1), alloc);
  }

  // ----- The whole allocation -----

  // The largest number of leading columns that fits, but at least one.
  ghost predicate ShowsAsManyAsFit(ws: seq<int>, maxWidth: int, shown: nat) {
    && 1 <= shown <= |ws|
    && (shown > 1 ==> Total(ws[..shown]) <= maxWidth)
    && forall k :: shown < k <= |ws| ==> Total(ws[..k]) > maxWidth
  }

  method CapColumnWidths(widths: seq<int>, maxWidth: int) returns (capped: seq<int>, shown: nat, ghost level: int)
    requires forall c :: 0 <= c < |widths| ==> widths[c] >= 1
    ensures |capped| == shown && forall c :: 0 <= c < shown ==> capped[c] >= 1
    ensures widths == [] || Total(widths) <= maxWidth ==> capped == widths
    ensures widths != [] && Total(widths) > maxWidth ==>
              && IsLevel(widths, Budget(widths, maxWidth), level)
              && ShowsAsManyAsFit(Levelled(widths, level), maxWidth, shown)
              && capped == Levelled(widths, level)[..shown]
              && (level >= MIN_COL_WIDTH ==> shown == |widths| && Total(capped) <= maxWidth)
  {
    var numCols := |widths|;
    if numCols == 0 { return widths, 0, 0; }
    if Total(widths) <= maxWidth { return widths, numCols, 0; }
    var available := maxWidth - 1 - numCols * BORDER_OVERHEAD;
    var fixed, remaining, unfixed;
    fixed, remaining, unfixed, level := FixNarrowColumns(widths, available);
    SomeAbove(widths, fixed, level);
    if level >= 1 { LevelIsLargest(widths, available, fixed, remaining, unfixed, level); }

    var cap := Max(MIN_COL_WIDTH, TruncDiv(remaining, unfixed));
    capped := widths;
    var c := 0;
    while c < numCols
      invariant 0 <= c <= numCols && |capped| == numCols
      invariant forall d :: 0 <= d < numCols ==> capped[d] == if d < c && !fixed[d] then cap else widths[d]
    {
      if !fixed[c] { capped := capped[c := cap]; }
      c := c + 1;
    }
    assert capped == Levelled(widths, level);
    shown := DropLastColumns(capped, maxWidth);
    if level >= MIN_COL_WIDTH {
      assert Levelled(widths, level) == Capped(widths, level);
      assert Total(capped) <= maxWidth && capped[..numCols] == capped;
    }
    capped := capped[..shown];
  }

  // The third loop: columns are dropped from the right until the rest fits, but never the first one.
  method DropLastColumns(widths: seq<int>, maxWidth: int) returns (shown: nat)
    requires widths != []
    ensures ShowsAsManyAsFit(widths, maxWidth, shown) && 1 <= shown <= |widths|
    ensures Total(widths) <= maxWidth ==> shown == |widths|
  {
    shown := |widths|;
    assert widths[..shown] == widths;
    while shown > 1 && Total(widths[..shown]) > maxWidth
      invariant 1 <= shown <= |widths| && forall k :: shown < k <= |widths| ==> Total(widths[..k]) > maxWidth
    {
      shown := shown - 1;
    }
  }

  function Budget(ws: seq<int>, maxWidth: int): int {
    maxWidth - 1 - |ws| * BORDER_OVERHEAD
  }

  // ----- Columns that grow -----

  // The minimum of four makes a column wider than its content if and only if the column is narrower than that and
  // capping all columns at its width would not fit.
  lemma GrowsUnlessItFits(ws: seq<int>, budget: int, level: int, c: nat)
    requires IsLevel(ws, budget, level) && c < |ws| && forall d :: 0 <= d < |ws| ==> ws[d] >= 1
    ensures Levelled(ws, level)[c] > ws[c] <==> level < ws[c] < MIN_COL_WIDTH
    ensures Levelled(ws, level)[c] > ws[c] <==> ws[c] < MIN_COL_WIDTH && Sum(Capped(ws, ws[c])) > budget
  {
    if budget < |ws| {
      Ones(|ws|);
      SumMonotone(seq(|ws|, i => 1), Capped(ws, ws[c]));
    }
  }

  // Two columns of width three in a terminal of twelve: both grow to four, and then the second one is dropped,
  // although widths three and two would fit.
  lemma GrownAndDropped()
    ensures IsLevel([3, 3], Budget([3, 3], 12), 2)
    ensures Levelled([3, 3], 2) == [4, 4] && ShowsAsManyAsFit([4, 4], 12, 1)
    ensures Total([3, 2]) <= 12
  {
    forall a: int ensures Sum([a]) == a {
      assert [a][..0] == [];
    }
    forall a: int, b: int ensures Sum([a, b]) == a + b {
      assert [a, b][..1] == [a];
      assert Sum([a]) == a;
    }
    var ws := [3, 3];
    assert ws[0] > 2;
    forall m ensures Sum(Capped(ws, m)) <= 5 <==> m <= 2 {
      assert Capped(ws, m) == [Min(3, m), Min(3, m)];
    }
    assert Levelled(ws, 2) == [4, 4];
    assert [4, 4][..1] == [4] && [4, 4][..2] == [4, 4];
  }
}
