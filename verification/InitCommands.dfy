/**
 The startup SQL of the server is split by a regular expression: a semicolon splits when an even number of
 single quotes follows it. The pieces are then run one by one.
 */
module InitCommands {
  import opened Text
  import SqlLexer

  // ----- Splitting a text at chosen positions -----

  // What is behind the first quote.
  function AfterQuote(t: string): (u: Option<string>)
    ensures u.Some? ==> |u.value| < |t|
  {
    if t == "" then None else if t[0] == '\'' then Some(t[1..]) else AfterQuote(t[1..])
  }

  // The pattern (?:[^']*'[^']*')*[^']*$ of the lookahead: pairs of quotes with other text around them, to the end.
  predicate PairedToTheEnd(t: string)
    decreases |t|
  {
    match AfterQuote(t)
    case None => true
    case Some(u) =>
      match AfterQuote(u)
      case None => false
      case Some(v) => PairedToTheEnd(v)
  }

  // The regular expression matches the single character at position k.
  predicate RegexSplitsAt(s: string, k: nat)
    requires k < |s|
  {
    s[k] == ';' && PairedToTheEnd(s[k + 1..])
  }

  lemma {:induction false} PairedIsEven(t: string)
    ensures PairedToTheEnd(t) <==> Count('\'', t) % 2 == 0
    decreases |t|
  {
    UpToQuote(t);
    if u :| AfterQuote(t) == Some(u) {
      UpToQuote(u);
      if v :| AfterQuote(u) == Some(v) { PairedIsEven(v); }
    }
  }

  lemma {:induction false} UpToQuote(t: string)
    ensures match AfterQuote(t)
            case None => Count('\'', t) == 0
            case Some(u) => Count('\'', t) == 1 + Count('\'', u)
  {
    if t != "" && t[0] != '\'' { UpToQuote(t[1..]); }
  }

  // A scan from the left: the semicolon is outside single quotes.
  predicate ForwardSplitsAt(s: string, k: nat)
    requires k < |s|
  {
    s[k] == ';' && Count('\'', s[..k]) % 2 == 0
  }

  function RegexSplits(s: string): set<nat> {
    set k: nat | k < |s| && RegexSplitsAt(s, k)
  }

  function ForwardSplits(s: string): set<nat> {
    set k: nat | k < |s| && ForwardSplitsAt(s, k)
  }

  // The pieces a token iterator yields between the matches: a last piece only if it is not empty. The piece under way
  // begins at from, and the text has been read up to k.
  function PiecesAt(s: string, splits: set<nat>, from: nat, k: nat): seq<string>
    requires from <= k <= |s|
    decreases |s| - k
  {
    if k == |s| then (if from == k then [] else [s[from..]])
    else if k in splits then [s[from..k]] + PiecesAt(s, splits, k + 1, k + 1)
    else PiecesAt(s, splits, from, k + 1)
  }

  function RegexPieces(s: string): seq<string> {
    PiecesAt(s, RegexSplits(s), 0, 0)
  }

  function ForwardPieces(s: string): seq<string> {
    PiecesAt(s, ForwardSplits(s), 0, 0)
  }

  lemma {:induction false} FirstPieceLong(s: string, splits: set<nat>, from: nat, k: nat)
    requires from < k <= |s|
    ensures PiecesAt(s, splits, from, k) != [] && |PiecesAt(s, splits, from, k)[0]| >= k - from
    decreases |s| - k
  {
    if k < |s| { FirstPieceLong(s, splits, from, k + 1); }
  }

  // Two ways of splitting give the same pieces only if they split at the same places: where one splits and the other
  // does not, the piece under way ends for the one and goes on for the other.
  lemma {:induction false} PiecesTellSplits(s: string, a: set<nat>, b: set<nat>, from: nat, k: nat)
    requires from <= k <= |s|
    ensures PiecesAt(s, a, from, k) == PiecesAt(s, b, from, k) <==> forall i :: k <= i < |s| ==> (i in a <==> i in b)
    decreases |s| - k
  {
    if k < |s| {
      if k in a && k in b {
        PiecesTellSplits(s, a, b, k + 1, k + 1);
        assert PiecesAt(s, a, from, k)[1..] == PiecesAt(s, a, k + 1, k + 1);
        assert PiecesAt(s, b, from, k)[1..] == PiecesAt(s, b, k + 1, k + 1);
      } else if k !in a && k !in b {
        PiecesTellSplits(s, a, b, from, k + 1);
      } else {
        FirstPieceLong(s, a, from, k + 1);
        FirstPieceLong(s, b, from, k + 1);
      }
    }
  }

  lemma QuotesAround(s: string, k: nat)
    requires k < |s| && s[k] == ';'
    ensures Count('\'', s) == Count('\'', s[..k]) + Count('\'', s[k + 1..])
  {
    assert s == s[..k] + (";" + s[k + 1..]);
    CountConcat('\'', s[..k], ";" + s[k + 1..]);
    assert (";" + s[k + 1..])[1..] == s[k + 1..];
  }

  lemma RegexSplitsAtEven(s: string, k: nat)
    requires k < |s| && s[k] == ';'
    ensures RegexSplitsAt(s, k) <==> Count('\'', s[k + 1..]) % 2 == 0
  {
    PairedIsEven(s[k + 1..]);
  }

  // At a semicolon the two agree if and only if the quotes of the text are even.
  lemma SplitsAtSemicolon(s: string, k: nat)
    requires k < |s| && s[k] == ';'
    ensures (RegexSplitsAt(s, k) <==> ForwardSplitsAt(s, k)) <==> Count('\'', s) % 2 == 0
  {
    RegexSplitsAtEven(s, k);
    QuotesAround(s, k);
    EvenSum(Count('\'', s[..k]), Count('\'', s[k + 1..]));
  }

  lemma EvenSum(a: nat, b: nat)
    ensures (a + b) % 2 == 0 <==> (a % 2 == 0 <==> b % 2 == 0)
  {}

  // The regular expression splits like a quote-aware scan exactly for the texts whose quotes pair up, apart
  // from texts without a semicolon.
  lemma RegexIsForwardSplit(s: string)
    ensures RegexPieces(s) == ForwardPieces(s) <==> Count('\'', s) % 2 == 0 || ';' !in s
  {
    PiecesTellSplits(s, RegexSplits(s), ForwardSplits(s), 0, 0);
    forall k: nat | k < |s| && s[k] == ';'
      ensures (k in RegexSplits(s) <==> k in ForwardSplits(s)) <==> Count('\'', s) % 2 == 0
    {
      SplitsAtSemicolon(s, k);
    }
    if ';' in s {
      var k: nat :| k < |s| && s[k] == ';';
    }
  }

  // ----- Agreement with the statement splitter of the client shell -----

  function ModeBefore(s: string, k: nat): SqlLexer.Mode
    requires k <= |s|
  {
    SqlLexer.Run(SqlLexer.Normal, s[..k])
  }

  predicate LexerSplitsAt(s: string, k: nat)
    requires k < |s|
  {
    s[k] == ';' && SqlLexer.TopLevel(ModeBefore(s, k))
  }

  function LexerSplits(s: string): set<nat> {
    set k: nat | k < |s| && LexerSplitsAt(s, k)
  }

  // Without the empty piece that a final semicolon leaves behind.
  function DropEmptyLast(p: seq<string>): seq<string> {
    if p != [] && p[|p| - 1] == "" then p[..|p| - 1] else p
  }

  lemma ModeFrom(s: string, from: nat, k: nat)
    requires from <= k <= |s| && ModeBefore(s, from) == SqlLexer.Normal
    ensures SqlLexer.Run(SqlLexer.Normal, s[from..k]) == ModeBefore(s, k)
  {
    assert s[..k] == s[..from] + s[from..k];
    SqlLexer.RunConcat(SqlLexer.Normal, s[..from], s[from..k]);
  }

  lemma NoSplitBefore(s: string, from: nat, end: nat, i: nat)
    requires from <= i < end <= |s| && ModeBefore(s, from) == SqlLexer.Normal
    requires SqlLexer.FirstTop(SqlLexer.Normal, s[from..end]).None?
    ensures i !in LexerSplits(s)
  {
    var u := s[from..end];
    SqlLexer.FirstTopCorrect(SqlLexer.Normal, u);
    ModeFrom(s, from, i);
    assert u[..i - from] == s[from..i] && u[i - from] == s[i];
  }

  // The first top-level semicolon of the rest of the text is the next place where the lexer splits the whole.
  lemma NextSplit(s: string, from: nat)
    requires from <= |s| && ModeBefore(s, from) == SqlLexer.Normal
    ensures match SqlLexer.FirstTop(SqlLexer.Normal, s[from..])
            case None => forall i :: from <= i < |s| ==> i !in LexerSplits(s)
            case Some(k) =>
              && from + k < |s| && from + k in LexerSplits(s) && ModeBefore(s, from + k + 1) == SqlLexer.Normal
              && forall i :: from <= i < from + k ==> i !in LexerSplits(s)
  {
    var t := s[from..];
    var first := SqlLexer.FirstTop(SqlLexer.Normal, t);
    SqlLexer.FirstTopCorrect(SqlLexer.Normal, t);
    var end := if first.Some? then from + first.value else |s|;
    assert s[from..end] == if first.Some? then t[..first.value] else t;
    forall i | from <= i < end ensures i !in LexerSplits(s) {
      NoSplitBefore(s, from, end, i);
    }
    if first.Some? {
      ModeFrom(s, from, end);
      assert s[..end + 1] == s[..end] + [';'];
      SqlLexer.RunSnoc(SqlLexer.Normal, s[..end], ';');
    }
  }

  lemma {:induction false} SkipToSplit(s: string, splits: set<nat>, from: nat, k: nat, end: nat)
    requires from <= k <= end <= |s|
    requires forall i :: k <= i < end ==> i !in splits
    ensures PiecesAt(s, splits, from, k) == PiecesAt(s, splits, from, end)
    decreases end - k
  {
    if k < end { SkipToSplit(s, splits, from, k + 1, end); }
  }

  lemma DropEmptyLastCons(piece: string, more: seq<string>)
    requires more != []
    ensures DropEmptyLast([piece] + more) == [piece] + DropEmptyLast(more)
  {
    var all := [piece] + more;
    assert all[|all| - 1] == more[|more| - 1];
    assert all[..|all| - 1] == [piece] + more[..|more| - 1];
  }

  lemma PiecesStep(t: string, k: nat)
    requires SqlLexer.FirstTop(SqlLexer.Normal, t) == Some(k)
    ensures k < |t| && SqlLexer.Pieces(t) == [t[..k]] + SqlLexer.Pieces(t[k + 1..])
    ensures DropEmptyLast(SqlLexer.Pieces(t)) == [t[..k]] + DropEmptyLast(SqlLexer.Pieces(t[k + 1..]))
  {
    SqlLexer.FirstTopCorrect(SqlLexer.Normal, t);
    DropEmptyLastCons(t[..k], SqlLexer.Pieces(t[k + 1..]));
  }

  // The lexer, started anew behind each semicolon it splits at, splits at all its top-level semicolons.
  lemma {:induction false} LexerPieces(s: string, from: nat)
    requires from <= |s| && ModeBefore(s, from) == SqlLexer.Normal
    ensures DropEmptyLast(SqlLexer.Pieces(s[from..])) == PiecesAt(s, LexerSplits(s), from, from)
    decreases |s| - from
  {
    var t := s[from..];
    NextSplit(s, from);
    match SqlLexer.FirstTop(SqlLexer.Normal, t) {
      case None =>
        SkipToSplit(s, LexerSplits(s), from, from, |s|);
      case Some(k) =>
        var next := from + k + 1;
        SkipToSplit(s, LexerSplits(s), from, from, from + k);
        assert t[..k] == s[from..from + k] && t[k + 1..] == s[next..];
        LexerPieces(s, next);
        PiecesStep(t, k);
    }
  }

  // The regular expression and the shell's statement lexer cut out the same pieces if and only if the semicolons at
  // top level are those with an even number of quotes behind them.
  lemma SplittersAgree(s: string)
    ensures RegexPieces(s) == DropEmptyLast(SqlLexer.Pieces(s)) <==>
              forall k :: 0 <= k < |s| && s[k] == ';' ==>
                (SqlLexer.TopLevel(ModeBefore(s, k)) <==> Count('\'', s[k + 1..]) % 2 == 0)
  {
    assert s[0..] == s && s[..0] == "";
    LexerPieces(s, 0);
    PiecesTellSplits(s, RegexSplits(s), LexerSplits(s), 0, 0);
    forall k: nat | k < |s| && s[k] == ';'
      ensures (k in RegexSplits(s) <==> k in LexerSplits(s)) <==>
                (SqlLexer.TopLevel(ModeBefore(s, k)) <==> Count('\'', s[k + 1..]) % 2 == 0)
    {
      RegexSplitsAtEven(s, k);
    }
    forall k: nat | k < |s| && s[k] != ';' ensures k !in RegexSplits(s) && k !in LexerSplits(s) {}
  }

  // The lexer never meets a double quote or a comment outside single quotes.
  ghost predicate OnlySingleQuotes(s: string) {
    forall k :: 0 <= k <= |s| ==> SqlLexer.TopLevel(ModeBefore(s, k)) || ModeBefore(s, k).Single?
  }

  lemma ModeSnoc(s: string, k: nat)
    requires k < |s|
    ensures ModeBefore(s, k + 1) == SqlLexer.Step(ModeBefore(s, k), s[k])
    ensures Count('\'', s[..k + 1]) == Count('\'', s[..k]) + if s[k] == '\'' then 1 else 0
  {
    var c := s[k];
    assert s[..k + 1] == s[..k] + [c];
    SqlLexer.RunSnoc(SqlLexer.Normal, s[..k], c);
    CountConcat('\'', s[..k], [c]);
    assert [c][1..] == "";
  }

  lemma {:induction false} QuotesTellMode(s: string, k: nat)
    requires OnlySingleQuotes(s) && k <= |s|
    ensures SqlLexer.TopLevel(ModeBefore(s, k)) <==> Count('\'', s[..k]) % 2 == 0
  {
    if k == 0 {
      assert s[..0] == "";
    } else {
      QuotesTellMode(s, k - 1);
      ModeSnoc(s, k - 1);
      assert SqlLexer.TopLevel(ModeBefore(s, k - 1)) || ModeBefore(s, k - 1).Single?;
      assert SqlLexer.TopLevel(ModeBefore(s, k)) || ModeBefore(s, k).Single?;
    }
  }

  // On such a text the lexer is the forward scan, and the regular expression agrees with it if and only if the quotes
  // pair up or there is no semicolon.
  lemma SplittersAgreeOnSingleQuotes(s: string)
    requires OnlySingleQuotes(s)
    ensures ForwardPieces(s) == DropEmptyLast(SqlLexer.Pieces(s))
    ensures RegexPieces(s) == DropEmptyLast(SqlLexer.Pieces(s)) <==> Count('\'', s) % 2 == 0 || ';' !in s
  {
    assert s[0..] == s && s[..0] == "";
    LexerPieces(s, 0);
    forall k: nat ensures k in ForwardSplits(s) <==> k in LexerSplits(s) {
      if k < |s| { QuotesTellMode(s, k); }
    }
    PiecesTellSplits(s, ForwardSplits(s), LexerSplits(s), 0, 0);
    RegexIsForwardSplit(s);
  }

  // Neither a double quote nor two characters that begin a comment, quoted or not.
  predicate PlainQuoting(s: string) {
    '"' !in s && forall i :: 0 < i < |s| ==> !(s[i] == '-' && s[i - 1] == '-') && !(s[i] == '*' && s[i - 1] == '/')
  }

  // Then the lexer does not meet any.
  lemma PlainTextsHaveOnlySingleQuotes(s: string)
    requires PlainQuoting(s)
    ensures OnlySingleQuotes(s)
  {
    forall k | 0 <= k <= |s| ensures SqlLexer.TopLevel(ModeBefore(s, k)) || ModeBefore(s, k).Single? {
      ModeOfPlain(s, k);
    }
  }

  lemma {:induction false} ModeOfPlain(s: string, k: nat)
    requires PlainQuoting(s) && k <= |s|
    ensures var m := ModeBefore(s, k);
            m.Single? || m.Normal? || (m.AfterDash? && k > 0 && s[k - 1] == '-') || (m.AfterSlash? && k > 0 && s[k - 1] == '/')
  {
    if k == 0 {
      assert s[..0] == "";
    } else {
      ModeOfPlain(s, k - 1);
      ModeSnoc(s, k - 1);
      assert s[k - 1] in s;
    }
  }

  // ----- Texts on which they part -----

  // An apostrophe in a comment: the regular expression takes the two statements for one.
  lemma ApostropheInComment()
    ensures RegexPieces("a;--'") == ["a;--'"]
    ensures DropEmptyLast(SqlLexer.Pieces("a;--'")) == ["a", "--'"]
  {
    var s := "a;--'";
    assert s[0] == 'a' && s[1] == ';' && s[2] == '-' && s[3] == '-' && s[4] == '\'';
    RegexTakesAll(s);
    LettersAreTop(s);
    assert LexerSplits(s) == {1};
    SkipToSplit(s, LexerSplits(s), 0, 0, 1);
    SkipToSplit(s, LexerSplits(s), 2, 2, 5);
    assert s[..0] == "" && s[0..] == s && s[0..1] == "a" && s[2..] == "--'";
    LexerPieces(s, 0);
  }

  lemma RegexTakesAll(s: string)
    requires |s| == 5 && s[0] == 'a' && s[1] == ';' && s[2] == '-' && s[3] == '-' && s[4] == '\''
    ensures RegexPieces(s) == [s]
  {
    OneQuoteBehind(s[2..]);
    RegexSplitsAtEven(s, 1);
    forall k: nat ensures k !in RegexSplits(s) {}
    SkipToSplit(s, RegexSplits(s), 0, 0, 5);
    assert s[0..] == s;
  }

  lemma OneQuoteBehind(t: string)
    requires |t| == 3 && t[0] == '-' && t[1] == '-' && t[2] == '\''
    ensures Count('\'', t) == 1
  {
    assert t[1..][1..] == t[2..] && t[2..][1..] == "";
    assert Count('\'', t) == Count('\'', t[1..]) == Count('\'', t[1..][1..]);
  }

  lemma LettersAreTop(s: string)
    requires |s| > 1 && s[0] == 'a' && s[1] == ';'
    ensures LexerSplitsAt(s, 1)
  {
    ModeSnoc(s, 0);
    assert s[..0] == "";
  }

  // ----- Running the pieces -----

  // The loop over the iterator: at an empty piece it goes round again without advancing the iterator.
  datatype Loop = Running(i: nat, log: seq<string>) | Finished(log: seq<string>) | Failed(log: seq<string>)

  function Iterate(commands: seq<string>, ok: (nat, string) -> bool, st: Loop): Loop {
    match st
    case Running(i, log) =>
      if i >= |commands| then Finished(log)
      else if commands[i] == "" then Running(i, log)
      else if !ok(i, commands[i]) then Failed(log + [commands[i]])
      else Running(i + 1, log + [commands[i]])
    case _ => st
  }

  function After(commands: seq<string>, ok: (nat, string) -> bool, n: nat): Loop {
    if n == 0 then Running(0, []) else Iterate(commands, ok, After(commands, ok, n - 1))
  }

  // The first piece, if any, that fails or on which the loop cannot advance.
  function FirstStop(commands: seq<string>, ok: (nat, string) -> bool, i: nat): nat
    decreases |commands| - i
  {
    if i >= |commands| || commands[i] == "" || !ok(i, commands[i]) then i else FirstStop(commands, ok, i + 1)
  }

  predicate Hangs(commands: seq<string>, ok: (nat, string) -> bool) {
    var i := FirstStop(commands, ok, 0);
    i < |commands| && commands[i] == ""
  }

  lemma {:induction false} LoopPrefix(commands: seq<string>, ok: (nat, string) -> bool, n: nat)
    requires n <= FirstStop(commands, ok, 0) <= |commands|
    ensures After(commands, ok, n) == Running(n, commands[..n])
  {
    if n > 0 {
      LoopPrefix(commands, ok, n - 1);
      BeforeFirstStop(commands, ok, 0, n - 1);
      assert commands[..n] == commands[..n - 1] + [commands[n - 1]];
    }
  }

  lemma {:induction false} BeforeFirstStop(commands: seq<string>, ok: (nat, string) -> bool, i: nat, j: nat)
    requires i <= j < FirstStop(commands, ok, i)
    ensures j < |commands| && commands[j] != "" && ok(j, commands[j])
    decreases j - i
  {
    if i < j { BeforeFirstStop(commands, ok, i + 1, j); }
  }

  lemma {:induction false} FirstStopBound(commands: seq<string>, ok: (nat, string) -> bool, i: nat)
    requires i <= |commands|
    ensures i <= FirstStop(commands, ok, i) <= |commands|
    decreases |commands| - i
  {
    if i < |commands| { FirstStopBound(commands, ok, i + 1); }
  }

  lemma StuckForever(commands: seq<string>, ok: (nat, string) -> bool, n: nat)
    requires Hangs(commands, ok)
    ensures After(commands, ok, n).Running?
  {
    FirstStopBound(commands, ok, 0);
    var i := FirstStop(commands, ok, 0);
    if n <= i {
      LoopPrefix(commands, ok, n);
    } else {
      StuckAt(commands, ok, i, n);
    }
  }

  lemma {:induction false} StuckAt(commands: seq<string>, ok: (nat, string) -> bool, i: nat, n: nat)
    requires i == FirstStop(commands, ok, 0) < |commands| && commands[i] == "" && i <= n
    ensures After(commands, ok, n) == Running(i, commands[..i])
  {
    if n == i {
      LoopPrefix(commands, ok, i);
    } else {
      StuckAt(commands, ok, i, n - 1);
    }
  }

  // The loop comes to an end exactly if no empty piece precedes the first failing command.
  lemma TerminatesUnlessEmptyPiece(commands: seq<string>, ok: (nat, string) -> bool)
    ensures (exists n: nat :: !After(commands, ok, n).Running?) <==> !Hangs(commands, ok)
  {
    if Hangs(commands, ok) {
      forall n: nat ensures After(commands, ok, n).Running? { StuckForever(commands, ok, n); }
    } else {
      FirstStopBound(commands, ok, 0);
      var i := FirstStop(commands, ok, 0);
      LoopPrefix(commands, ok, i);
      StopsAt(commands, ok, i);
      assert !After(commands, ok, i + 1).Running?;
    }
  }

  lemma StopsAt(commands: seq<string>, ok: (nat, string) -> bool, i: nat)
    requires i == FirstStop(commands, ok, 0) <= |commands| && !Hangs(commands, ok)
    ensures i == |commands| || (commands[i] != "" && !ok(i, commands[i]))
  {
    FirstStopFound(commands, ok, 0);
  }

  lemma {:induction false} FirstStopFound(commands: seq<string>, ok: (nat, string) -> bool, i: nat)
    requires i <= |commands|
    ensures var j := FirstStop(commands, ok, i); j < |commands| ==> commands[j] == "" || !ok(j, commands[j])
    decreases |commands| - i
  {
    if i < |commands| && commands[i] != "" && ok(i, commands[i]) { FirstStopFound(commands, ok, i + 1); }
  }

  lemma {:induction false} EmptyPieces(s: string, splits: set<nat>, from: nat, k: nat)
    requires from <= k <= |s|
    ensures "" in PiecesAt(s, splits, from, k) <==>
              exists i :: k <= i < |s| && i in splits && (i == from || (i > k && i - 1 in splits))
    decreases |s| - k
  {
    if k < |s| {
      if k in splits {
        EmptyPieces(s, splits, k + 1, k + 1);
        assert k == from <==> s[from..k] == "";
      } else {
        EmptyPieces(s, splits, from, k + 1);
      }
    }
  }

  // A semicolon with an even number of quotes behind it, at the beginning of the text or right behind another.
  predicate IdleSemicolon(s: string, k: nat)
    requires k < |s|
  {
    s[k] == ';' && Count('\'', s[k + 1..]) % 2 == 0 && (k == 0 || s[k - 1] == ';')
  }

  lemma IdleSplits(s: string, k: nat)
    requires k < |s|
    ensures IdleSemicolon(s, k) <==> k in RegexSplits(s) && (k == 0 || k - 1 in RegexSplits(s))
  {
    if s[k] == ';' {
      RegexSplitsAtEven(s, k);
      if k > 0 && s[k - 1] == ';' {
        RegexSplitsAtEven(s, k - 1);
        assert s[k - 1 + 1..][0] == ';' && s[k - 1 + 1..][1..] == s[k + 1..];
      }
    }
  }

  // There is an empty piece if and only if the text has such a semicolon.
  lemma EmptyPieceInText(s: string)
    ensures "" in RegexPieces(s) <==> exists k :: 0 <= k < |s| && IdleSemicolon(s, k)
  {
    EmptyPieces(s, RegexSplits(s), 0, 0);
    var splits := RegexSplits(s);
    if "" in RegexPieces(s) {
      var i :| 0 <= i < |s| && i in splits && (i == 0 || i - 1 in splits);
      IdleSplits(s, i);
    } else if k :| 0 <= k < |s| && IdleSemicolon(s, k) {
      IdleSplits(s, k);
    }
  }

  // So, if no command fails, the loop never ends if and only if the text has one.
  lemma HangsOnText(s: string, ok: (nat, string) -> bool)
    requires forall i, c :: ok(i, c)
    ensures (forall n: nat :: After(RegexPieces(s), ok, n).Running?) <==> exists k :: 0 <= k < |s| && IdleSemicolon(s, k)
  {
    var commands := RegexPieces(s);
    TerminatesUnlessEmptyPiece(commands, ok);
    EmptyPieceInText(s);
    FirstStopBound(commands, ok, 0);
    FirstStopFound(commands, ok, 0);
    if i: nat :| i < |commands| && commands[i] == "" {
      if i < FirstStop(commands, ok, 0) { BeforeFirstStop(commands, ok, 0, i); }
    }
  }

  // The shortest such text, on which no outcome of any command matters.
  lemma HangsOnASemicolon(ok: (nat, string) -> bool, n: nat)
    ensures RegexPieces(";") == [""] && After(RegexPieces(";"), ok, n).Running?
  {
    assert ";"[1..] == "";
    RegexSplitsAtEven(";", 0);
    assert 0 in RegexSplits(";");
    StuckForever([""], ok, n);
  }

  // When it does, each piece has run once and in order, up to the first failing one.
  method RunInitCommands(initSql: string, ok: (nat, string) -> bool) returns (success: bool, log: seq<string>)
    requires !Hangs(RegexPieces(initSql), ok)
    ensures var commands := RegexPieces(initSql);
            var stop := FirstStop(commands, ok, 0);
            && stop <= |commands|
            && success == (stop == |commands|)
            && log == if success then commands else commands[..stop + 1]
  {
    log := [];
    if initSql != "" {
      var commands := RegexPieces(initSql);
      var iter := 0;
      FirstStopBound(commands, ok, 0);
      FirstStopFound(commands, ok, 0);
      while iter < |commands|
        invariant 0 <= iter <= FirstStop(commands, ok, 0)
        invariant log == commands[..iter]
      {
        // The source skips an empty piece without advancing; the precondition keeps such a piece out of reach.
        var initSqlCommand := commands[iter];
        log := log + [initSqlCommand];
        if iter < FirstStop(commands, ok, 0) { BeforeFirstStop(commands, ok, 0, iter); }
        if !ok(iter, initSqlCommand) {
          return false, log;
        }
        iter := iter + 1;
      }
    }
    success := true;
  }
}
