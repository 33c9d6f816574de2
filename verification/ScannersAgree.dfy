/**
 The server's rewriter and the client's lexer are written independently. What they have to agree on is what is quoted:
 the rewriter must leave exactly the lexer's quoted text alone, and replace a call only where the lexer is outside
 quotes and comments. The rewriter knows backslashes and no comments, the lexer comments and no backslashes; here it
 is said, for every text, exactly when that makes a difference.
 */
module ScannersAgree {
  import opened Text
  import opened SqlLexer
  import opened FunctionRewriter

  // The lexer's mode at a position of the text.
  function LexerMode(s: string, k: nat): Mode
    requires k <= |s|
  {
    Run(Normal, s[..k])
  }

  predicate InComment(m: Mode) {
    m.Line? || m.Block? || m.BlockStar?
  }

  predicate InQuotes(m: Mode) {
    m.Single? || m.Double?
  }

  predicate Inside(s: string, k: nat, q: char)
    requires k <= |s|
  {
    LexerMode(s, k) == if q == '\'' then Single else Double
  }

  // A quoted region begins at top level and lies inside the lexer's quotes; a call lies at top level; any other
  // character lies outside the lexer's quotes.
  predicate SegmentAgrees(table: seq<Entry>, s: string, i: nat, next: nat)
    requires i < next <= |s|
  {
    if IsQuote(s[i]) then RegionInside(s, i, next)
    else if FindCall(table, s, i).Some? then forall k :: i <= k < next ==> TopLevel(LexerMode(s, k))
    else !InQuotes(LexerMode(s, i))
  }

  predicate RegionInside(s: string, i: nat, next: nat)
    requires i < next <= |s|
  {
    TopLevel(LexerMode(s, i)) && forall k :: i < k < next ==> Inside(s, k, s[i])
  }

  function Next(table: seq<Entry>, s: string, i: nat): (n: nat)
    requires i < |s|
    ensures i < n <= |s|
  {
    i + |Source(SegmentAt(table, s, i))|
  }

  // All segments from position i on agree.
  predicate Agree(table: seq<Entry>, s: string, i: nat)
    requires i <= |s|
    decreases |s| - i
  {
    i == |s| || (SegmentAgrees(table, s, i, Next(table, s, i)) && Agree(table, s, Next(table, s, i)))
  }

  // How many backslashes stand immediately before position k, none of them before position i.
  function Backslashes(s: string, i: nat, k: nat): (n: nat)
    requires i <= k <= |s|
    ensures n <= k - i
  {
    if i < k && s[k - 1] == '\\' then 1 + Backslashes(s, i, k - 1) else 0
  }

  // At this position the scanners part.
  predicate Clash(table: seq<Entry>, s: string, k: nat)
    requires k < |s|
  {
    ProtectedQuote(s, k) || Commented(table, s, k)
  }

  // A quote that ends quoted text for the lexer is protected by a backslash for the rewriter, and text follows.
  predicate ProtectedQuote(s: string, k: nat)
    requires k < |s|
  {
    IsQuote(s[k]) && Inside(s, k, s[k]) && Backslashes(s, 0, k) % 2 == 1 && k + 1 < |s|
  }

  // A quote or a call stands in a comment.
  predicate Commented(table: seq<Entry>, s: string, k: nat)
    requires k < |s|
  {
    InComment(LexerMode(s, k)) && (IsQuote(s[k]) || FindCall(table, s, k).Some?)
  }

  ghost predicate NoClashFrom(table: seq<Entry>, s: string, i: nat) {
    forall k :: i <= k < |s| ==> !Clash(table, s, k)
  }

  // The names of calls are words: nothing in them begins or ends quotes or comments.
  predicate WordNames(table: seq<Entry>) {
    forall e :: e in table ==> IsWord(e.name)
  }

  predicate IsWord(name: string) {
    forall k :: 0 <= k < |name| ==> IsWordChar(name[k])
  }

  predicate IsWordChar(c: char) {
    c != '\'' && c != '"' && c != '-' && c != '/' && c != '*'
  }

  lemma ModeStep(s: string, k: nat)
    requires k < |s|
    ensures LexerMode(s, k + 1) == SqlLexer.Step(LexerMode(s, k), s[k])
  {
    assert s[..k + 1] == s[..k] + [s[k]];
    RunSnoc(Normal, s[..k], s[k]);
  }

  // ----- Backslashes -----

  lemma {:induction false} BackslashesFront(s: string, i: nat, k: nat)
    requires i < k <= |s|
    ensures Backslashes(s, i, k) ==
              Backslashes(s, i + 1, k) + if s[i] == '\\' && Backslashes(s, i + 1, k) == k - (i + 1) then 1 else 0
  {
    if i + 1 < k && s[k - 1] == '\\' { BackslashesFront(s, i, k - 1); }
  }

  lemma {:induction false} BackslashesAfter(s: string, i: nat, k: nat)
    requires i < k <= |s| && s[i] != '\\'
    ensures Backslashes(s, 0, k) == Backslashes(s, i + 1, k)
  {
    if i + 1 < k && s[k - 1] == '\\' { BackslashesAfter(s, i, k - 1); }
  }

  // The rewriter stops at the first quote unless an odd number of backslashes protects it.
  lemma {:induction false} RegionEndsAtQuote(q: char, s: string, i: nat, e: nat)
    requires IsQuote(q) && i <= e < |s| && s[e] == q && forall j :: i <= j < e ==> s[j] != q
    ensures RegionEnd(q, s, i) == if Backslashes(s, i, e) % 2 == 0 then e + 1 else RegionEnd(q, s, e + 1)
    decreases e - i
  {
    if i < e {
      BackslashesFront(s, i, e);
      if s[i] != '\\' {
        RegionEndsAtQuote(q, s, i + 1, e);
      } else if i + 1 < e {
        BackslashesFront(s, i + 1, e);
        RegionEndsAtQuote(q, s, i + 2, e);
      }
    }
  }

  lemma {:induction false} NoMoreQuotes(q: char, s: string, i: nat)
    requires i <= |s| && q != '\\' && forall j :: i <= j < |s| ==> s[j] != q
    ensures RegionEnd(q, s, i) == |s|
    decreases |s| - i
  {
    if i < |s| { NoMoreQuotes(q, s, if s[i] == '\\' && i + 1 < |s| then i + 2 else i + 1); }
  }

  // ----- One segment -----

  lemma {:induction false} StaysInside(s: string, q: char, i: nat, k: nat)
    requires IsQuote(q) && i <= k <= |s| && Inside(s, i, q)
    requires forall j :: i <= j < k ==> s[j] != q
    ensures Inside(s, k, q)
    decreases k - i
  {
    if i < k {
      ModeStep(s, i);
      StaysInside(s, q, i + 1, k);
    }
  }

  lemma {:induction false} StaysTopLevel(s: string, i: nat, k: nat)
    requires i <= k <= |s| && TopLevel(LexerMode(s, i)) && forall j :: i <= j < k ==> IsWordChar(s[j])
    ensures TopLevel(LexerMode(s, k))
    decreases k - i
  {
    if i < k {
      ModeStep(s, i);
      StaysTopLevel(s, i + 1, k);
    }
  }

  // Where the first quote of this kind is from position i on, or the end of the text.
  function FirstQuote(q: char, s: string, i: nat): (e: nat)
    requires i <= |s|
    ensures i <= e <= |s| && (e < |s| ==> s[e] == q) && forall j :: i <= j < e ==> s[j] != q
    decreases |s| - i
  {
    if i == |s| || s[i] == q then i else FirstQuote(q, s, i + 1)
  }

  lemma QuotedModes(s: string, i: nat)
    requires i < |s| && IsQuote(s[i]) && TopLevel(LexerMode(s, i))
    ensures var e := FirstQuote(s[i], s, i + 1);
            && (forall k :: i < k <= e ==> Inside(s, k, s[i]))
            && (e < |s| ==> LexerMode(s, e + 1) == Normal)
  {
    var q, e := s[i], FirstQuote(s[i], s, i + 1);
    ModeStep(s, i);
    forall k | i < k <= e ensures Inside(s, k, q) { StaysInside(s, q, i + 1, k); }
    assert Inside(s, e, q);
    if e < |s| { ModeStep(s, e); }
  }

  // A region agrees if and only if the quote that ends it is not protected; if it does, the lexer is outside quotes
  // after it.
  lemma RegionAgrees(s: string, i: nat)
    requires i < |s| && IsQuote(s[i]) && TopLevel(LexerMode(s, i))
    ensures var (e, next) := (FirstQuote(s[i], s, i + 1), RegionEnd(s[i], s, i + 1));
            && next <= |s|
            && (RegionInside(s, i, next) <==> e == |s| || !ProtectedQuote(s, e))
            && (RegionInside(s, i, next) ==>
                  next == (if e == |s| then e else e + 1) && (next < |s| ==> LexerMode(s, next) == Normal))
  {
    var e := FirstQuote(s[i], s, i + 1);
    QuotedModes(s, i);
    if e == |s| {
      NoMoreQuotes(s[i], s, i + 1);
    } else {
      ClosingQuote(s, i, e);
      RegionDecides(s, i, e, RegionEnd(s[i], s, i + 1));
    }
  }

  lemma RegionDecides(s: string, i: nat, e: nat, next: nat)
    requires i < e < |s| && IsQuote(s[i]) && TopLevel(LexerMode(s, i)) && e < next <= |s| && LexerMode(s, e + 1) == Normal
    requires forall k :: i < k <= e ==> Inside(s, k, s[i])
    ensures RegionInside(s, i, next) <==> next == e + 1
  {
    if next > e + 1 { assert !Inside(s, e + 1, s[i]); }
  }

  // No clash in a region but at the quote that ends it.
  lemma NoClashInside(table: seq<Entry>, s: string, i: nat, e: nat)
    requires i < e <= |s| && IsQuote(s[i]) && TopLevel(LexerMode(s, i))
    requires forall k :: i < k < e ==> Inside(s, k, s[i]) && s[k] != s[i]
    ensures forall k :: i <= k < e ==> !Clash(table, s, k)
  {
    forall k | i < k < e ensures !Clash(table, s, k) {
      assert Inside(s, k, s[i]) && s[k] != s[i];
    }
  }

  // The rewriter's region goes on behind the quote that ends the lexer's if and only if it is protected.
  lemma ClosingQuote(s: string, i: nat, e: nat)
    requires i < e < |s| && IsQuote(s[i]) && s[e] == s[i] && Inside(s, e, s[i])
    requires forall j :: i < j < e ==> s[j] != s[i]
    ensures var end := RegionEnd(s[i], s, i + 1);
            if ProtectedQuote(s, e) then end > e + 1 else end == e + 1
  {
    RegionEndsAtQuote(s[i], s, i + 1, e);
    BackslashesAfter(s, i, e);
    if e + 1 < |s| { RegionGoesOn(s[i], s, e + 1); }
  }

  lemma RegionGoesOn(q: char, s: string, i: nat)
    requires i < |s|
    ensures RegionEnd(q, s, i) > i
  {}

  lemma CallIsAWord(table: seq<Entry>, s: string, i: nat)
    requires WordNames(table) && i < |s| && !IsQuote(s[i]) && FindCall(table, s, i).Some?
    ensures forall k :: i <= k < Next(table, s, i) ==> IsWordChar(s[k])
  {
    FindCallCorrect(table, s, i);
    var e := FindCall(table, s, i).value;
    NameAtSuffix(s, i, e.name);
    forall k | i <= k < i + |e.name| ensures IsWordChar(s[k]) {
      assert Upper(s[i + (k - i)]) == e.name[k - i];
    }
  }

  // A call agrees if and only if it is not in a comment.
  lemma CallAgrees(table: seq<Entry>, s: string, i: nat)
    requires WordNames(table) && i < |s| && !IsQuote(s[i]) && FindCall(table, s, i).Some? && !InQuotes(LexerMode(s, i))
    ensures var next := Next(table, s, i);
            if InComment(LexerMode(s, i)) then Clash(table, s, i) && !SegmentAgrees(table, s, i, next)
            else
              && SegmentAgrees(table, s, i, next) && TopLevel(LexerMode(s, next))
              && forall k :: i <= k < next ==> !Clash(table, s, k)
  {
    if !InComment(LexerMode(s, i)) {
      var next := Next(table, s, i);
      CallIsAWord(table, s, i);
      forall k | i <= k <= next ensures TopLevel(LexerMode(s, k)) { StaysTopLevel(s, i, k); }
    }
  }

  // ----- The whole text -----

  lemma {:induction false} AgreeFrom(table: seq<Entry>, s: string, i: nat)
    requires WordNames(table) && i <= |s| && (i < |s| ==> !InQuotes(LexerMode(s, i)))
    ensures Agree(table, s, i) <==> NoClashFrom(table, s, i)
    decreases |s| - i
  {
    if i < |s| {
      var next := Next(table, s, i);
      if IsQuote(s[i]) {
        RegionFrom(table, s, i);
      } else if FindCall(table, s, i).Some? {
        CallAgrees(table, s, i);
        if !InComment(LexerMode(s, i)) { AgreeFrom(table, s, next); }
      } else {
        ModeStep(s, i);
        AgreeFrom(table, s, next);
      }
    }
  }

  lemma RegionStep(table: seq<Entry>, s: string, i: nat)
    requires i < |s| && IsQuote(s[i])
    ensures Agree(table, s, i) <==>
              RegionInside(s, i, RegionEnd(s[i], s, i + 1)) && Agree(table, s, RegionEnd(s[i], s, i + 1))
  {
    assert Next(table, s, i) == RegionEnd(s[i], s, i + 1);
  }

  lemma {:induction false} RegionFrom(table: seq<Entry>, s: string, i: nat)
    requires WordNames(table) && i < |s| && IsQuote(s[i]) && !InQuotes(LexerMode(s, i))
    ensures Agree(table, s, i) <==> NoClashFrom(table, s, i)
    decreases |s| - i, 0
  {
    RegionStep(table, s, i);
    if InComment(LexerMode(s, i)) {
      assert Clash(table, s, i);
    } else {
      RegionClash(table, s, i);
      var next := RegionEnd(s[i], s, i + 1);
      if RegionInside(s, i, next) {
        AgreeFrom(table, s, next);
        NoClashSplits(table, s, i, next);
      }
    }
  }

  lemma NoClashSplits(table: seq<Entry>, s: string, i: nat, next: nat)
    requires i <= next <= |s| && forall k :: i <= k < next ==> !Clash(table, s, k)
    ensures NoClashFrom(table, s, i) <==> NoClashFrom(table, s, next)
  {}

  // A region agrees if there is no clash in it, and otherwise there is one at the quote that ends it.
  lemma RegionClash(table: seq<Entry>, s: string, i: nat)
    requires i < |s| && IsQuote(s[i]) && TopLevel(LexerMode(s, i))
    ensures var (e, next) := (FirstQuote(s[i], s, i + 1), RegionEnd(s[i], s, i + 1));
            if RegionInside(s, i, next) then
              (next < |s| ==> LexerMode(s, next) == Normal) && forall k :: i <= k < next ==> !Clash(table, s, k)
            else e < |s| && Clash(table, s, e)
  {
    var e := FirstQuote(s[i], s, i + 1);
    QuotedModes(s, i);
    NoClashInside(table, s, i, e);
    RegionAgrees(s, i);
    assert Inside(s, e, s[i]);
  }

  // The rewriter and the lexer agree on a text if and only if nowhere in it does a backslash protect a quote that
  // ends quoted text before the end, or a quote or a call stand in a comment.
  lemma RewriterAndLexerAgree(table: seq<Entry>, s: string)
    requires WordNames(table)
    ensures Agree(table, s, 0) <==> forall k :: 0 <= k < |s| ==> !Clash(table, s, k)
  {
    assert s[..0] == "";
    AgreeFrom(table, s, 0);
  }

  // A text without backslashes and comments.
  predicate Shared(s: string) {
    forall k :: 0 <= k < |s| ==>
      && s[k] != '\\'
      && (k > 0 ==> !(s[k - 1] == '-' && s[k] == '-') && !(s[k - 1] == '/' && s[k] == '*'))
  }

  lemma {:induction false} NeverInComment(s: string, k: nat)
    requires Shared(s) && k <= |s|
    ensures var m := LexerMode(s, k);
            && !InComment(m)
            && (m.AfterDash? ==> k > 0 && s[k - 1] == '-') && (m.AfterSlash? ==> k > 0 && s[k - 1] == '/')
  {
    if k == 0 {
      assert s[..0] == "";
    } else {
      NeverInComment(s, k - 1);
      ModeStep(s, k - 1);
    }
  }

  // On such a text they always agree, and the lexer is at top level wherever the rewriter is not in a region.
  lemma SharedTextsAgree(table: seq<Entry>, s: string)
    requires WordNames(table) && Shared(s)
    ensures Agree(table, s, 0) && forall k :: 0 <= k <= |s| ==> TopLevel(LexerMode(s, k)) || InQuotes(LexerMode(s, k))
  {
    RewriterAndLexerAgree(table, s);
    forall k | 0 <= k <= |s| ensures !InComment(LexerMode(s, k)) { NeverInComment(s, k); }
    forall k | 0 <= k < |s| ensures !Clash(table, s, k) {
      assert k > 0 ==> s[k - 1] != '\\';
    }
  }

  // The names the server knows are words.
  lemma ServerNamesAreWords(v: Values)
    ensures WordNames(Table(v))
  {
    InstrumentationNames();
    WordSession();
    WordInstance();
    WordVersion();
    WordUser();
    WordRole();
    WordEdition();
    WordInstrumentation("ENABLED()");
    WordInstrumentation("CATALOG()");
    WordInstrumentation("SCHEMA()");
    forall e | e in Table(v) ensures IsWord(e.name) {}
  }

  lemma WordSession() ensures IsWord("GIZMOSQL_CURRENT_SESSION()") {}

  lemma WordInstance() ensures IsWord("GIZMOSQL_CURRENT_INSTANCE()") {}

  lemma WordVersion() ensures IsWord("GIZMOSQL_VERSION()") {}

  lemma WordUser() ensures IsWord("GIZMOSQL_USER()") {}

  lemma WordRole() ensures IsWord("GIZMOSQL_ROLE()") {}

  lemma WordEdition() ensures IsWord("GIZMOSQL_EDITION()") {}

  lemma WordInstrumentation(tail: string)
    requires IsWord(tail)
    ensures IsWord(INSTRUMENTATION + tail)
  {
    assert IsWord(INSTRUMENTATION);
  }

  // ----- Texts on which they part -----

  // To the rewriter the backslash protects the quote after it.
  lemma BackslashesAreNotShared(table: seq<Entry>, call: string)
    requires '\'' !in call
    ensures var s := "'\\'" + call; Rewritten(table, s) == s && TopLevel(LexerMode(s, 3))
  {
    var s := "'\\'" + call;
    assert s[0] == '\'' && s[1] == '\\' && s[2] == '\'';
    NoMoreQuotes('\'', s, 3);
    LastRegion(table, s, 0);
    assert s[0..] == s;
    assert s[..0] == "";
    ModeStep(s, 0);
    ModeStep(s, 1);
    ModeStep(s, 2);
  }

  // An apostrophe in a comment: the rewriter takes what follows the comment for quoted.
  lemma CommentsAreNotShared(table: seq<Entry>, call: string)
    requires '\'' !in call && forall e :: e in table ==> e.name != "" && e.name[0] == 'G'
    ensures var s := "--'\n" + call; Rewritten(table, s) == s && TopLevel(LexerMode(s, 4))
  {
    var s := "--'\n" + call;
    assert s[0] == '-' && s[1] == '-' && s[2] == '\'' && s[3] == '\n';
    NoMoreQuotes('\'', s, 3);
    DashesAndRegion(table, s);
    ModesOfComment(s);
  }

  lemma DashesAndRegion(table: seq<Entry>, s: string)
    requires |s| > 2 && s[0] == '-' && s[1] == '-' && IsQuote(s[2]) && RegionEnd(s[2], s, 3) == |s|
    requires forall e :: e in table ==> e.name != "" && e.name[0] == 'G'
    ensures Rewritten(table, s) == s
  {
    LastRegion(table, s, 2);
    DashStays(table, s, 1);
    DashStays(table, s, 0);
    assert s[0..] == s;
  }

  lemma ModesOfComment(s: string)
    requires |s| >= 4 && s[0] == '-' && s[1] == '-' && s[2] == '\'' && s[3] == '\n'
    ensures LexerMode(s, 4) == Normal
  {
    assert s[..0] == "";
    ModeStep(s, 0);
    ModeStep(s, 1);
    ModeStep(s, 2);
    ModeStep(s, 3);
  }

  lemma LastRegion(table: seq<Entry>, s: string, i: nat)
    requires i < |s| && IsQuote(s[i]) && RegionEnd(s[i], s, i + 1) == |s|
    ensures Images(Segments(table, s, i)) == s[i..]
  {
    SegmentsStep(table, s, i);
    var rest := Segments(table, s, |s|);
    assert rest == Nil && Segments(table, s, i) == Cons(Region(s[i..|s|]), rest);
    assert s[i..|s|] == s[i..] && Images(Cons(Region(s[i..]), Nil)) == s[i..] + "" == s[i..];
  }

  lemma DashStays(table: seq<Entry>, s: string, i: nat)
    requires i < |s| && s[i] == '-' && forall e :: e in table ==> e.name != "" && e.name[0] == 'G'
    requires Images(Segments(table, s, i + 1)) == s[i + 1..]
    ensures Images(Segments(table, s, i)) == s[i..]
  {
    NoCallAtDash(table, s, i);
    SegmentsStep(table, s, i);
    assert s[i..] == "-" + s[i + 1..];
  }

  lemma NoCallAtDash(table: seq<Entry>, s: string, i: nat)
    requires i < |s| && s[i] == '-' && forall e :: e in table ==> e.name != "" && e.name[0] == 'G'
    ensures SegmentAt(table, s, i) == Plain('-')
  {
    FindCallCorrect(table, s, i);
    forall e | e in table ensures !CallAt(s[i..], e.name) { assert Upper(s[i..][0]) != e.name[0 + 0]; }
  }
}
