/**
 The lexical structure of the SQL the client shell reads, as an automaton that looks at one character at
 a time: quoted text (a doubled quote closes and reopens it), line comments and block comments. It is the
 reference the incremental scanner of SqlProcessor and the whole-text splitting of ShellLoop are compared with.
 */
module SqlLexer {
  import opened Text

  datatype Mode =
    | Normal | AfterDash | AfterSlash  // outside quotes and comments; the last two remember one character
    | Single | Double                  // inside '...' or "..."
    | Line                             // inside -- ...
    | Block | BlockStar                // inside /* ... */, the second one just after a *

  function Step(m: Mode, c: char): Mode {
    match m
    case Single => if c == '\'' then Normal else Single
    case Double => if c == '"' then Normal else Double
    case Line => if c == '\n' then Normal else Line
    case Block => if c == '*' then BlockStar else Block
    case BlockStar => if c == '/' then Normal else if c == '*' then BlockStar else Block
    case _ =>
      if c == '\'' then Single
      else if c == '"' then Double
      else if c == '-' then (if m == AfterDash then Line else AfterDash)
      else if c == '*' && m == AfterSlash then Block
      else if c == '/' then AfterSlash
      else Normal
  }

  function Run(m: Mode, s: string): Mode
    decreases s
  {
    if s == "" then m else Run(Step(m, s[0]), s[1..])
  }

  predicate TopLevel(m: Mode) {
    m.Normal? || m.AfterDash? || m.AfterSlash?
  }

  // The first semicolon that is outside quotes and comments.
  function FirstTop(m: Mode, s: string): Option<nat>
    decreases s
  {
    if s == "" then None
    else if s[0] == ';' && TopLevel(m) then Some(0)
    else match FirstTop(Step(m, s[0]), s[1..])
      case None => None
      case Some(k) => Some(k + 1)
  }

  // What lies between the top-level semicolons of a text, in order.
  function Pieces(s: string): (p: seq<string>)
  {
    match FirstTop(Normal, s)
    case None => [s]
    case Some(k) =>
      FirstTopCorrect(Normal, s);
      [s[..k]] + Pieces(s[k + 1..])
  }

  lemma {:induction false} RunConcat(m: Mode, a: string, b: string)
    ensures Run(m, a + b) == Run(Run(m, a), b)
    decreases a
  {
    if a == "" {
      assert a + b == b;
    } else {
      assert (a + b)[1..] == a[1..] + b;
      RunConcat(Step(m, a[0]), a[1..], b);
    }
  }

  lemma RunSnoc(m: Mode, a: string, c: char)
    ensures Run(m, a + [c]) == Step(Run(m, a), c)
  {
    RunConcat(m, a, [c]);
    assert [c][1..] == "";
  }

  // FirstTop finds a top-level semicolon, and no earlier one.
  lemma {:induction false} FirstTopCorrect(m: Mode, s: string)
    ensures FirstTop(m, s).Some? ==>
              var k := FirstTop(m, s).value;
              k < |s| && s[k] == ';' && TopLevel(Run(m, s[..k])) && FirstTop(m, s[..k]).None?
    ensures FirstTop(m, s).None? ==> forall k :: 0 <= k < |s| && s[k] == ';' ==> !TopLevel(Run(m, s[..k]))
    decreases s
  {
    if s != "" && !(s[0] == ';' && TopLevel(m)) {
      FirstTopCorrect(Step(m, s[0]), s[1..]);
      forall k | 0 < k <= |s|
        ensures s[..k] != "" && s[..k][0] == s[0] && s[..k][1..] == s[1..][..k - 1]
      {}
      if FirstTop(m, s).None? {
        forall k | 0 <= k < |s| && s[k] == ';' ensures !TopLevel(Run(m, s[..k])) {
          if k == 0 {
            assert s[..k] == "";
          } else {
            assert s[1..][k - 1] == ';';
          }
        }
      }
    }
  }

  lemma {:induction false} FirstTopConcat(m: Mode, a: string, b: string)
    ensures FirstTop(m, a + b) ==
            match FirstTop(m, a)
            case Some(k) => Some(k)
            case None =>
              match FirstTop(Run(m, a), b)
              case None => None
              case Some(k) => Some(|a| + k)
    decreases a
  {
    if a == "" {
      assert a + b == b;
    } else {
      assert (a + b)[1..] == a[1..] + b;
      FirstTopConcat(Step(m, a[0]), a[1..], b);
    }
  }

  // Inside a line comment that never ends there is no top-level semicolon.
  lemma {:induction false} LineStaysLine(s: string)
    requires '\n' !in s
    ensures Run(Line, s) == Line && FirstTop(Line, s).None?
  {
    if s != "" {
      assert s[0] in s;
      LineStaysLine(s[1..]);
    }
  }

  // ----- What the automaton takes for quoted text and for comments -----

  // A stretch of quoted text goes on up to the next quote of its kind.
  lemma {:induction false} InQuotes(q: char, t: string)
    requires (q == '\'' || q == '"') && q !in t
    ensures var m := if q == '\'' then Single else Double; Run(m, t) == m && Run(m, t + [q]) == Normal
  {
    var m := if q == '\'' then Single else Double;
    if t != "" {
      assert t[0] in t;
      InQuotes(q, t[1..]);
    }
    RunSnoc(m, t, q);
  }

  lemma QuotedStretch(m: Mode, q: char, t: string)
    requires TopLevel(m) && (q == '\'' || q == '"') && q !in t
    ensures Run(m, [q] + t) == (if q == '\'' then Single else Double) && Run(m, [q] + t + [q]) == Normal
  {
    InQuotes(q, t);
    assert ([q] + t)[1..] == t && ([q] + t + [q])[1..] == t + [q];
  }

  // Two dashes begin a comment that goes on up to the end of the line.
  lemma LineComment(m: Mode, t: string)
    requires TopLevel(m) && '\n' !in t
    ensures Run(m, "--" + t) == Line && Run(m, "--" + t + "\n") == Normal
  {
    LineStaysLine(t);
    var s := "--" + t;
    assert s[1..][1..] == t;
    assert Run(m, s) == Run(Step(Step(m, '-'), '-'), t);
    RunSnoc(m, s, '\n');
  }

  // No star is followed by a slash.
  predicate NoCommentEnd(t: string) {
    forall k :: 0 <= k < |t| - 1 ==> !(t[k] == '*' && t[k + 1] == '/')
  }

  lemma {:induction false} InBlock(t: string)
    requires NoCommentEnd(t)
    ensures Run(Block, t) == if t != "" && t[|t| - 1] == '*' then BlockStar else Block
  {
    if t != "" {
      var n := |t| - 1;
      InBlock(t[..n]);
      assert t == t[..n] + [t[n]];
      RunSnoc(Block, t[..n], t[n]);
      assert n > 0 ==> t[..n][n - 1] == t[n - 1];
    }
  }

  // A slash and a star begin a comment that goes on up to the next star and slash, even if a slash follows at once.
  lemma BlockComment(m: Mode, t: string)
    requires TopLevel(m) && NoCommentEnd(t)
    ensures Run(m, "/*" + t) == (if t != "" && t[|t| - 1] == '*' then BlockStar else Block)
    ensures Run(m, "/*" + t + "*/") == Normal
  {
    OpensBlock(m);
    ClosesBlock();
    BlockOf(m, "/*", t, "*/");
  }

  lemma BlockOf(m: Mode, a: string, t: string, b: string)
    requires Run(m, a) == Block && NoCommentEnd(t) && Run(Block, b) == Normal && Run(BlockStar, b) == Normal
    ensures Run(m, a + t) == if t != "" && t[|t| - 1] == '*' then BlockStar else Block
    ensures Run(m, a + t + b) == Normal
  {
    InBlock(t);
    Between(m, a, t, b);
  }

  lemma OpensBlock(m: Mode)
    requires TopLevel(m)
    ensures Run(m, "/*") == Block
  {
    RunTwo(m, '/', '*');
    assert "/*" == ['/', '*'];
  }

  lemma ClosesBlock()
    ensures Run(Block, "*/") == Normal && Run(BlockStar, "*/") == Normal
  {
    RunTwo(Block, '*', '/');
    RunTwo(BlockStar, '*', '/');
    assert "*/" == ['*', '/'];
  }

  lemma Between(m: Mode, a: string, t: string, b: string)
    ensures Run(m, a + t) == Run(Run(m, a), t) && Run(m, a + t + b) == Run(Run(Run(m, a), t), b)
  {
    RunConcat(m, a, t);
    RunConcat(m, a + t, b);
  }

  lemma RunTwo(m: Mode, a: char, b: char)
    ensures Run(m, [a, b]) == Step(Step(m, a), b)
  {
    RunSnoc(m, "", a);
    RunSnoc(m, [a], b);
    assert "" + [a] == [a] && [a] + [b] == [a, b];
  }

  // Without quotes, double dashes and slash-stars, nothing is quoted or commented.
  lemma {:induction false} PlainStretch(t: string)
    requires '\'' !in t && '"' !in t
    requires forall k :: 0 < k < |t| ==> !(t[k - 1] == '-' && t[k] == '-') && !(t[k - 1] == '/' && t[k] == '*')
    ensures TopLevel(Run(Normal, t))
    ensures Run(Normal, t) == AfterDash ==> t != "" && t[|t| - 1] == '-'
    ensures Run(Normal, t) == AfterSlash ==> t != "" && t[|t| - 1] == '/'
  {
    if t != "" {
      var n := |t| - 1;
      assert t == t[..n] + [t[n]];
      forall k | 0 <= k < n ensures t[..n][k] == t[k] {}
      PlainStretch(t[..n]);
      RunSnoc(Normal, t[..n], t[n]);
      assert t[n] in t;
    }
  }
}
