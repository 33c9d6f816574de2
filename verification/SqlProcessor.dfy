/**
 The statement accumulator of the client shell: lines arrive one at a time, are joined into a buffer, and only
 the new line is scanned, resuming from three flags.
 */
module SqlProcessor {
  import opened Text
  import opened SqlLexer

  // What the three flags remember of a lexer mode between two lines.
  function AfterLine(m: Mode): Mode {
    Step(m, '\n')
  }

  // The buffer after one more line.
  function Joined(buffer: string, line: string): string {
    if buffer == "" then line else buffer + "\n" + line
  }

  // What the scanner finds at a position: some characters to skip, or a reason to stop.
  datatype Found = Characters(n: nat) | LineComment | TopSemicolon

  class Processor {
    var buffer: string
    var semicolonPos: Option<nat>
    var inSingleQuote: bool
    var inDoubleQuote: bool
    var inBlockComment: bool

    // The mode in which the scan of the next line starts.
    ghost function Flags(): Mode
      reads this
    {
      if inBlockComment then Block else if inSingleQuote then Single else if inDoubleQuote then Double else Normal
    }

    ghost predicate AtMostOneFlag()
      reads this
    {
      !(inSingleQuote && inDoubleQuote) && !(inSingleQuote && inBlockComment) && !(inDoubleQuote && inBlockComment)
    }

    // The flags summarise a one-pass lexer run over the whole buffer, which has met no top-level semicolon
    // unless semicolonPos is set, and then that is the first one.
    ghost predicate Valid()
      reads this
    {
      && AtMostOneFlag()
      && FirstTop(Normal, buffer) == semicolonPos
      && match semicolonPos
         case None => Flags() == AfterLine(Run(Normal, buffer))
         case Some(p) => p < |buffer| && '\n' !in buffer[p..] && Flags() == Normal
    }

    constructor ()
      ensures Valid() && buffer == "" && semicolonPos == None
    {
      buffer, semicolonPos := "", None;
      inSingleQuote, inDoubleQuote, inBlockComment := false, false, false;
    }

    method AccumulateLine(line: string) returns (complete: bool)
      requires Valid() && semicolonPos == None
      requires '\n' !in line
      modifies this
      ensures Valid()
      ensures buffer == Joined(old(buffer), line)
      ensures complete <==> semicolonPos.Some?
    {
      ghost var m := StartOfLine(buffer, line);
      if buffer != "" {
        buffer := buffer + "\n";
      }
      ghost var base := |buffer|;
      buffer := buffer + line;
      ghost var end;
      complete, end := Scan(|buffer| - |line|, m);
      assert buffer[end..] == line[end - base..];
      ScannedToTheEnd(buffer, complete, end, Flags());
    }

    // The scanning loop of AccumulateLine, from position start on. It stops at a top-level semicolon, at the
    // end of the buffer or at the beginning of a line comment.
    method Scan(start: nat, ghost m0: Mode) returns (complete: bool, ghost end: nat)
      requires start <= |buffer| && semicolonPos == None && AtMostOneFlag()
      requires ModeAt(buffer, start) == Some(m0) && Flags() == m0
      modifies `semicolonPos, `inSingleQuote, `inDoubleQuote, `inBlockComment
      ensures AtMostOneFlag() && start <= end <= |buffer| && Scanned(buffer, complete, end, Flags())
      ensures semicolonPos == if complete then Some(end) else None
    {
      ghost var m, text := m0, buffer;
      var i := start;
      while i < |buffer|
        invariant start <= i <= |text| && semicolonPos == None && AtMostOneFlag() && buffer == text
        invariant BetweenTokens(text, i, m) && Flags() == Flagged(m)
      {
        var next := if i + 1 < |buffer| then buffer[i + 1] else 0 as char;
        var found := ScanToken(buffer[i], next);
        match found
        case TopSemicolon =>
          semicolonPos := Some(i);
          return true, i;
        case LineComment =>
          m := TokenStep(text, i, m);
          return false, i + 2;
        case Characters(n) =>
          m := TokenStep(text, i, m);
          i := i + n;
      }
      FlagsForget(m);
      return false, i;
    }

    // One round of the loop: what stands at the current position, given the next character, and its effect on the flags.
    method ScanToken(c: char, next: char) returns (found: Found)
      requires AtMostOneFlag()
      modifies `inSingleQuote, `inDoubleQuote, `inBlockComment
      ensures AtMostOneFlag()
      ensures found.TopSemicolon? <==> c == ';' && old(Flags()) == Normal
      ensures if found.Characters? then found.n > 0 else Flags() == Normal
      ensures found.LineComment? ==> Token(old(Flags()), c, next) == (Line, 2)
      ensures found.Characters? ==> Token(old(Flags()), c, next) == (Flags(), found.n)
    {
      found := Characters(1);
      if inBlockComment {
        if c == '*' && next == '/' {
          inBlockComment := false;
          found := Characters(2);
        }
      } else if inSingleQuote {
        if c == '\'' && next == '\'' {
          found := Characters(2);
        } else if c == '\'' {
          inSingleQuote := false;
        }
      } else if inDoubleQuote {
        if c == '"' && next == '"' {
          found := Characters(2);
        } else if c == '"' {
          inDoubleQuote := false;
        }
      } else if c == '\'' {
        inSingleQuote := true;
      } else if c == '"' {
        inDoubleQuote := true;
      } else if c == '-' && next == '-' {
        found := LineComment;
      } else if c == '/' && next == '*' {
        inBlockComment := true;
        found := Characters(2);
      } else if c == ';' {
        found := TopSemicolon;
      }
    }

    method GetStatement() returns (stmt: string)
      requires Valid()
      ensures stmt == TrimRight(Before(buffer, semicolonPos))
    {
      if semicolonPos.Some? {
        stmt := buffer[..semicolonPos.value];
      } else {
        stmt := buffer;
      }
      while stmt != "" && IsSpace(stmt[|stmt| - 1])
        invariant TrimRight(stmt) == TrimRight(Before(buffer, semicolonPos))
        decreases |stmt|
      {
        stmt := stmt[..|stmt| - 1];
      }
    }

    method GetRemainder() returns (remainder: string)
      requires Valid()
      ensures semicolonPos == None ==> remainder == ""
      ensures semicolonPos.Some? ==> remainder == SkipBlanks(buffer[semicolonPos.value + 1..])
    {
      if semicolonPos.Some? && semicolonPos.value + 1 < |buffer| {
        remainder := buffer[semicolonPos.value + 1..];
        var start := 0;
        assert remainder[0..] == remainder;
        while start < |remainder| && remainder[start] in " \t\n\r"
          invariant 0 <= start <= |remainder| && SkipBlanks(remainder[start..]) == SkipBlanks(remainder)
        {
          assert remainder[start..][1..] == remainder[start + 1..];
          start := start + 1;
        }
        remainder := remainder[start..];
      } else {
        remainder := "";
      }
    }

    method Reset()
      modifies this
      ensures Valid() && buffer == "" && semicolonPos == None
    {
      buffer, semicolonPos := "", None;
      inSingleQuote, inDoubleQuote, inBlockComment := false, false, false;
    }

    method IsAccumulating() returns (b: bool)
      ensures b <==> buffer != ""
    {
      b := buffer != "";
    }
  }

  function Before(s: string, p: Option<nat>): string
    requires p.Some? ==> p.value <= |s|
  {
    match p
    case None => s
    case Some(k) => s[..k]
  }

  // The text from the first character on that is not one of " \t\n\r".
  function SkipBlanks(s: string): string {
    if s != "" && s[0] in " \t\n\r" then SkipBlanks(s[1..]) else s
  }

  lemma {:induction false} SkipBlanksSplits(s: string) returns (w: string)
    ensures s == w + SkipBlanks(s)
    ensures forall k :: 0 <= k < |w| ==> IsSpace(w[k])
  {
    if s != "" && s[0] in " \t\n\r" {
      var w' := SkipBlanksSplits(s[1..]);
      w := [s[0]] + w';
    } else {
      w := "";
    }
  }

  // The mode the three flags stand for: they forget a single character that might begin a token.
  function Flagged(m: Mode): Mode {
    match m
    case AfterDash => Normal
    case AfterSlash => Normal
    case BlockStar => Block
    case _ => m
  }

  // c is the second character of a two-character token whose first one is behind mode m.
  predicate Completes(m: Mode, c: char) {
    (m.AfterDash? && c == '-') || (m.AfterSlash? && c == '*') || (m.BlockStar? && c == '/')
  }

  // The scanner sees a whole token at a time: its effect on the flags and its length.
  function Token(flags: Mode, c: char, next: char): (Mode, nat) {
    match flags
    case Block => if c == '*' && next == '/' then (Normal, 2) else (Block, 1)
    case Single => if c == '\'' then (if next == '\'' then (Single, 2) else (Normal, 1)) else (Single, 1)
    case Double => if c == '"' then (if next == '"' then (Double, 2) else (Normal, 1)) else (Double, 1)
    case _ =>
      if c == '\'' then (Single, 1)
      else if c == '"' then (Double, 1)
      else if c == '-' && next == '-' then (Line, 2)
      else if c == '/' && next == '*' then (Block, 2)
      else (Normal, 1)
  }

  // The character the scanner looks ahead to.
  function Next(s: string, i: nat): char {
    if i + 1 < |s| then s[i + 1] else 0 as char
  }

  // The lexer reaches position i in mode m, and no token reaches across it.
  ghost predicate BetweenTokens(s: string, i: nat, m: Mode) {
    i <= |s| && ModeAt(s, i) == Some(m) && m != Line && (i < |s| ==> !Completes(m, s[i]))
  }

  // What the flags forget does not matter at the end of a line.
  lemma FlagsForget(m: Mode)
    ensures Step(Flagged(m), '\n') == Step(m, '\n')
  {}

  lemma TokenStep(s: string, i: nat, m: Mode) returns (m': Mode)
    requires i < |s| && BetweenTokens(s, i, m)
    requires !(s[i] == ';' && Flagged(m) == Normal)
    ensures var (f, n) := Token(Flagged(m), s[i], Next(s, i));
            && i + n <= |s| && ModeAt(s, i + n) == Some(m') && Flagged(m') == f
            && (m' != Line ==> BetweenTokens(s, i + n, m'))
  {
    var (f, n) := Token(Flagged(m), s[i], Next(s, i));
    m' := Step(m, s[i]);
    assert ModeAt(s, i + 1) == Some(m');
    if n == 2 {
      m' := Step(m', s[i + 1]);
    }
  }

  // The mode in which the lexer reaches position i of s, unless it meets a top-level semicolon before.
  function ModeAt(s: string, i: nat): Option<Mode>
    requires i <= |s|
  {
    if i == 0 then Some(Normal)
    else match ModeAt(s, i - 1)
      case None => None
      case Some(m) => if s[i - 1] == ';' && TopLevel(m) then None else Some(Step(m, s[i - 1]))
  }

  lemma {:induction false} ModeAtPrefix(s: string, i: nat)
    requires i <= |s|
    ensures ModeAt(s, i) == if FirstTop(Normal, s[..i]) == None then Some(Run(Normal, s[..i])) else None
  {
    if i != 0 {
      ModeAtPrefix(s, i - 1);
      var c := s[i - 1];
      assert s[..i] == s[..i - 1] + [c];
      RunSnoc(Normal, s[..i - 1], c);
      FirstTopConcat(Normal, s[..i - 1], [c]);
      assert [c][1..] == "";
    }
  }

  lemma ModeAtEnd(s: string)
    ensures ModeAt(s, |s|) == if FirstTop(Normal, s) == None then Some(Run(Normal, s)) else None
  {
    ModeAtPrefix(s, |s|);
    assert s[..|s|] == s;
  }

  // The scan of a line has ended at this position with these flags: at a top-level semicolon, at the beginning of a
  // line comment or at the end of the text.
  ghost predicate Scanned(s: string, complete: bool, end: nat, flags: Mode) {
    && end <= |s| && ModeAt(s, end).Some?
    && if complete then end < |s| && s[end] == ';' && TopLevel(ModeAt(s, end).value) && flags == Normal
       else if end < |s| then ModeAt(s, end) == Some(Line) && flags == Normal
       else AfterLine(flags) == AfterLine(ModeAt(s, end).value)
  }

  lemma ScannedToTheEnd(s: string, complete: bool, end: nat, flags: Mode)
    requires Scanned(s, complete, end, flags) && '\n' !in s[end..]
    ensures FirstTop(Normal, s) == if complete then Some(end) else None
    ensures !complete ==> AfterLine(flags) == AfterLine(Run(Normal, s))
  {
    if complete {
      SemicolonHere(s, end);
    } else {
      if end < |s| { CommentToTheEnd(s, end); }
      ModeAtEnd(s);
    }
  }

  lemma SemicolonHere(s: string, i: nat)
    requires i < |s| && ModeAt(s, i).Some? && s[i] == ';' && TopLevel(ModeAt(s, i).value)
    ensures FirstTop(Normal, s) == Some(i)
  {
    ModeAtPrefix(s, i);
    assert s == s[..i] + s[i..];
    FirstTopConcat(Normal, s[..i], s[i..]);
  }

  lemma StartOfLine(buffer: string, line: string) returns (m: Mode)
    requires FirstTop(Normal, buffer) == None
    ensures m == if buffer == "" then Normal else AfterLine(Run(Normal, buffer))
    ensures ModeAt(Joined(buffer, line), |Joined(buffer, line)| - |line|) == Some(m)
  {
    m := if buffer == "" then Normal else AfterLine(Run(Normal, buffer));
    var s := Joined(buffer, line);
    if buffer != "" {
      assert s[..|buffer|] == buffer;
      ModeAtPrefix(s, |buffer|);
    }
  }

  lemma {:induction false} CommentToTheEnd(s: string, i: nat)
    requires i <= |s| && ModeAt(s, i) == Some(Line) && '\n' !in s[i..]
    ensures ModeAt(s, |s|) == Some(Line)
    decreases |s| - i
  {
    if i < |s| {
      assert s[i] in s[i..];
      assert forall c :: c in s[i + 1..] ==> c in s[i..];
      CommentToTheEnd(s, i + 1);
    }
  }
}
