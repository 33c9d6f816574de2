/**
 The non-interactive driver of the client shell: reads a script line by line, runs each statement as soon as
 its semicolon has been read, and hands lines that begin with a dot to the command processor.
 */
module ShellLoop {
  import opened Text
  import opened SqlLexer
  import opened SqlProcessor

  datatype CommandResult = OK | EXIT | ERROR

  // A dot command is either a line of its own or the rest of a line on which a statement ended.
  datatype Event = Executed(sql: string) | Command(line: string, inline: bool)

  // The outside world: the n-th event of the run, if it is that statement (command), has this outcome, and if it is
  // that command, sets bail-on-error to this.
  datatype World = World(succeeds: (nat, string) -> bool, command: (nat, string) -> CommandResult,
                         sets: (nat, string) -> Option<bool>, bailOnError: bool)

  predicate IsDotCommand(line: string) {
    line != "" && (line[0] == '.' || (line[0] in " \t" && IsDotCommand(line[1..])))
  }

  function JoinLines(lines: seq<string>): string
    decreases |lines|, 0
  {
    if lines == [] then "" else lines[0] + Tail(lines[1..])
  }

  // The rest of the text from the end of a line on.
  function Tail(lines: seq<string>): string
    decreases |lines|, 1
  {
    if lines == [] then "" else "\n" + JoinLines(lines)
  }

  // ----- What a script means, as a function of its text -----

  function FirstLine(t: string): string {
    match Find('\n', t)
    case None => t
    case Some(k) => FindCorrect('\n', t); t[..k]
  }

  function LaterLines(t: string): string {
    match Find('\n', t)
    case None => ""
    case Some(k) => FindCorrect('\n', t); t[k + 1..]
  }

  function One(text: string): seq<Event> {
    if TrimRight(text) == "" then [] else [Executed(TrimRight(text))]
  }

  // At the start of a line, outside any statement.
  function Events(t: string): seq<Event>
    decreases |t|, 2
  {
    if t == "" then []
    else
      LineShrinks(t);
      if FirstLine(t) == "" then Events(LaterLines(t))
      else if IsDotCommand(FirstLine(t)) then [Command(FirstLine(t), false)] + Events(LaterLines(t))
      else Statement(t)
  }

  // A statement begins here.
  function Statement(t: string): seq<Event>
    decreases |t|, 1
  {
    match FirstTop(Normal, t)
    case None => One(t)
    case Some(k) => FirstTopCorrect(Normal, t); One(t[..k]) + AfterStatement(t[k + 1..])
  }

  // A statement has just ended, somewhere within a line.
  function AfterStatement(t: string): seq<Event>
    decreases |t|, 3
  {
    var r := SkipBlanks(FirstLine(t));
    LineShrinks(t);
    SkipShrinks(FirstLine(t));
    if r == "" then Events(LaterLines(t))
    else if IsDotCommand(r) then [Command(r, true)] + Events(LaterLines(t))
    else Statement(r + t[|FirstLine(t)|..])
  }

  lemma LineShrinks(t: string)
    ensures |FirstLine(t)| <= |t| && |LaterLines(t)| <= |t|
    ensures t != "" ==> |LaterLines(t)| < |t|
  {
    FindCorrect('\n', t);
  }

  lemma {:induction false} SkipShrinks(s: string)
    ensures |SkipBlanks(s)| <= |s|
  {
    if s != "" { SkipShrinks(s[1..]); }
  }

  // The setting after these events.
  function Bail(w: World, log: seq<Event>): bool {
    if log == [] then w.bailOnError
    else
      var n := |log| - 1;
      if log[n].Command? && w.sets(n, log[n].line).Some? then w.sets(n, log[n].line).value else Bail(w, log[..n])
  }

  // The run stops after the last of these events.
  predicate Stops(w: World, log: seq<Event>)
    requires log != []
  {
    var n := |log| - 1;
    match log[n]
    case Executed(sql) => Bail(w, log) && !w.succeeds(n, sql)
    case Command(line, inline) =>
      w.command(n, line) == EXIT || (!inline && Bail(w, log) && w.command(n, line) == ERROR)
  }

  ghost predicate GoesOn(w: World, log: seq<Event>) {
    forall n :: 0 < n <= |log| ==> !Stops(w, log[..n])
  }

  // log is what the run of a script with these events leaves behind.
  ghost predicate IsRunOf(w: World, events: seq<Event>, log: seq<Event>) {
    && log <= events
    && if GoesOn(w, log) then log == events else GoesOn(w, log[..|log| - 1])
  }

  predicate Failed(w: World, log: seq<Event>) {
    exists n :: 0 <= n < |log| && log[n].Executed? && !w.succeeds(n, log[n].sql)
  }

  predicate EndsInExit(w: World, log: seq<Event>) {
    log != [] && log[|log| - 1].Command? && w.command(|log| - 1, log[|log| - 1].line) == EXIT
  }

  function ExitCode(w: World, log: seq<Event>): int {
    if EndsInExit(w, log) then 0
    else if log != [] && log[|log| - 1].Command? && Stops(w, log) then 1
    else if Failed(w, log) then 1 else 0
  }

  lemma GoesOnSnoc(w: World, log: seq<Event>, e: Event)
    ensures GoesOn(w, log + [e]) <==> GoesOn(w, log) && !Stops(w, log + [e])
  {
    var log' := log + [e];
    assert log'[..|log'|] == log';
    forall n | 0 < n <= |log| ensures log'[..n] == log[..n] {}
  }

  // ----- The driver -----

  // The run has produced log, goes on with the events pend, and has this exit code so far.
  ghost predicate Underway(w: World, all: seq<Event>, log: seq<Event>, pend: seq<Event>, code: int) {
    log + pend == all && GoesOn(w, log) && code == if Failed(w, log) then 1 else 0
  }

  ghost predicate Done(w: World, all: seq<Event>, log: seq<Event>, code: int) {
    IsRunOf(w, all, log) && code == ExitCode(w, log)
  }

  method ExecuteStatement(w: World, stmt: string, log: seq<Event>, code: int, ghost all: seq<Event>, ghost pend: seq<Event>)
    returns (log': seq<Event>, code': int, stop: bool)
    requires Underway(w, all, log, (if stmt == "" then [] else [Executed(stmt)]) + pend, code)
    ensures if stop then Done(w, all, log', code') else Underway(w, all, log', pend, code')
  {
    log', code', stop := log, code, false;
    if stmt != "" {
      log' := log + [Executed(stmt)];
      assert log'[..|log|] == log && log' + pend == all;
      GoesOnSnoc(w, log, Executed(stmt));
      if !w.succeeds(|log|, stmt) {
        code' := 1;
        assert log'[|log|] == Executed(stmt);
        stop := Bail(w, log');
      } else {
        assert Failed(w, log') ==> Failed(w, log);
        assert Failed(w, log) ==> Failed(w, log') by {
          if n :| 0 <= n < |log| && log[n].Executed? && !w.succeeds(n, log[n].sql) {
            assert log'[n] == log[n];
          }
        }
      }
    }
  }

  method ProcessCommand(w: World, line: string, inline: bool, log: seq<Event>, code: int,
                        ghost all: seq<Event>, ghost pend: seq<Event>)
    returns (log': seq<Event>, code': int, stop: bool)
    requires Underway(w, all, log, [Command(line, inline)] + pend, code)
    ensures if stop then Done(w, all, log', code') else Underway(w, all, log', pend, code') && code' == code
  {
    var result := w.command(|log|, line);
    log' := log + [Command(line, inline)];
    assert log'[..|log|] == log && log' + pend == all;
    GoesOnSnoc(w, log, Command(line, inline));
    if result == EXIT { return log', 0, true; }
    if !inline && result == ERROR && Bail(w, log') { return log', 1, true; }
    assert Failed(w, log') ==> Failed(w, log);
    assert Failed(w, log) ==> Failed(w, log') by {
      if n :| 0 <= n < |log| && log[n].Executed? && !w.succeeds(n, log[n].sql) {
        assert log'[n] == log[n];
      }
    }
    return log', code, false;
  }

  // What is still to come when the processor holds buffer and these lines are unread.
  function Pending(buffer: string, lines: seq<string>): seq<Event> {
    if buffer == "" then Events(JoinLines(lines)) else Statement(buffer + Tail(lines))
  }

  // What is still to come when remainder is left of the current line after a statement.
  function AfterBlanks(remainder: string, lines: seq<string>): seq<Event> {
    if remainder == "" then Events(JoinLines(lines))
    else if IsDotCommand(remainder) then [Command(remainder, true)] + Events(JoinLines(lines))
    else Statement(remainder + Tail(lines))
  }

  lemma LineOf(l: string, lines: seq<string>)
    requires '\n' !in l
    ensures FirstLine(l + Tail(lines)) == l
    ensures LaterLines(l + Tail(lines)) == JoinLines(lines)
  {
    FindCorrect('\n', l);
    if lines != [] {
      FindConcat('\n', l, JoinLines(lines));
      assert l + Tail(lines) == l + ['\n'] + JoinLines(lines);
    } else {
      assert l + Tail(lines) == l;
    }
  }

  lemma ReadLine(buffer: string, line: string, later: seq<string>)
    requires '\n' !in line
    ensures Pending(buffer, [line] + later) ==
            if buffer == "" && line == "" then Pending("", later)
            else if buffer == "" && IsDotCommand(line) then [Command(line, false)] + Pending("", later)
            else Statement(Joined(buffer, line) + Tail(later))
  {
    JoinCons(line, later);
    if buffer == "" {
      LineOf(line, later);
      FirstOfText(line, later);
    } else {
      assert buffer + Tail([line] + later) == Joined(buffer, line) + Tail(later);
    }
  }

  lemma JoinCons(line: string, later: seq<string>)
    ensures JoinLines([line] + later) == line + Tail(later)
  {
    assert ([line] + later)[1..] == later;
  }

  lemma FirstOfText(line: string, later: seq<string>)
    requires '\n' !in line
    ensures var t := line + Tail(later);
            Events(t) == if line == "" then Events(JoinLines(later))
                         else if IsDotCommand(line) then [Command(line, false)] + Events(JoinLines(later))
                         else Statement(t)
  {
    LineOf(line, later);
    if line + Tail(later) == "" { assert line == "" && later == []; }
  }

  lemma StatementEnds(buffer: string, p: nat, later: seq<string>)
    requires p < |buffer| && FirstTop(Normal, buffer) == Some(p) && '\n' !in buffer[p..]
    ensures Statement(buffer + Tail(later)) ==
            One(buffer[..p]) + AfterBlanks(SkipBlanks(buffer[p + 1..]), later)
    ensures '\n' !in SkipBlanks(buffer[p + 1..]) && |SkipBlanks(buffer[p + 1..])| < |buffer|
  {
    var t := buffer + Tail(later);
    var rest := buffer[p + 1..];
    FirstTopConcat(Normal, buffer, Tail(later));
    assert t[..p] == buffer[..p] && t[p + 1..] == rest + Tail(later);
    assert '\n' !in rest by { assert buffer[p..] == [buffer[p]] + rest; }
    AfterRest(rest, later);
  }

  lemma AfterRest(rest: string, later: seq<string>)
    requires '\n' !in rest
    ensures AfterStatement(rest + Tail(later)) == AfterBlanks(SkipBlanks(rest), later)
    ensures '\n' !in SkipBlanks(rest) && |SkipBlanks(rest)| <= |rest|
  {
    LineOf(rest, later);
    SkipShrinks(rest);
    var w := SkipBlanksSplits(rest);
    assert rest == w + SkipBlanks(rest);
    assert (rest + Tail(later))[|rest|..] == Tail(later);
  }

  lemma NothingEnds(buffer: string, later: seq<string>)
    requires FirstTop(Normal, buffer) == None && later == []
    ensures Statement(buffer + Tail(later)) == One(buffer)
  {
    assert buffer + Tail(later) == buffer;
  }

  method ProcessLines(sqlProc: Processor, input: seq<string>, w: World) returns (exitCode: int, log: seq<Event>)
    requires sqlProc.Valid() && sqlProc.buffer == ""
    requires forall l :: l in input ==> '\n' !in l
    modifies sqlProc
    ensures Done(w, Events(JoinLines(input)), log, exitCode)
  {
    exitCode, log := 0, [];
    ghost var all := Events(JoinLines(input));
    var stop := false;
    var next := 0;
    assert input[0..] == input;
    while next < |input|
      invariant 0 <= next <= |input|
      invariant sqlProc.Valid() && sqlProc.semicolonPos == None
      invariant Underway(w, all, log, Pending(sqlProc.buffer, input[next..]), exitCode)
    {
      var line := input[next];
      next := next + 1;
      ghost var later := input[next..];
      assert input[next - 1..] == [line] + later;
      ReadLine(sqlProc.buffer, line, later);
      var accumulating := sqlProc.IsAccumulating();
      if line == "" && !accumulating { continue; }
      if !accumulating && IsDotCommand(line) {
        log, exitCode, stop := ProcessCommand(w, line, false, log, exitCode, all, Pending("", later));
        if stop { return; }
        continue;
      }
      var complete := sqlProc.AccumulateLine(line);
      if complete {
        var remainder;
        log, exitCode, remainder, stop := TakeStatement(sqlProc, w, log, exitCode, all, later);
        if stop { return; }
        log, exitCode, stop := ProcessRemainder(sqlProc, w, remainder, log, exitCode, all, later);
        if stop { return; }
      }
    }
    exitCode, log := RunUnterminated(sqlProc, w, log, exitCode, all, input[next..]);
  }

  // At the end of the input a statement may still lack its semicolon.
  method RunUnterminated(sqlProc: Processor, w: World, log: seq<Event>, code: int,
                         ghost all: seq<Event>, ghost later: seq<string>)
    returns (code': int, log': seq<Event>)
    requires sqlProc.Valid() && sqlProc.semicolonPos == None && later == []
    requires Underway(w, all, log, Pending(sqlProc.buffer, later), code)
    modifies sqlProc
    ensures Done(w, all, log', code')
  {
    log', code' := log, code;
    var accumulating := sqlProc.IsAccumulating();
    if accumulating {
      NothingEnds(sqlProc.buffer, later);
      var stmt := sqlProc.GetStatement();
      sqlProc.Reset();
      var stop;
      log', code', stop := ExecuteStatement(w, stmt, log, code, all, []);
    }
    assert log' <= all && log'[..|log'|] == log';
  }

  // The inner loop: the statements that end on the rest of the current line.
  method ProcessRemainder(sqlProc: Processor, w: World, rest: string, log: seq<Event>, code: int,
                          ghost all: seq<Event>, ghost later: seq<string>)
    returns (log': seq<Event>, code': int, stop: bool)
    requires sqlProc.Valid() && sqlProc.semicolonPos == None && sqlProc.buffer == ""
    requires '\n' !in rest
    requires Underway(w, all, log, AfterBlanks(rest, later), code)
    modifies sqlProc
    ensures sqlProc.Valid()
    ensures if stop then Done(w, all, log', code')
            else sqlProc.semicolonPos == None && Underway(w, all, log', Pending(sqlProc.buffer, later), code')
  {
    var remainder := rest;
    log', code', stop := log, code, false;
    while remainder != ""
      invariant sqlProc.Valid() && sqlProc.semicolonPos == None && sqlProc.buffer == ""
      invariant '\n' !in remainder
      invariant Underway(w, all, log', AfterBlanks(remainder, later), code')
      decreases |remainder|
    {
      if IsDotCommand(remainder) {
        log', code', stop := ProcessCommand(w, remainder, true, log', code', all, Pending("", later));
        return;
      }
      var complete := sqlProc.AccumulateLine(remainder);
      if !complete { return log', code', false; }
      log', code', remainder, stop := TakeStatement(sqlProc, w, log', code', all, later);
      if stop { return; }
    }
    return log', code', false;
  }

  // Fetch the completed statement and the rest of its line, reset the processor, run the statement.
  method TakeStatement(sqlProc: Processor, w: World, log: seq<Event>, code: int,
                         ghost all: seq<Event>, ghost later: seq<string>)
    returns (log': seq<Event>, code': int, remainder: string, stop: bool)
    requires sqlProc.Valid() && sqlProc.semicolonPos.Some?
    requires Underway(w, all, log, Statement(sqlProc.buffer + Tail(later)), code)
    modifies sqlProc
    ensures sqlProc.Valid() && sqlProc.buffer == "" && sqlProc.semicolonPos == None
    ensures '\n' !in remainder && |remainder| < |old(sqlProc.buffer)|
    ensures if stop then Done(w, all, log', code') else Underway(w, all, log', AfterBlanks(remainder, later), code')
  {
    var stmt := sqlProc.GetStatement();
    remainder := sqlProc.GetRemainder();
    StatementEnds(sqlProc.buffer, sqlProc.semicolonPos.value, later);
    sqlProc.Reset();
    log', code', stop := ExecuteStatement(w, stmt, log, code, all, AfterBlanks(remainder, later));
  }

  // ----- A script without dot commands runs its top-level-semicolon pieces -----

  // The pieces that are not blank, without the white space around them.
  function Tidy(pieces: seq<string>): seq<string> {
    if pieces == [] then []
    else (if Trim(pieces[0]) == "" then [] else [Trim(pieces[0])]) + Tidy(pieces[1..])
  }

  // The statements of a log, without the white space around them.
  function Sqls(log: seq<Event>): seq<string> {
    if log == [] then []
    else (match log[0] case Executed(sql) => [Trim(sql)] case Command(_, _) => []) + Sqls(log[1..])
  }

  ghost predicate NoCommand(log: seq<Event>) {
    forall e :: e in log ==> e.Executed?
  }

  lemma TidyCons(piece: string, pieces: seq<string>)
    ensures Tidy([piece] + pieces) == Tidy([piece]) + Tidy(pieces)
  {
    assert ([piece] + pieces)[1..] == pieces;
    assert Tidy([piece][1..]) == [];
  }

  lemma SqlsOne(text: string, more: seq<Event>)
    ensures NoCommand(One(text) + more) ==> NoCommand(more)
    ensures Sqls(One(text) + more) == Tidy([text]) + Sqls(more)
  {
    TrimOfTrimRight(text);
    assert Tidy([text][1..]) == [];
    if One(text) == [] {
      assert One(text) + more == more;
    } else {
      assert (One(text) + more)[1..] == more;
    }
  }

  // White space before a text only changes the white space around its first piece.
  lemma {:induction false} BlanksBefore(w: string, t: string)
    requires forall k :: 0 <= k < |w| ==> IsSpace(w[k])
    ensures Tidy(Pieces(w + t)) == Tidy(Pieces(t))
  {
    SpacesAreNeutral(w);
    FirstTopConcat(Normal, w, t);
    FirstTopCorrect(Normal, t);
    match FirstTop(Normal, t) {
      case None =>
        TrimAbsorbsLeft(w, t);
      case Some(k) =>
        assert (w + t)[..|w| + k] == w + t[..k] && (w + t)[|w| + k + 1..] == t[k + 1..];
        TrimAbsorbsLeft(w, t[..k]);
    }
  }

  lemma {:induction false} SpacesAreNeutral(w: string)
    requires forall k :: 0 <= k < |w| ==> IsSpace(w[k])
    ensures Run(Normal, w) == Normal && FirstTop(Normal, w) == None
  {
    if w != "" {
      assert IsSpace(w[0]);
      SpacesAreNeutral(w[1..]);
    }
  }

  lemma CommandFirst(line: string, inline: bool, more: seq<Event>)
    ensures !NoCommand([Command(line, inline)] + more)
  {
    assert Command(line, inline) in [Command(line, inline)] + more;
  }

  lemma {:induction false} EventsArePieces(t: string)
    requires NoCommand(Events(t))
    ensures Sqls(Events(t)) == Tidy(Pieces(t))
    decreases |t|, 2
  {
    if t == "" {
      assert Pieces(t) == [""];
    } else {
      LineShrinks(t);
      FindCorrect('\n', t);
      CommandFirst(FirstLine(t), false, Events(LaterLines(t)));
      if FirstLine(t) == "" {
        assert t == "\n" + LaterLines(t);
        BlanksBefore("\n", LaterLines(t));
        EventsArePieces(LaterLines(t));
      } else {
        StatementIsPieces(t);
      }
    }
  }

  lemma {:induction false} StatementIsPieces(t: string)
    requires NoCommand(Statement(t))
    ensures Sqls(Statement(t)) == Tidy(Pieces(t))
    decreases |t|, 1
  {
    match FirstTop(Normal, t) {
      case None =>
        SqlsOne(t, []);
        assert One(t) + [] == One(t);
      case Some(k) =>
        FirstTopCorrect(Normal, t);
        var rest := AfterStatement(t[k + 1..]);
        SqlsOne(t[..k], rest);
        TidyCons(t[..k], Pieces(t[k + 1..]));
        AfterStatementIsPieces(t[k + 1..]);
    }
  }

  lemma BlanksOfLine(line: string, rest: string)
    ensures Tidy(Pieces(line + rest)) == Tidy(Pieces(SkipBlanks(line) + rest))
  {
    var w := SkipBlanksSplits(line);
    assert line + rest == w + (SkipBlanks(line) + rest);
    BlanksBefore(w, SkipBlanks(line) + rest);
  }

  // A text is its first line followed by nothing or by a newline and the later lines.
  lemma LineSplits(t: string) returns (rest: string)
    ensures t == FirstLine(t) + rest && rest == t[|FirstLine(t)|..]
    ensures rest == LaterLines(t) || rest == "\n" + LaterLines(t)
  {
    FindCorrect('\n', t);
    match Find('\n', t)
    case None =>
      rest := "";
      assert t + "" == t;
    case Some(k) =>
      rest := t[k..];
      assert t[k..] == [t[k]] + t[k + 1..] && [t[k]] == "\n";
  }

  lemma LineAndRest(t: string) returns (rest: string)
    ensures t == FirstLine(t) + rest && rest == t[|FirstLine(t)|..]
    ensures Tidy(Pieces(rest)) == Tidy(Pieces(LaterLines(t)))
  {
    rest := LineSplits(t);
    if rest != LaterLines(t) { BlanksBefore("\n", LaterLines(t)); }
  }

  lemma {:induction false} AfterStatementIsPieces(t: string)
    requires NoCommand(AfterStatement(t))
    ensures Sqls(AfterStatement(t)) == Tidy(Pieces(t))
    decreases |t|, 3
  {
    var r := SkipBlanks(FirstLine(t));
    LineShrinks(t);
    SkipShrinks(FirstLine(t));
    var rest := LineAndRest(t);
    BlanksOfLine(FirstLine(t), rest);
    CommandFirst(r, true, Events(LaterLines(t)));
    if r == "" {
      assert r + rest == rest;
      EventsArePieces(LaterLines(t));
    } else {
      StatementIsPieces(r + rest);
    }
  }

  // Without bail-on-error, a run that met no dot command has executed exactly the non-blank top-level-semicolon
  // pieces of the text, in order, the unterminated last one included; it fails when one of them failed.
  lemma ScriptRunsItsPieces(w: World, text: string, log: seq<Event>, code: int)
    requires Done(w, Events(text), log, code) && NoCommand(log) && !w.bailOnError
    ensures Sqls(log) == Tidy(Pieces(text))
    ensures code == 1 <==> exists n :: 0 <= n < |log| && !w.succeeds(n, log[n].sql)
  {
    NoCommandGoesOn(w, log);
    EventsArePieces(text);
    NoCommandExitCode(w, log);
  }

  lemma NoCommandGoesOn(w: World, log: seq<Event>)
    requires NoCommand(log) && !w.bailOnError
    ensures GoesOn(w, log)
  {
    forall n | 0 < n <= |log| ensures !Stops(w, log[..n]) {
      var upTo := log[..n];
      assert forall e :: e in upTo ==> e in log;
      NoCommandNoBail(w, upTo);
      assert upTo[n - 1] in log;
    }
  }

  lemma NoCommandExitCode(w: World, log: seq<Event>)
    requires NoCommand(log)
    ensures ExitCode(w, log) == 1 <==> exists n :: 0 <= n < |log| && !w.succeeds(n, log[n].sql)
  {
    if log != [] { assert log[|log| - 1] in log; }
    assert forall n :: 0 <= n < |log| ==> log[n] in log;
  }

  lemma {:induction false} NoCommandNoBail(w: World, log: seq<Event>)
    requires NoCommand(log)
    ensures Bail(w, log) == w.bailOnError
  {
    if log != [] {
      assert log[|log| - 1] in log;
      NoCommandNoBail(w, log[..|log| - 1]);
    }
  }

  // ----- Failures that do not stop a run or do not show in its exit code -----

  // The n-th event is a statement that failed or a dot command that reported an error.
  predicate Fails(w: World, log: seq<Event>, n: nat)
    requires n < |log|
  {
    match log[n]
    case Executed(sql) => !w.succeeds(n, sql)
    case Command(line, _) => w.command(n, line) == ERROR
  }

  predicate Inline(e: Event) {
    e.Command? && e.inline
  }

  // After a failure the run goes on, if there is anything left to do, if and only if bail-on-error is off at that
  // point or the failure is that of a dot command on the rest of a line.
  lemma RunGoesOnAfterFailure(w: World, all: seq<Event>, log: seq<Event>, code: int, n: nat)
    requires Done(w, all, log, code) && n < |log| && n + 1 < |all| && Fails(w, log, n)
    ensures n + 1 < |log| <==> !Bail(w, log[..n + 1]) || Inline(log[n])
  {
    var upTo := log[..n + 1];
    assert upTo[n] == log[n];
    if n + 1 < |log| {
      assert log[..|log| - 1][..n + 1] == upTo;
      assert !Stops(w, upTo);
    } else {
      assert upTo == log;
      if GoesOn(w, log[..n]) {
        assert log[..n] + [log[n]] == log;
        GoesOnSnoc(w, log[..n], log[n]);
      }
    }
  }

  // A run stops after an event, with something left to do, if and only if this is the command to exit or a failure
  // with bail-on-error on, except that of a dot command on the rest of a line.
  lemma RunStopsAfter(w: World, all: seq<Event>, log: seq<Event>, code: int, n: nat)
    requires Done(w, all, log, code) && n < |log| && n + 1 < |all|
    ensures n + 1 == |log| <==>
              || (log[n].Command? && w.command(n, log[n].line) == EXIT)
              || (Fails(w, log, n) && Bail(w, log[..n + 1]) && !Inline(log[n]))
  {
    var upTo := log[..n + 1];
    assert upTo[n] == log[n] && |upTo| - 1 == n;
    if n + 1 < |log| {
      assert log[..|log| - 1][..n + 1] == upTo;
      assert !Stops(w, upTo);
    } else {
      assert upTo == log;
      if GoesOn(w, log[..n]) {
        assert log[..n] + [log[n]] == log;
        GoesOnSnoc(w, log[..n], log[n]);
      }
    }
  }

  // The setting after some events is the one made by the last command that makes one, or else the one at the start.
  lemma {:induction false} BailIsTheLastSetting(w: World, log: seq<Event>, n: nat)
    requires n < |log| && SetsBail(w, log, n) && forall k :: n < k < |log| ==> !SetsBail(w, log, k)
    ensures Some(Bail(w, log)) == w.sets(n, log[n].line)
  {
    var last := |log| - 1;
    if n < last {
      forall k | 0 <= k < last ensures SetsBail(w, log[..last], k) == SetsBail(w, log, k) {}
      BailIsTheLastSetting(w, log[..last], n);
      assert !SetsBail(w, log, last);
    }
  }

  lemma {:induction false} BailIsAsGiven(w: World, log: seq<Event>)
    requires forall k :: 0 <= k < |log| ==> !SetsBail(w, log, k)
    ensures Bail(w, log) == w.bailOnError
  {
    if log != [] {
      var last := |log| - 1;
      forall k | 0 <= k < last ensures SetsBail(w, log[..last], k) == SetsBail(w, log, k) {}
      BailIsAsGiven(w, log[..last]);
      assert !SetsBail(w, log, last);
    }
  }

  predicate SetsBail(w: World, log: seq<Event>, n: nat)
    requires n < |log|
  {
    log[n].Command? && w.sets(n, log[n].line).Some?
  }

  // A failure that counts: of a statement, or of a dot command on a line of its own while bail-on-error is on.
  predicate Counts(w: World, log: seq<Event>, n: nat)
    requires n < |log|
  {
    Fails(w, log, n) && (log[n].Command? ==> !log[n].inline && Bail(w, log[..n + 1]))
  }

  lemma ShorterPrefixes(log: seq<Event>)
    requires log != []
    ensures forall n :: 0 <= n < |log| ==> log[..|log| - 1][..n] == log[..n]
  {}

  // The exit code tells whether anything has failed that counts, unless the run ended with the command to exit: then
  // it is 0.
  lemma ExitCodeTellsFailure(w: World, all: seq<Event>, log: seq<Event>, code: int)
    requires Done(w, all, log, code)
    ensures code == 0 || code == 1
    ensures code == 1 <==> !EndsInExit(w, log) && exists n :: 0 <= n < |log| && Counts(w, log, n)
  {
    assert log[..|log|] == log;
    if Failed(w, log) {
      var n :| 0 <= n < |log| && log[n].Executed? && !w.succeeds(n, log[n].sql);
      assert Counts(w, log, n);
    } else if n :| 0 <= n < |log| && Counts(w, log, n) {
      var upTo := log[..n + 1];
      ShorterPrefixes(log);
      assert upTo[n] == log[n] && Stops(w, upTo);
    } else if log != [] && log[|log| - 1].Command? && Stops(w, log) && !EndsInExit(w, log) {
      assert Counts(w, log, |log| - 1);
    }
  }

  // A script whose second event is the error of a dot command behind a statement: with bail-on-error on, the third
  // runs all the same.
  lemma InlineErrorIsIgnored(w: World)
    requires w.bailOnError && w.sets(1, ".x") == None && w.command(1, ".x") == ERROR
    requires w.succeeds(0, "a") && w.succeeds(2, "b")
    ensures Done(w, Events("a; .x\nb"), [Executed("a"), Command(".x", true), Executed("b")], 0)
  {
    var log := [Executed("a"), Command(".x", true), Executed("b")];
    EventsWithInline();
    assert log[..1] == [Executed("a")] && log[..2] == [Executed("a"), Command(".x", true)] && log[..3] == log;
    assert !Stops(w, log[..1]) && !Stops(w, log[..2]) && !Stops(w, log[..3]);
    assert GoesOn(w, log);
  }

  lemma EventsWithInline()
    ensures Events("a; .x\nb") == [Executed("a"), Command(".x", true), Executed("b")]
  {
    var t, rest := "a; .x\nb", " .x\nb";
    FirstLineIs(t, "a; .x", "b");
    CommandBehind();
    LetterFirst(t, "a", rest);
  }

  lemma CommandBehind()
    ensures AfterStatement(" .x\nb") == [Command(".x", true), Executed("b")]
  {
    FirstLineIs(" .x\nb", " .x", "b");
    assert SkipBlanks(" .x") == ".x" by { assert " .x"[1..] == ".x"; }
    AfterStatementIs(" .x\nb");
    LastStatement("b");
  }

  // A script whose statement fails before it exits: the exit code is 0.
  lemma ExitHidesFailure(w: World)
    requires !w.bailOnError && !w.succeeds(0, "a") && w.command(1, ".exit") == EXIT
    ensures Done(w, Events("a;\n.exit"), [Executed("a"), Command(".exit", false)], 0)
  {
    EventsWithExit();
    FailThenExit(w, Executed("a"), Command(".exit", false));
  }

  lemma FailThenExit(w: World, e: Event, exit: Event)
    requires !w.bailOnError && e.Executed? && exit.Command? && w.command(1, exit.line) == EXIT
    ensures Done(w, [e, exit], [e, exit], 0)
  {
    var log := [e, exit];
    assert [] + [e] == [e] && [e] + [exit] == log && log[..|log| - 1] == [e];
    assert [e][..|[e]| - 1] == [] && [e][|[e]| - 1] == e;
    var one := [e];
    assert !Bail(w, one);
    assert one[|one| - 1] == e;
    assert !Stops(w, one);
    GoesOnSnoc(w, [], e);
    GoesOnSnoc(w, [e], exit);
  }

  lemma EventsWithExit()
    ensures Events("a;\n.exit") == [Executed("a"), Command(".exit", false)]
  {
    assert "a;\n.exit" == "a" + ";\n" + ".exit";
    LetterThenCommand("a", ".exit");
  }

  lemma LetterThenCommand(a: string, line: string)
    requires |a| == 1 && 'a' <= a[0] <= 'z' && IsDotCommand(line) && '\n' !in line
    ensures Events(a + ";\n" + line) == [Executed(a), Command(line, false)]
  {
    var t, rest := a + ";\n" + line, "\n" + line;
    assert t == a + ";" + "\n" + line == a + ";" + rest && rest == "" + "\n" + line;
    FirstLineIs(t, a + ";", line);
    FirstLineIs(rest, "", line);
    AfterStatementIs(rest);
    LastCommand(line);
    LetterFirst(t, a, rest);
  }

  lemma AfterStatementIs(t: string)
    ensures var r := SkipBlanks(FirstLine(t));
            && (r == "" ==> AfterStatement(t) == Events(LaterLines(t)))
            && (r != "" && IsDotCommand(r) ==> AfterStatement(t) == [Command(r, true)] + Events(LaterLines(t)))
  {}

  // A line that begins with a statement of one letter.
  lemma LetterFirst(t: string, a: string, rest: string)
    requires |a| == 1 && 'a' <= a[0] <= 'z' && t == a + ";" + rest
    requires FirstLine(t) != "" && FirstLine(t)[0] == a[0]
    ensures Events(t) == [Executed(a)] + AfterStatement(rest)
  {
    TopAt(t, a, rest);
    OneIs(a);
    assert Statement(t) == One(a) + AfterStatement(rest);
  }

  lemma LastCommand(line: string)
    requires IsDotCommand(line) && '\n' !in line
    ensures Events(line) == [Command(line, false)]
  {
    FindCorrect('\n', line);
    assert Events("") == [];
  }

  lemma FirstLineIs(t: string, line: string, later: string)
    requires '\n' !in line && t == line + "\n" + later
    ensures FirstLine(t) == line && LaterLines(t) == later
  {
    FindConcat('\n', line, later);
    assert t == line + ['\n'] + later;
    assert t[..|line|] == line && t[|line| + 1..] == later;
  }

  // A statement of one letter, and what comes after its semicolon.
  lemma TopAt(t: string, a: string, rest: string)
    requires |a| == 1 && 'a' <= a[0] <= 'z' && t == a + ";" + rest
    ensures FirstTop(Normal, t) == Some(1) && t[..1] == a && t[2..] == rest
  {
    assert t[0] == a[0] && t[1] == ';';
    assert SqlLexer.Step(Normal, t[0]) == Normal && t[1..][0] == ';';
    assert FirstTop(Normal, t[1..]) == Some(0);
  }

  lemma LastStatement(a: string)
    requires |a| == 1 && 'a' <= a[0] <= 'z'
    ensures Events(a) == [Executed(a)]
  {
    FindCorrect('\n', a);
    assert a[1..] == "" && FirstTop(Normal, a) == None;
    OneIs(a);
  }

  lemma OneIs(a: string)
    requires |a| == 1 && 'a' <= a[0] <= 'z'
    ensures One(a) == [Executed(a)]
  {}
}
