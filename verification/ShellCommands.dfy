/**
 A script, line by line: what each line adds to the text of a statement under way, which statements it completes, and
 which lines are dot commands. This is said without the text of the script as a whole, and agrees with it.
 */
module ShellCommands {
  import opened Text
  import opened SqlLexer
  import opened SqlProcessor
  import opened ShellLoop

  // A dot with nothing but blanks and tabs before it.
  predicate DotForm(line: string) {
    exists k :: 0 <= k < |line| && line[k] == '.' && forall j :: 0 <= j < k ==> line[j] == ' ' || line[j] == '\t'
  }

  lemma {:induction false} DotCommandsHaveDotForm(line: string)
    ensures IsDotCommand(line) <==> DotForm(line)
  {
    if line != "" {
      var rest := line[1..];
      DotCommandsHaveDotForm(rest);
      if line[0] == ' ' || line[0] == '\t' {
        if k :| 0 <= k < |rest| && rest[k] == '.' && forall j :: 0 <= j < k ==> rest[j] == ' ' || rest[j] == '\t' {
          assert line[k + 1] == '.' && forall j :: 0 < j < k + 1 ==> line[j] == rest[j - 1];
        }
        if k :| 0 <= k < |line| && line[k] == '.' && forall j :: 0 <= j < k ==> line[j] == ' ' || line[j] == '\t' {
          assert rest[k - 1] == '.' && forall j :: 0 <= j < k - 1 ==> rest[j] == line[j + 1];
        }
      } else if line[0] == '.' {
        assert DotForm(line);
      }
    }
  }

  // The blanks that are skipped are all there are.
  lemma {:induction false} BlanksAreSkipped(s: string) returns (k: nat)
    ensures k <= |s| && SkipBlanks(s) == s[k..]
    ensures forall j :: 0 <= j < k ==> s[j] in {' ', '\t', '\n', '\r'}
    ensures k < |s| ==> s[k] !in {' ', '\t', '\n', '\r'}
  {
    k := 0;
    if s != "" && s[0] in " \t\n\r" {
      k := BlanksAreSkipped(s[1..]);
      k := k + 1;
    }
  }

  // ----- Line by line -----

  // The text under way, with a line added, completes these statements; a rest of the line that has the form of a dot
  // command is one.
  function LineEvents(t: string): seq<Event>
    decreases |t|
  {
    match FirstTop(Normal, t)
    case None => []
    case Some(k) =>
      FirstTopCorrect(Normal, t);
      var rest := SkipBlanks(t[k + 1..]);
      SkipShrinks(t[k + 1..]);
      One(t[..k]) + if rest == "" then [] else if DotForm(rest) then [Command(rest, true)] else LineEvents(rest)
  }

  // And this is under way afterwards.
  function LeftOver(t: string): string
    decreases |t|
  {
    match FirstTop(Normal, t)
    case None => t
    case Some(k) =>
      FirstTopCorrect(Normal, t);
      var rest := SkipBlanks(t[k + 1..]);
      SkipShrinks(t[k + 1..]);
      if rest == "" || DotForm(rest) then "" else LeftOver(rest)
  }

  // A line that begins while nothing is under way, and is empty or a dot command, adds nothing.
  predicate Apart(under: string, line: string) {
    under == "" && (line == "" || DotForm(line))
  }

  function UnderWay(under: string, line: string): string {
    if Apart(under, line) then "" else LeftOver(Joined(under, line))
  }

  function OneLine(under: string, line: string): seq<Event> {
    if under == "" && DotForm(line) then [Command(line, false)]
    else if Apart(under, line) then []
    else LineEvents(Joined(under, line))
  }

  function LineByLine(under: string, lines: seq<string>): seq<Event>
    decreases |lines|
  {
    if lines == [] then One(under)
    else OneLine(under, lines[0]) + LineByLine(UnderWay(under, lines[0]), lines[1..])
  }

  predicate AreLines(lines: seq<string>) {
    forall i :: 0 <= i < |lines| ==> '\n' !in lines[i]
  }

  // No statement ends in t, or one ends on its last line.
  ghost predicate EndsOnLastLine(t: string) {
    match FirstTop(Normal, t)
    case None => true
    case Some(p) => p < |t| && '\n' !in t[p..]
  }

  lemma JoinedEndsOnLastLine(under: string, line: string)
    requires FirstTop(Normal, under) == None && '\n' !in line
    ensures EndsOnLastLine(Joined(under, line))
  {
    FirstTopCorrect(Normal, line);
    if under != "" {
      var end := "\n" + line;
      FirstTopConcat(Normal, under, end);
      FirstTopCorrect(Run(Normal, under), end);
      NoBreakBehind(under, line);
    }
  }

  lemma NoBreakBehind(under: string, line: string)
    requires '\n' !in line
    ensures var t := under + "\n" + line;
            t == under + ("\n" + line) && forall p :: |under| < p <= |t| ==> '\n' !in t[p..]
  {
    var t := under + "\n" + line;
    forall p | |under| < p <= |t| ensures '\n' !in t[p..] {
      assert t[p..] == line[p - |under| - 1..];
    }
  }

  lemma NothingBrokenIn(rest: string)
    requires '\n' !in rest
    ensures EndsOnLastLine(rest)
  {
    FirstTopCorrect(Normal, rest);
  }

  lemma {:induction false} StatementsOnLine(t: string, later: seq<string>)
    requires t != "" && EndsOnLastLine(t)
    ensures Statement(t + Tail(later)) == LineEvents(t) + Pending(LeftOver(t), later)
    ensures FirstTop(Normal, LeftOver(t)) == None
    decreases |t|
  {
    match FirstTop(Normal, t)
    case None =>
      assert [] + Pending(t, later) == Pending(t, later);
    case Some(p) =>
      StatementEnds(t, p, later);
      var one, rest := One(t[..p]), SkipBlanks(t[p + 1..]);
      DotCommandsHaveDotForm(rest);
      if rest == "" {
        assert one + [] == one;
      } else if DotForm(rest) {
        Associate(one, [Command(rest, true)], Events(JoinLines(later)));
      } else {
        NothingBrokenIn(rest);
        StatementsOnLine(rest, later);
        Associate(one, LineEvents(rest), Pending(LeftOver(rest), later));
      }
  }

  // What a script means as a whole is what its lines mean one after the other.
  lemma {:induction false} EventsLineByLine(under: string, lines: seq<string>)
    requires FirstTop(Normal, under) == None && AreLines(lines)
    ensures Pending(under, lines) == LineByLine(under, lines)
    decreases |lines|
  {
    if lines == [] {
      NothingEnds(under, lines);
    } else {
      var line, later := lines[0], lines[1..];
      assert lines == [line] + later;
      ReadLine(under, line, later);
      DotCommandsHaveDotForm(line);
      if Apart(under, line) {
        EventsLineByLine("", later);
        assert [] + LineByLine("", later) == LineByLine("", later);
      } else {
        JoinedEndsOnLastLine(under, line);
        StatementsOnLine(Joined(under, line), later);
        EventsLineByLine(LeftOver(Joined(under, line)), later);
      }
    }
  }

  // ----- Which lines are dot commands -----

  // The lines that have the form of a dot command and begin while nothing is under way.
  function CommandLines(under: string, lines: seq<string>): seq<string>
    decreases |lines|
  {
    if lines == [] then []
    else (if under == "" && DotForm(lines[0]) then [lines[0]] else []) + CommandLines(UnderWay(under, lines[0]), lines[1..])
  }

  // The commands of a log that are lines of their own.
  function OwnLines(log: seq<Event>): seq<string> {
    if log == [] then []
    else (if log[0].Command? && !log[0].inline then [log[0].line] else []) + OwnLines(log[1..])
  }

  lemma {:induction false} OwnLinesConcat(a: seq<Event>, b: seq<Event>)
    ensures OwnLines(a + b) == OwnLines(a) + OwnLines(b)
  {
    if a == [] {
      assert a + b == b;
    } else {
      assert (a + b)[1..] == a[1..] + b;
      OwnLinesConcat(a[1..], b);
    }
  }

  lemma {:induction false} StatementsAreNoOwnLines(t: string)
    ensures OwnLines(LineEvents(t)) == [] && OwnLines(One(t)) == []
    decreases |t|
  {
    FirstTopCorrect(Normal, t);
    if k: nat :| FirstTop(Normal, t) == Some(k) {
      var rest := SkipBlanks(t[k + 1..]);
      SkipShrinks(t[k + 1..]);
      StatementsAreNoOwnLines(rest);
      OwnLinesConcat(One(t[..k]), if rest == "" then [] else if DotForm(rest) then [Command(rest, true)] else LineEvents(rest));
      StatementsAreNoOwnLines(t[..k]);
    }
  }

  lemma OneLineOwns(under: string, line: string)
    ensures OwnLines(OneLine(under, line)) == if under == "" && DotForm(line) then [line] else []
  {
    if under == "" && DotForm(line) {
      assert [Command(line, false)][1..] == [];
    } else if !Apart(under, line) {
      StatementsAreNoOwnLines(Joined(under, line));
    }
  }

  lemma {:induction false} CommandsAre(under: string, lines: seq<string>)
    ensures OwnLines(LineByLine(under, lines)) == CommandLines(under, lines)
    decreases |lines|
  {
    if lines == [] {
      StatementsAreNoOwnLines(under);
    } else {
      var next := UnderWay(under, lines[0]);
      CommandsAre(next, lines[1..]);
      OneLineOwns(under, lines[0]);
      OwnLinesConcat(OneLine(under, lines[0]), LineByLine(next, lines[1..]));
    }
  }

  // In every script, the dot commands on lines of their own are exactly the lines that have the form of one and begin
  // while no statement is under way, in order.
  lemma WhichLinesAreCommands(lines: seq<string>)
    requires AreLines(lines)
    ensures OwnLines(Events(JoinLines(lines))) == CommandLines("", lines)
  {
    EventsLineByLine("", lines);
    CommandsAre("", lines);
  }
}
