/**
 The rewriting of a text, read off the text itself: quoted regions and ordinary characters are copied, and a call of
 one of the nine names, in whatever case, becomes the literal of its own value.
 */
module RewrittenCalls {
  import opened Text
  import opened FunctionRewriter

  // The nine names and what each stands for.
  predicate Means(v: Values, name: string, literal: string) {
    || (name == "GIZMOSQL_CURRENT_SESSION()" && literal == "'" + v.sessionId + "'")
    || (name == "GIZMOSQL_CURRENT_INSTANCE()" && literal == if v.instanceId == "" then "NULL" else "'" + v.instanceId + "'")
    || (name == "GIZMOSQL_VERSION()" && literal == "'" + v.version + "'")
    || (name == "GIZMOSQL_USER()" && literal == "'" + v.username + "'")
    || (name == "GIZMOSQL_ROLE()" && literal == "'" + v.role + "'")
    || (name == "GIZMOSQL_EDITION()" && literal == "'" + v.edition + "'")
    || (name == "GIZMOSQL_INSTRUMENTATION_ENABLED()" && literal == if v.instrumentationEnabled then "true" else "false")
    || (name == "GIZMOSQL_INSTRUMENTATION_CATALOG()" && literal == "'" + v.catalog + "'")
    || (name == "GIZMOSQL_INSTRUMENTATION_SCHEMA()" && literal == "'" + v.schema + "'")
  }

  // c is the capital letter or other character n, or its small letter.
  predicate Writes(c: char, n: char) {
    c == n || ('A' <= n <= 'Z' && c as int == n as int + 32)
  }

  // The name is written at position i of the text, in any mixture of cases.
  predicate WrittenAt(sql: string, i: nat, name: string) {
    i + |name| <= |sql| && forall k :: 0 <= k < |name| ==> Writes(sql[i + k], name[k])
  }

  predicate NoSmallLetters(name: string) {
    name != "" && forall k :: 0 <= k < |name| ==> !('a' <= name[k] <= 'z')
  }

  lemma WrittenIsNameAt(sql: string, i: nat, name: string)
    requires NoSmallLetters(name)
    ensures WrittenAt(sql, i, name) <==> NameAt(sql, i, name)
  {
    if i + |name| <= |sql| {
      forall k | 0 <= k < |name| ensures Writes(sql[i + k], name[k]) <==> Upper(sql[i + k]) == name[k] {}
    }
  }

  // ----- The names -----

  // The name ends with its only closing parenthesis.
  predicate OneBracket(name: string) {
    name != "" && name[|name| - 1] == ')' && forall k :: 0 <= k < |name| - 1 ==> name[k] != ')'
  }

  predicate IsName(name: string) {
    OneBracket(name) && NoSmallLetters(name) && |name| >= 15
  }

  lemma OneNameAt(sql: string, i: nat, a: string, b: string)
    requires OneBracket(a) && OneBracket(b) && NameAt(sql, i, a) && NameAt(sql, i, b)
    ensures a == b
  {
    assert Upper(sql[i + (|a| - 1)]) == ')' && Upper(sql[i + (|b| - 1)]) == ')';
    forall k | 0 <= k < |a| && k < |b| ensures a[k] == b[k] { assert Upper(sql[i + k]) == a[k]; }
  }

  lemma NameSession() ensures IsName("GIZMOSQL_CURRENT_SESSION()") && |"GIZMOSQL_CURRENT_SESSION()"| == 26 {}

  lemma NameInstance() ensures IsName("GIZMOSQL_CURRENT_INSTANCE()") && |"GIZMOSQL_CURRENT_INSTANCE()"| == 27 {}

  lemma NameVersion() ensures IsName("GIZMOSQL_VERSION()") && |"GIZMOSQL_VERSION()"| == 18 && "GIZMOSQL_VERSION()"[9] == 'V' {}

  lemma NameUser() ensures IsName("GIZMOSQL_USER()") && |"GIZMOSQL_USER()"| == 15 && "GIZMOSQL_USER()"[9] == 'U' {}

  lemma NameRole() ensures IsName("GIZMOSQL_ROLE()") && |"GIZMOSQL_ROLE()"| == 15 && "GIZMOSQL_ROLE()"[9] == 'R' {}

  lemma NameEdition() ensures IsName("GIZMOSQL_EDITION()") && |"GIZMOSQL_EDITION()"| == 18 && "GIZMOSQL_EDITION()"[9] == 'E' {}

  lemma NameInstrumentation(tail: string)
    requires OneBracket(tail) && NoSmallLetters(tail)
    ensures var name := INSTRUMENTATION + tail; IsName(name) && |name| == 25 + |tail| && name[25] == tail[0]
  {
    var name := INSTRUMENTATION + tail;
    assert |INSTRUMENTATION| == 25 && NoSmallLetters(INSTRUMENTATION) && ')' !in INSTRUMENTATION;
    forall k | 0 <= k < |name| - 1 ensures name[k] != ')' {
      if k < 25 { assert name[k] == INSTRUMENTATION[k] && name[k] in INSTRUMENTATION; }
    }
  }

  lemma InstrumentationNamesAre()
    ensures IsName("GIZMOSQL_INSTRUMENTATION_ENABLED()") && IsName("GIZMOSQL_INSTRUMENTATION_CATALOG()")
    ensures IsName("GIZMOSQL_INSTRUMENTATION_SCHEMA()")
    ensures |"GIZMOSQL_INSTRUMENTATION_ENABLED()"| == |"GIZMOSQL_INSTRUMENTATION_CATALOG()"| == 34
    ensures |"GIZMOSQL_INSTRUMENTATION_SCHEMA()"| == 33
    ensures "GIZMOSQL_INSTRUMENTATION_ENABLED()"[25] == 'E' && "GIZMOSQL_INSTRUMENTATION_CATALOG()"[25] == 'C'
  {
    InstrumentationNames();
    NameInstrumentation("ENABLED()");
    NameInstrumentation("CATALOG()");
    NameInstrumentation("SCHEMA()");
  }

  // A table of names in which none stands twice.
  ghost predicate Unambiguous(table: seq<Entry>) {
    && (forall e :: e in table ==> IsName(e.name) && e.name[0] == 'G')
    && (forall e, f :: e in table && f in table && e.name == f.name ==> e == f)
  }

  lemma MeaningsHaveNames(v: Values, name: string, literal: string)
    requires Means(v, name, literal)
    ensures IsName(name) && name[0] == 'G'
  {
    if name == "GIZMOSQL_CURRENT_SESSION()" { NameSession(); }
    else if name == "GIZMOSQL_CURRENT_INSTANCE()" { NameInstance(); }
    else if name == "GIZMOSQL_VERSION()" { NameVersion(); }
    else if name == "GIZMOSQL_USER()" { NameUser(); }
    else if name == "GIZMOSQL_ROLE()" { NameRole(); }
    else if name == "GIZMOSQL_EDITION()" { NameEdition(); }
    else { InstrumentationNamesAre(); }
  }

  lemma EntriesMean(v: Values, e: Entry)
    requires e in Table(v)
    ensures Means(v, e.name, e.literal)
  {}

  lemma MeaningsAreEntries(v: Values, name: string, literal: string)
    requires Means(v, name, literal)
    ensures Entry(name, literal) in Table(v)
  {
    var t := Table(v);
    assert t[0] in t && t[1] in t && t[2] in t && t[3] in t && t[4] in t && t[5] in t && t[6] in t && t[7] in t && t[8] in t;
  }

  lemma MeaningIsUnique(v: Values, name: string, a: string, b: string)
    requires Means(v, name, a) && Means(v, name, b)
    ensures a == b
  {
    NameSession();
    NameInstance();
    NameVersion();
    NameUser();
    NameRole();
    NameEdition();
    InstrumentationNamesAre();
  }

  lemma TableIsUnambiguous(v: Values)
    ensures Unambiguous(Table(v))
  {
    forall e | e in Table(v) ensures IsName(e.name) && e.name[0] == 'G' {
      EntriesMean(v, e);
      MeaningsHaveNames(v, e.name, e.literal);
    }
    forall e, f | e in Table(v) && f in Table(v) && e.name == f.name ensures e == f {
      EntriesMean(v, e);
      EntriesMean(v, f);
      MeaningIsUnique(v, e.name, e.literal, f.literal);
    }
  }

  lemma {:induction false} FoundIfOnly(table: seq<Entry>, sql: string, i: nat, e: Entry)
    requires e in table && NameAt(sql, i, e.name) && forall f :: f in table && NameAt(sql, i, f.name) ==> f == e
    ensures FindCall(table, sql, i) == Some(e)
  {
    if !NameAt(sql, i, table[0].name) {
      assert e in table[1..];
      FoundIfOnly(table[1..], sql, i, e);
    } else {
      assert table[0] in table;
    }
  }

  lemma FoundIfWritten(table: seq<Entry>, sql: string, i: nat, e: Entry)
    requires Unambiguous(table) && e in table && WrittenAt(sql, i, e.name)
    ensures FindCall(table, sql, i) == Some(e) && !IsQuote(sql[i])
  {
    WrittenIsNameAt(sql, i, e.name);
    forall f | f in table && NameAt(sql, i, f.name) ensures f == e {
      OneNameAt(sql, i, f.name, e.name);
    }
    FoundIfOnly(table, sql, i, e);
    assert Upper(sql[i + 0]) == e.name[0];
  }

  lemma NoneIfNotWritten(table: seq<Entry>, sql: string, i: nat)
    requires Unambiguous(table) && i <= |sql| && forall e :: e in table ==> !WrittenAt(sql, i, e.name)
    ensures FindCall(table, sql, i) == None
  {
    FindCallCorrect(table, sql, i);
    if e :| FindCall(table, sql, i) == Some(e) {
      NameAtSuffix(sql, i, e.name);
      WrittenIsNameAt(sql, i, e.name);
    }
  }

  // ----- What becomes of the text from a position on -----

  // What the loop does at a position: the image of what stands there, and it goes on behind it.
  lemma StepOn(segs: SegmentList, seg: Segment, tail: SegmentList)
    requires segs == Cons(seg, tail)
    ensures Images(segs) == Image(seg) + Images(tail)
  {}

  lemma SegmentIsCall(table: seq<Entry>, sql: string, i: nat, e: Entry, alias: bool)
    requires i + |e.name| <= |sql| && i < |sql| && !IsQuote(sql[i]) && FindCall(table, sql, i) == Some(e)
    requires alias == AliasWanted(sql, i, i + |e.name|)
    ensures SegmentAt(table, sql, i) == Call(e, sql[i..i + |e.name|], alias)
  {}

  lemma SegmentsFrom(table: seq<Entry>, sql: string, i: nat, seg: Segment, next: nat)
    requires i < |sql| && seg == SegmentAt(table, sql, i) && next == i + |Source(seg)|
    ensures next <= |sql| && Segments(table, sql, i) == Cons(seg, Segments(table, sql, next))
  {
    SegmentsStep(table, sql, i);
  }

  lemma CallSegment(table: seq<Entry>, sql: string, i: nat, e: Entry, alias: bool)
    requires i + |e.name| <= |sql| && i < |sql| && !IsQuote(sql[i]) && FindCall(table, sql, i) == Some(e)
    requires alias == AliasWanted(sql, i, i + |e.name|)
    ensures Images(Segments(table, sql, i)) ==
              e.literal + Alias(e.name, alias) + Images(Segments(table, sql, i + |e.name|))
  {
    var seg := Call(e, sql[i..i + |e.name|], alias);
    SegmentIsCall(table, sql, i, e, alias);
    SegmentsFrom(table, sql, i, seg, i + |e.name|);
    StepOn(Segments(table, sql, i), seg, Segments(table, sql, i + |e.name|));
  }

  lemma PlainSegment(table: seq<Entry>, sql: string, i: nat)
    requires i < |sql| && !IsQuote(sql[i]) && FindCall(table, sql, i) == None
    ensures Images(Segments(table, sql, i)) == [sql[i]] + Images(Segments(table, sql, i + 1))
  {
    SegmentsFrom(table, sql, i, Plain(sql[i]), i + 1);
    StepOn(Segments(table, sql, i), Plain(sql[i]), Segments(table, sql, i + 1));
  }

  // What the server's rewriter makes of the text from position i on.
  function From(v: Values, sql: string, i: nat): string
    requires i <= |sql|
  {
    Images(Segments(Table(v), sql, i))
  }

  lemma CallInTable(table: seq<Entry>, sql: string, i: nat, e: Entry)
    requires Unambiguous(table) && e in table && WrittenAt(sql, i, e.name)
    ensures var end := i + |e.name|;
            Images(Segments(table, sql, i)) ==
              e.literal + (if AliasWanted(sql, i, end) then " AS \"" + e.name + "\"" else "") + Images(Segments(table, sql, end))
  {
    FoundIfWritten(table, sql, i, e);
    CallSegment(table, sql, i, e, AliasWanted(sql, i, i + |e.name|));
  }

  // A call becomes the literal of its value, with the name as an alias where one is wanted.
  lemma CallIsReplaced(v: Values, sql: string, i: nat, name: string, literal: string)
    requires Means(v, name, literal) && WrittenAt(sql, i, name)
    ensures var end := i + |name|;
            From(v, sql, i) ==
              literal + (if AliasWanted(sql, i, end) then " AS \"" + name + "\"" else "") + From(v, sql, end)
  {
    MeaningsAreEntries(v, name, literal);
    CallInServerTable(v, sql, i, Entry(name, literal));
  }

  lemma CallInServerTable(v: Values, sql: string, i: nat, e: Entry)
    requires e in Table(v) && WrittenAt(sql, i, e.name)
    ensures var end := i + |e.name|;
            From(v, sql, i) ==
              e.literal + (if AliasWanted(sql, i, end) then " AS \"" + e.name + "\"" else "") + From(v, sql, end)
  {
    TableIsUnambiguous(v);
    CallInTable(Table(v), sql, i, e);
  }

  // An ordinary character that begins no call is copied.
  lemma OtherIsCopied(v: Values, sql: string, i: nat)
    requires i < |sql| && sql[i] != '\'' && sql[i] != '"'
    requires forall name, literal :: Means(v, name, literal) ==> !WrittenAt(sql, i, name)
    ensures From(v, sql, i) == [sql[i]] + From(v, sql, i + 1)
  {
    var table := Table(v);
    TableIsUnambiguous(v);
    forall e | e in table ensures !WrittenAt(sql, i, e.name) { EntriesMean(v, e); }
    OtherInTable(table, sql, i);
  }

  lemma OtherInTable(table: seq<Entry>, sql: string, i: nat)
    requires Unambiguous(table) && i < |sql| && !IsQuote(sql[i]) && forall e :: e in table ==> !WrittenAt(sql, i, e.name)
    ensures Images(Segments(table, sql, i)) == [sql[i]] + Images(Segments(table, sql, i + 1))
  {
    NoneIfNotWritten(table, sql, i);
    PlainSegment(table, sql, i);
  }

  // A quoted region is copied with its quotes.
  lemma RegionIsCopied(v: Values, sql: string, i: nat)
    requires i < |sql| && (sql[i] == '\'' || sql[i] == '"')
    ensures var end := RegionEnd(sql[i], sql, i + 1);
            From(v, sql, i) == sql[i..end] + From(v, sql, end)
  {
    RegionInTable(Table(v), sql, i);
  }

  lemma RegionInTable(table: seq<Entry>, sql: string, i: nat)
    requires i < |sql| && IsQuote(sql[i])
    ensures var end := RegionEnd(sql[i], sql, i + 1);
            Images(Segments(table, sql, i)) == sql[i..end] + Images(Segments(table, sql, end))
  {
    var end := RegionEnd(sql[i], sql, i + 1);
    SegmentsFrom(table, sql, i, Region(sql[i..end]), end);
    StepOn(Segments(table, sql, i), Region(sql[i..end]), Segments(table, sql, end));
  }

  // A call by itself, in any case.
  lemma CallAlone(v: Values, call: string, name: string, literal: string)
    requires Means(v, name, literal) && |call| == |name| && WrittenAt(call, 0, name)
    ensures Rewritten(Table(v), call) == literal + " AS \"" + name + "\""
  {
    TableIsUnambiguous(v);
    MeaningsAreEntries(v, name, literal);
    CallAloneInTable(Table(v), call, Entry(name, literal));
  }

  lemma CallAloneInTable(table: seq<Entry>, call: string, e: Entry)
    requires Unambiguous(table) && e in table && |call| == |e.name| && WrittenAt(call, 0, e.name)
    ensures Rewritten(table, call) == e.literal + " AS \"" + e.name + "\""
  {
    CallInTable(table, call, 0, e);
    assert AliasWanted(call, 0, |call|);
    Associate(e.literal, " AS \"" + e.name + "\"", "");
    Associate(e.literal, " AS \"" + e.name, "\"");
  }

  // The whole text is rewritten from its beginning on, and nothing is left behind its end.
  lemma FromTheBeginning(v: Values, sql: string)
    ensures Rewritten(Table(v), sql) == From(v, sql, 0) && From(v, sql, |sql|) == ""
  {}

  // ----- Where the alias is wanted -----

  // After these a SELECT expression cannot go on.
  const KEYWORDS := ["FROM", "WHERE", "ORDER", "GROUP", "HAVING", "LIMIT", "UNION", "EXCEPT", "INTERSECT"]

  predicate KeywordAt(sql: string, k: nat) {
    exists w :: 0 <= w < |KEYWORDS| && WrittenAt(sql, k, KEYWORDS[w])
      && k + |KEYWORDS[w]| < |sql| && sql[k + |KEYWORDS[w]|] in {' ', '\t', '\n', '\r'}
  }

  predicate EndsExpression(sql: string, k: nat) {
    k == |sql| || (k < |sql| && (sql[k] in {',', ';', ')'} || KeywordAt(sql, k)))
  }

  predicate Blank(sql: string, from: nat, to: nat)
    requires to <= |sql|
  {
    forall j :: from <= j < to ==> IsSpace(sql[j])
  }

  // A comparison operator stands before the call, with nothing but blanks in between.
  predicate Compared(sql: string, start: nat)
    requires start <= |sql|
  {
    exists k :: 0 <= k < start && sql[k] in {'=', '<', '>', '!'} && Blank(sql, k + 1, start)
  }

  // An alias is added if and only if no comparison operator stands before the call, and behind it, blanks apart, is
  // the end, a comma, a semicolon, a closing parenthesis or one of the keywords.
  lemma AliasRule(sql: string, start: nat, end: nat)
    requires start <= end <= |sql|
    ensures AliasWanted(sql, start, end) <==>
              !Compared(sql, start) && exists k :: end <= k <= |sql| && Blank(sql, end, k) && EndsExpression(sql, k)
  {
    ComparedRule(sql, start);
    EndRule(sql, end);
  }

  lemma {:induction false} ComparedRule(sql: string, i: nat)
    requires i <= |sql|
    ensures AfterComparison(sql, i) <==> Compared(sql, i)
  {
    if i > 0 {
      ComparedRule(sql, i - 1);
      if Compared(sql, i) {
        var k :| 0 <= k < i && sql[k] in {'=', '<', '>', '!'} && Blank(sql, k + 1, i);
        assert k < i - 1 ==> Blank(sql, k + 1, i - 1) && IsSpace(sql[i - 1]);
      }
      if IsSpace(sql[i - 1]) && Compared(sql, i - 1) {
        var k :| 0 <= k < i - 1 && sql[k] in {'=', '<', '>', '!'} && Blank(sql, k + 1, i - 1);
        assert Blank(sql, k + 1, i);
      }
      if !IsSpace(sql[i - 1]) && IsComparison(sql[i - 1]) { assert Blank(sql, i - 1 + 1, i); }
    }
  }

  lemma {:induction false} EndRule(sql: string, i: nat)
    requires i <= |sql|
    ensures BeforeEnd(sql, i) <==> exists k :: i <= k <= |sql| && Blank(sql, i, k) && EndsExpression(sql, k)
    decreases |sql| - i
  {
    if i == |sql| {
      assert Blank(sql, i, i);
    } else if IsSpace(sql[i]) {
      EndRule(sql, i + 1);
      NoKeywordAtBlank(sql, i);
      if k :| i <= k <= |sql| && Blank(sql, i, k) && EndsExpression(sql, k) { assert k > i && Blank(sql, i + 1, k); }
      if k :| i + 1 <= k <= |sql| && Blank(sql, i + 1, k) && EndsExpression(sql, k) { assert Blank(sql, i, k); }
    } else {
      KeywordIsTerminator(sql, i);
      assert Blank(sql, i, i);
      if k :| i <= k <= |sql| && Blank(sql, i, k) && EndsExpression(sql, k) { assert k == i; }
    }
  }

  lemma KeywordsAre()
    ensures KEYWORDS == SELECT_TERMINATORS && forall w :: 0 <= w < |KEYWORDS| ==> NoSmallLetters(KEYWORDS[w])
    ensures forall w :: 0 <= w < |KEYWORDS| ==> KEYWORDS[w] != "" && 'A' <= KEYWORDS[w][0] <= 'Z'
  {}

  lemma NoKeywordAtBlank(sql: string, i: nat)
    requires i < |sql| && IsSpace(sql[i])
    ensures !EndsExpression(sql, i)
  {
    KeywordsAre();
    forall w | 0 <= w < |KEYWORDS| ensures !WrittenAt(sql, i, KEYWORDS[w]) {
      assert !Writes(sql[i], KEYWORDS[w][0]) && sql[i] == sql[i + 0];
    }
  }

  lemma KeywordIsTerminator(sql: string, i: nat)
    requires i < |sql|
    ensures KeywordAt(sql, i) <==> BeforeTerminator(sql[i..])
  {
    KeywordsAre();
    forall w | 0 <= w < |KEYWORDS|
      ensures BeginsWithWord(sql[i..], SELECT_TERMINATORS[w]) <==>
                WrittenAt(sql, i, KEYWORDS[w]) && i + |KEYWORDS[w]| < |sql| && sql[i + |KEYWORDS[w]|] in {' ', '\t', '\n', '\r'}
    {
      WordIsWritten(sql, i, KEYWORDS[w]);
    }
  }

  lemma WordIsWritten(sql: string, i: nat, word: string)
    requires i <= |sql| && NoSmallLetters(word)
    ensures BeginsWithWord(sql[i..], word) <==>
              WrittenAt(sql, i, word) && i + |word| < |sql| && sql[i + |word|] in {' ', '\t', '\n', '\r'}
  {
    WrittenIsNameAt(sql, i, word);
    NameAtSuffix(sql, i, word);
  }
}
