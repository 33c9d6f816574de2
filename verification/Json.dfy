/**
 JSON values, their compact text as the logger writes it, and a parser for that format (RFC 8259), with the
 round trip between the two. Text is produced in front of a continuation: Print(v, rest) is v followed by rest.
 */
module Json {
  import opened Text

  datatype Json =
    | Null
    | Bool(b: bool)
    | Int(n: int)
    | Double(token: string)  // a number with a fraction or an exponent, in its decimal text
    | Str(s: string)
    | Arr(elems: Elems)
    | Obj(members: Members)
  datatype Elems = NoElems | Elem(value: Json, more: Elems)
  datatype Members = NoMembers | Member(key: string, value: Json, more: Members)

  const MIN_INT := -0x8000_0000_0000_0000
  const MAX_INT := 0xffff_ffff_ffff_ffff

  // ----- Objects are kept sorted by key -----

  predicate Less(a: string, b: string) {
    b != "" && (a == "" || a[0] < b[0] || (a[0] == b[0] && Less(a[1..], b[1..])))
  }

  lemma {:induction false} LessIsTotal(a: string, b: string)
    ensures Less(a, b) || a == b || Less(b, a)
    ensures !(Less(a, b) && Less(b, a))
  {
    if a != "" && b != "" && a[0] == b[0] {
      LessIsTotal(a[1..], b[1..]);
      assert a == [a[0]] + a[1..] && b == [b[0]] + b[1..];
    }
  }

  lemma {:induction false} LessIsTransitive(a: string, b: string, c: string)
    requires Less(a, b) && Less(b, c)
    ensures Less(a, c)
  {
    if a != "" && a[0] == b[0] && b[0] == c[0] { LessIsTransitive(a[1..], b[1..], c[1..]); }
  }

  predicate Sorted(m: Members) {
    m.NoMembers? || ((m.more.NoMembers? || Less(m.key, m.more.key)) && Sorted(m.more))
  }

  function ToMap(m: Members): map<string, Json> {
    if m.NoMembers? then map[] else ToMap(m.more)[m.key := m.value]
  }

  // j[key] = value
  function Put(m: Members, key: string, value: Json): Members {
    if m.NoMembers? || Less(key, m.key) then Member(key, value, m)
    else if key == m.key then Member(key, value, m.more)
    else Member(m.key, m.value, Put(m.more, key, value))
  }

  lemma {:induction false} SortedKeys(m: Members, k: string)
    requires Sorted(m) && k in ToMap(m)
    ensures m.Member? && (k == m.key || Less(m.key, k))
  {
    if k != m.key {
      SortedKeys(m.more, k);
      if k != m.more.key { LessIsTransitive(m.key, m.more.key, k); }
    }
  }

  lemma {:induction false} PutKeeps(m: Members, key: string, value: Json)
    requires Sorted(m)
    ensures Sorted(Put(m, key, value)) && ToMap(Put(m, key, value)) == ToMap(m)[key := value]
  {
    if m.Member? {
      LessIsTotal(key, m.key);
      if !Less(key, m.key) && key != m.key {
        PutKeeps(m.more, key, value);
      }
    }
  }

  // ----- Numbers: section 6 of RFC 8259 -----

  datatype NumberState = Begin | Minus | Zero | Whole | Dot | Frac | Exp | ExpSign | ExpDigits | NotANumber

  function NumberStep(st: NumberState, c: char): NumberState {
    match st
    case Begin => if c == '-' then Minus else if c == '0' then Zero else if IsDigit(c) then Whole else NotANumber
    case Minus => if c == '0' then Zero else if IsDigit(c) then Whole else NotANumber
    case Zero => if c == '.' then Dot else if c == 'e' || c == 'E' then Exp else NotANumber
    case Whole => if IsDigit(c) then Whole else if c == '.' then Dot else if c == 'e' || c == 'E' then Exp else NotANumber
    case Dot => if IsDigit(c) then Frac else NotANumber
    case Frac => if IsDigit(c) then Frac else if c == 'e' || c == 'E' then Exp else NotANumber
    case Exp => if IsDigit(c) then ExpDigits else if c == '+' || c == '-' then ExpSign else NotANumber
    case ExpSign => if IsDigit(c) then ExpDigits else NotANumber
    case ExpDigits => if IsDigit(c) then ExpDigits else NotANumber
    case NotANumber => NotANumber
  }

  function NumberRun(s: string): NumberState {
    if s == "" then Begin else NumberStep(NumberRun(s[..|s| - 1]), s[|s| - 1])
  }

  predicate IsInteger(s: string) { NumberRun(s).Zero? || NumberRun(s).Whole? }

  predicate IsDouble(s: string) { NumberRun(s).Frac? || NumberRun(s).ExpDigits? }

  predicate IsNumberChar(c: char) {
    IsDigit(c) || c == '-' || c == '+' || c == '.' || c == 'e' || c == 'E'
  }

  lemma {:induction false} NumberChars(s: string)
    requires !NumberRun(s).NotANumber?
    ensures forall k :: 0 <= k < |s| ==> IsNumberChar(s[k])
    ensures IsInteger(s) ==> s != "" && (s[0] == '-' || IsDigit(s[0])) && forall k :: 1 <= k < |s| ==> IsDigit(s[k])
    ensures IsInteger(s) && s[0] == '-' ==> |s| > 1
    ensures NumberRun(s).Minus? ==> s == "-"
  {
    if s != "" {
      NumberChars(s[..|s| - 1]);
    }
  }

  function IntValue(s: string): int
    requires IsInteger(s)
  {
    NumberChars(s);
    if s[0] == '-' then 0 - Value(s[1..]) else Value(s)
  }

  lemma {:induction false} DigitsAreInteger(sign: string, n: nat)
    requires sign == "" || sign == "-"
    ensures NumberRun(sign + Digits(n)) == if n == 0 then Zero else Whole
  {
    var s := sign + Digits(n);
    if n < 10 {
      assert s[..|s| - 1] == sign;
      if sign == "-" { assert sign[..0] == "" && NumberRun(sign) == Minus; }
    } else {
      DigitsAreInteger(sign, n / 10);
      assert s[..|s| - 1] == sign + Digits(n / 10);
    }
  }

  lemma IntRoundTrip(n: int)
    ensures IsInteger(IntText(n)) && IntValue(IntText(n)) == n
  {
    if n < 0 {
      DigitsAreInteger("-", -n);
      ValueOfDigits(-n);
      assert ("-" + Digits(-n))[1..] == Digits(-n);
    } else {
      DigitsAreInteger("", n);
      ValueOfDigits(n);
      assert "" + Digits(n) == Digits(n);
    }
  }

  function NumberLength(s: string): (n: nat)
    ensures n <= |s|
  {
    if s != "" && IsNumberChar(s[0]) then 1 + NumberLength(s[1..]) else 0
  }

  predicate Stops(rest: string) {
    rest == "" || !IsNumberChar(rest[0])
  }

  lemma {:induction false} NumberLengthIs(t: string, rest: string)
    requires Stops(rest) && forall k :: 0 <= k < |t| ==> IsNumberChar(t[k])
    ensures NumberLength(t + rest) == |t|
  {
    if t == "" {
      assert t + rest == rest;
    } else {
      assert (t + rest)[1..] == t[1..] + rest;
      NumberLengthIs(t[1..], rest);
    }
  }

  function NumberOf(token: string): Option<Json> {
    if IsInteger(token) then
      var n := IntValue(token);
      Some(if MIN_INT <= n <= MAX_INT then Int(n) else Double(token))
    else if IsDouble(token) then Some(Double(token)) else None
  }

  // ----- Strings: section 7 of RFC 8259 -----

  function Hex(d: nat): char
    requires d < 16
  {
    if d < 10 then (d + '0' as int) as char else (d - 10 + 'a' as int) as char
  }

  function HexValue(c: char): (h: Option<nat>)
    ensures h.Some? ==> h.value < 16
  {
    if IsDigit(c) then Some(c as int - '0' as int)
    else if 'a' <= c <= 'f' then Some(c as int - 'a' as int + 10)
    else if 'A' <= c <= 'F' then Some(c as int - 'A' as int + 10)
    else None
  }

  function Escape(c: char): string {
    if c == '"' then "\\\""
    else if c == '\\' then "\\\\"
    else if c == '\n' then "\\n"
    else if c == '\r' then "\\r"
    else if c == '\t' then "\\t"
    else if c as int == 8 then "\\b"
    else if c as int == 12 then "\\f"
    else if c as int < 0x20 then "\\u00" + [Hex(c as int / 16), Hex(c as int % 16)]
    else [c]
  }

  function PrintChars(t: string, rest: string): string
    decreases t
  {
    if t == "" then "\"" + rest else Escape(t[0]) + PrintChars(t[1..], rest)
  }

  function PrintString(t: string, rest: string): string {
    "\"" + PrintChars(t, rest)
  }

  datatype Parsed<+T> = Failed | Parsed(value: T, rest: string)

  // The character after a backslash and what follows it; surrogate halves are not accepted.
  function Unescape(s: string): (p: Parsed<char>)
    ensures p.Parsed? ==> |p.rest| < |s|
  {
    if s == "" then Failed
    else if s[0] == '"' || s[0] == '\\' || s[0] == '/' then Parsed(s[0], s[1..])
    else if s[0] == 'b' then Parsed(8 as char, s[1..])
    else if s[0] == 'f' then Parsed(12 as char, s[1..])
    else if s[0] == 'n' then Parsed('\n', s[1..])
    else if s[0] == 'r' then Parsed('\r', s[1..])
    else if s[0] == 't' then Parsed('\t', s[1..])
    else if s[0] == 'u' && |s| >= 5 then
      var (a, b, c, d) := (HexValue(s[1]), HexValue(s[2]), HexValue(s[3]), HexValue(s[4]));
      if a.None? || b.None? || c.None? || d.None? then Failed
      else
        var code := ((a.value * 16 + b.value) * 16 + c.value) * 16 + d.value;
        if code < 0xD800 || 0xE000 <= code < 0x10000 then Parsed(code as char, s[5..]) else Failed
    else Failed
  }

  // The rest of a string literal whose opening quote has been read.
  function ParseChars(s: string): (p: Parsed<string>)
    ensures p.Parsed? ==> |p.rest| < |s|
    decreases |s|
  {
    if s == "" || s[0] as int < 0x20 then Failed
    else if s[0] == '"' then Parsed("", s[1..])
    else
      var first := if s[0] == '\\' then Unescape(s[1..]) else Parsed(s[0], s[1..]);
      if first.Failed? then Failed
      else match ParseChars(first.rest)
        case Failed => Failed
        case Parsed(t, rest) => Parsed([first.value] + t, rest)
  }

  lemma EscapeRoundTrip(c: char, rest: string)
    ensures var s := Escape(c) + rest; s[0] != '"' && s[0] as int >= 0x20
    ensures var s := Escape(c) + rest; s[0] != '\\' ==> s[0] == c && s[1..] == rest
    ensures var s := Escape(c) + rest; s[0] == '\\' ==> Unescape(s[1..]) == Parsed(c, rest)
  {
    var e := Escape(c);
    var s := e + rest;
    assert s[0] == e[0] && s[1..] == e[1..] + rest;
    if e[0] == '\\' {
      assert s[1..][0] == e[1];
      if |e| == 2 {
        assert s[1..][1..] == rest;
      } else {
        assert s[1..] == "u00" + [Hex(c as int / 16), Hex(c as int % 16)] + rest;
        assert s[1..][5..] == rest;
      }
    }
  }

  lemma {:induction false} StringRoundTrip(t: string, rest: string)
    ensures ParseChars(PrintChars(t, rest)) == Parsed(t, rest)
  {
    if t == "" {
      assert ("\"" + rest)[1..] == rest;
    } else {
      EscapeRoundTrip(t[0], PrintChars(t[1..], rest));
      StringRoundTrip(t[1..], rest);
      assert t == [t[0]] + t[1..];
    }
  }

  // ----- Values -----

  function Print(v: Json, rest: string): string
    decreases v
  {
    match v
    case Null => "null" + rest
    case Bool(b) => (if b then "true" else "false") + rest
    case Int(n) => IntText(n) + rest
    case Double(token) => token + rest
    case Str(s) => PrintString(s, rest)
    case Arr(e) => "[" + if e.NoElems? then "]" + rest else PrintElems(e, rest)
    case Obj(m) => "{" + if m.NoMembers? then "}" + rest else PrintMembers(m, rest)
  }

  function PrintElems(e: Elems, rest: string): string
    requires e.Elem?
    decreases e
  {
    Print(e.value, if e.more.NoElems? then "]" + rest else "," + PrintElems(e.more, rest))
  }

  function PrintMembers(m: Members, rest: string): string
    requires m.Member?
    decreases m
  {
    PrintString(m.key, ":" + Print(m.value, if m.more.NoMembers? then "}" + rest else "," + PrintMembers(m.more, rest)))
  }

  predicate WellFormed(v: Json)
    decreases v
  {
    match v
    case Int(n) => MIN_INT <= n <= MAX_INT
    case Double(token) => IsDouble(token)
    case Arr(e) => WellFormedElems(e)
    case Obj(m) => Sorted(m) && WellFormedMembers(m)
    case _ => true
  }

  predicate WellFormedElems(e: Elems)
    decreases e
  {
    e.NoElems? || (WellFormed(e.value) && WellFormedElems(e.more))
  }

  predicate WellFormedMembers(m: Members)
    decreases m
  {
    m.NoMembers? || (WellFormed(m.value) && WellFormedMembers(m.more))
  }

  function SkipSpace(s: string): (r: string)
    ensures |r| <= |s|
  {
    if s != "" && (s[0] == ' ' || s[0] == '\t' || s[0] == '\n' || s[0] == '\r') then SkipSpace(s[1..]) else s
  }

  function ParseNumber(s: string): (p: Parsed<Json>)
    ensures p.Parsed? ==> |p.rest| < |s|
  {
    var n := NumberLength(s);
    var v := NumberOf(s[..n]);
    if n == 0 || v.None? then Failed else Parsed(v.value, s[n..])
  }

  function ParseScalar(s: string): (p: Parsed<Json>)
    ensures p.Parsed? ==> |p.rest| < |s|
  {
    if s != "" && s[0] == '"' then
      var p := ParseChars(s[1..]);
      if p.Failed? then Failed else Parsed(Str(p.value), p.rest)
    else if "null" <= s then Parsed(Null, s[4..])
    else if "true" <= s then Parsed(Bool(true), s[4..])
    else if "false" <= s then Parsed(Bool(false), s[5..])
    else ParseNumber(s)
  }

  function ParseValue(text: string): (p: Parsed<Json>)
    ensures p.Parsed? ==> |p.rest| < |text|
    decreases |text|, 1
  {
    var s := SkipSpace(text);
    if s == "" then Failed
    else if s[0] == '[' then
      var u := SkipSpace(s[1..]);
      if u != "" && u[0] == ']' then Parsed(Arr(NoElems), u[1..])
      else
        var p := ParseElems(u);
        if p.Failed? then Failed else Parsed(Arr(p.value), p.rest)
    else if s[0] == '{' then
      var u := SkipSpace(s[1..]);
      if u != "" && u[0] == '}' then Parsed(Obj(NoMembers), u[1..])
      else
        var p := ParseMembers(u);
        if p.Failed? then Failed else Parsed(Obj(p.value), p.rest)
    else ParseScalar(s)
  }

  function ParseElems(text: string): (p: Parsed<Elems>)
    ensures p.Parsed? ==> |p.rest| < |text|
    decreases |text|, 2
  {
    match ParseValue(text)
    case Failed => Failed
    case Parsed(v, after) =>
      var s := SkipSpace(after);
      if s == "" then Failed
      else if s[0] == ']' then Parsed(Elem(v, NoElems), s[1..])
      else if s[0] == ',' then
        match ParseElems(s[1..])
        case Failed => Failed
        case Parsed(e, rest) => Parsed(Elem(v, e), rest)
      else Failed
  }

  // A key, a colon and a value.
  function ParseMember(text: string): (p: Parsed<(string, Json)>)
    ensures p.Parsed? ==> |p.rest| < |text|
    decreases |text|, 2
  {
    var s := SkipSpace(text);
    if s == "" || s[0] != '"' then Failed
    else match ParseChars(s[1..])
      case Failed => Failed
      case Parsed(key, afterKey) =>
        var colon := SkipSpace(afterKey);
        if colon == "" || colon[0] != ':' then Failed
        else match ParseValue(colon[1..])
          case Failed => Failed
          case Parsed(v, rest) => Parsed((key, v), rest)
  }

  // A key that occurs again later takes its last value.
  function ParseMembers(text: string): (p: Parsed<Members>)
    ensures p.Parsed? ==> |p.rest| < |text|
    decreases |text|, 3
  {
    match ParseMember(text)
    case Failed => Failed
    case Parsed((key, v), after) =>
      var s := SkipSpace(after);
      if s == "" then Failed
      else if s[0] == '}' then Parsed(Member(key, v, NoMembers), s[1..])
      else if s[0] == ',' then
        match ParseMembers(s[1..])
        case Failed => Failed
        case Parsed(m, rest) => Parsed(if key in ToMap(m) then m else Put(m, key, v), rest)
      else Failed
  }

  // The whole text is one value.
  function Parse(text: string): Option<Json> {
    match ParseValue(text)
    case Failed => None
    case Parsed(v, rest) => if SkipSpace(rest) == "" then Some(v) else None
  }

  lemma PrintStarts(v: Json, rest: string)
    requires WellFormed(v)
    ensures var s := Print(v, rest); s != "" && SkipSpace(s) == s && s[0] != ']' && s[0] != '}'
  {
    match v
    case Int(n) =>
      IntRoundTrip(n);
      NumberChars(IntText(n));
      assert Print(v, rest)[0] == IntText(n)[0];
    case Double(token) =>
      NumberChars(token);
      assert Print(v, rest)[0] == token[0];
    case _ =>
  }

  lemma NumberIsParsed(token: string, rest: string)
    requires (IsInteger(token) || IsDouble(token)) && Stops(rest)
    ensures var v := NumberOf(token); v.Some? && ParseScalar(token + rest) == Parsed(v.value, rest)
  {
    NumberChars(token);
    NumberLengthIs(token, rest);
    var s := token + rest;
    assert token != "" && s[0] == token[0] && IsNumberChar(token[0]) && SkipSpace(s) == s;
    assert s[..|token|] == token && s[|token|..] == rest;
  }

  lemma KeywordIsParsed(word: string, v: Json, rest: string)
    requires (word == "null" && v == Null) || (word == "true" && v == Bool(true)) || (word == "false" && v == Bool(false))
    ensures ParseScalar(word + rest) == Parsed(v, rest) && (word + rest)[0] !in "[{"
  {
    var s := word + rest;
    assert s[0] == word[0] && word <= s && s[|word|..] == rest;
  }

  lemma StringIsParsed(t: string, rest: string)
    ensures ParseScalar(PrintString(t, rest)) == Parsed(Str(t), rest) && PrintString(t, rest)[0] == '"'
  {
    assert PrintString(t, rest)[1..] == PrintChars(t, rest);
    StringRoundTrip(t, rest);
  }

  lemma ScalarRoundTrip(v: Json, rest: string)
    requires WellFormed(v) && Stops(rest) && !v.Arr? && !v.Obj?
    ensures ParseScalar(Print(v, rest)) == Parsed(v, rest)
    ensures Print(v, rest)[0] !in "[{"
  {
    match v
    case Null => KeywordIsParsed("null", v, rest);
    case Bool(b) => KeywordIsParsed(if b then "true" else "false", v, rest);
    case Int(n) =>
      IntRoundTrip(n);
      NumberChars(IntText(n));
      NumberIsParsed(IntText(n), rest);
    case Double(token) =>
      NumberChars(token);
      NumberIsParsed(token, rest);
    case Str(t) => StringIsParsed(t, rest);
  }

  lemma {:induction false} ValueRoundTrip(v: Json, rest: string)
    requires WellFormed(v) && Stops(rest)
    ensures ParseValue(Print(v, rest)) == Parsed(v, rest)
    decreases v
  {
    var s := Print(v, rest);
    PrintStarts(v, rest);
    match v
    case Arr(e) =>
      if e.NoElems? {
        assert s[1..] == "]" + rest && s[1..][1..] == rest;
      } else {
        var u := PrintElems(e, rest);
        assert s[1..] == u;
        PrintStarts(e.value, if e.more.NoElems? then "]" + rest else "," + PrintElems(e.more, rest));
        assert SkipSpace(u) == u;
        ElemsRoundTrip(e, rest);
      }
    case Obj(m) =>
      if m.NoMembers? {
        assert s[1..] == "}" + rest && s[1..][1..] == rest;
      } else {
        var u := PrintMembers(m, rest);
        assert s[1..] == u && u[0] == '"' && SkipSpace(u) == u;
        MembersRoundTrip(m, rest);
      }
    case _ => ScalarRoundTrip(v, rest);
  }

  lemma {:induction false} ElemsRoundTrip(e: Elems, rest: string)
    requires e.Elem? && WellFormedElems(e)
    ensures ParseElems(PrintElems(e, rest)) == Parsed(e, rest)
    decreases e
  {
    var after := if e.more.NoElems? then "]" + rest else "," + PrintElems(e.more, rest);
    ValueRoundTrip(e.value, after);
    if e.more.NoElems? {
      LastElem(PrintElems(e, rest), e.value, rest);
    } else {
      ElemsRoundTrip(e.more, rest);
      NextElem(PrintElems(e, rest), e.value, PrintElems(e.more, rest), e.more, rest);
    }
  }

  lemma LastElem(text: string, v: Json, rest: string)
    requires ParseValue(text) == Parsed(v, "]" + rest)
    ensures ParseElems(text) == Parsed(Elem(v, NoElems), rest)
  {
    assert ("]" + rest)[1..] == rest;
  }

  lemma NextElem(text: string, v: Json, text': string, more: Elems, rest: string)
    requires ParseValue(text) == Parsed(v, "," + text') && ParseElems(text') == Parsed(more, rest)
    ensures ParseElems(text) == Parsed(Elem(v, more), rest)
  {
    assert ("," + text')[1..] == text';
  }

  lemma MemberIsParsed(key: string, body: string, v: Json, after: string)
    requires ParseValue(body) == Parsed(v, after)
    ensures ParseMember(PrintString(key, ":" + body)) == Parsed((key, v), after)
  {
    var colon := ":" + body;
    var text := PrintString(key, colon);
    assert text[0] == '"' && text[1..] == PrintChars(key, colon) && SkipSpace(text) == text;
    StringRoundTrip(key, colon);
    assert colon[0] == ':' && colon[1..] == body && SkipSpace(colon) == colon;
  }

  lemma NewFirstKey(m: Members)
    requires m.Member? && Sorted(m)
    ensures m.key !in ToMap(m.more) && Put(m.more, m.key, m.value) == m
  {
    if m.key in ToMap(m.more) {
      SortedKeys(m.more, m.key);
      LessIsTotal(m.key, m.more.key);
    }
  }

  lemma {:induction false} MembersRoundTrip(m: Members, rest: string)
    requires m.Member? && WellFormedMembers(m) && Sorted(m)
    ensures ParseMembers(PrintMembers(m, rest)) == Parsed(m, rest)
    decreases m
  {
    var after := if m.more.NoMembers? then "}" + rest else "," + PrintMembers(m.more, rest);
    var text := PrintMembers(m, rest);
    assert text == PrintString(m.key, ":" + Print(m.value, after));
    ValueRoundTrip(m.value, after);
    MemberIsParsed(m.key, Print(m.value, after), m.value, after);
    assert ParseMember(text) == Parsed((m.key, m.value), after) && SkipSpace(after) == after;
    if m.more.NoMembers? {
      assert after[1..] == rest;
      assert ParseMembers(text) == Parsed(Member(m.key, m.value, NoMembers), rest);
    } else {
      assert after[0] == ',' && after[1..] == PrintMembers(m.more, rest);
      MembersRoundTrip(m.more, rest);
      NewFirstKey(m);
    }
  }

  function Dump(v: Json): string {
    Print(v, "")
  }

  // Reading back the compact text of a value gives that value.
  lemma RoundTrip(v: Json)
    requires WellFormed(v)
    ensures Parse(Dump(v)) == Some(v)
  {
    ValueRoundTrip(v, "");
  }

  // ----- What the escapes look like -----

  // Only quotes, backslashes and control characters are escaped: the first two and five of the latter with a letter
  // or the character itself behind a backslash, the others with their code in four hexadecimal digits.
  lemma EscapesAre(c: char)
    ensures Escape(c) == [c] <==> c != '"' && c != '\\' && c as int >= 32
    ensures Escape('"') == ['\\', '"'] && Escape('\\') == ['\\', '\\'] && Escape(10 as char) == ['\\', 'n']
    ensures Escape(13 as char) == ['\\', 'r'] && Escape(9 as char) == ['\\', 't'] && Escape(8 as char) == ['\\', 'b']
    ensures Escape(12 as char) == ['\\', 'f']
    ensures c as int < 32 && c as int !in {8, 9, 10, 12, 13} ==>
              && |Escape(c)| == 6 && Escape(c)[..4] == ['\\', 'u', '0', '0']
              && HexValue(Escape(c)[4]) == Some(c as int / 16) && HexValue(Escape(c)[5]) == Some(c as int % 16)
  {}
}
