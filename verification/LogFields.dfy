/**
 How structured log fields travel inside a log message: they are written in front of it as a marker, a
 compact JSON object and a space, and peeled off again by a scanner that looks for the closing brace.
 */
module LogFields {
  import opened Text
  import opened Json

  const PREFIX := "[[KV]]"

  type Int64 = n: int | MIN_INT <= n < 0x8000_0000_0000_0000

  // A finite double is represented by its decimal text; an infinity or a NaN has none.
  type DoubleText = s: string | IsDouble(s) witness WITNESS_DOUBLE
  const WITNESS_DOUBLE := AnyDouble()

  function AnyDouble(): (s: string)
    ensures IsDouble(s)
  {
    assert NumberRun("0") == Zero by { assert "0"[..0] == ""; }
    assert NumberRun("0.") == Dot by { assert "0."[..1] == "0"; }
    assert "0.0"[..2] == "0.";
    "0.0"
  }

  datatype FieldValue = Text(s: string) | Integer(n: Int64) | Floating(token: DoubleText) | NonFinite | Boolean(b: bool)
  datatype Field = Field(key: string, value: FieldValue)

  // How a value is written; JSON has no infinity and no NaN.
  function ToJson(v: FieldValue): Json {
    match v
    case Text(s) => Str(s)
    case Integer(n) => Int(n)
    case Floating(token) => Double(token)
    case NonFinite => Null
    case Boolean(b) => Bool(b)
  }

  // ----- Encoding -----

  // The last field with a given key counts.
  function FieldMap(fields: seq<Field>): map<string, Json> {
    if fields == [] then map[]
    else var f := fields[|fields| - 1]; FieldMap(fields[..|fields| - 1])[f.key := ToJson(f.value)]
  }

  // The key-sorted object into which the fields are put one after the other.
  function ObjectOf(fields: seq<Field>): Members {
    if fields == [] then NoMembers
    else var f := fields[|fields| - 1]; Put(ObjectOf(fields[..|fields| - 1]), f.key, ToJson(f.value))
  }

  lemma {:induction false} ObjectHasTheFields(fields: seq<Field>)
    ensures WellFormed(Obj(ObjectOf(fields))) && ToMap(ObjectOf(fields)) == FieldMap(fields)
  {
    if fields != [] {
      var n := |fields| - 1;
      ObjectHasTheFields(fields[..n]);
      PutKeeps(ObjectOf(fields[..n]), fields[n].key, ToJson(fields[n].value));
      PutWellFormed(ObjectOf(fields[..n]), fields[n].key, ToJson(fields[n].value));
    }
  }

  function Encoded(fields: seq<Field>): string {
    if fields == [] then "" else PREFIX + Dump(Obj(ObjectOf(fields))) + " "
  }

  method EncodeFieldsForMessage(fields: seq<Field>) returns (text: string)
    ensures text == Encoded(fields)
  {
    if fields == [] { return ""; }
    var j := NoMembers;
    for i := 0 to |fields|
      invariant j == ObjectOf(fields[..i])
    {
      assert fields[..i + 1][..i] == fields[..i];
      j := Put(j, fields[i].key, ToJson(fields[i].value));
    }
    assert fields[..|fields|] == fields;
    text := PREFIX + Dump(Obj(j)) + " ";
  }

  lemma {:induction false} PutWellFormed(m: Members, key: string, v: Json)
    requires WellFormedMembers(m) && WellFormed(v)
    ensures WellFormedMembers(Put(m, key, v))
  {
    if m.Member? { PutWellFormed(m.more, key, v); }
  }

  // ----- Extracting -----

  datatype Scan = Scan(depth: int, inString: bool, escaped: bool)

  function Next(st: Scan, c: char): Scan {
    if st.inString then
      if st.escaped then st.(escaped := false)
      else if c == '\\' then st.(escaped := true)
      else if c == '"' then st.(inString := false)
      else st
    else if c == '"' then st.(inString := true)
    else if c == '{' then st.(depth := st.depth + 1)
    else if c == '}' then st.(depth := st.depth - 1)
    else st
  }

  // What follows the brace that brings the depth to zero.
  function AfterObject(s: string, st: Scan): (r: Option<string>)
    ensures r.Some? ==> |r.value| < |s|
  {
    if s == "" then None
    else if !st.inString && s[0] == '}' && st.depth == 1 then Some(s[1..])
    else AfterObject(s[1..], Next(st, s[0]))
  }

  const START := Scan(0, false, false)

  // The fields, if a parsable object was found, and what is left of the message.
  function Extracted(text: string): (Option<Json>, string) {
    if PREFIX <= text && |text| > |PREFIX| && text[|PREFIX|] == '{' then
      var body := text[|PREFIX|..];
      match AfterObject(body, START)
      case None => (None, text)
      case Some(rest) =>
        (Parse(body[..|body| - |rest|]), if rest != "" && rest[0] == ' ' then rest[1..] else rest)
    else (None, text)
  }

  method TryExtractFieldsFromMessage(text: string) returns (fields: Option<Json>, left: string)
    ensures (fields, left) == Extracted(text)
  {
    if !(PREFIX <= text) { return None, text; }
    var prefixLen := |PREFIX|;
    if |text| <= prefixLen || text[prefixLen] != '{' { return None, text; }
    var i := prefixLen;
    var depth, inString, escaped := 0, false, false;
    while i < |text|
      invariant prefixLen <= i <= |text|
      invariant AfterObject(text[prefixLen..], START) == AfterObject(text[i..], Scan(depth, inString, escaped))
    {
      var c := text[i];
      assert text[i..][1..] == text[i + 1..];
      i := i + 1;
      if inString {
        if escaped { escaped := false; }
        else if c == '\\' { escaped := true; }
        else if c == '"' { inString := false; }
        continue;
      }
      if c == '"' { inString := true; continue; }
      if c == '{' {
        depth := depth + 1;
      } else if c == '}' {
        depth := depth - 1;
        if depth == 0 {
          var eraseUpto := i;
          if i < |text| && text[i] == ' ' { eraseUpto := i + 1; }
          var json := text[prefixLen..i];
          assert json == text[prefixLen..][..|text[prefixLen..]| - |text[i..]|];
          return Parse(json), text[eraseUpto..];
        }
      }
    }
    return None, text;
  }

  // ----- The scanner stops at the true closing brace -----

  lemma {:induction false} PlainIsSkipped(t: string, rest: string, depth: int)
    requires forall k :: 0 <= k < |t| ==> t[k] !in "\"{}"
    ensures AfterObject(t + rest, Scan(depth, false, false)) == AfterObject(rest, Scan(depth, false, false))
  {
    if t == "" {
      assert t + rest == rest;
    } else {
      assert (t + rest)[1..] == t[1..] + rest;
      PlainIsSkipped(t[1..], rest, depth);
    }
  }

  lemma EscapeIsSkipped(c: char, rest: string, depth: int)
    ensures AfterObject(Escape(c) + rest, Scan(depth, true, false)) == AfterObject(rest, Scan(depth, true, false))
  {
    var e := Escape(c);
    var s := e + rest;
    var st := Scan(depth, true, false);
    assert s[0] == e[0] && s[1..] == e[1..] + rest;
    if |e| == 1 {
      assert e[1..] + rest == rest;
    } else {
      assert s[1..][0] == e[1] && s[1..][1..] == e[2..] + rest;
      if |e| == 2 {
        assert e[2..] + rest == rest;
      } else {
        var h := e[2..];
        assert h == "00" + [Hex(c as int / 16), Hex(c as int % 16)];
        InnerCharsSkipped(h, rest, depth);
      }
    }
  }

  lemma {:induction false} InnerCharsSkipped(t: string, rest: string, depth: int)
    requires forall k :: 0 <= k < |t| ==> t[k] !in "\"\\"
    ensures AfterObject(t + rest, Scan(depth, true, false)) == AfterObject(rest, Scan(depth, true, false))
  {
    if t == "" {
      assert t + rest == rest;
    } else {
      assert (t + rest)[1..] == t[1..] + rest;
      InnerCharsSkipped(t[1..], rest, depth);
    }
  }

  lemma {:induction false} CharsAreSkipped(t: string, rest: string, depth: int)
    ensures AfterObject(PrintChars(t, rest), Scan(depth, true, false)) == AfterObject(rest, Scan(depth, false, false))
  {
    if t == "" {
      assert ("\"" + rest)[1..] == rest;
    } else {
      EscapeIsSkipped(t[0], PrintChars(t[1..], rest), depth);
      CharsAreSkipped(t[1..], rest, depth);
    }
  }

  lemma StringIsSkipped(t: string, rest: string, depth: int)
    ensures AfterObject(PrintString(t, rest), Scan(depth, false, false)) == AfterObject(rest, Scan(depth, false, false))
  {
    assert PrintString(t, rest)[1..] == PrintChars(t, rest);
    CharsAreSkipped(t, rest, depth);
  }

  lemma NumberIsPlain(s: string)
    requires IsInteger(s) || IsDouble(s)
    ensures forall k :: 0 <= k < |s| ==> s[k] !in "\"{}"
  {
    NumberChars(s);
  }

  lemma {:induction false} ValueIsSkipped(v: Json, rest: string, depth: int)
    requires WellFormed(v) && depth >= 1
    ensures AfterObject(Print(v, rest), Scan(depth, false, false)) == AfterObject(rest, Scan(depth, false, false))
    decreases v
  {
    var s := Print(v, rest);
    match v
    case Null => PlainIsSkipped("null", rest, depth);
    case Bool(b) => PlainIsSkipped(if b then "true" else "false", rest, depth);
    case Int(n) =>
      IntRoundTrip(n);
      NumberIsPlain(IntText(n));
      PlainIsSkipped(IntText(n), rest, depth);
    case Double(token) =>
      NumberIsPlain(token);
      PlainIsSkipped(token, rest, depth);
    case Str(t) => StringIsSkipped(t, rest, depth);
    case Arr(e) =>
      if e.NoElems? {
        PlainIsSkipped("[]", rest, depth);
        assert "[" + ("]" + rest) == "[]" + rest;
      } else {
        PlainIsSkipped("[", PrintElems(e, rest), depth);
        ElemsAreSkipped(e, rest, depth);
      }
    case Obj(m) =>
      if m.NoMembers? {
        assert s[1..] == "}" + rest && s[1..][1..] == rest;
      } else {
        assert s[1..] == PrintMembers(m, rest);
        MembersAreSkipped(m, rest, depth + 1);
        assert ("}" + rest)[1..] == rest;
      }
  }

  lemma {:induction false} ElemsAreSkipped(e: Elems, rest: string, depth: int)
    requires e.Elem? && WellFormedElems(e) && depth >= 1
    ensures AfterObject(PrintElems(e, rest), Scan(depth, false, false)) == AfterObject(rest, Scan(depth, false, false))
    decreases e
  {
    var after := if e.more.NoElems? then "]" + rest else "," + PrintElems(e.more, rest);
    ValueIsSkipped(e.value, after, depth);
    if e.more.NoElems? {
      PlainIsSkipped("]", rest, depth);
    } else {
      PlainIsSkipped(",", PrintElems(e.more, rest), depth);
      ElemsAreSkipped(e.more, rest, depth);
    }
  }

  // Everything of an object but its closing brace is skipped.
  lemma {:induction false} MembersAreSkipped(m: Members, rest: string, depth: int)
    requires m.Member? && WellFormedMembers(m) && depth >= 1
    ensures AfterObject(PrintMembers(m, rest), Scan(depth, false, false)) == AfterObject("}" + rest, Scan(depth, false, false))
    decreases m
  {
    var after := if m.more.NoMembers? then "}" + rest else "," + PrintMembers(m.more, rest);
    var value := Print(m.value, after);
    StringIsSkipped(m.key, ":" + value, depth);
    PlainIsSkipped(":", value, depth);
    ValueIsSkipped(m.value, after, depth);
    if m.more.Member? {
      PlainIsSkipped(",", PrintMembers(m.more, rest), depth);
      MembersAreSkipped(m.more, rest, depth);
    }
  }

  // Whatever quotes, backslashes and braces the strings of an object hold, its own closing brace is found.
  lemma ScannerFindsTheClosingBrace(m: Members, rest: string)
    requires WellFormed(Obj(m))
    ensures AfterObject(Print(Obj(m), rest), START) == Some(rest)
  {
    var s := Print(Obj(m), rest);
    assert ("}" + rest)[1..] == rest;
    if m.NoMembers? {
      assert s[1..] == "}" + rest;
    } else {
      assert s[1..] == PrintMembers(m, rest);
      MembersAreSkipped(m, rest, 1);
    }
  }

  // ----- The round trip -----

  lemma {:induction false} PrintCharsAppends(t: string, a: string, b: string)
    ensures PrintChars(t, a + b) == PrintChars(t, a) + b
  {
    if t == "" {
      assert "\"" + (a + b) == "\"" + a + b;
    } else {
      PrintCharsAppends(t[1..], a, b);
      assert Escape(t[0]) + (PrintChars(t[1..], a) + b) == Escape(t[0]) + PrintChars(t[1..], a) + b;
    }
  }

  lemma {:induction false} PrintAppends(v: Json, a: string, b: string)
    ensures Print(v, a + b) == Print(v, a) + b
    decreases v
  {
    match v
    case Null => Associate("null", a, b);
    case Bool(x) => Associate(if x then "true" else "false", a, b);
    case Int(n) => Associate(IntText(n), a, b);
    case Double(token) => Associate(token, a, b);
    case Str(s) =>
      PrintCharsAppends(s, a, b);
      Associate("\"", PrintChars(s, a), b);
    case Arr(e) =>
      if e.NoElems? {
        Associate("]", a, b);
        Associate("[", "]" + a, b);
      } else {
        PrintElemsAppends(e, a, b);
        Associate("[", PrintElems(e, a), b);
      }
    case Obj(m) =>
      if m.NoMembers? {
        Associate("}", a, b);
        Associate("{", "}" + a, b);
      } else {
        PrintMembersAppends(m, a, b);
        Associate("{", PrintMembers(m, a), b);
      }
  }

  lemma {:induction false} PrintElemsAppends(e: Elems, a: string, b: string)
    requires e.Elem?
    ensures PrintElems(e, a + b) == PrintElems(e, a) + b
    decreases e
  {
    if e.more.NoElems? {
      Associate("]", a, b);
      PrintAppends(e.value, "]" + a, b);
    } else {
      PrintElemsAppends(e.more, a, b);
      Associate(",", PrintElems(e.more, a), b);
      PrintAppends(e.value, "," + PrintElems(e.more, a), b);
    }
  }

  lemma {:induction false} PrintMembersAppends(m: Members, a: string, b: string)
    requires m.Member?
    ensures PrintMembers(m, a + b) == PrintMembers(m, a) + b
    decreases m
  {
    var after := if m.more.NoMembers? then "}" + a else "," + PrintMembers(m.more, a);
    if m.more.NoMembers? {
      Associate("}", a, b);
    } else {
      PrintMembersAppends(m.more, a, b);
      Associate(",", PrintMembers(m.more, a), b);
    }
    PrintAppends(m.value, after, b);
    Associate(":", Print(m.value, after), b);
    PrintCharsAppends(m.key, ":" + Print(m.value, after), b);
    Associate("\"", PrintChars(m.key, ":" + Print(m.value, after)), b);
  }

  lemma ObjectIsExtracted(body: string, dumped: string, rest: string)
    requires body == dumped + rest && body != "" && body[0] == '{' && rest != "" && rest[0] == ' '
    requires AfterObject(body, START) == Some(rest)
    ensures Extracted(PREFIX + body) == (Parse(dumped), rest[1..])
  {
    var text := PREFIX + body;
    assert text[|PREFIX|..] == body;
    assert body[..|body| - |rest|] == dumped;
  }

  lemma DumpThen(m: Members, rest: string)
    ensures Dump(Obj(m)) + rest == Print(Obj(m), rest) && Dump(Obj(m)) != "" && Dump(Obj(m))[0] == '{'
  {
    PrintAppends(Obj(m), "", rest);
    assert "" + rest == rest;
  }

  // A message encoded with fields gives back exactly its fields and its text.
  lemma FieldsRoundTrip(fields: seq<Field>, message: string)
    requires fields != []
    ensures Extracted(Encoded(fields) + message) == (Some(Obj(ObjectOf(fields))), message)
    ensures ToMap(ObjectOf(fields)) == FieldMap(fields)
  {
    ObjectHasTheFields(fields);
    EncodedIsExtracted(ObjectOf(fields), message);
  }

  lemma EncodedIsExtracted(m: Members, message: string)
    requires WellFormed(Obj(m))
    ensures Extracted(PREFIX + Dump(Obj(m)) + " " + message) == (Some(Obj(m)), message)
  {
    var dumped := Dump(Obj(m));
    var rest := " " + message;
    var body := dumped + rest;
    RoundTrip(Obj(m));
    DumpThen(m, rest);
    ScannerFindsTheClosingBrace(m, rest);
    ObjectIsExtracted(body, dumped, rest);
    Rearranged(PREFIX, dumped, message);
    assert rest[1..] == message;
  }

  lemma Rearranged(p: string, d: string, message: string)
    ensures p + d + " " + message == p + (d + (" " + message))
  {}

  // The value a receiver reads back.
  function FromJson(j: Json): Option<FieldValue> {
    match j
    case Str(s) => Some(Text(s))
    case Int(n) => if MIN_INT <= n < 0x8000_0000_0000_0000 then Some(Integer(n)) else None
    case Double(token) => if IsDouble(token) then Some(Floating(token)) else None
    case Bool(b) => Some(Boolean(b))
    case _ => None
  }

  // A field is read back as it was written unless a later field has its key or its value is not finite.
  lemma {:induction false} FieldIsReadBack(fields: seq<Field>, i: nat)
    requires i < |fields| && forall k :: i < k < |fields| ==> fields[k].key != fields[i].key
    ensures fields[i].key in FieldMap(fields)
    ensures FromJson(FieldMap(fields)[fields[i].key]) == Some(fields[i].value) <==> !fields[i].value.NonFinite?
    ensures fields[i].value.NonFinite? ==> FieldMap(fields)[fields[i].key] == Null
  {
    var n := |fields| - 1;
    if i < n {
      FieldIsReadBack(fields[..n], i);
    }
  }

  // A message sent without fields arrives unchanged unless it looks like one with fields.
  lemma MessageWithoutFields(message: string)
    ensures Extracted(message) == (None, message) <==>
              !(PREFIX + "{" <= message && AfterObject(message[|PREFIX|..], START).Some?)
  {
    var p := PREFIX + "{";
    assert |p| == |PREFIX| + 1 && p[..|PREFIX|] == PREFIX;
    if |message| >= |p| {
      assert message[..|p|] == message[..|PREFIX|] + [message[|PREFIX|]];
    }
    if p <= message {
      assert message[..|p|][..|PREFIX|] == message[..|PREFIX|];
    }
  }

  // What is sent: the marker, text that is read as the object with the fields, and a space before the message.
  lemma EncodedLooksLike(fields: seq<Field>)
    ensures fields == [] ==> Encoded(fields) == ""
    ensures fields != [] ==>
              var (e, n) := (Encoded(fields), |Encoded(fields)|);
              n > 7 && e[..6] == "[[KV]]" && e[6] == '{' && e[n - 1] == ' ' && Parse(e[6..n - 1]) == Some(Obj(ObjectOf(fields)))
  {
    if fields != [] {
      var dumped := Dump(Obj(ObjectOf(fields)));
      var e := Encoded(fields);
      DumpThen(ObjectOf(fields), "");
      ObjectHasTheFields(fields);
      RoundTrip(Obj(ObjectOf(fields)));
      assert e == "[[KV]]" + dumped + " ";
      assert e[6..|e| - 1] == dumped;
    }
  }
}
