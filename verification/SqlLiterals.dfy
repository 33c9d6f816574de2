/**
 The string literals of SQL, in which two quotes stand for one, and whether the values that the rewriter puts
 between quotes are read back as what they are.
 */
module SqlLiterals {
  import opened Text
  import opened FunctionRewriter

  // The value of a literal, and the text after it.
  datatype Literal = Literal(value: string, rest: string)

  // Reads on behind the opening quote.
  function ReadBody(s: string): Option<Literal> {
    if s == "" then None
    else if s[0] == '\'' && !(|s| > 1 && s[1] == '\'') then Some(Literal("", s[1..]))
    else
      match ReadBody(if s[0] == '\'' then s[2..] else s[1..])
      case None => None
      case Some(l) => Some(Literal([s[0]] + l.value, l.rest))
  }

  function ReadLiteral(s: string): Option<Literal> {
    if s != "" && s[0] == '\'' then ReadBody(s[1..]) else None
  }

  predicate StartsWithQuote(s: string) {
    s != "" && s[0] == '\''
  }

  // A literal takes up its value, once more every quote in it, and its closing quote.
  lemma {:induction false} LengthOfLiteral(s: string)
    ensures match ReadBody(s)
            case None => true
            case Some(l) => |s| == |l.value| + Count('\'', l.value) + 1 + |l.rest|
    decreases |s|
  {
    if s != "" && !(s[0] == '\'' && !(|s| > 1 && s[1] == '\'')) {
      var t := if s[0] == '\'' then s[2..] else s[1..];
      LengthOfLiteral(t);
      if ReadBody(t).Some? {
        var v := ReadBody(t).value.value;
        assert ([s[0]] + v)[1..] == v;
      }
    }
  }

  // What has no quotes is read as it is, and reading goes on behind it.
  lemma {:induction false} PlainIsRead(v: string, s: string)
    requires '\'' !in v
    ensures ReadBody(v + s) == match ReadBody(s) case None => None case Some(l) => Some(Literal(v + l.value, l.rest))
  {
    if v == "" {
      assert v + s == s;
      if ReadBody(s).Some? { assert v + ReadBody(s).value.value == ReadBody(s).value.value; }
    } else {
      assert v[0] in v && (v + s)[0] == v[0] && (v + s)[1..] == v[1..] + s;
      PlainIsRead(v[1..], s);
      assert v == [v[0]] + v[1..];
      if ReadBody(s).Some? { Associate([v[0]], v[1..], ReadBody(s).value.value); }
    }
  }

  lemma {:induction false} CountZero(c: char, s: string)
    requires Count(c, s) == 0
    ensures c !in s
  {
    if s != "" { CountZero(c, s[1..]); }
  }

  // A value between quotes is read back, up to its own closing quote, if and only if it has no quote in it and none
  // follows.
  lemma LiteralIsReadBack(v: string, rest: string)
    ensures ReadLiteral(Quoted(v) + rest) == Some(Literal(v, rest)) <==> '\'' !in v && !StartsWithQuote(rest)
  {
    var s := v + ("'" + rest);
    assert (Quoted(v) + rest)[1..] == s;
    if '\'' in v {
      LengthOfLiteral(s);
      if Count('\'', v) == 0 { CountZero('\'', v); }
    } else {
      PlainIsRead(v, "'" + rest);
      assert ("'" + rest)[1..] == rest && v + "" == v;
      if StartsWithQuote(rest) {
        assert ("'" + rest)[1] == '\'';
        if ReadBody("'" + rest).Some? { assert |v + ReadBody("'" + rest).value.value| > |v|; }
      }
    }
  }

  // With a quote in the value, the literal ends there and the rest of the value is read as SQL.
  lemma ValueIsCutShort(a: string, b: string, rest: string)
    requires '\'' !in a && b != "" && !StartsWithQuote(b)
    ensures ReadLiteral(Quoted(a + "'" + b) + rest) == Some(Literal(a, b + "'" + rest))
  {
    LiteralIsReadBack(a, b + "'" + rest);
    assert Quoted(a + "'" + b) + rest == Quoted(a) + (b + "'" + rest);
  }

  // In the rewritten text the literal of a call is read back as the value it was made from if and only if the value has
  // no quote, and the call either has been given an alias or is not followed by a quote.
  lemma InsertedValueIsReadBack(e: Entry, v: string, text: string, alias: bool, more: SegmentList)
    requires e.literal == Quoted(v)
    ensures var after := Alias(e.name, alias) + Images(more);
            ReadLiteral(Images(Cons(Call(e, text, alias), more))) == Some(Literal(v, after)) <==>
              '\'' !in v && (alias || !StartsWithQuote(Images(more)))
  {
    var after := Alias(e.name, alias) + Images(more);
    Associate(e.literal, Alias(e.name, alias), Images(more));
    LiteralIsReadBack(v, after);
    assert alias ==> after[0] == ' ';
    assert !alias ==> after == Images(more);
  }
}
