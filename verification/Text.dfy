/** Small vocabulary shared by the text-handling components. */
module Text {

  datatype Option<+T> = None | Some(value: T)

  lemma Associate<T>(x: seq<T>, y: seq<T>, z: seq<T>)
    ensures x + (y + z) == x + y + z
  {}

  // The white space of the C locale's isspace.
  predicate IsSpace(c: char) {
    c == ' ' || c == '\t' || c == '\n' || c == '\r' || c == 11 as char || c == 12 as char
  }

  // toupper of the C locale.
  function Upper(c: char): char {
    if 'a' <= c <= 'z' then (c as int - 32) as char else c
  }

  lemma SpacesAre(c: char)
    ensures IsSpace(c) <==> c as int == 32 || 9 <= c as int <= 13
  {}

  lemma UpperIs(c: char)
    ensures if 'a' <= c <= 'z' then Upper(c) as int == c as int - 32 else Upper(c) == c
  {}

  function TrimLeft(s: string): string {
    if s != "" && IsSpace(s[0]) then TrimLeft(s[1..]) else s
  }

  function TrimRight(s: string): string {
    if s != "" && IsSpace(s[|s| - 1]) then TrimRight(s[..|s| - 1]) else s
  }

  function Trim(s: string): string {
    TrimRight(TrimLeft(s))
  }

  // Number of occurrences of c in s.
  function Count(c: char, s: string): nat {
    if s == "" then 0 else (if s[0] == c then 1 else 0) + Count(c, s[1..])
  }

  lemma {:induction false} CountConcat(c: char, a: string, b: string)
    ensures Count(c, a + b) == Count(c, a) + Count(c, b)
  {
    if a == "" {
      assert a + b == b;
    } else {
      assert (a + b)[1..] == a[1..] + b;
      CountConcat(c, a[1..], b);
    }
  }

  // Position of the first c in s, if any.
  function Find(c: char, s: string): Option<nat> {
    if s == "" then None
    else if s[0] == c then Some(0)
    else match Find(c, s[1..])
      case None => None
      case Some(k) => Some(k + 1)
  }

  lemma {:induction false} FindCorrect(c: char, s: string)
    ensures Find(c, s).None? <==> c !in s
    ensures Find(c, s).Some? ==>
              var k := Find(c, s).value; k < |s| && s[k] == c && c !in s[..k]
  {
    if s != "" && s[0] != c {
      FindCorrect(c, s[1..]);
      assert s == [s[0]] + s[1..];
      if Find(c, s).Some? {
        var k := Find(c, s).value;
        assert s[..k] == [s[0]] + s[1..][..k - 1];
      }
    }
  }

  lemma {:induction false} FindConcat(c: char, a: string, b: string)
    requires c !in a
    ensures Find(c, a + [c] + b) == Some(|a|)
  {
    if a == "" {
      assert a + [c] + b == [c] + b;
    } else {
      assert (a + [c] + b)[1..] == a[1..] + [c] + b;
      FindConcat(c, a[1..], b);
    }
  }

  lemma {:induction false} TrimLeftAbsorbs(w: string, s: string)
    requires forall k :: 0 <= k < |w| ==> IsSpace(w[k])
    ensures TrimLeft(w + s) == TrimLeft(s)
  {
    if w == "" {
      assert w + s == s;
    } else {
      assert (w + s)[1..] == w[1..] + s;
      TrimLeftAbsorbs(w[1..], s);
    }
  }

  lemma {:induction false} TrimLeftSplits(s: string) returns (w: string)
    ensures s == w + TrimLeft(s)
    ensures forall k :: 0 <= k < |w| ==> IsSpace(w[k])
    ensures TrimLeft(s) == "" || !IsSpace(TrimLeft(s)[0])
  {
    if s != "" && IsSpace(s[0]) {
      var w' := TrimLeftSplits(s[1..]);
      w := [s[0]] + w';
    } else {
      w := "";
    }
  }

  lemma {:induction false} TrimRightSplits(s: string) returns (w: string)
    ensures s == TrimRight(s) + w
    ensures forall k :: 0 <= k < |w| ==> IsSpace(w[k])
    ensures TrimRight(s) == "" || !IsSpace(TrimRight(s)[|TrimRight(s)| - 1])
  {
    if s != "" && IsSpace(s[|s| - 1]) {
      var w' := TrimRightSplits(s[..|s| - 1]);
      w := w' + [s[|s| - 1]];
      assert s == s[..|s| - 1] + [s[|s| - 1]];
    } else {
      w := "";
    }
  }

  lemma {:induction false} TrimRightAbsorbs(s: string, w: string)
    requires forall k :: 0 <= k < |w| ==> IsSpace(w[k])
    ensures TrimRight(s + w) == TrimRight(s)
  {
    if w == "" {
      assert s + w == s;
    } else {
      var w' := w[..|w| - 1];
      assert (s + w)[..|s + w| - 1] == s + w';
      TrimRightAbsorbs(s, w');
    }
  }

  // Trimming the right end first makes no difference.
  lemma TrimOfTrimRight(s: string)
    ensures Trim(TrimRight(s)) == Trim(s)
    ensures TrimRight(s) == "" <==> Trim(s) == ""
  {
    var r := TrimRightSplits(s);
    var t := TrimRight(s);
    var l := TrimLeftSplits(t);
    var u := TrimLeft(t);
    if u == "" {
      assert t == l;
      if t != "" { assert false; }
      assert s == r;
      TrimLeftAbsorbs(r, "");
      assert r + "" == r;
    } else {
      assert s == l + (u + r);
      TrimLeftAbsorbs(l, u + r);
      assert !IsSpace((u + r)[0]);
      TrimRightAbsorbs(u, r);
      assert u[|u| - 1] == t[|t| - 1];
    }
  }

  lemma TrimAbsorbsLeft(w: string, s: string)
    requires forall k :: 0 <= k < |w| ==> IsSpace(w[k])
    ensures Trim(w + s) == Trim(s)
  {
    TrimLeftAbsorbs(w, s);
  }

  predicate IsDigit(c: char) {
    '0' <= c <= '9'
  }

  // The decimal text of a number, as std::to_string writes it.
  function Digits(n: nat): string {
    if n < 10 then [(n + '0' as int) as char] else Digits(n / 10) + [(n % 10 + '0' as int) as char]
  }

  function IntText(n: int): string {
    if n < 0 then "-" + Digits(-n) else Digits(n)
  }

  // The number a string of digits denotes.
  function Value(s: string): nat
    requires forall k :: 0 <= k < |s| ==> IsDigit(s[k])
  {
    if s == "" then 0
    else
      var c := s[|s| - 1];
      assert IsDigit(c);
      10 * Value(s[..|s| - 1]) + (c as int - '0' as int)
  }

  lemma {:induction false} ValueOfDigits(n: nat)
    ensures Digits(n) != "" && forall k :: 0 <= k < |Digits(n)| ==> IsDigit(Digits(n)[k])
    ensures Value(Digits(n)) == n
  {
    var s := Digits(n);
    if n < 10 {
      assert s[..0] == "";
    } else {
      ValueOfDigits(n / 10);
      assert s[..|s| - 1] == Digits(n / 10);
    }
  }
}
