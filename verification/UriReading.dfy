/**
 What stands in a connection URI and what is read from one, parameter by parameter and with the names spelled out:
 the round trip alone would hold for any names the two sides agree on.
 */
module UriReading {
  import opened Text
  import opened ConnectionUri

  // ----- Written -----

  // A parameter is there if and only if its setting is not the default, with these names and values.
  lemma ParamsTell(s: Settings, p: Param)
    ensures p in ParamsOf(s) <==>
              || (p == ("username", s.username) && s.username != "")
              || (p == ("useEncryption", "true") && s.useTls)
              || (p == ("disableCertificateVerification", "true") && s.tlsSkipVerify)
              || (p == ("tlsRoots", s.tlsRoots) && s.tlsRoots != "")
              || (p == ("authType", "external") && s.external)
  {}

  // They come in this order.
  lemma ParamsInOrder(s: Settings)
    requires s.username != "" && s.useTls && s.tlsSkipVerify && s.tlsRoots != "" && s.external
    ensures ParamsOf(s) == [("username", s.username), ("useEncryption", "true"), ("disableCertificateVerification", "true"),
                            ("tlsRoots", s.tlsRoots), ("authType", "external")]
  {}

  // ----- Read -----

  lemma BoolRule(v: string)
    ensures ParseBoolValue(v) <==>
              || v == "1"
              || (|v| == 4 && v[0] in {'t', 'T'} && v[1] in {'r', 'R'} && v[2] in {'u', 'U'} && v[3] in {'e', 'E'})
  {}

  // A single parameter without host and port.
  lemma ParamRead(s: Settings, key: string, v: string)
    requires '=' !in key && '&' !in key && '&' !in v
    ensures Parsed("gizmosql://?" + key + "=" + v, s) == (true, WithParams(s, map[key := v]))
  {
    var p: Param := (key, v);
    Separate(key, v);
    SchemeIsCut("?" + Pair(p));
    CutAt('?', "", Pair(p));
    assert "" + ['?'] + Pair(p) == "?" + Pair(p);
    QueryRoundTrip(map[], [p]);
    assert Query([p]) == Pair(p) && PutAll(map[], [p]) == map[key := v];
  }

  lemma Separate(key: string, v: string)
    ensures "gizmosql://?" + key + "=" + v == "gizmosql://" + ("?" + Pair((key, v)))
  {
    assert "gizmosql://?" == "gizmosql://" + "?";
    FourStrings("gizmosql://", "?", key, "=" + v);
    FourStrings("gizmosql://?", key, "=", v);
    FourStrings("", key, "=", v);
  }

  lemma FourStrings(a: string, b: string, c: string, d: string)
    ensures a + b + c + d == a + (b + (c + d)) == a + (b + c + d) == a + b + (c + d)
  {}

  // Each name sets its own setting, and any other name none.
  lemma SettingsRead(s: Settings, v: string)
    ensures WithParams(s, map["username" := v]) == s.(username := v)
    ensures WithParams(s, map["useEncryption" := v]) == s.(useTls := ParseBoolValue(v))
    ensures WithParams(s, map["disableCertificateVerification" := v]) == s.(tlsSkipVerify := ParseBoolValue(v))
    ensures WithParams(s, map["tlsRoots" := v]) == s.(tlsRoots := v)
    ensures WithParams(s, map["authType" := v]) == s.(external := v == "external")
    ensures forall key :: key !in {"username", "useEncryption", "disableCertificateVerification", "tlsRoots", "authType"} ==>
              WithParams(s, map[key := v]) == s
  {
    KeysDiffer();
  }

  // The host and the port: the text behind the last colon is the port, and a bad one is noticed after the host has been
  // taken.
  lemma HostPortRead(s: Settings, host: string, port: string)
    requires '?' !in host && '?' !in port && ':' !in port
    ensures Parsed("gizmosql://" + (host + ":" + port), s) ==
              match Stoi(port)
              case None => (false, s.(host := host))
              case Some(n) => (true, s.(host := host, port := n))
  {
    var hp := host + ":" + port;
    SchemeIsCut(hp);
    FindCorrect('?', hp);
    assert '?' !in hp;
    assert hp == host + [':'] + port;
    RFindConcat(':', host, port);
    assert hp[..|host|] == host && hp[|host| + 1..] == port;
  }

  lemma HostRead(s: Settings, host: string)
    requires '?' !in host && ':' !in host && host != ""
    ensures Parsed("gizmosql://" + host, s) == (true, s.(host := host))
  {
    SchemeIsCut(host);
    FindCorrect('?', host);
    RFindNone(':', host);
  }

  lemma {:induction false} RFindNone(c: char, s: string)
    requires c !in s
    ensures RFind(c, s) == None
  {
    if s != "" {
      assert s[|s| - 1] in s;
      RFindNone(c, s[..|s| - 1]);
    }
  }

  predicate SignAt(s: string, k: nat) {
    k + 3 <= |s| && s[k] == ':' && s[k + 1] == '/' && s[k + 2] == '/'
  }

  // What is before the first "://" is not looked at; without one, the host begins the text.
  lemma SchemeRule(scheme: string, rest: string, plain: string)
    requires ':' !in scheme && forall k: nat :: !SignAt(plain, k)
    ensures AfterScheme(scheme + "://" + rest) == rest && AfterScheme(plain) == plain
  {
    SchemeAt(scheme, rest);
    var s := scheme + "://" + rest;
    assert s[|scheme| + 3..] == rest;
    NoScheme(plain);
  }

  lemma {:induction false} NoScheme(s: string)
    requires forall k: nat :: !SignAt(s, k)
    ensures FindScheme(s) == None
  {
    if |s| >= 3 {
      assert !SignAt(s, 0);
      forall k: nat ensures !SignAt(s[1..], k) { assert !SignAt(s, k + 1); }
      NoScheme(s[1..]);
    }
  }

  // The port: blanks, a sign and digits, and whatever follows; it has to fit in 32 bits.
  lemma StoiReads(w: string, sign: string, n: nat, rest: string)
    requires (forall k :: 0 <= k < |w| ==> IsSpace(w[k])) && sign in {"", "+", "-"} && (rest == "" || !IsDigit(rest[0]))
    ensures var i := if sign == "-" then 0 - n else n;
            Stoi(w + (sign + (Digits(n) + rest))) == if -0x8000_0000 <= i <= 0x7fff_ffff then Some(i) else None
  {
    var digits := Digits(n) + rest;
    var t := sign + digits;
    ValueOfDigits(n);
    ReadsDigits(Digits(n), rest, None);
    ReadOfDigits(n);
    TrimLeftAbsorbs(w, t);
    assert t[0] == (if sign == "" then Digits(n)[0] else sign[0]) && !IsSpace(t[0]);
    assert TrimLeft(t) == t;
    if sign != "" { assert t[1..] == digits; } else { assert t == digits; }
  }

  lemma {:induction false} ReadsDigits(d: string, rest: string, before: Option<nat>)
    requires (forall k :: 0 <= k < |d| ==> IsDigit(d[k])) && (rest == "" || !IsDigit(rest[0]))
    ensures ReadDigits(d + rest, before) == ReadDigits(d, before)
    decreases d
  {
    if d == "" {
      assert d + rest == rest;
    } else {
      var v := d[0] as int - '0' as int;
      assert (d + rest)[1..] == d[1..] + rest;
      ReadsDigits(d[1..], rest, Some(if before.None? then v else 10 * before.value + v));
    }
  }

  // Without a digit there, there is no port.
  lemma StoiFails(w: string, sign: string, rest: string)
    requires (forall k :: 0 <= k < |w| ==> IsSpace(w[k])) && sign in {"+", "-"} && (rest == "" || !IsDigit(rest[0]))
    ensures Stoi(w + (sign + rest)) == None
  {
    var t := sign + rest;
    TrimLeftAbsorbs(w, t);
    assert t[1..] == rest && TrimLeft(t) == t;
  }
}
