/**
 The client's connection URI: gizmosql://host:port?key=value&... Nothing in it is escaped, so what a
 configuration can be restored from is its URI only if its texts avoid the separators that matter.
 */
module ConnectionUri {
  import opened Text

  // The settings that travel in a URI.
  datatype Settings = Settings(
    host: string, port: int, username: string, useTls: bool, tlsSkipVerify: bool, tlsRoots: string, external: bool)

  const DEFAULT := Settings("localhost", 31337, "", false, false, "", false)

  predicate IsInt32(n: int) {
    -0x8000_0000 <= n < 0x8000_0000
  }

  // ----- Building -----

  type Param = (string, string)

  // A parameter is written only when it is not the default.
  function Optional(present: bool, key: string, value: string): seq<Param> {
    if present then [(key, value)] else []
  }

  function ParamsOf(s: Settings): seq<Param> {
    Optional(s.username != "", "username", s.username)
    + Optional(s.useTls, "useEncryption", "true")
    + Optional(s.tlsSkipVerify, "disableCertificateVerification", "true")
    + Optional(s.tlsRoots != "", "tlsRoots", s.tlsRoots)
    + Optional(s.external, "authType", "external")
  }

  function Pair(p: Param): string {
    p.0 + "=" + p.1
  }

  function Query(ps: seq<Param>): string {
    if ps == [] then "" else if |ps| == 1 then Pair(ps[0]) else Pair(ps[0]) + "&" + Query(ps[1..])
  }

  function Suffix(ps: seq<Param>): string {
    if ps == [] then "" else "?" + Query(ps)
  }

  function Uri(s: Settings): string {
    "gizmosql://" + s.host + ":" + IntText(s.port) + Suffix(ParamsOf(s))
  }

  lemma {:induction false} QuerySnoc(ps: seq<Param>, p: Param)
    requires ps != []
    ensures Query(ps + [p]) == Query(ps) + "&" + Pair(p)
  {
    if |ps| == 1 {
      assert (ps + [p])[1..] == [p];
    } else {
      assert (ps + [p])[1..] == ps[1..] + [p];
      QuerySnoc(ps[1..], p);
      Regroup(Pair(ps[0]) + "&", Query(ps[1..]), "&", Pair(p));
    }
  }

  lemma Regroup(x: string, y: string, z: string, w: string)
    ensures x + (y + z + w) == x + y + z + w
  {}

  lemma SuffixGrows(start: string, q: string, key: string, value: string)
    ensures start + ("?" + (q + "&" + (key + "=" + value))) == start + ("?" + q) + "&" + key + "=" + value
  {}

  lemma SuffixBegins(start: string, key: string, value: string)
    ensures start + ("?" + (key + "=" + value)) == start + "" + "?" + key + "=" + value
  {}

  // One more parameter, with its separator.
  lemma SuffixSnoc(start: string, ps: seq<Param>, key: string, value: string)
    ensures start + Suffix(ps + [(key, value)]) ==
              start + Suffix(ps) + (if ps == [] then "?" else "&") + key + "=" + value
  {
    if ps == [] {
      assert [] + [(key, value)] == [(key, value)];
      SuffixBegins(start, key, value);
    } else {
      QuerySnoc(ps, (key, value));
      SuffixGrows(start, Query(ps), key, value);
    }
  }

  class UriBuilder {
    var uri: string
    var sep: string

    ghost predicate Holds(start: string, ps: seq<Param>)
      reads this
    {
      uri == start + Suffix(ps) && sep == if ps == [] then "?" else "&"
    }

    constructor (start: string)
      ensures Holds(start, [])
    {
      uri, sep := start, "?";
    }

    method AddParam(key: string, value: string, ghost start: string, ghost ps: seq<Param>)
      requires Holds(start, ps)
      modifies this
      ensures Holds(start, ps + [(key, value)])
    {
      SuffixSnoc(start, ps, key, value);
      uri := uri + sep + key + "=" + value;
      sep := "&";
    }
  }

  method AddIf(b: UriBuilder, present: bool, key: string, value: string, ghost start: string, ghost ps: seq<Param>)
    requires b.Holds(start, ps)
    modifies b
    ensures b.Holds(start, ps + Optional(present, key, value))
  {
    if present {
      b.AddParam(key, value, start, ps);
    } else {
      assert ps + [] == ps;
    }
  }

  method BuildConnectionURI(s: Settings) returns (uri: string)
    ensures uri == Uri(s)
  {
    ghost var start := "gizmosql://" + s.host + ":" + IntText(s.port);
    var b := new UriBuilder("gizmosql://" + s.host + ":" + IntText(s.port));
    ghost var p1 := Optional(s.username != "", "username", s.username);
    ghost var p2 := p1 + Optional(s.useTls, "useEncryption", "true");
    ghost var p3 := p2 + Optional(s.tlsSkipVerify, "disableCertificateVerification", "true");
    ghost var p4 := p3 + Optional(s.tlsRoots != "", "tlsRoots", s.tlsRoots);
    assert [] + p1 == p1;
    AddIf(b, s.username != "", "username", s.username, start, []);
    AddIf(b, s.useTls, "useEncryption", "true", start, p1);
    AddIf(b, s.tlsSkipVerify, "disableCertificateVerification", "true", start, p2);
    AddIf(b, s.tlsRoots != "", "tlsRoots", s.tlsRoots, start, p3);
    AddIf(b, s.external, "authType", "external", start, p4);
    uri := b.uri;
  }

  // ----- Parsing -----

  function FindScheme(s: string): (r: Option<nat>)
    ensures r.Some? ==> r.value + 3 <= |s|
  {
    if |s| < 3 then None
    else if s[..3] == "://" then Some(0)
    else match FindScheme(s[1..])
      case None => None
      case Some(k) => Some(k + 1)
  }

  function RFind(c: char, s: string): (r: Option<nat>)
    ensures r.Some? ==> r.value < |s|
  {
    if s == "" then None else if s[|s| - 1] == c then Some(|s| - 1) else RFind(c, s[..|s| - 1])
  }

  function AfterScheme(uri: string): string {
    match FindScheme(uri)
    case None => uri
    case Some(k) => uri[k + 3..]
  }

  // The two sides of the first c; without one, the second side is empty.
  function Cut(c: char, s: string): (string, string) {
    FindCorrect(c, s);
    match Find(c, s)
    case None => (s, "")
    case Some(k) => (s[..k], s[k + 1..])
  }

  // The number the leading digits denote, given the value of the digits already read.
  function ReadDigits(s: string, before: Option<nat>): Option<nat> {
    if s == "" || !IsDigit(s[0]) then before
    else
      var d := s[0] as int - '0' as int;
      ReadDigits(s[1..], Some(if before.None? then d else 10 * before.value + d))
  }

  // std::stoi: white space, a sign, digits; what follows is ignored.
  function Stoi(s: string): Option<int> {
    var t := TrimLeft(s);
    var negative := t != "" && t[0] == '-';
    var n := ReadDigits(if negative || (t != "" && t[0] == '+') then t[1..] else t, None);
    if n.None? then None
    else
      var i := if negative then 0 - n.value else n.value;
      if IsInt32(i) then Some(i) else None
  }

  function Add(params: map<string, string>, pair: string): map<string, string> {
    FindCorrect('=', pair);
    match Find('=', pair)
    case None => params
    case Some(e) => params[pair[..e] := pair[e + 1..]]
  }

  function AddAll(params: map<string, string>, query: string): map<string, string>
    decreases |query|
  {
    FindCorrect('&', query);
    if query == "" then params
    else match Find('&', query)
      case None => Add(params, query)
      case Some(k) => AddAll(Add(params, query[..k]), query[k + 1..])
  }

  method ParseQueryString(query: string) returns (params: map<string, string>)
    ensures params == AddAll(map[], query)
  {
    params := map[];
    var rest := query;
    while rest != ""
      invariant AddAll(params, rest) == AddAll(map[], query)
      decreases |rest|
    {
      FindCorrect('&', rest);
      var pair;
      match Find('&', rest) {
        case None => pair, rest := rest, "";
        case Some(k) => pair, rest := rest[..k], rest[k + 1..];
      }
      FindCorrect('=', pair);
      var eq := Find('=', pair);
      if eq.Some? {
        params := params[pair[..eq.value] := pair[eq.value + 1..]];
      }
    }
  }

  function Lower(c: char): char {
    if 'A' <= c <= 'Z' then (c as int + 32) as char else c
  }

  function ParseBoolValue(s: string): bool {
    s == "1" || (|s| == 4 && Lower(s[0]) == 't' && Lower(s[1]) == 'r' && Lower(s[2]) == 'u' && Lower(s[3]) == 'e')
  }

  // The settings after the host and port have been read; a bad port is noticed after the host has been stored.
  function WithHostPort(s: Settings, hostPort: string): (bool, Settings) {
    match RFind(':', hostPort)
    case None => (true, if hostPort == "" then s else s.(host := hostPort))
    case Some(k) =>
      var t := s.(host := hostPort[..k]);
      match Stoi(hostPort[k + 1..])
      case None => (false, t)
      case Some(port) => (true, t.(port := port))
  }

  function WithParams(s: Settings, params: map<string, string>): Settings {
    s.(username := if "username" in params then params["username"] else s.username,
       useTls := if "useEncryption" in params then ParseBoolValue(params["useEncryption"]) else s.useTls,
       tlsSkipVerify := if "disableCertificateVerification" in params
         then ParseBoolValue(params["disableCertificateVerification"]) else s.tlsSkipVerify,
       tlsRoots := if "tlsRoots" in params then params["tlsRoots"] else s.tlsRoots,
       external := if "authType" in params then params["authType"] == "external" else s.external)
  }

  function Parsed(uri: string, s: Settings): (bool, Settings) {
    var (hostPort, query) := Cut('?', AfterScheme(uri));
    var (ok, t) := WithHostPort(s, hostPort);
    if !ok then (false, t) else (true, WithParams(t, AddAll(map[], query)))
  }

  method SplitUri(uri: string) returns (hostPort: string, queryString: string)
    ensures (hostPort, queryString) == Cut('?', AfterScheme(uri))
  {
    var remainder := uri;
    var schemeEnd := FindScheme(remainder);
    if schemeEnd.Some? { remainder := remainder[schemeEnd.value + 3..]; }
    hostPort, queryString := remainder, "";
    FindCorrect('?', remainder);
    var qmark := Find('?', remainder);
    if qmark.Some? { hostPort, queryString := remainder[..qmark.value], remainder[qmark.value + 1..]; }
  }

  class ClientConfig {
    var host: string
    var port: int
    var username: string
    var useTls: bool
    var tlsSkipVerify: bool
    var tlsRoots: string
    var authTypeExternal: bool

    constructor ()
      ensures View() == DEFAULT
    {
      host, port, username := "localhost", 31337, "";
      useTls, tlsSkipVerify, tlsRoots, authTypeExternal := false, false, "", false;
    }

    function View(): Settings
      reads this
    {
      Settings(host, port, username, useTls, tlsSkipVerify, tlsRoots, authTypeExternal)
    }

    method ParseConnectionURI(uri: string) returns (ok: bool)
      modifies this
      ensures (ok, View()) == Parsed(uri, old(View()))
    {
      var hostPort, queryString := SplitUri(uri);
      ok := ParseHostPort(hostPort);
      if ok && queryString != "" {
        var params := ParseQueryString(queryString);
        ApplyParams(params);
      }
    }

    method ParseHostPort(hostPort: string) returns (ok: bool)
      modifies this
      ensures (ok, View()) == WithHostPort(old(View()), hostPort)
    {
      var colon := RFind(':', hostPort);
      if colon.Some? {
        host := hostPort[..colon.value];
        var n := Stoi(hostPort[colon.value + 1..]);
        if n.None? { return false; }
        port := n.value;
      } else if hostPort != "" {
        host := hostPort;
      }
      return true;
    }

    method ApplyParams(params: map<string, string>)
      modifies this
      ensures View() == WithParams(old(View()), params)
    {
      if "username" in params { username := params["username"]; }
      if "useEncryption" in params { useTls := ParseBoolValue(params["useEncryption"]); }
      if "disableCertificateVerification" in params {
        tlsSkipVerify := ParseBoolValue(params["disableCertificateVerification"]);
      }
      if "tlsRoots" in params { tlsRoots := params["tlsRoots"]; }
      if "authType" in params { authTypeExternal := params["authType"] == "external"; }
    }
  }

  // ----- The round trip -----

  predicate Restorable(s: Settings) {
    '?' !in s.host && '&' !in s.username && '&' !in s.tlsRoots
  }

  lemma {:induction false} ReadSnoc(s: string, c: char, before: Option<nat>)
    requires IsDigit(c) && (s != "" || before.Some?) && forall k :: 0 <= k < |s| ==> IsDigit(s[k])
    ensures ReadDigits(s, before).Some?
    ensures ReadDigits(s + [c], before) == Some(10 * ReadDigits(s, before).value + (c as int - '0' as int))
  {
    if s == "" {
      assert s + [c] == [c] && [c][1..] == "";
    } else {
      var d := s[0] as int - '0' as int;
      assert (s + [c])[1..] == s[1..] + [c];
      ReadSnoc(s[1..], c, Some(if before.None? then d else 10 * before.value + d));
    }
  }

  lemma {:induction false} ReadOfDigits(n: nat)
    ensures ReadDigits(Digits(n), None) == Some(n)
  {
    ValueOfDigits(n);
    if n < 10 {
      assert Digits(n)[1..] == "";
    } else {
      ReadOfDigits(n / 10);
      ValueOfDigits(n / 10);
      ReadSnoc(Digits(n / 10), (n % 10 + '0' as int) as char, None);
    }
  }

  lemma StoiRoundTrip(n: int)
    requires IsInt32(n)
    ensures Stoi(IntText(n)) == Some(n)
  {
    var d := Digits(if n < 0 then -n else n);
    ReadOfDigits(if n < 0 then -n else n);
    ValueOfDigits(if n < 0 then -n else n);
    var s := IntText(n);
    assert IsDigit(d[0]) && !IsSpace(s[0]) && TrimLeft(s) == s;
    if n < 0 { assert s[1..] == d; }
  }

  lemma NoSeparatorInInt(n: int, c: char)
    requires !IsDigit(c) && c != '-'
    ensures c !in IntText(n)
  {
    ValueOfDigits(if n < 0 then -n else n);
  }

  lemma {:induction false} RFindConcat(c: char, a: string, b: string)
    requires c !in b
    ensures RFind(c, a + [c] + b) == Some(|a|)
  {
    var s := a + [c] + b;
    if b != "" {
      var b' := b[..|b| - 1];
      assert s[..|s| - 1] == a + [c] + b' && s[|s| - 1] == b[|b| - 1];
      RFindConcat(c, a, b');
    }
  }

  lemma SchemeIsCut(rest: string)
    ensures AfterScheme("gizmosql://" + rest) == rest
  {
    var s := "gizmosql://" + rest;
    SchemeAt("gizmosql", rest);
    assert s == "gizmosql" + "://" + rest;
    assert s[8 + 3..] == rest;
  }

  lemma {:induction false} SchemeAt(a: string, rest: string)
    requires ':' !in a
    ensures FindScheme(a + "://" + rest) == Some(|a|)
  {
    var s := a + "://" + rest;
    if a == "" {
      assert s[..3] == "://";
    } else {
      assert s[..3][0] == a[0];
      assert s[1..] == a[1..] + "://" + rest;
      SchemeAt(a[1..], rest);
    }
  }

  predicate Separable(ps: seq<Param>) {
    forall i :: 0 <= i < |ps| ==> '=' !in ps[i].0 && '&' !in ps[i].0 && '&' !in ps[i].1
  }

  function PutAll(m: map<string, string>, ps: seq<Param>): map<string, string>
    decreases |ps|
  {
    if ps == [] then m else PutAll(m[ps[0].0 := ps[0].1], ps[1..])
  }

  lemma {:induction false} PutAllConcat(m: map<string, string>, a: seq<Param>, b: seq<Param>)
    ensures PutAll(m, a + b) == PutAll(PutAll(m, a), b)
    decreases |a|
  {
    if a == [] {
      assert a + b == b;
    } else {
      assert (a + b)[1..] == a[1..] + b;
      PutAllConcat(m[a[0].0 := a[0].1], a[1..], b);
    }
  }

  lemma AddPair(m: map<string, string>, p: Param)
    requires '=' !in p.0
    ensures Add(m, Pair(p)) == m[p.0 := p.1]
  {
    FindConcat('=', p.0, p.1);
    var s := Pair(p);
    assert s == p.0 + ['='] + p.1;
    assert s[..|p.0|] == p.0 && s[|p.0| + 1..] == p.1;
  }

  // Reading a query gives the parameters it was written from.
  lemma {:induction false} QueryRoundTrip(m: map<string, string>, ps: seq<Param>)
    requires Separable(ps)
    ensures AddAll(m, Query(ps)) == PutAll(m, ps)
    decreases |ps|
  {
    if ps != [] {
      var p := Pair(ps[0]);
      assert '&' !in p && p != "";
      AddPair(m, ps[0]);
      if |ps| == 1 {
        FindCorrect('&', p);
        assert PutAll(m[ps[0].0 := ps[0].1], ps[1..]) == m[ps[0].0 := ps[0].1];
      } else {
        var rest := Query(ps[1..]);
        var q := Query(ps);
        assert q == p + ['&'] + rest;
        FindConcat('&', p, rest);
        assert q[..|p|] == p && q[|p| + 1..] == rest;
        QueryRoundTrip(m[ps[0].0 := ps[0].1], ps[1..]);
      }
    }
  }

  lemma PutOptional(m: map<string, string>, before: seq<Param>, present: bool, key: string, value: string)
    ensures PutAll(m, before + Optional(present, key, value)) ==
              if present then PutAll(m, before)[key := value] else PutAll(m, before)
  {
    PutAllConcat(m, before, Optional(present, key, value));
    if present { assert Optional(present, key, value)[1..] == []; }
  }

  function Put(m: map<string, string>, present: bool, key: string, value: string): map<string, string> {
    if present then m[key := value] else m
  }

  // What a configuration's parameters are after their round trip.
  function Restored(s: Settings): map<string, string> {
    Put(Put(Put(Put(Put(map[], s.username != "", "username", s.username),
                    s.useTls, "useEncryption", "true"),
                s.tlsSkipVerify, "disableCertificateVerification", "true"),
            s.tlsRoots != "", "tlsRoots", s.tlsRoots),
        s.external, "authType", "external")
  }

  lemma ParamsRoundTrip(s: Settings)
    requires Restorable(s)
    ensures AddAll(map[], Query(ParamsOf(s))) == Restored(s)
  {
    var p1 := Optional(s.username != "", "username", s.username);
    var p2 := p1 + Optional(s.useTls, "useEncryption", "true");
    var p3 := p2 + Optional(s.tlsSkipVerify, "disableCertificateVerification", "true");
    var p4 := p3 + Optional(s.tlsRoots != "", "tlsRoots", s.tlsRoots);
    ParamsAreSeparable(s);
    QueryRoundTrip(map[], ParamsOf(s));
    PutOptional(map[], [], s.username != "", "username", s.username);
    assert [] + p1 == p1;
    PutOptional(map[], p1, s.useTls, "useEncryption", "true");
    PutOptional(map[], p2, s.tlsSkipVerify, "disableCertificateVerification", "true");
    PutOptional(map[], p3, s.tlsRoots != "", "tlsRoots", s.tlsRoots);
    PutOptional(map[], p4, s.external, "authType", "external");
  }

  lemma SeparableMore(ps: seq<Param>, present: bool, key: string, value: string)
    requires Separable(ps) && (present ==> '=' !in key && '&' !in key && '&' !in value)
    ensures Separable(ps + Optional(present, key, value))
  {}

  lemma ParamsAreSeparable(s: Settings)
    requires Restorable(s)
    ensures Separable(ParamsOf(s))
  {
    var p1 := Optional(s.username != "", "username", s.username);
    var p2 := p1 + Optional(s.useTls, "useEncryption", "true");
    var p3 := p2 + Optional(s.tlsSkipVerify, "disableCertificateVerification", "true");
    var p4 := p3 + Optional(s.tlsRoots != "", "tlsRoots", s.tlsRoots);
    SeparableMore([], s.username != "", "username", s.username);
    assert [] + p1 == p1;
    SeparableMore(p1, s.useTls, "useEncryption", "true");
    SeparableMore(p2, s.tlsSkipVerify, "disableCertificateVerification", "true");
    SeparableMore(p3, s.tlsRoots != "", "tlsRoots", s.tlsRoots);
    SeparableMore(p4, s.external, "authType", "external");
  }

  lemma KeysDiffer()
    ensures "username" != "tlsRoots" && "username" != "authType" && "tlsRoots" != "authType"
    ensures |"username"| == |"tlsRoots"| == |"authType"| == 8
    ensures |"useEncryption"| == 13 && |"disableCertificateVerification"| == 30
  {
    assert "username"[0] != "tlsRoots"[0] && "username"[0] != "authType"[0] && "tlsRoots"[0] != "authType"[0];
  }

  lemma CutAt(c: char, a: string, b: string)
    requires c !in a
    ensures Cut(c, a + [c] + b) == (a, b)
  {
    FindConcat(c, a, b);
    var s := a + [c] + b;
    assert s[..|a|] == a && s[|a| + 1..] == b;
  }

  lemma HostPortRoundTrip(s: Settings, t: Settings)
    requires IsInt32(s.port)
    ensures WithHostPort(t, s.host + ":" + IntText(s.port)) == (true, t.(host := s.host, port := s.port))
  {
    StoiRoundTrip(s.port);
    NoSeparatorInInt(s.port, ':');
    RFindConcat(':', s.host, IntText(s.port));
    var hostPort := s.host + [':'] + IntText(s.port);
    assert hostPort[..|s.host|] == s.host && hostPort[|s.host| + 1..] == IntText(s.port);
  }

  lemma CutSuffix(hostPort: string, ps: seq<Param>)
    requires '?' !in hostPort
    ensures Cut('?', hostPort + Suffix(ps)) == (hostPort, Query(ps))
  {
    if ps == [] {
      assert hostPort + Suffix(ps) == hostPort;
      FindCorrect('?', hostPort);
    } else {
      assert hostPort + Suffix(ps) == hostPort + ['?'] + Query(ps);
      CutAt('?', hostPort, Query(ps));
    }
  }

  lemma UriIsCut(s: Settings)
    requires '?' !in s.host && IsInt32(s.port)
    ensures Cut('?', AfterScheme(Uri(s))) == (s.host + ":" + IntText(s.port), Query(ParamsOf(s)))
  {
    var hostPort := s.host + ":" + IntText(s.port);
    Reassociate("gizmosql://", s.host, ":", IntText(s.port), Suffix(ParamsOf(s)));
    SchemeIsCut(hostPort + Suffix(ParamsOf(s)));
    NoSeparatorInInt(s.port, '?');
    CutSuffix(hostPort, ParamsOf(s));
  }

  lemma Reassociate(a: string, b: string, c: string, d: string, e: string)
    ensures a + b + c + d + e == a + (b + c + d + e)
  {}

  lemma RestoredIfRestorable(s: Settings)
    requires IsInt32(s.port) && Restorable(s)
    ensures Parsed(Uri(s), DEFAULT) == (true, s)
  {
    UriIsCut(s);
    HostPortRoundTrip(s, DEFAULT);
    ParamsRoundTrip(s);
    ParamsApplied(s);
  }

  lemma ParamsApplied(s: Settings)
    ensures WithParams(DEFAULT.(host := s.host, port := s.port), Restored(s)) == s
  {
    KeysDiffer();
  }

  lemma {:induction false} NoAmpersandInValues(m: map<string, string>, query: string)
    requires forall k :: k in m ==> '&' !in m[k]
    ensures forall k :: k in AddAll(m, query) ==> '&' !in AddAll(m, query)[k]
    decreases |query|
  {
    FindCorrect('&', query);
    if query != "" {
      match Find('&', query)
      case None => FindCorrect('=', query);
      case Some(k) =>
        FindCorrect('=', query[..k]);
        NoAmpersandInValues(Add(m, query[..k]), query[k + 1..]);
    }
  }

  // Whatever is parsed, no separator ends up in what it separates.
  lemma ParsedIsRestorable(uri: string)
    ensures Restorable(Parsed(uri, DEFAULT).1)
  {
    var (hostPort, query) := Cut('?', AfterScheme(uri));
    FindCorrect('?', AfterScheme(uri));
    NoAmpersandInValues(map[], query);
  }

  // A default configuration is restored from the URI of a configuration if and only if its host has no '?' and
  // its user name and roots path have no '&'.
  lemma UriRoundTrip(s: Settings)
    requires IsInt32(s.port)
    ensures Parsed(Uri(s), DEFAULT) == (true, s) <==>
              '?' !in s.host && '&' !in s.username && '&' !in s.tlsRoots
  {
    if Restorable(s) {
      RestoredIfRestorable(s);
    } else {
      ParsedIsRestorable(Uri(s));
    }
  }
}
