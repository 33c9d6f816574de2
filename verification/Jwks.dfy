/**
 The cache of token verification keys: lookups under a read lock, refreshes under a write lock that look again
 at the clock before fetching. The class is the manager itself; below it, all interleavings of its calls are the
 runs of a transition system over the same functions, with a clock that only moves forward. Times are milliseconds.
 */
module Jwks {
  import opened Text

  type Kid = string
  datatype Key = Key(pem: string, algorithm: string)
  datatype Cache = Cache(keys: map<Kid, Key>, lastFetch: nat, fetched: bool)

  const RECENT: nat := 5000

  // ----- Reading a response -----

  // A key as it is published: its material, converted to PEM if it is complete and the conversion succeeds.
  datatype Published = Published(kid: Option<Kid>, kty: string, algorithm: string, complete: bool, pem: Option<string>)

  predicate Usable(p: Published) {
    p.kid.Some? && (p.kty == "RSA" || p.kty == "EC") && p.complete && p.pem.Some?
  }

  // A response is absent when the request failed or its body could not be read.
  type Response = Option<seq<Published>>

  // The last usable key with each id.
  function UsableKeys(ps: seq<Published>): map<Kid, Key> {
    if ps == [] then map[]
    else
      var p := ps[|ps| - 1];
      var before := UsableKeys(ps[..|ps| - 1]);
      if Usable(p) then before[p.kid.value := Key(p.pem.value, p.algorithm)] else before
  }

  lemma {:induction false} KeysAreUsable(ps: seq<Published>, kid: Kid)
    ensures kid in UsableKeys(ps) <==> exists i :: 0 <= i < |ps| && Usable(ps[i]) && ps[i].kid.value == kid
  {
    if ps != [] {
      var n := |ps| - 1;
      KeysAreUsable(ps[..n], kid);
      if i :| 0 <= i < |ps| && Usable(ps[i]) && ps[i].kid.value == kid {
        if i < n { assert ps[..n][i] == ps[i]; }
      }
    }
  }

  // ----- The manager -----

  predicate Younger(c: Cache, now: nat, age: nat) {
    c.fetched && now < c.lastFetch + age
  }

  function Lookup(c: Cache, kid: Kid): Option<Key> {
    if kid in c.keys then Some(c.keys[kid]) else None
  }

  // The first lookup does not trust an old cache.
  function FreshLookup(c: Cache, ttl: nat, now: nat, kid: Kid): Option<Key> {
    if Younger(c, now, ttl) then Lookup(c, kid) else None
  }

  predicate Delivers(r: Response) {
    r.Some? && UsableKeys(r.value) != map[]
  }

  // The refresh takes the lock at time now and, if it fetches, is done at time done.
  function Refreshed(c: Cache, now: nat, done: nat, r: Response): Cache {
    if Younger(c, now, RECENT) || !Delivers(r) then c else Cache(UsableKeys(r.value), done, true)
  }

  class JwksManager {
    const ttl: nat
    var keyCache: map<Kid, Key>
    var lastFetchTime: nat
    var fetchedAtLeastOnce: bool

    constructor (ttl: nat)
      ensures this.ttl == ttl && View() == Cache(map[], 0, false)
    {
      this.ttl := ttl;
      keyCache, lastFetchTime, fetchedAtLeastOnce := map[], 0, false;
    }

    function View(): Cache
      reads this
    {
      Cache(keyCache, lastFetchTime, fetchedAtLeastOnce)
    }

    method FetchAndParseJwks(r: Response, done: nat) returns (ok: bool)
      modifies this
      ensures ok <==> Delivers(r)
      ensures View() == if ok then Cache(UsableKeys(r.value), done, true) else old(View())
    {
      if r.None? { return false; }
      var keys := r.value;
      var newCache: map<Kid, Key> := map[];
      for i := 0 to |keys|
        invariant newCache == UsableKeys(keys[..i])
      {
        assert keys[..i + 1][..i] == keys[..i];
        var p := keys[i];
        if p.kid.None? { continue; }
        if p.kty == "RSA" || p.kty == "EC" {
          if p.complete && p.pem.Some? {
            newCache := newCache[p.kid.value := Key(p.pem.value, p.algorithm)];
          }
        }
      }
      assert keys[..|keys|] == keys;
      if newCache == map[] { return false; }
      keyCache, lastFetchTime, fetchedAtLeastOnce := newCache, done, true;
      return true;
    }

    method RefreshKeys(now: nat, done: nat, r: Response) returns (ok: bool)
      modifies this
      ensures View() == Refreshed(old(View()), now, done, r)
      ensures ok <==> Younger(old(View()), now, RECENT) || Delivers(r)
    {
      if fetchedAtLeastOnce {
        var elapsed: int := now - lastFetchTime;
        if elapsed < RECENT { return true; }
      }
      ok := FetchAndParseJwks(r, done);
    }

    // A call that nobody interrupts, its first lookup at time now and its refresh from then until done.
    method GetKeyForKid(kid: Kid, now: nat, done: nat, r: Response) returns (key: Option<Key>, failed: bool)
      modifies this
      ensures var first := FreshLookup(old(View()), ttl, now, kid);
              var after := Refreshed(old(View()), now, done, r);
              && (first.Some? ==> key == first && !failed && View() == old(View()))
              && (first.None? ==> View() == after && failed == !(Younger(old(View()), now, RECENT) || Delivers(r)))
              && (first.None? ==> key == if failed then None else Lookup(after, kid))
    {
      if fetchedAtLeastOnce {
        var elapsed: int := now - lastFetchTime;
        if elapsed < ttl && kid in keyCache { return Some(keyCache[kid]), false; }
      }
      var ok := RefreshKeys(now, done, r);
      if !ok { return None, true; }
      key := if kid in keyCache then Some(keyCache[kid]) else None;
      failed := false;
    }

    // The same steps again, for the algorithm that goes with the key.
    method GetAlgorithmForKid(kid: Kid, now: nat, done: nat, r: Response) returns (algorithm: Option<string>, failed: bool)
      modifies this
      ensures var first := FreshLookup(old(View()), ttl, now, kid);
              var after := Refreshed(old(View()), now, done, r);
              && (first.Some? ==> algorithm == Some(first.value.algorithm) && !failed && View() == old(View()))
              && (first.None? ==> View() == after && failed == !(Younger(old(View()), now, RECENT) || Delivers(r)))
              && (first.None? ==> algorithm == if failed then None else AlgorithmOf(Lookup(after, kid)))
    {
      if fetchedAtLeastOnce {
        var elapsed: int := now - lastFetchTime;
        if elapsed < ttl && kid in keyCache { return Some(keyCache[kid].algorithm), false; }
      }
      var ok := RefreshKeys(now, done, r);
      if !ok { return None, true; }
      algorithm := if kid in keyCache then Some(keyCache[kid].algorithm) else None;
      failed := false;
    }
  }

  function AlgorithmOf(key: Option<Key>): Option<string> {
    match key
    case None => None
    case Some(k) => Some(k.algorithm)
  }

  // ----- Interleavings -----

  // Verifying a token looks up its key and, once that is found, its algorithm, in the same three steps. While the
  // algorithm is sought, of is the event in which the key was returned.
  datatype Thread =
    | Idle
    | First(kid: Kid, of: Option<nat>)                // before the first read lock
    | Refreshing(kid: Kid, of: Option<nat>)           // before the write lock
    | Second(kid: Kid, of: Option<nat>, checked: nat) // before the second read lock; the clock was last read then

  datatype Fetch = Fetch(at: nat, keys: map<Kid, Key>)

  // How a lookup ended; the number of the fetch the cache then held, and when the lookup last looked at the clock.
  datatype Event =
    | Returned(kid: Kid, of: Option<nat>, key: Key, fetch: nat, checked: nat, at: nat, refreshed: bool)  // by the second lookup?
    | NotFound(kid: Kid, of: Option<nat>, fetch: nat)
    | FetchFailed(kid: Kid, of: Option<nat>)
    | Fetched                                         // a refresh has replaced the cache

  datatype State = State(cache: Cache, now: nat, threads: map<nat, Thread>, fetches: seq<Fetch>, log: seq<Event>)

  datatype Action =
    | Tick(passed: nat)
    | Call(tid: nat, kid: Kid)
    | LookUpFirst(tid: nat)
    | Refresh(tid: nat, took: nat, r: Response)
    | LookUpSecond(tid: nat)

  const INIT := State(Cache(map[], 0, false), 0, map[], [], [])

  function At(s: State, tid: nat): Thread {
    if tid in s.threads then s.threads[tid] else Idle
  }

  function Latest(s: State): nat {
    if s.fetches == [] then 0 else |s.fetches| - 1
  }

  // A lookup ends. When the key has been returned, the lookup of its algorithm begins.
  function Ended(s: State, tid: nat, e: Event): State
    requires !e.Fetched?
  {
    var next := if e.Returned? && e.of.None? then First(e.kid, Some(|s.log|)) else Idle;
    s.(threads := s.threads[tid := next], log := s.log + [e])
  }

  // An action whose thread is elsewhere changes nothing.
  function Step(ttl: nat, s: State, a: Action): State {
    match a
    case Tick(passed) => s.(now := s.now + passed)
    case Call(tid, kid) => if At(s, tid).Idle? then s.(threads := s.threads[tid := First(kid, None)]) else s
    case LookUpFirst(tid) =>
      if !At(s, tid).First? then s
      else
        var First(kid, of) := At(s, tid);
        (match FreshLookup(s.cache, ttl, s.now, kid)
         case Some(key) => Ended(s, tid, Returned(kid, of, key, Latest(s), s.now, s.now, false))
         case None => s.(threads := s.threads[tid := Refreshing(kid, of)]))
    case Refresh(tid, took, r) =>
      if !At(s, tid).Refreshing? then s
      else
        var Refreshing(kid, of) := At(s, tid);
        if Younger(s.cache, s.now, RECENT) then s.(threads := s.threads[tid := Second(kid, of, s.now)])
        else
          var t := s.(now := s.now + took, cache := Refreshed(s.cache, s.now, s.now + took, r));
          if Delivers(r) then
            t.(threads := s.threads[tid := Second(kid, of, t.now)], fetches := s.fetches + [Fetch(t.now, UsableKeys(r.value))],
               log := s.log + [Fetched])
          else Ended(t, tid, FetchFailed(kid, of))
    case LookUpSecond(tid) =>
      if !At(s, tid).Second? then s
      else
        var Second(kid, of, checked) := At(s, tid);
        match Lookup(s.cache, kid)
        case Some(key) => Ended(s, tid, Returned(kid, of, key, Latest(s), checked, s.now, true))
        case None => Ended(s, tid, NotFound(kid, of, Latest(s)))
  }

  function Run(ttl: nat, s: State, actions: seq<Action>): State
    decreases |actions|
  {
    if actions == [] then s else Run(ttl, Step(ttl, s, actions[0]), actions[1..])
  }

  // The cache is what the last successful fetch brought.
  ghost predicate CacheIsLatest(s: State) {
    if s.fetches == [] then s.cache == Cache(map[], 0, false)
    else var f := s.fetches[|s.fetches| - 1]; s.cache == Cache(f.keys, f.at, true) && f.at <= s.now
  }

  ghost predicate Spaced(fetches: seq<Fetch>) {
    forall i, j :: 0 <= i < j < |fetches| ==> fetches[i].at + RECENT <= fetches[j].at
  }

  // A call before its second lookup found a cache that had been fetched less than five seconds before.
  ghost predicate Checked(s: State) {
    forall t :: t in s.threads && s.threads[t].Second? ==>
      s.fetches != [] && s.threads[t].checked < s.cache.lastFetch + RECENT
  }

  ghost predicate Justified(ttl: nat, fetches: seq<Fetch>, e: Event) {
    match e
    case Returned(kid, of, key, fetch, checked, at, refreshed) =>
      && fetch < |fetches| && kid in fetches[fetch].keys && fetches[fetch].keys[kid] == key && checked <= at
      && if refreshed then checked < fetches[fetch].at + RECENT else checked == at < fetches[fetch].at + ttl
    case NotFound(kid, of, fetch) => fetch < |fetches| && kid !in fetches[fetch].keys
    case _ => true
  }

  ghost predicate CacheInv(s: State) {
    && CacheIsLatest(s) && Spaced(s.fetches) && Checked(s)
    && (forall t :: t in s.threads && s.threads[t].Second? ==> s.threads[t].checked <= s.now)
  }

  ghost predicate LogInv(ttl: nat, s: State) {
    forall i :: 0 <= i < |s.log| ==> Justified(ttl, s.fetches, s.log[i])
  }

  ghost predicate Inv(ttl: nat, s: State) {
    CacheInv(s) && LogInv(ttl, s)
  }

  lemma CacheStep(ttl: nat, s: State, a: Action)
    requires CacheInv(s)
    ensures CacheInv(Step(ttl, s, a))
  {
    if a.Refresh? { RefreshKeepsCache(ttl, s, a); } else { OthersKeepCache(ttl, s, a); }
  }

  lemma RefreshKeepsCache(ttl: nat, s: State, a: Action)
    requires CacheInv(s) && a.Refresh?
    ensures CacheInv(Step(ttl, s, a))
  {}

  lemma OthersKeepCache(ttl: nat, s: State, a: Action)
    requires CacheInv(s) && !a.Refresh?
    ensures CacheInv(Step(ttl, s, a))
  {
    var s' := Step(ttl, s, a);
    assert s'.cache == s.cache && s'.fetches == s.fetches && s'.now >= s.now;
    forall t | t in s'.threads && s'.threads[t].Second? ensures t in s.threads && s'.threads[t] == s.threads[t] {}
  }

  lemma LogStep(ttl: nat, s: State, a: Action)
    requires CacheInv(s) && LogInv(ttl, s)
    ensures LogInv(ttl, Step(ttl, s, a))
  {
    var s' := Step(ttl, s, a);
    assert s.fetches <= s'.fetches;
    assert |s'.log| <= |s.log| + 1 && s.log <= s'.log;
    forall i | 0 <= i < |s'.log| ensures Justified(ttl, s'.fetches, s'.log[i]) {
      if i < |s.log| {
        assert Justified(ttl, s.fetches, s.log[i]);
      } else {
        assert a.LookUpFirst? || a.Refresh? || a.LookUpSecond?;
      }
    }
  }

  lemma {:induction false} RunKeeps(ttl: nat, s: State, actions: seq<Action>)
    requires Inv(ttl, s)
    ensures Inv(ttl, Run(ttl, s, actions))
    decreases |actions|
  {
    if actions != [] {
      CacheStep(ttl, s, actions[0]);
      LogStep(ttl, s, actions[0]);
      RunKeeps(ttl, Step(ttl, s, actions[0]), actions[1..]);
    }
  }

  // In every run: fetches that succeed are at least five seconds apart. A key returned by the first lookup was brought
  // by one that is younger than the time to live at that moment. One returned by the second lookup was brought by one
  // that was younger than five seconds when the call last checked, so its age is at most that and the delay since.
  lemma ReturnedKeysWereFresh(ttl: nat, actions: seq<Action>)
    ensures var s := Run(ttl, INIT, actions);
            && (forall i, j :: 0 <= i < j < |s.fetches| ==> s.fetches[i].at + 5000 <= s.fetches[j].at)
            && (forall i :: 0 <= i < |s.log| && s.log[i].Returned? ==>
                  var Returned(kid, of, key, fetch, checked, at, refreshed) := s.log[i];
                  && fetch < |s.fetches| && kid in s.fetches[fetch].keys && s.fetches[fetch].keys[kid] == key
                  && (!refreshed ==> at < s.fetches[fetch].at + ttl)
                  && (refreshed ==> checked <= at < s.fetches[fetch].at + 5000 + (at - checked)))
            && (forall i :: 0 <= i < |s.log| && s.log[i].NotFound? ==>
                  s.log[i].fetch < |s.fetches| && s.log[i].kid !in s.fetches[s.log[i].fetch].keys)
  {
    RunKeeps(ttl, INIT, actions);
    var s := Run(ttl, INIT, actions);
    forall i | 0 <= i < |s.log| ensures Justified(ttl, s.fetches, s.log[i]) {}
  }

  // The cache changes in a refresh that fetches and delivers, and in no other step.
  lemma CacheChangesOnlyBySuccess(ttl: nat, s: State, a: Action)
    ensures Step(ttl, s, a).cache != s.cache ==>
              && a.Refresh? && At(s, a.tid).Refreshing? && Delivers(a.r) && !Younger(s.cache, s.now, RECENT)
    ensures Step(ttl, s, a).cache != s.cache ==> Step(ttl, s, a).cache == Cache(UsableKeys(a.r.value), s.now + a.took, true)
    ensures |Step(ttl, s, a).log| > |s.log| && Step(ttl, s, a).log[|s.log|].FetchFailed? ==>
              Step(ttl, s, a).cache == s.cache && Step(ttl, s, a).fetches == s.fetches
  {
    var s' := Step(ttl, s, a);
  }

  // What is checked is the age at the check. Between the refresh and the second lookup any time may pass.
  lemma AgeAtReturnIsNotBounded(ttl: nat, late: nat, r: Response)
    requires Delivers(r)
    ensures forall kid :: kid in UsableKeys(r.value) ==>
              Run(ttl, INIT, [Call(0, kid), LookUpFirst(0), Refresh(0, 0, r), Tick(late), LookUpSecond(0)]).log
                == [Fetched, Returned(kid, None, UsableKeys(r.value)[kid], 0, 0, late, true)]
  {
    forall kid | kid in UsableKeys(r.value)
      ensures Run(ttl, INIT, [Call(0, kid), LookUpFirst(0), Refresh(0, 0, r), Tick(late), LookUpSecond(0)]).log
                == [Fetched, Returned(kid, None, UsableKeys(r.value)[kid], 0, 0, late, true)]
    {
      var a := [Call(0, kid), LookUpFirst(0), Refresh(0, 0, r), Tick(late), LookUpSecond(0)];
      assert a[1..] == [LookUpFirst(0), Refresh(0, 0, r), Tick(late), LookUpSecond(0)];
      assert a[1..][1..] == [Refresh(0, 0, r), Tick(late), LookUpSecond(0)];
      assert a[1..][1..][1..] == [Tick(late), LookUpSecond(0)];
      assert a[1..][1..][1..][1..] == [LookUpSecond(0)];
      assert a[1..][1..][1..][1..][1..] == [];
      var s1 := Step(ttl, INIT, a[0]);
      var s2 := Step(ttl, s1, a[1]);
      var s3 := Step(ttl, s2, a[2]);
      var s4 := Step(ttl, s3, a[3]);
      var s5 := Step(ttl, s4, a[4]);
      assert Run(ttl, INIT, a) == Run(ttl, s1, a[1..]) == Run(ttl, s2, a[1..][1..]) == Run(ttl, s3, a[1..][1..][1..]);
      assert Run(ttl, s3, a[1..][1..][1..]) == Run(ttl, s4, [LookUpSecond(0)]) == Run(ttl, s5, []);
    }
  }

  // ----- The algorithm that goes with a key -----

  function Fetches(log: seq<Event>): nat {
    if log == [] then 0 else Fetches(log[..|log| - 1]) + if log[|log| - 1].Fetched? then 1 else 0
  }

  // The event i in which the key of this token was returned.
  ghost predicate KeyAt(log: seq<Event>, kid: Kid, of: Option<nat>) {
    of.Some? ==> of.value < |log| && log[of.value].Returned? && log[of.value].of.None? && log[of.value].kid == kid
  }

  // The fetch a lookup has read from is the last one before it; the algorithm is sought for the key returned before.
  ghost predicate Located(log: seq<Event>, i: nat)
    requires i < |log|
  {
    match log[i]
    case Returned(kid, of, key, fetch, checked, at, refreshed) => fetch + 1 == Fetches(log[..i]) && KeyAt(log[..i], kid, of)
    case NotFound(kid, of, fetch) => fetch + 1 == Fetches(log[..i]) && KeyAt(log[..i], kid, of)
    case FetchFailed(kid, of) => KeyAt(log[..i], kid, of)
    case Fetched => true
  }

  ghost predicate ThreadKeys(s: State) {
    forall t :: t in s.threads && !s.threads[t].Idle? ==> KeyAt(s.log, s.threads[t].kid, s.threads[t].of)
  }

  ghost predicate LogLocated(s: State) {
    |s.fetches| == Fetches(s.log) && forall i :: 0 <= i < |s.log| ==> Located(s.log, i)
  }

  // What a step does to the log and the fetches.
  lemma LogGrows(ttl: nat, s: State, a: Action)
    requires CacheInv(s) && ThreadKeys(s)
    ensures var s' := Step(ttl, s, a);
            if s'.log == s.log then s'.fetches == s.fetches
            else
              && |s'.log| == |s.log| + 1 && s'.log == s.log + [s'.log[|s.log|]]
              && match s'.log[|s.log|]
                 case Returned(kid, of, key, fetch, checked, at, refreshed) =>
                   s'.fetches == s.fetches && fetch + 1 == |s.fetches| && KeyAt(s.log, kid, of)
                 case NotFound(kid, of, fetch) => s'.fetches == s.fetches && fetch + 1 == |s.fetches| && KeyAt(s.log, kid, of)
                 case FetchFailed(kid, of) => s'.fetches == s.fetches && KeyAt(s.log, kid, of)
                 case Fetched => |s'.fetches| == |s.fetches| + 1
  {}

  lemma LocatedStep(ttl: nat, s: State, a: Action)
    requires CacheInv(s) && ThreadKeys(s) && LogLocated(s)
    ensures LogLocated(Step(ttl, s, a))
  {
    var s' := Step(ttl, s, a);
    LogGrows(ttl, s, a);
    if s'.log != s.log {
      assert s'.log[..|s.log|] == s.log;
      forall i | 0 <= i < |s'.log| ensures Located(s'.log, i) {
        if i < |s.log| { assert Located(s.log, i) && s'.log[..i] == s.log[..i]; }
      }
    }
  }

  lemma ThreadKeysStep(ttl: nat, s: State, a: Action)
    requires CacheInv(s) && ThreadKeys(s)
    ensures ThreadKeys(Step(ttl, s, a))
  {
    var s' := Step(ttl, s, a);
    LogGrows(ttl, s, a);
    forall t | t in s'.threads && !s'.threads[t].Idle? ensures KeyAt(s'.log, s'.threads[t].kid, s'.threads[t].of) {
      if t in s.threads && !s.threads[t].Idle? { assert KeyAt(s.log, s.threads[t].kid, s.threads[t].of); }
    }
  }

  lemma {:induction false} RunLocates(ttl: nat, s: State, actions: seq<Action>)
    requires CacheInv(s) && ThreadKeys(s) && LogLocated(s)
    ensures LogLocated(Run(ttl, s, actions))
    decreases |actions|
  {
    if actions != [] {
      CacheStep(ttl, s, actions[0]);
      ThreadKeysStep(ttl, s, actions[0]);
      LocatedStep(ttl, s, actions[0]);
      RunLocates(ttl, Step(ttl, s, actions[0]), actions[1..]);
    }
  }

  lemma {:induction false} FetchesBetween(log: seq<Event>, i: nat, j: nat)
    requires i <= j <= |log|
    ensures Fetches(log[..i]) <= Fetches(log[..j])
    ensures Fetches(log[..i]) == Fetches(log[..j]) <==> forall k :: i <= k < j ==> !log[k].Fetched?
  {
    if i < j {
      FetchesBetween(log, i, j - 1);
      assert log[..j][..j - 1] == log[..j - 1];
    }
  }

  // In every run: the algorithm found for a token comes from the same fetch as its key, and then from the same
  // published key, if no fetch has succeeded in between, and only then; and an algorithm that is missing, although the
  // key was there, has been dropped by such a fetch.
  lemma AlgorithmOfTheSameFetch(ttl: nat, actions: seq<Action>, i: nat, j: nat)
    requires var log := Run(ttl, INIT, actions).log;
             j < |log| && (log[j].Returned? || log[j].NotFound?) && log[j].of == Some(i)
    ensures var log := Run(ttl, INIT, actions).log;
            && i < j && log[i].Returned? && log[i].of == None && log[i].kid == log[j].kid
            && (log[i].fetch == log[j].fetch <==> !exists k :: i < k < j && log[k].Fetched?)
            && (log[i].fetch == log[j].fetch ==> log[j].Returned? && log[i].key == log[j].key)
  {
    var s := Run(ttl, INIT, actions);
    var log := s.log;
    RunKeeps(ttl, INIT, actions);
    RunLocates(ttl, INIT, actions);
    assert Located(log, j) && Located(log, i);
    assert log[..j][i] == log[i];
    FetchesBetween(log, i, j);
    assert Justified(ttl, s.fetches, log[i]) && Justified(ttl, s.fetches, log[j]);
  }

  lemma {:induction false} RunConcat(ttl: nat, s: State, a: seq<Action>, b: seq<Action>)
    ensures Run(ttl, s, a + b) == Run(ttl, Run(ttl, s, a), b)
    decreases |a|
  {
    if a == [] {
      assert a + b == b;
    } else {
      assert (a + b)[1..] == a[1..] + b;
      RunConcat(ttl, Step(ttl, s, a[0]), a[1..], b);
    }
  }

  // A lookup that has to fetch: the cache is empty or old.
  lemma FetchingLookup(ttl: nat, s: State, tid: nat, r: Response)
    requires At(s, tid).First? && Delivers(r) && At(s, tid).kid in UsableKeys(r.value)
    requires !Younger(s.cache, s.now, ttl) && !Younger(s.cache, s.now, RECENT)
    ensures var First(kid, of) := At(s, tid);
            var keys := UsableKeys(r.value);
            var e := Returned(kid, of, keys[kid], |s.fetches|, s.now, s.now, true);
            Run(ttl, s, [LookUpFirst(tid), Refresh(tid, 0, r), LookUpSecond(tid)]) ==
              State(Cache(keys, s.now, true), s.now,
                    s.threads[tid := if of.None? then First(kid, Some(|s.log| + 1)) else Idle],
                    s.fetches + [Fetch(s.now, keys)], s.log + [Fetched, e])
  {
    var First(kid, of) := At(s, tid);
    var a := [LookUpFirst(tid), Refresh(tid, 0, r), LookUpSecond(tid)];
    var s1 := Step(ttl, s, a[0]);
    var s2 := Step(ttl, s1, a[1]);
    assert a[1..] == [Refresh(tid, 0, r), LookUpSecond(tid)] && a[1..][1..] == [LookUpSecond(tid)] && a[1..][1..][1..] == [];
    assert s1 == s.(threads := s.threads[tid := Refreshing(kid, of)]);
    assert s2.threads == s.threads[tid := Second(kid, of, s.now)];
    assert Run(ttl, s, a) == Run(ttl, s1, a[1..]) == Run(ttl, s2, a[1..][1..]) == Step(ttl, s2, LookUpSecond(tid));
  }

  // A run in which the key comes from one fetch and its algorithm from the next: the cache has grown old in between,
  // and whatever is published by then counts.
  lemma AlgorithmOfAnotherFetch(ttl: nat, kid: Kid, r1: Response, r2: Response, late: nat) returns (actions: seq<Action>)
    requires Delivers(r1) && Delivers(r2) && kid in UsableKeys(r1.value) && kid in UsableKeys(r2.value)
    requires late >= ttl && late >= RECENT
    ensures Run(ttl, INIT, actions).log ==
              [Fetched, Returned(kid, None, UsableKeys(r1.value)[kid], 0, 0, 0, true),
               Fetched, Returned(kid, Some(1), UsableKeys(r2.value)[kid], 1, late, late, true)]
  {
    var call, wait := [Call(0, kid)], [Tick(late)];
    var first := [LookUpFirst(0), Refresh(0, 0, r1), LookUpSecond(0)];
    var second := [LookUpFirst(0), Refresh(0, 0, r2), LookUpSecond(0)];
    actions := call + first + wait + second;
    RunConcat(ttl, INIT, call + first + wait, second);
    RunConcat(ttl, INIT, call + first, wait);
    RunConcat(ttl, INIT, call, first);
    assert call[1..] == [] && wait[1..] == [];
    FetchingLookup(ttl, Run(ttl, INIT, call), 0, r1);
    FetchingLookup(ttl, Run(ttl, INIT, call + first + wait), 0, r2);
  }

  // ----- What is served and when a fetch is made -----

  // A key counts if it has an id, is of one of two types, has all its material and can be converted.
  lemma UsableAre(p: Published)
    ensures Usable(p) <==>
              p.kid != None && (p.kty == "RSA" || p.kty == "EC") && p.complete && p.pem != None
  {}

  // A key under an id is that of the last usable publication with the id, with its algorithm.
  lemma {:induction false} LastPublicationCounts(ps: seq<Published>, i: nat, kid: Kid)
    requires i < |ps| && Usable(ps[i]) && ps[i].kid == Some(kid)
    requires forall k :: i < k < |ps| ==> !(Usable(ps[k]) && ps[k].kid == Some(kid))
    ensures kid in UsableKeys(ps) && Some(UsableKeys(ps)[kid].pem) == ps[i].pem
    ensures UsableKeys(ps)[kid].algorithm == ps[i].algorithm
  {
    var n := |ps| - 1;
    if i < n {
      assert forall k :: 0 <= k < n ==> ps[..n][k] == ps[k];
      LastPublicationCounts(ps[..n], i, kid);
    }
  }

  // The first look serves a key of the cache if and only if the cache is younger than the time to live and has the key;
  // otherwise a refresh is due. Neither changes the cache.
  lemma FirstLookDecides(ttl: nat, s: State, tid: nat)
    requires At(s, tid).First?
    ensures var kid := At(s, tid).kid;
            var s' := Step(ttl, s, LookUpFirst(tid));
            var young := s.cache.fetched && s.now < s.cache.lastFetch + ttl && kid in s.cache.keys;
            && s'.cache == s.cache && s'.fetches == s.fetches && s'.now == s.now
            && (young ==> |s'.log| == |s.log| + 1 && s'.log[|s.log|].Returned? && !s'.log[|s.log|].refreshed
                            && s'.log[|s.log|].key == s.cache.keys[kid])
            && (!young ==> s'.log == s.log && At(s', tid).Refreshing? && At(s', tid).kid == kid)
  {}

  // A refresh fetches if and only if the last success is five seconds old or there is none; it then replaces the cache
  // if the answer has a usable key, and otherwise the call fails.
  lemma RefreshDecides(ttl: nat, s: State, tid: nat, took: nat, r: Response)
    requires At(s, tid).Refreshing?
    ensures var s' := Step(ttl, s, Refresh(tid, took, r));
            var recent := s.cache.fetched && s.now < s.cache.lastFetch + 5000;
            && (recent ==> s'.cache == s.cache && s'.log == s.log && s'.now == s.now && At(s', tid).Second?)
            && (!recent && r.Some? && UsableKeys(r.value) != map[] ==>
                  && s'.cache == Cache(UsableKeys(r.value), s.now + took, true) && s'.log == s.log + [Fetched]
                  && At(s', tid).Second?)
            && (!recent && (r.None? || UsableKeys(r.value) == map[]) ==>
                  && s'.cache == s.cache && |s'.log| == |s.log| + 1 && s'.log[|s.log|].FetchFailed? && At(s', tid).Idle?)
  {}

  // The second look serves the key of the cache if it is there, however old.
  lemma SecondLookDecides(ttl: nat, s: State, tid: nat)
    requires At(s, tid).Second?
    ensures var kid := At(s, tid).kid;
            var s' := Step(ttl, s, LookUpSecond(tid));
            && s'.cache == s.cache && |s'.log| == |s.log| + 1
            && (kid in s.cache.keys ==> s'.log[|s.log|].Returned? && s'.log[|s.log|].key == s.cache.keys[kid])
            && (kid !in s.cache.keys ==> s'.log[|s.log|].NotFound?)
  {}
}
