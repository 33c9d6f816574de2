/**
 The health service: a poller that keeps a cached status and a version, and watch streams that send the status
 whenever it differs from what they sent last. Watchers do not change the service, so what one stream meets is
 any interleaving of its own steps with polls.
 */
module Health {

  function Flipped(b: bool, times: nat): bool {
    if times == 0 then b else !Flipped(b, times - 1)
  }

  lemma {:induction false} FlippedByParity(b: bool, times: nat)
    ensures Flipped(b, times) == if times % 2 == 0 then b else !b
  {
    if times > 0 { FlippedByParity(b, times - 1); }
  }

  predicate AllAre(results: seq<bool>, status: bool) {
    forall i :: 0 <= i < |results| ==> results[i] == status
  }

  class Service {
    const initial: bool
    var cachedStatus: bool
    var statusVersion: nat

    // One flip for every version.
    ghost predicate Valid()
      reads this
    {
      cachedStatus == Flipped(initial, statusVersion)
    }

    // A check that throws counts as false.
    constructor (health: bool)
      ensures Valid() && initial == health && statusVersion == 0
    {
      initial, cachedStatus, statusVersion := health, health, 0;
    }

    // One round of the poll loop. The version counts the changes.
    method Poll(newStatus: bool)
      requires Valid()
      modifies this
      ensures Valid() && cachedStatus == newStatus
      ensures statusVersion == old(statusVersion) + if newStatus != old(cachedStatus) then 1 else 0
    {
      if newStatus != cachedStatus {
        cachedStatus := newStatus;
        statusVersion := statusVersion + 1;
      }
    }

    method Polls(results: seq<bool>)
      requires Valid()
      modifies this
      ensures Valid() && old(statusVersion) <= statusVersion <= old(statusVersion) + |results|
      ensures results != [] ==> cachedStatus == results[|results| - 1]
      ensures statusVersion == old(statusVersion) ==> cachedStatus == old(cachedStatus) && AllAre(results, cachedStatus)
    {
      for i := 0 to |results|
        invariant Valid() && old(statusVersion) <= statusVersion <= old(statusVersion) + i
        invariant i > 0 ==> cachedStatus == results[i - 1]
        invariant statusVersion == old(statusVersion) ==> cachedStatus == old(cachedStatus) && AllAre(results[..i], cachedStatus)
      {
        Poll(results[i]);
      }
    }

    method Check() returns (serving: bool)
      requires Valid()
      ensures serving == Flipped(initial, statusVersion)
    {
      serving := cachedStatus;
    }
  }

  // ----- Watching -----

  datatype Seen = Seen(status: bool, version: nat)

  // What a stream has sent after it has seen these: the first, and each that differs from the last one sent.
  function Stream(seen: seq<Seen>): (sent: seq<Seen>)
    ensures |sent| <= |seen| && (seen != [] ==> sent != [])
  {
    if |seen| <= 1 then seen
    else
      var sent := Stream(seen[..|seen| - 1]);
      var next := seen[|seen| - 1];
      if next.status != sent[|sent| - 1].status then sent + [next] else sent
  }

  // Looks at a service in the course of time.
  ghost predicate Looks(seen: seq<Seen>, initial: bool, now: nat) {
    && (forall i :: 0 <= i < |seen| ==> seen[i].status == Flipped(initial, seen[i].version) && seen[i].version <= now)
    && (forall i, j :: 0 <= i < j < |seen| ==> seen[i].version <= seen[j].version)
  }

  ghost predicate Alternates(sent: seq<Seen>, initial: bool) {
    && (forall i :: 0 < i < |sent| ==> sent[i - 1].status != sent[i].status && sent[i - 1].version < sent[i].version)
    && (forall i :: 0 <= i < |sent| ==> sent[i].status == Flipped(initial, sent[i].version))
  }

  lemma AlternatesStep(sent: seq<Seen>, next: Seen, initial: bool)
    requires sent != [] && Alternates(sent, initial)
    requires next.status == Flipped(initial, next.version) && sent[|sent| - 1].version <= next.version
    requires sent[|sent| - 1].status != next.status
    ensures Alternates(sent + [next], initial)
  {
    assert sent[|sent| - 1].version != next.version;
  }

  // No status is sent twice in a row, the versions sent strictly increase and belong to the statuses, and the last
  // status sent is the last one seen.
  lemma {:induction false} StreamsAlternate(seen: seq<Seen>, initial: bool, now: nat)
    requires seen != [] && Looks(seen, initial, now)
    ensures Alternates(Stream(seen), initial)
    ensures var last := Stream(seen)[|Stream(seen)| - 1];
            last.status == seen[|seen| - 1].status && last.version <= seen[|seen| - 1].version
  {
    var n := |seen| - 1;
    if n > 0 {
      var before := seen[..n];
      assert before[n - 1] == seen[n - 1] && seen[n - 1].version <= seen[n].version;
      LooksPrefix(seen, initial, now);
      StreamsAlternate(before, initial, now);
      var sent := Stream(before);
      if seen[n].status != sent[|sent| - 1].status {
        AlternatesStep(sent, seen[n], initial);
        assert Stream(seen) == sent + [seen[n]];
      } else {
        assert Stream(seen) == sent;
      }
    }
  }

  lemma LooksPrefix(seen: seq<Seen>, initial: bool, now: nat)
    requires seen != [] && Looks(seen, initial, now)
    ensures Looks(seen[..|seen| - 1], initial, now)
  {}

  lemma LooksSnoc(seen: seq<Seen>, initial: bool, now: nat, next: Seen, later: nat)
    requires seen != [] && Looks(seen, initial, now) && now <= later
    requires next.status == Flipped(initial, next.version) && seen[|seen| - 1].version <= next.version <= later
    ensures Looks(seen + [next], initial, later)
  {
    forall i | 0 <= i < |seen| ensures seen[i].version <= next.version {
      assert i < |seen| - 1 ==> seen[i].version <= seen[|seen| - 1].version;
    }
  }

  // How the sent versions lie in the history: every status between two that are sent has been passed over in pairs.
  lemma SentVersionsDifferByOdd(seen: seq<Seen>, initial: bool, now: nat, i: nat)
    requires seen != [] && Looks(seen, initial, now) && 0 < i < |Stream(seen)|
    ensures (Stream(seen)[i].version - Stream(seen)[i - 1].version) % 2 == 1
  {
    StreamsAlternate(seen, initial, now);
    FlippedByParity(initial, Stream(seen)[i].version);
    FlippedByParity(initial, Stream(seen)[i - 1].version);
  }

  // What happens during one round of a watch: cancellation or shutdown noticed at the top or after the wait, polls
  // before the wait begins, polls before each of its wake-ups up to the time-out, polls after it, and the fate of the
  // write if there is one.
  datatype Round = Round(stoppedAtTop: bool, before: seq<bool>, wakes: seq<seq<bool>>, stoppedAfterWait: bool,
                         after: seq<bool>, writeOk: bool)

  predicate Undisturbed(rounds: seq<Round>) {
    forall i :: 0 <= i < |rounds| ==> !rounds[i].stoppedAtTop && !rounds[i].stoppedAfterWait && rounds[i].writeOk
  }

  // The waiting thread gets the lock again after each poll.
  predicate Prompt(wakes: seq<seq<bool>>) {
    forall k :: 0 <= k < |wakes| ==> |wakes[k]| <= 1
  }

  predicate AllPrompt(rounds: seq<Round>) {
    forall i :: 0 <= i < |rounds| ==> rounds[i].before == [] && rounds[i].after == [] && Prompt(rounds[i].wakes)
  }

  // All polls of the round up to the end of the wait have had this outcome.
  ghost predicate Quiet(round: Round, status: bool) {
    AllAre(round.before, status) && forall k :: 0 <= k < |round.wakes| ==> AllAre(round.wakes[k], status)
  }

  // Each round has looked at the service once; a look that shows the version of the one before it has missed nothing.
  ghost predicate SawRounds(seen: seq<Seen>, rounds: seq<Round>, n: nat)
    requires n <= |rounds|
  {
    && |seen| == n + 1
    && forall i :: 0 <= i < n && seen[i + 1].version == seen[i].version ==> Quiet(rounds[i], seen[i].status)
  }

  lemma SawOneMore(seen: seq<Seen>, rounds: seq<Round>, n: nat, look: Seen)
    requires n < |rounds| && SawRounds(seen, rounds, n)
    requires look.version == seen[n].version ==> Quiet(rounds[n], seen[n].status)
    ensures SawRounds(seen + [look], rounds, n + 1)
  {}

  // Waits until there is another version than the last one or the time is over.
  method Wait(service: Service, lastVersion: nat, wakes: seq<seq<bool>>) returns (look: Seen)
    requires service.Valid() && lastVersion <= service.statusVersion
    modifies service
    ensures service.Valid() && look == Seen(service.cachedStatus, service.statusVersion)
    ensures old(service.statusVersion) <= look.version
    ensures look.version == lastVersion ==> forall k :: 0 <= k < |wakes| ==> AllAre(wakes[k], look.status)
    ensures look.version == old(service.statusVersion) ==> look.status == old(service.cachedStatus)
    ensures old(service.statusVersion) == lastVersion && Prompt(wakes) ==> look.version <= lastVersion + 1
  {
    var k := 0;
    while service.statusVersion == lastVersion && k < |wakes|
      invariant service.Valid() && old(service.statusVersion) <= service.statusVersion && 0 <= k <= |wakes|
      invariant service.statusVersion == lastVersion ==> forall j :: 0 <= j < k ==> AllAre(wakes[j], service.cachedStatus)
      invariant service.statusVersion == old(service.statusVersion) ==> service.cachedStatus == old(service.cachedStatus)
      invariant old(service.statusVersion) == lastVersion && Prompt(wakes) ==> service.statusVersion <= lastVersion + 1
    {
      service.Polls(wakes[k]);
      k := k + 1;
    }
    look := Seen(service.cachedStatus, service.statusVersion);
  }

  // What a round sees: the status and version under the lock, then polls go on.
  method Look(service: Service, ghost last: Seen, lastVersion: nat, round: Round) returns (look: Seen)
    requires service.Valid() && last.status == Flipped(service.initial, last.version)
    requires lastVersion == last.version <= service.statusVersion
    modifies service
    ensures service.Valid() && look.status == Flipped(service.initial, look.version)
    ensures old(service.statusVersion) <= look.version <= service.statusVersion
    ensures look.version == last.version ==> Quiet(round, last.status)
    ensures old(service.statusVersion) == last.version && round.before == [] && round.after == [] && Prompt(round.wakes) ==>
              look.version == service.statusVersion <= last.version + 1
  {
    service.Polls(round.before);
    look := Wait(service, lastVersion, round.wakes);
    service.Polls(round.after);
  }

  // Every version from the first one up to now has been sent.
  ghost predicate AllSent(sent: seq<Seen>, first: nat, now: nat) {
    && |sent| == now - first + 1 && sent != []
    && forall i :: 0 <= i < |sent| ==> sent[i].version == first + i
  }

  ghost predicate Follows(sent: seq<Seen>, seen: seq<Seen>, initial: bool, now: nat) {
    && Looks(seen, initial, now) && sent == Stream(seen) && seen != []
    && sent[|sent| - 1].status == seen[|seen| - 1].status
  }

  function Answer(last: Seen, current: Seen): seq<Seen> {
    if current.status != last.status then [current] else []
  }

  lemma FollowsLook(sent: seq<Seen>, seen: seq<Seen>, initial: bool, before: nat, current: Seen, now: nat)
    requires Follows(sent, seen, initial, before) && before <= now
    requires current.status == Flipped(initial, current.version) && seen[|seen| - 1].version <= current.version <= now
    ensures Follows(sent + Answer(seen[|seen| - 1], current), seen + [current], initial, now)
  {
    StreamSnoc(seen, current);
    LooksSnoc(seen, initial, before, current, now);
  }

  lemma AllSentLook(sent: seq<Seen>, first: nat, initial: bool, last: Seen, current: Seen)
    requires AllSent(sent, first, last.version) && last.version <= current.version <= last.version + 1
    requires last.status == Flipped(initial, last.version) && current.status == Flipped(initial, current.version)
    ensures AllSent(sent + Answer(last, current), first, current.version)
  {}

  // A watch after n rounds: what it has sent and seen, for a service that is now at this version.
  ghost predicate Watching(rounds: seq<Round>, n: nat, initial: bool, first: Seen, sent: seq<Seen>, seen: seq<Seen>, now: nat)
    requires n <= |rounds|
  {
    && Follows(sent, seen, initial, now) && seen[0] == first
    && (Undisturbed(rounds) ==> SawRounds(seen, rounds, n))
    && (AllPrompt(rounds) ==> AllSent(sent, first.version, now) && seen[|seen| - 1].version == now)
  }

  // A watch that has ended.
  ghost predicate Watched(rounds: seq<Round>, initial: bool, first: Seen, sent: seq<Seen>, seen: seq<Seen>, now: nat) {
    && Follows(sent, seen, initial, now) && seen[0] == first
    && (AllPrompt(rounds) ==> AllSent(sent, first.version, sent[|sent| - 1].version))
    && (Undisturbed(rounds) ==> Watching(rounds, |rounds|, initial, first, sent, seen, now))
  }

  lemma WatchingStops(rounds: seq<Round>, n: nat, initial: bool, first: Seen, sent: seq<Seen>, seen: seq<Seen>,
                      before: nat, now: nat)
    requires n < |rounds| && Watching(rounds, n, initial, first, sent, seen, before) && before <= now
    requires rounds[n].stoppedAtTop || rounds[n].stoppedAfterWait || !rounds[n].writeOk
    ensures Watched(rounds, initial, first, sent, seen, now)
  {}

  lemma WatchingOn(rounds: seq<Round>, n: nat, initial: bool, first: Seen, sent: seq<Seen>, seen: seq<Seen>,
                   before: nat, current: Seen, now: nat)
    requires n < |rounds| && Watching(rounds, n, initial, first, sent, seen, before) && before <= now
    requires current.status == Flipped(initial, current.version) && seen[|seen| - 1].version <= current.version <= now
    requires current.version == seen[|seen| - 1].version ==> Quiet(rounds[n], seen[|seen| - 1].status)
    requires AllPrompt(rounds) ==> current.version == now <= before + 1
    ensures Watching(rounds, n + 1, initial, first, sent + Answer(seen[|seen| - 1], current), seen + [current], now)
  {
    FollowsLook(sent, seen, initial, before, current, now);
    if Undisturbed(rounds) { SawOneMore(seen, rounds, n, current); }
    if AllPrompt(rounds) { AllSentLook(sent, first.version, initial, seen[|seen| - 1], current); }
  }

  lemma WatchingStarts(rounds: seq<Round>, initial: bool, first: Seen)
    requires first.status == Flipped(initial, first.version)
    ensures Watching(rounds, 0, initial, first, [first], [first], first.version)
  {}

  lemma WatchingEnds(rounds: seq<Round>, initial: bool, first: Seen, sent: seq<Seen>, seen: seq<Seen>, now: nat)
    requires Watching(rounds, |rounds|, initial, first, sent, seen, now)
    ensures Watched(rounds, initial, first, sent, seen, now)
  {}

  // One round in the course of a watch: what it sees, and how the watch stands if it goes on or ends here.
  method LookNext(service: Service, rounds: seq<Round>, n: nat, lastVersion: nat,
                  ghost first: Seen, ghost sent: seq<Seen>, ghost seen: seq<Seen>) returns (current: Seen)
    requires n < |rounds| && service.Valid()
    requires Watching(rounds, n, service.initial, first, sent, seen, service.statusVersion)
    requires seen[|seen| - 1].version == lastVersion
    modifies service
    ensures service.Valid()
    ensures current.status == seen[|seen| - 1].status ==>
              Watching(rounds, n + 1, service.initial, first, sent, seen + [current], service.statusVersion)
    ensures current.status != seen[|seen| - 1].status ==>
              Watching(rounds, n + 1, service.initial, first, sent + [current], seen + [current], service.statusVersion)
    ensures rounds[n].stoppedAfterWait || !rounds[n].writeOk ==>
              Watched(rounds, service.initial, first, sent, seen, service.statusVersion)
  {
    ghost var before, last := service.statusVersion, seen[|seen| - 1];
    current := Look(service, last, lastVersion, rounds[n]);
    WatchingOn(rounds, n, service.initial, first, sent, seen, before, current, service.statusVersion);
    assert sent + [] == sent;
    if rounds[n].stoppedAfterWait || !rounds[n].writeOk {
      WatchingStops(rounds, n, service.initial, first, sent, seen, before, service.statusVersion);
    }
  }

  // Everything sent is the stream of what was seen. A watch that is woken up after each poll sends every change.
  method Watch(service: Service, firstWriteOk: bool, rounds: seq<Round>) returns (sent: seq<Seen>, ghost seen: seq<Seen>)
    requires service.Valid()
    modifies service
    ensures service.Valid()
    ensures if !firstWriteOk then sent == []
            else var first := Seen(old(service.cachedStatus), old(service.statusVersion));
              Watched(rounds, service.initial, first, sent, seen, service.statusVersion)
  {
    var lastStatus, lastVersion := service.cachedStatus, service.statusVersion;
    if !firstWriteOk { return [], []; }
    sent := [Seen(lastStatus, lastVersion)];
    seen := sent;
    ghost var first := sent[0];
    WatchingStarts(rounds, service.initial, first);
    for i := 0 to |rounds|
      invariant service.Valid() && Watching(rounds, i, service.initial, first, sent, seen, service.statusVersion)
      invariant Seen(lastStatus, lastVersion) == seen[|seen| - 1]
    {
      if rounds[i].stoppedAtTop {
        WatchingStops(rounds, i, service.initial, first, sent, seen, service.statusVersion, service.statusVersion);
        return;
      }
      var current := LookNext(service, rounds, i, lastVersion, first, sent, seen);
      if rounds[i].stoppedAfterWait || (current.status != lastStatus && !rounds[i].writeOk) { return; }
      if current.status != lastStatus {
        sent := sent + [current];
        lastStatus := current.status;
      }
      seen := seen + [current];
      lastVersion := current.version;
    }
    WatchingEnds(rounds, service.initial, first, sent, seen, service.statusVersion);
  }

  lemma StreamSnoc(seen: seq<Seen>, next: Seen)
    requires seen != []
    ensures Stream(seen + [next]) ==
              Stream(seen) + if next.status != Stream(seen)[|Stream(seen)| - 1].status then [next] else []
  {
    assert (seen + [next])[..|seen|] == seen;
  }
}
