/** The sender's side of one-time pre-keys: a pool per peer, consumed in order under a rate limit. */
module PreKeyPool {
  import opened Common

  type Peer = nat

  /** A pre-key received from a peer: a 4-byte identifier and a 32-byte public key. */
  datatype PreKey = PreKey(id: nat, publicKey: nat)

  const PRE_KEY_MINIMUM := 20
  const PRE_KEY_RATE_LIMIT := 10
  /** Five minutes in nanoseconds. */
  const PRE_KEY_RATE_WINDOW := 5 * 60 * 1_000_000_000

  datatype SendError = EmptyMessage | MessageTooLong | NoPreKeys | InsufficientPreKeys | RateLimited
  datatype ExchangeError = EmptyExchange | BadSignature

  // ----- Merging -----

  ghost predicate DistinctIds(keys: seq<PreKey>) {
    forall i, j | 0 <= i < j < |keys| :: keys[i].id != keys[j].id
  }

  ghost function Ids(keys: seq<PreKey>): set<nat> {
    set k | k in keys :: k.id
  }

  lemma IdsSnoc(keys: seq<PreKey>, k: PreKey)
    ensures Ids(keys + [k]) == Ids(keys) + {k.id}
  {
    assert forall x :: x in keys + [k] <==> x in keys || x == k;
  }

  /** The first key of every identifier, in list order. */
  ghost function Unique(keys: seq<PreKey>): seq<PreKey> {
    if keys == [] then []
    else
      var before, k := Unique(keys[..|keys| - 1]), keys[|keys| - 1];
      if k.id in Ids(before) then before else before + [k]
  }

  lemma {:induction false} UniqueSound(keys: seq<PreKey>)
    ensures DistinctIds(Unique(keys)) && Ids(Unique(keys)) == Ids(keys)
    ensures forall k :: k in Unique(keys) ==> k in keys
  {
    if keys != [] {
      var t, k := keys[..|keys| - 1], keys[|keys| - 1];
      assert keys == t + [k];
      UniqueSound(t);
      IdsSnoc(t, k);
      IdsSnoc(Unique(t), k);
      if k.id !in Ids(Unique(t)) {
        forall i | 0 <= i < |Unique(t)| ensures Unique(t)[i].id != k.id { assert Unique(t)[i] in Unique(t); }
      }
    }
  }

  /** Merging keeps a pool of distinct keys as it is and appends the new identifiers after it. */
  lemma {:induction false} UniqueExtends(pool: seq<PreKey>, incoming: seq<PreKey>)
    requires DistinctIds(pool)
    ensures pool <= Unique(pool + incoming)
    ensures forall k :: k in Unique(pool + incoming)[|pool|..] ==> k in incoming && k.id !in Ids(pool)
  {
    if incoming == [] {
      assert pool + incoming == pool;
      UniqueIdentity(pool);
    } else {
      var t, k := incoming[..|incoming| - 1], incoming[|incoming| - 1];
      assert (pool + incoming)[..|pool + incoming| - 1] == pool + t;
      UniqueExtends(pool, t);
      var u := Unique(pool + t);
      if k.id !in Ids(u) {
        assert forall x :: x in pool ==> x in u;
        assert (u + [k])[|pool|..] == u[|pool|..] + [k];
      }
    }
  }

  lemma {:induction false} UniqueIdentity(pool: seq<PreKey>)
    requires DistinctIds(pool)
    ensures Unique(pool) == pool
  {
    if pool != [] {
      var t, k := pool[..|pool| - 1], pool[|pool| - 1];
      UniqueIdentity(t);
      assert k.id !in Ids(t);
      assert pool == t + [k];
    }
  }

  /** Appends the keys whose identifiers have not been seen. */
  method AppendUnique(merged: seq<PreKey>, seen: set<nat>, keys: seq<PreKey>, ghost all: seq<PreKey>)
    returns (merged': seq<PreKey>, seen': set<nat>)
    requires merged == Unique(all) && seen == Ids(merged)
    ensures merged' == Unique(all + keys) && seen' == Ids(merged')
  {
    merged', seen' := merged, seen;
    assert all + keys[..0] == all;
    for i := 0 to |keys|
      invariant merged' == Unique(all + keys[..i]) && seen' == Ids(merged')
    {
      assert (all + keys[..i + 1])[..|all| + i] == all + keys[..i];
      if keys[i].id !in seen' {
        IdsSnoc(merged', keys[i]);
        seen' := seen' + {keys[i].id};
        merged' := merged' + [keys[i]];
      }
    }
    assert keys[..|keys|] == keys;
  }

  method MergeUniquePreKeys(existing: seq<PreKey>, incoming: seq<PreKey>) returns (merged: seq<PreKey>)
    ensures merged == Unique(existing + incoming)
  {
    var seen: set<nat>;
    merged, seen := AppendUnique([], {}, existing, []);
    assert [] + existing == existing;
    merged, seen := AppendUnique(merged, seen, incoming, existing);
  }

  // ----- One peer -----

  /** The pool, and the times of recent consumptions that the rate limiter keeps. */
  datatype PeerState = PeerState(pool: seq<PreKey>, consumed: seq<int>)

  datatype Event =
    | Exchange(keys: seq<PreKey>, verified: bool)
    | Send(now: int, size: nat)

  /** Drops the leading times before the cutoff. */
  ghost function Pruned(times: seq<int>, cutoff: int): seq<int> {
    if times == [] || times[0] >= cutoff then times else Pruned(times[1..], cutoff)
  }

  lemma {:induction false} PrunedIsSuffix(times: seq<int>, cutoff: int)
    ensures
      var r := Pruned(times, cutoff);
      && |r| <= |times| && r == times[|times| - |r|..]
      && forall i | 0 <= i < |times| - |r| :: times[i] < cutoff
  {
    if times != [] && times[0] < cutoff {
      PrunedIsSuffix(times[1..], cutoff);
      var r := Pruned(times, cutoff);
      assert times[1..][|times| - 1 - |r|..] == times[|times| - |r|..];
      assert forall i | 1 <= i < |times| :: times[i] == times[1..][i - 1];
    }
  }

  ghost function SendRefusal(p: PeerState, now: int, size: nat): Option<SendError> {
    if size == 0 then Some(EmptyMessage)
    else if size > MAX_MESSAGE_SIZE then Some(MessageTooLong)
    else if p.pool == [] then Some(NoPreKeys)
    else if |p.pool| < PRE_KEY_MINIMUM then Some(InsufficientPreKeys)
    else if |Pruned(p.consumed, now - PRE_KEY_RATE_WINDOW)| >= PRE_KEY_RATE_LIMIT then Some(RateLimited)
    else None
  }

  /** The pre-key an event uses up, if any. */
  ghost function Used(p: PeerState, ev: Event): Option<PreKey> {
    if ev.Send? && SendRefusal(p, ev.now, ev.size).None? then Some(p.pool[0]) else None
  }

  ghost function Step(p: PeerState, ev: Event): PeerState {
    match ev
    case Exchange(keys, verified) =>
      if keys == [] || !verified then p else p.(pool := Unique(p.pool + keys))
    case Send(now, size) =>
      if SendRefusal(p, now, size).Some? then p
      else PeerState(p.pool[1..], Pruned(p.consumed, now - PRE_KEY_RATE_WINDOW) + [now])
  }

  ghost function Run(p: PeerState, events: seq<Event>): PeerState {
    if events == [] then p else Step(Run(p, events[..|events| - 1]), events[|events| - 1])
  }

  const EMPTY := PeerState([], [])

  // ----- The rate limit -----

  /** The times of all consumptions of a run. */
  ghost function History(p: PeerState, events: seq<Event>): seq<int> {
    if events == [] then []
    else
      var before, ev := events[..|events| - 1], events[|events| - 1];
      History(p, before) + if Used(Run(p, before), ev).Some? then [ev.now] else []
  }

  /** Sends happen at non-decreasing times, the last not after `now`. */
  ghost predicate ClockRuns(events: seq<Event>, now: int) {
    events == [] ||
    (var before, ev := events[..|events| - 1], events[|events| - 1];
     if ev.Send? then ev.now <= now && ClockRuns(before, ev.now) else ClockRuns(before, now))
  }

  ghost predicate Sorted(h: seq<int>) {
    forall i, j | 0 <= i < j < |h| :: h[i] <= h[j]
  }

  /** Any consumption is more than a window later than the one ten before it. */
  ghost predicate Spaced(h: seq<int>) {
    forall i | PRE_KEY_RATE_LIMIT <= i < |h| :: h[i] - h[i - PRE_KEY_RATE_LIMIT] > PRE_KEY_RATE_WINDOW
  }

  /** What the limiter keeps is a suffix of the history; what it dropped is out of every window that
      ends at `now` or later. */
  ghost predicate Tracks(h: seq<int>, consumed: seq<int>, now: int) {
    && Sorted(h) && Spaced(h) && (forall t :: t in h ==> t <= now)
    && |consumed| <= |h| && consumed == h[|h| - |consumed|..]
    && forall i | 0 <= i < |h| - |consumed| :: h[i] < now - PRE_KEY_RATE_WINDOW
  }

  lemma TracksConsumption(h: seq<int>, consumed: seq<int>, before: int, now: int)
    requires Tracks(h, consumed, before) && before <= now
    requires |Pruned(consumed, now - PRE_KEY_RATE_WINDOW)| < PRE_KEY_RATE_LIMIT
    ensures Tracks(h + [now], Pruned(consumed, now - PRE_KEY_RATE_WINDOW) + [now], now)
  {
    hide Pruned;
    PrunedIsSuffix(consumed, now - PRE_KEY_RATE_WINDOW);
    var kept := Pruned(consumed, now - PRE_KEY_RATE_WINDOW);
    var d := |h| - |consumed|;
    var h' := h + [now];
    assert forall i | 0 <= i < |h| :: h[i] in h;
    assert forall i | 0 <= i < |consumed| :: consumed[i] == h[d + i];
    forall i | 0 <= i < |h| - |kept| ensures h[i] < now - PRE_KEY_RATE_WINDOW {
      if i >= d { assert h[i] == consumed[i - d]; }
    }
    assert kept == h[|h| - |kept|..];
    SuffixSnoc(h, kept, now);
    assert Spaced(h');
  }

  lemma TracksLater(h: seq<int>, consumed: seq<int>, before: int, now: int)
    requires Tracks(h, consumed, before) && before <= now
    ensures Tracks(h, consumed, now)
  {
  }

  lemma SuffixSnoc(h: seq<int>, kept: seq<int>, now: int)
    requires |kept| <= |h| && kept == h[|h| - |kept|..]
    ensures kept + [now] == (h + [now])[|h + [now]| - |kept + [now]|..]
  {
  }

  lemma {:induction false} RunTracks(events: seq<Event>, now: int)
    requires ClockRuns(events, now)
    ensures Tracks(History(EMPTY, events), Run(EMPTY, events).consumed, now)
  {
    if events != [] {
      hide Pruned, Tracks;
      var before, ev := events[..|events| - 1], events[|events| - 1];
      if ev.Send? {
        RunTracks(before, ev.now);
        var p := Run(EMPTY, before);
        if SendRefusal(p, ev.now, ev.size).None? {
          TracksConsumption(History(EMPTY, before), p.consumed, ev.now, ev.now);
          TracksLater(History(EMPTY, events), Run(EMPTY, events).consumed, ev.now, now);
        } else {
          assert History(EMPTY, events) == History(EMPTY, before);
          TracksLater(History(EMPTY, before), p.consumed, ev.now, now);
        }
      } else {
        RunTracks(before, now);
        assert History(EMPTY, events) == History(EMPTY, before);
      }
    } else {
      assert Tracks([], [], now);
    }
  }

  ghost function InWindow(start: int): int -> bool {
    (t: int) => start <= t <= start + PRE_KEY_RATE_WINDOW
  }

  /** Spacing bounds the number of consumptions in every closed window. */
  lemma {:induction false} WindowCount(h: seq<int>, start: int)
    requires Sorted(h) && Spaced(h)
    ensures |Filter(InWindow(start), h)| <= PRE_KEY_RATE_LIMIT
  {
    hide Filter;
    if |h| > PRE_KEY_RATE_LIMIT {
      if InWindow(start)(h[|h| - 1]) {
        var k := |h| - PRE_KEY_RATE_LIMIT;
        var old', recent := h[..k], h[k..];
        forall t | t in old' ensures !InWindow(start)(t) {
          var i :| 0 <= i < k && h[i] == t;
          assert h[|h| - 1] - h[k - 1] > PRE_KEY_RATE_WINDOW;
        }
        FilterNone(InWindow(start), old');
        FilterAppend(InWindow(start), old', recent);
        assert h == old' + recent;
      } else {
        var front := h[..|h| - 1];
        WindowCount(front, start);
        FilterSnoc(InWindow(start), front, h[|h| - 1]);
        assert h == front + [h[|h| - 1]];
      }
    }
  }

  /** Over every run of exchanges and sends, no closed window holds more than ten consumptions, although
      the limiter remembers only a pruned suffix of them. */
  lemma RateLimitHolds(events: seq<Event>, now: int, start: int)
    requires ClockRuns(events, now)
    ensures |Filter(InWindow(start), History(EMPTY, events))| <= PRE_KEY_RATE_LIMIT
  {
    RunTracks(events, now);
    WindowCount(History(EMPTY, events), start);
  }

  /** The times in the five minutes up to `now`. */
  ghost function LastFiveMinutes(now: int): int -> bool {
    (t: int) => now - 5 * 60 * 1_000_000_000 <= t <= now
  }

  /** What the limiter counts is what was consumed in the last five minutes. */
  lemma PrunedIsRecent(h: seq<int>, consumed: seq<int>, now: int)
    requires Tracks(h, consumed, now)
    ensures Pruned(consumed, now - PRE_KEY_RATE_WINDOW) == Filter(LastFiveMinutes(now), h)
  {
    hide Filter, Pruned;
    var kept := Pruned(consumed, now - PRE_KEY_RATE_WINDOW);
    var k := |h| - |kept|;
    PrunedSplits(h, consumed, now);
    hide Tracks;
    FilterNone(LastFiveMinutes(now), h[..k]);
    FilterAll(LastFiveMinutes(now), h[k..]);
    FilterAppend(LastFiveMinutes(now), h[..k], h[k..]);
    assert h == h[..k] + h[k..];
  }

  /** The kept times are the end of the history; they are recent, and no earlier ones are. */
  lemma PrunedSplits(h: seq<int>, consumed: seq<int>, now: int)
    requires Tracks(h, consumed, now)
    ensures
      var kept := Pruned(consumed, now - PRE_KEY_RATE_WINDOW);
      var k := |h| - |kept|;
      && k >= 0 && h[k..] == kept
      && (forall t :: t in h[..k] ==> !LastFiveMinutes(now)(t))
      && (forall t :: t in h[k..] ==> LastFiveMinutes(now)(t))
  {
    var cutoff := now - PRE_KEY_RATE_WINDOW;
    var kept := Pruned(consumed, cutoff);
    PrunedIsSuffix(consumed, cutoff);
    PrunedStarts(consumed, cutoff);
    hide Pruned, Spaced;
    var k, d := |h| - |kept|, |h| - |consumed|;
    assert forall i | 0 <= i < |consumed| :: consumed[i] == h[d + i];
    assert forall i | d <= i < k :: h[i] == consumed[i - d];
    assert h[k..] == kept;
    assert forall i | 0 <= i < k :: h[i] < cutoff;
    if kept != [] { assert h[k] == kept[0] >= cutoff; }
    assert forall i | k <= i < |h| :: h[k] <= h[i] && h[i] in h;
  }

  lemma {:induction false} PrunedStarts(times: seq<int>, cutoff: int)
    ensures Pruned(times, cutoff) != [] ==> Pruned(times, cutoff)[0] >= cutoff
  {
    if times != [] { PrunedStarts(times[1..], cutoff); }
  }

  /** After every run, a send is let through exactly when its size is allowed, at least twenty keys are left, and
      fewer than ten were consumed in the last five minutes. */
  lemma SendAcceptedIff(events: seq<Event>, now: int, size: nat)
    requires ClockRuns(events, now)
    ensures Used(Run(EMPTY, events), Send(now, size)).Some? <==>
      && 0 < size <= 1372 && |Run(EMPTY, events).pool| >= 20
      && |Filter(LastFiveMinutes(now), History(EMPTY, events))| < 10
  {
    RunTracks(events, now);
    PrunedIsRecent(History(EMPTY, events), Run(EMPTY, events).consumed, now);
    hide Run, History, Pruned, Tracks, Filter;
  }

  /** The first check that fails names the error. */
  lemma SendErrors(p: PeerState, now: int, size: nat)
    ensures
      var r := SendRefusal(p, now, size);
      && (r == Some(EmptyMessage) <==> size == 0)
      && (r == Some(MessageTooLong) <==> size >= 1373)
      && (r == Some(NoPreKeys) <==> 1 <= size <= 1372 && p.pool == [])
      && (r == Some(InsufficientPreKeys) <==> 1 <= size <= 1372 && 1 <= |p.pool| <= 19)
      && (r == Some(RateLimited) ==> 1 <= size <= 1372 && |p.pool| >= 20)
  {
  }

  // ----- First in, first out -----

  /** The keys whose identifiers are not known, each identifier once, in list order. */
  ghost function Newcomers(known: set<nat>, keys: seq<PreKey>): seq<PreKey> {
    if keys == [] then []
    else
      var before, k := Newcomers(known, keys[..|keys| - 1]), keys[|keys| - 1];
      if k.id in known || k.id in Ids(before) then before else before + [k]
  }

  lemma {:induction false} MergeAppendsNewcomers(pool: seq<PreKey>, keys: seq<PreKey>)
    requires DistinctIds(pool)
    ensures Unique(pool + keys) == pool + Newcomers(Ids(pool), keys)
  {
    if keys == [] {
      assert pool + keys == pool;
      UniqueIdentity(pool);
    } else {
      var t, k := keys[..|keys| - 1], keys[|keys| - 1];
      assert (pool + keys)[..|pool + keys| - 1] == pool + t;
      MergeAppendsNewcomers(pool, t);
      var n := Newcomers(Ids(pool), t);
      assert Ids(pool + n) == Ids(pool) + Ids(n);
    }
  }

  /** The keys a run has used up, in order. */
  ghost function UsedKeys(events: seq<Event>): seq<PreKey> {
    if events == [] then []
    else
      var before, ev := events[..|events| - 1], events[|events| - 1];
      var used := Used(Run(EMPTY, before), ev);
      UsedKeys(before) + if used.Some? then [used.value] else []
  }

  /** The keys that verified exchanges brought in, in order. */
  ghost function ReceivedKeys(events: seq<Event>): seq<PreKey> {
    if events == [] then []
    else
      var before, ev := events[..|events| - 1], events[|events| - 1];
      ReceivedKeys(before) +
      if ev.Exchange? && ev.verified then Newcomers(Ids(Run(EMPTY, before).pool), ev.keys) else []
  }

  /** Keys are used in the order in which they were received, and none is lost: over every run the used keys followed
      by the pool are the received keys. */
  lemma {:induction false} UsedInOrder(events: seq<Event>)
    ensures UsedKeys(events) + Run(EMPTY, events).pool == ReceivedKeys(events)
  {
    if events != [] {
      hide Step, Used, Newcomers, DistinctIds;
      var before, ev := events[..|events| - 1], events[|events| - 1];
      UsedInOrder(before);
      RunDistinct(before, ev);
      StepInOrder(UsedKeys(before), Run(EMPTY, before), ev, ReceivedKeys(before));
    }
  }

  lemma StepInOrder(used: seq<PreKey>, p: PeerState, ev: Event, received: seq<PreKey>)
    requires used + p.pool == received && DistinctIds(p.pool)
    ensures used + (if Used(p, ev).Some? then [Used(p, ev).value] else []) + Step(p, ev).pool ==
      received + if ev.Exchange? && ev.verified then Newcomers(Ids(p.pool), ev.keys) else []
  {
    hide Unique, DistinctIds;
    if ev.Exchange? {
      MergeAppendsNewcomers(p.pool, ev.keys);
    } else if Used(p, ev).Some? {
      assert p.pool == [p.pool[0]] + p.pool[1..];
    }
  }

  // ----- One-time use -----

  lemma StepDistinct(p: PeerState, ev: Event)
    requires DistinctIds(p.pool)
    ensures DistinctIds(Step(p, ev).pool)
    ensures Used(p, ev).Some? ==> |Step(p, ev).pool| >= PRE_KEY_MINIMUM - 1
    ensures Used(p, ev).Some? ==> Used(p, ev).value.id !in Ids(Step(p, ev).pool)
  {
    if ev.Exchange? { UniqueSound(p.pool + ev.keys); }
    if Used(p, ev).Some? {
      assert forall i | 0 <= i < |p.pool| - 1 :: p.pool[1..][i] == p.pool[i + 1];
    }
  }

  /** From an empty pool identifiers stay distinct, and no send leaves fewer than nineteen keys. */
  lemma {:induction false} RunDistinct(events: seq<Event>, ev: Event)
    ensures DistinctIds(Run(EMPTY, events).pool)
    ensures Used(Run(EMPTY, events), ev).Some? ==>
      |Step(Run(EMPTY, events), ev).pool| >= PRE_KEY_MINIMUM - 1
  {
    if events != [] {
      RunDistinct(events[..|events| - 1], ev);
      StepDistinct(Run(EMPTY, events[..|events| - 1]), events[|events| - 1]);
    }
    StepDistinct(Run(EMPTY, events), ev);
  }

  ghost predicate Carries(ev: Event, id: nat) {
    ev.Exchange? && ev.verified && id in Ids(ev.keys)
  }

  lemma {:induction false} AbsentStaysAbsent(p: PeerState, events: seq<Event>, id: nat)
    requires id !in Ids(p.pool)
    requires forall ev :: ev in events ==> !Carries(ev, id)
    ensures id !in Ids(Run(p, events).pool)
  {
    if events != [] {
      var before, ev := events[..|events| - 1], events[|events| - 1];
      assert ev in events;
      AbsentStaysAbsent(p, before, id);
      var q := Run(p, before);
      if ev.Exchange? {
        UniqueSound(q.pool + ev.keys);
        assert Ids(q.pool + ev.keys) == Ids(q.pool) + Ids(ev.keys);
      } else if Used(q, ev).Some? {
        assert forall k :: k in q.pool[1..] ==> k in q.pool;
      }
    }
  }

  /** Two sends to a peer use the same identifier only if an exchange carrying it came in between. */
  lemma ReuseNeedsExchange(before: seq<Event>, first: Event, between: seq<Event>, second: Event)
    requires Used(Run(EMPTY, before), first).Some?
    requires
      var p := Run(Step(Run(EMPTY, before), first), between);
      Used(p, second).Some? && Used(p, second).value.id == Used(Run(EMPTY, before), first).value.id
    ensures exists ev :: ev in between && Carries(ev, Used(Run(EMPTY, before), first).value.id)
  {
    var p0 := Run(EMPTY, before);
    var id := Used(p0, first).value.id;
    RunDistinct(before, first);
    StepDistinct(p0, first);
    var p1 := Step(p0, first);
    var p2 := Run(p1, between);
    assert Used(p2, second).value == p2.pool[0] && p2.pool[0] in p2.pool;
    if forall ev :: ev in between ==> !Carries(ev, id) {
      AbsentStaysAbsent(p1, between, id);
    }
  }

  // ----- The manager object -----

  class ForwardSecurityManager {
    var peerPreKeys: map<Peer, seq<PreKey>>
    var preKeyConsumed: map<Peer, seq<int>>

    function PeerView(peer: Peer): PeerState
      reads this
    {
      PeerState(if peer in peerPreKeys then peerPreKeys[peer] else [],
                if peer in preKeyConsumed then preKeyConsumed[peer] else [])
    }

    constructor ()
      ensures forall peer :: PeerView(peer) == EMPTY
    {
      peerPreKeys, preKeyConsumed := map[], map[];
    }

    method ProcessPreKeyExchange(peer: Peer, keys: seq<PreKey>, verified: bool) returns (r: Result<(), ExchangeError>)
      modifies this
      ensures r == if keys == [] then Err(EmptyExchange) else if !verified then Err(BadSignature) else Ok(())
      ensures PeerView(peer) == Step(old(PeerView(peer)), Exchange(keys, verified))
      ensures forall other :: other != peer ==> PeerView(other) == old(PeerView(other))
    {
      if |keys| == 0 { return Err(EmptyExchange); }
      if !verified { return Err(BadSignature); }
      var merged := MergeUniquePreKeys(PeerView(peer).pool, keys);
      peerPreKeys := peerPreKeys[peer := merged];
      r := Ok(());
    }

    /** The checked and locked part of creating a forward-secure message: takes the first pre-key. */
    method ConsumeForSend(peer: Peer, now: int, size: nat) returns (r: Result<PreKey, SendError>)
      modifies this
      ensures r.Err? <==> old(SendRefusal(PeerView(peer), now, size)).Some?
      ensures r.Err? ==> r.error == old(SendRefusal(PeerView(peer), now, size)).value
      ensures r.Ok? ==> Some(r.value) == old(Used(PeerView(peer), Send(now, size)))
      ensures PeerView(peer) == Step(old(PeerView(peer)), Send(now, size))
      ensures forall other :: other != peer ==> PeerView(other) == old(PeerView(other))
    {
      if size == 0 { return Err(EmptyMessage); }
      if size > MAX_MESSAGE_SIZE { return Err(MessageTooLong); }
      if peer !in peerPreKeys || |peerPreKeys[peer]| == 0 { return Err(NoPreKeys); }
      var keys := peerPreKeys[peer];
      if |keys| < PRE_KEY_MINIMUM { return Err(InsufficientPreKeys); }
      var times := PruneBefore(PeerView(peer).consumed, now - PRE_KEY_RATE_WINDOW);
      if |times| >= PRE_KEY_RATE_LIMIT { return Err(RateLimited); }
      preKeyConsumed := preKeyConsumed[peer := times + [now]];
      peerPreKeys := peerPreKeys[peer := keys[1..]];
      r := Ok(keys[0]);
    }

    static method PruneBefore(times: seq<int>, cutoff: int) returns (kept: seq<int>)
      ensures kept == Pruned(times, cutoff)
    {
      var start := 0;
      assert times[0..] == times;
      while start < |times| && times[start] < cutoff
        invariant 0 <= start <= |times|
        invariant Pruned(times[start..], cutoff) == Pruned(times, cutoff)
      {
        assert times[start..][1..] == times[start + 1..];
        start := start + 1;
      }
      kept := times[start..];
    }
  }
}
