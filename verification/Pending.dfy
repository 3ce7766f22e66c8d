/** Pending deliveries: messages queued for a friend until pre-keys arrive, sent by concurrent senders. */
module Pending {
  import opened Common

  type Friend = nat
  type Sender = nat
  type Channel = nat

  /** A queued message; `n` is its position in the order of queueing. */
  datatype Item = Item(n: nat, friend: Friend, message: seq<Byte>, messageType: nat)

  // ----- The manager's shared state, and its critical sections -----

  /** What the manager's mutex protects. Channels are numbered; closed ones are in `closed`. */
  datatype Shared = Shared(
    pending: map<Friend, seq<Item>>,
    ready: map<Friend, Channel>,
    closed: set<Channel>,
    stopChan: Channel,
    running: bool,
    nextChannel: nat)

  function PendingFor(pending: map<Friend, seq<Item>>, f: Friend): seq<Item> {
    if f in pending then pending[f] else []
  }

  function ChannelFor(ready: map<Friend, Channel>, f: Friend): Option<Channel> {
    if f in ready then Some(ready[f]) else None
  }

  function Enqueue(h: Shared, x: Item): Shared {
    h.(pending := h.pending[x.friend := PendingFor(h.pending, x.friend) + [x]])
  }

  function Prepend(h: Shared, f: Friend, batch: seq<Item>): Shared {
    h.(pending := h.pending[f := batch + PendingFor(h.pending, f)])
  }

  function Taken(h: Shared, f: Friend): Shared {
    h.(pending := h.pending - {f})
  }

  function Forgotten(h: Shared, f: Friend): Shared {
    h.(pending := h.pending - {f}, ready := h.ready - {f})
  }

  /** The re-check after a timeout: proceed if the channel was closed meanwhile, re-queue otherwise. */
  function TimedOut(h: Shared, f: Friend, batch: seq<Item>, ch: Channel): Shared {
    var h' := h.(ready := h.ready - {f});
    if ch in h.closed then h' else Prepend(h', f, batch)
  }

  function WithChannel(h: Shared, f: Friend): Shared {
    if f in h.ready then h else h.(ready := h.ready[f := h.nextChannel], nextChannel := h.nextChannel + 1)
  }

  function Signalled(h: Shared, f: Friend): Shared {
    if f in h.ready then h.(ready := h.ready - {f}, closed := h.closed + {h.ready[f]}) else h
  }

  function Stopped(h: Shared): Shared {
    if h.running then h.(running := false, closed := h.closed + {h.stopChan}) else h
  }

  function Started(h: Shared): Shared {
    if h.running then h else h.(running := true, stopChan := h.nextChannel, nextChannel := h.nextChannel + 1)
  }

  // ----- The protocol -----

  /** Where a sender that holds a batch stands between its critical sections. */
  datatype Phase =
    | Holding(friend: Friend, batch: seq<Item>, ch: Option<Channel>)
    | Waiting(friend: Friend, batch: seq<Item>, wait: Channel, stop: Channel)
    | Sending(friend: Friend, rest: seq<Item>, failed: seq<Item>)
  {
    /** The messages it holds, in the order it would re-queue them. */
    function Held(): seq<Item> {
      match this
      case Holding(_, b, _) => b
      case Waiting(_, b, _, _) => b
      case Sending(_, r, x) => x + r
    }
  }

  /** `queued`, `sent` and `discarded` record what happened to every message. */
  datatype State = State(
    shared: Shared,
    senders: map<Sender, Phase>,
    queued: seq<Item>,
    sent: seq<Item>,
    discarded: seq<Item>)

  datatype Outcome = PreKeysReady | TimerFired | StopSeen

  datatype Action =
    | Queue(friend: Friend, message: seq<Byte>, messageType: nat)
    | Take(sender: Sender, friend: Friend)
    | Check(sender: Sender, canSend: bool)
    | Wake(sender: Sender, outcome: Outcome)
    | SendOne(sender: Sender, ok: bool)
    | Finish(sender: Sender)
    | Online(friend: Friend)
    | Signal(friend: Friend)
    | Clear(friend: Friend)
    | Stop
    | Start

  predicate Enabled(s: State, a: Action) {
    match a
    case Take(t, _) => t !in s.senders
    case Check(t, _) => t in s.senders && s.senders[t].Holding?
    case Wake(t, o) =>
      && t in s.senders && s.senders[t].Waiting?
      && (o == PreKeysReady ==> s.senders[t].wait in s.shared.closed)
      && (o == StopSeen ==> s.senders[t].stop in s.shared.closed)
    case SendOne(t, _) => t in s.senders && s.senders[t].Sending? && s.senders[t].rest != []
    case Finish(t) => t in s.senders && s.senders[t].Sending? && s.senders[t].rest == []
    case _ => true
  }

  /** Readiness of the pre-keys and the fate of each send are the environment's choice. */
  function Next(s: State, a: Action): State
    requires Enabled(s, a)
  {
    var h := s.shared;
    match a
    case Queue(f, message, kind) =>
      var x := Item(|s.queued|, f, message, kind);
      s.(shared := Enqueue(h, x), queued := s.queued + [x])
    case Take(t, f) =>
      var batch := PendingFor(h.pending, f);
      var s' := s.(shared := Taken(h, f));
      if batch == [] then s' else s'.(senders := s.senders[t := Holding(f, batch, ChannelFor(h.ready, f))])
    case Check(t, canSend) =>
      var Holding(f, batch, ch) := s.senders[t];
      if canSend then s.(senders := s.senders[t := Sending(f, batch, [])])
      else if ch.None? then s.(shared := Prepend(h, f, batch), senders := s.senders - {t})
      else s.(senders := s.senders[t := Waiting(f, batch, ch.value, h.stopChan)])
    case Wake(t, o) =>
      var Waiting(f, batch, ch, _) := s.senders[t];
      var sending := s.senders[t := Sending(f, batch, [])];
      (match o
       case PreKeysReady => s.(senders := sending)
       case TimerFired =>
         s.(shared := TimedOut(h, f, batch, ch), senders := if ch in h.closed then sending else s.senders - {t})
       case StopSeen => s.(senders := s.senders - {t}, discarded := s.discarded + batch))
    case SendOne(t, ok) =>
      var Sending(f, rest, failed) := s.senders[t];
      if ok then s.(senders := s.senders[t := Sending(f, rest[1..], failed)], sent := s.sent + [rest[0]])
      else s.(senders := s.senders[t := Sending(f, rest[1..], failed + [rest[0]])])
    case Finish(t) =>
      var Sending(f, _, failed) := s.senders[t];
      s.(shared := if failed == [] then h else Prepend(h, f, failed), senders := s.senders - {t})
    case Online(f) => s.(shared := WithChannel(h, f))
    case Signal(f) => s.(shared := Signalled(h, f))
    case Clear(f) => s.(shared := Forgotten(h, f), discarded := s.discarded + PendingFor(h.pending, f))
    case Stop => s.(shared := Stopped(h))
    case Start => s.(shared := Started(h))
  }

  const INITIAL := State(Shared(map[], map[], {}, 0, false, 1), map[], [], [], [])

  ghost predicate Runs(s: State, actions: seq<Action>)
    decreases |actions|
  {
    actions == [] || (Enabled(s, actions[0]) && Runs(Next(s, actions[0]), actions[1..]))
  }

  ghost function After(s: State, actions: seq<Action>): State
    requires Runs(s, actions)
    decreases |actions|
  {
    if actions == [] then s else After(Next(s, actions[0]), actions[1..])
  }

  // ----- Every message is in exactly one place -----

  datatype Place = InPending | HeldBy(sender: Sender) | InSent | InDiscarded

  /** Message `x` is at place `p`. */
  ghost predicate At(s: State, x: Item, p: Place) {
    match p
    case InPending => x in PendingFor(s.shared.pending, x.friend)
    case HeldBy(t) => t in s.senders && x in s.senders[t].Held()
    case InSent => x in s.sent
    case InDiscarded => x in s.discarded
  }

  ghost predicate InOnePlace(s: State, x: Item) {
    exists p :: At(s, x, p) && forall p' :: At(s, x, p') ==> p' == p
  }

  ghost predicate Distinct(q: seq<Item>) {
    forall i, j | 0 <= i < j < |q| :: q[i] != q[j]
  }

  /** A list of queued messages, none twice. */
  ghost predicate ListSound(queued: seq<Item>, q: seq<Item>) {
    Distinct(q) && forall x :: x in q ==> x in queued
  }

  ghost predicate AllFor(q: seq<Item>, f: Friend) {
    forall x :: x in q ==> x.friend == f
  }

  /** Messages are numbered as queued, and every list holds only queued messages, none twice, the
      per-friend lists only that friend's. */
  ghost predicate ListsSound(s: State) {
    && Numbered(s.queued)
    && PendingSound(s.queued, s.shared.pending)
    && HeldSound(s.queued, s.senders)
    && ListSound(s.queued, s.sent) && ListSound(s.queued, s.discarded)
  }

  ghost predicate Numbered(queued: seq<Item>) {
    forall i | 0 <= i < |queued| :: queued[i].n == i
  }

  ghost predicate PendingSound(queued: seq<Item>, pending: map<Friend, seq<Item>>) {
    forall f :: f in pending ==> ListSound(queued, pending[f]) && AllFor(pending[f], f)
  }

  ghost predicate HeldSound(queued: seq<Item>, senders: map<Sender, Phase>) {
    forall t :: t in senders ==> ListSound(queued, senders[t].Held()) && AllFor(senders[t].Held(), senders[t].friend)
  }

  lemma PendingUpdate(queued: seq<Item>, pending: map<Friend, seq<Item>>, f: Friend, l: seq<Item>)
    requires PendingSound(queued, pending) && ListSound(queued, l) && AllFor(l, f)
    ensures PendingSound(queued, pending[f := l]) && PendingSound(queued, pending - {f})
    ensures ListSound(queued, PendingFor(pending, f)) && AllFor(PendingFor(pending, f), f)
  {
    hide AllFor;
    assert ListSound(queued, []) && AllFor([], f) by { EmptySound(queued, f); }
    hide ListSound;
  }

  lemma EmptySound(queued: seq<Item>, f: Friend)
    ensures ListSound(queued, []) && AllFor([], f)
  {
  }

  lemma HeldUpdate(queued: seq<Item>, senders: map<Sender, Phase>, t: Sender, ph: Phase)
    requires HeldSound(queued, senders) && ListSound(queued, ph.Held()) && AllFor(ph.Held(), ph.friend)
    ensures HeldSound(queued, senders[t := ph]) && HeldSound(queued, senders - {t})
  {
    hide ListSound, AllFor;
  }

  /** Each queued message is in exactly one place, once: pending, held by one sender, sent or discarded. */
  ghost predicate Conserved(s: State) {
    ListsSound(s) && forall x :: x in s.queued ==> InOnePlace(s, x)
  }

  /** Where an action takes a message that was at place `p`. */
  function Moved(s: State, a: Action, x: Item, p: Place): Place
    requires Enabled(s, a)
  {
    match a
    case Take(t, f) => if p == InPending && x.friend == f then HeldBy(t) else p
    case Check(t, canSend) =>
      if p == HeldBy(t) && !canSend && s.senders[t].ch.None? then InPending else p
    case Wake(t, TimerFired) =>
      if p == HeldBy(t) && s.senders[t].wait !in s.shared.closed then InPending else p
    case Wake(t, StopSeen) => if p == HeldBy(t) then InDiscarded else p
    case SendOne(t, true) => if p == HeldBy(t) && x == s.senders[t].rest[0] then InSent else p
    case Finish(t) => if p == HeldBy(t) then InPending else p
    case Clear(f) => if p == InPending && x.friend == f then InDiscarded else p
    case _ => p
  }

  lemma UniquePlace(s: State, x: Item, p: Place, q: Place)
    requires Conserved(s) && x in s.queued && At(s, x, p)
    ensures At(s, x, q) <==> q == p
  {
    assert InOnePlace(s, x);
  }

  /** One action takes a queued message from its place to one place and nowhere else. */
  lemma StepMoves(s: State, a: Action, x: Item, p: Place, q: Place)
    requires Conserved(s) && Enabled(s, a) && x in s.queued && At(s, x, p)
    ensures At(Next(s, a), x, q) <==> q == Moved(s, a, x, p)
  {
    hide *;
    match a
    case Queue(f, message, kind) => QueueMoves(s, f, message, kind, x, p, q);
    case Take(t, f) => TakeMoves(s, t, f, x, p, q);
    case Check(t, canSend) => CheckMoves(s, t, canSend, x, p, q);
    case Wake(t, o) => WakeMoves(s, t, o, x, p, q);
    case SendOne(t, ok) => SendMoves(s, t, ok, x, p, q);
    case Finish(t) => FinishMoves(s, t, x, p, q);
    case Online(_) => NothingMoves(s, a, x, p, q);
    case Signal(_) => NothingMoves(s, a, x, p, q);
    case Clear(f) => ClearMoves(s, f, x, p, q);
    case Stop => NothingMoves(s, a, x, p, q);
    case Start => NothingMoves(s, a, x, p, q);
  }

  lemma NothingMoves(s: State, a: Action, x: Item, p: Place, q: Place)
    requires Conserved(s) && Enabled(s, a) && x in s.queued && At(s, x, p)
    requires a.Online? || a.Signal? || a.Stop? || a.Start?
    ensures At(Next(s, a), x, q) <==> q == Moved(s, a, x, p)
  {
    UniquePlace(s, x, p, q);
    hide Conserved;
    assert Next(s, a).shared.pending == s.shared.pending;
  }

  lemma CheckMoves(s: State, t: Sender, canSend: bool, x: Item, p: Place, q: Place)
    requires Conserved(s) && Enabled(s, Check(t, canSend)) && x in s.queued && At(s, x, p)
    ensures At(Next(s, Check(t, canSend)), x, q) <==> q == Moved(s, Check(t, canSend), x, p)
  {
    UniquePlace(s, x, p, q);
    UniquePlace(s, x, p, InPending);
    UniquePlace(s, x, p, HeldBy(t));
    HeldIsSound(s, t);
    hide Conserved, ListSound;
    var batch := s.senders[t].batch;
    assert [] + batch == batch;
  }

  lemma WakeMoves(s: State, t: Sender, o: Outcome, x: Item, p: Place, q: Place)
    requires Conserved(s) && Enabled(s, Wake(t, o)) && x in s.queued && At(s, x, p)
    ensures At(Next(s, Wake(t, o)), x, q) <==> q == Moved(s, Wake(t, o), x, p)
  {
    hide *;
    match o
    case PreKeysReady => ReadyMoves(s, t, x, p, q);
    case TimerFired => TimerMoves(s, t, x, p, q);
    case StopSeen => StopMoves(s, t, x, p, q);
  }

  lemma ReadyMoves(s: State, t: Sender, x: Item, p: Place, q: Place)
    requires Conserved(s) && Enabled(s, Wake(t, PreKeysReady)) && x in s.queued && At(s, x, p)
    ensures At(Next(s, Wake(t, PreKeysReady)), x, q) <==> q == Moved(s, Wake(t, PreKeysReady), x, p)
  {
    UniquePlace(s, x, p, q);
    hide Conserved;
    assert [] + s.senders[t].batch == s.senders[t].batch;
  }

  lemma TimerMoves(s: State, t: Sender, x: Item, p: Place, q: Place)
    requires Conserved(s) && Enabled(s, Wake(t, TimerFired)) && x in s.queued && At(s, x, p)
    ensures At(Next(s, Wake(t, TimerFired)), x, q) <==> q == Moved(s, Wake(t, TimerFired), x, p)
  {
    UniquePlace(s, x, p, q);
    UniquePlace(s, x, p, InPending);
    UniquePlace(s, x, p, HeldBy(t));
    HeldIsSound(s, t);
    hide Conserved, ListSound;
    assert [] + s.senders[t].batch == s.senders[t].batch;
  }

  lemma StopMoves(s: State, t: Sender, x: Item, p: Place, q: Place)
    requires Conserved(s) && Enabled(s, Wake(t, StopSeen)) && x in s.queued && At(s, x, p)
    ensures At(Next(s, Wake(t, StopSeen)), x, q) <==> q == Moved(s, Wake(t, StopSeen), x, p)
  {
    UniquePlace(s, x, p, q);
    UniquePlace(s, x, p, InDiscarded);
    UniquePlace(s, x, p, HeldBy(t));
    hide Conserved;
  }

  lemma FinishMoves(s: State, t: Sender, x: Item, p: Place, q: Place)
    requires Conserved(s) && Enabled(s, Finish(t)) && x in s.queued && At(s, x, p)
    ensures At(Next(s, Finish(t)), x, q) <==> q == Moved(s, Finish(t), x, p)
  {
    UniquePlace(s, x, p, q);
    UniquePlace(s, x, p, InPending);
    UniquePlace(s, x, p, HeldBy(t));
    HeldIsSound(s, t);
    hide Conserved, ListSound;
    assert s.senders[t].Held() == s.senders[t].failed;
  }

  lemma ClearMoves(s: State, f: Friend, x: Item, p: Place, q: Place)
    requires Conserved(s) && x in s.queued && At(s, x, p)
    ensures At(Next(s, Clear(f)), x, q) <==> q == Moved(s, Clear(f), x, p)
  {
    UniquePlace(s, x, p, q);
    UniquePlace(s, x, p, InPending);
    UniquePlace(s, x, p, InDiscarded);
    PendingIsFor(s, f);
    hide Conserved;
  }

  lemma PendingIsFor(s: State, f: Friend)
    requires ListsSound(s)
    ensures AllFor(PendingFor(s.shared.pending, f), f)
  {
  }

  lemma QueueMoves(s: State, f: Friend, message: seq<Byte>, kind: nat, x: Item, p: Place, q: Place)
    requires Conserved(s) && x in s.queued && At(s, x, p)
    ensures At(Next(s, Queue(f, message, kind)), x, q) <==> q == Moved(s, Queue(f, message, kind), x, p)
  {
    UniquePlace(s, x, p, q);
    var i :| 0 <= i < |s.queued| && s.queued[i] == x;
    var l, y := PendingFor(s.shared.pending, f), Item(|s.queued|, f, message, kind);
    assert x in l + [y] <==> x in l;
    hide Conserved;
  }

  lemma TakeMoves(s: State, t: Sender, f: Friend, x: Item, p: Place, q: Place)
    requires Conserved(s) && Enabled(s, Take(t, f)) && x in s.queued && At(s, x, p)
    ensures At(Next(s, Take(t, f)), x, q) <==> q == Moved(s, Take(t, f), x, p)
  {
    UniquePlace(s, x, p, q);
    UniquePlace(s, x, p, InPending);
    PendingIsFor(s, f);
    hide Conserved;
  }

  lemma SendMoves(s: State, t: Sender, ok: bool, x: Item, p: Place, q: Place)
    requires Conserved(s) && Enabled(s, SendOne(t, ok)) && x in s.queued && At(s, x, p)
    ensures At(Next(s, SendOne(t, ok)), x, q) <==> q == Moved(s, SendOne(t, ok), x, p)
  {
    UniquePlace(s, x, p, q);
    UniquePlace(s, x, p, HeldBy(t));
    UniquePlace(s, x, p, InSent);
    HeldIsSound(s, t);
    DropHead(s.senders[t].failed, s.senders[t].rest);
    hide Conserved, Distinct, ListSound;
  }

  /** Taking the first unsent message out of a batch. */
  lemma DropHead(failed: seq<Item>, rest: seq<Item>)
    requires Distinct(failed + rest) && rest != []
    ensures failed + [rest[0]] + rest[1..] == failed + rest
    ensures Distinct(failed + rest[1..]) && rest[0] in failed + rest
    ensures forall y :: y in failed + rest[1..] <==> y in failed + rest && y != rest[0]
  {
    var all, left := failed + rest, failed + rest[1..];
    assert rest[0] == all[|failed|];
    forall i, j | 0 <= i < j < |left| ensures left[i] != left[j] {
      assert left[i] == all[if i < |failed| then i else i + 1];
      assert left[j] == all[if j < |failed| then j else j + 1];
    }
    forall y ensures y in left <==> y in all && y != rest[0] {
      if y in left {
        var i :| 0 <= i < |left| && left[i] == y;
        assert y == all[if i < |failed| then i else i + 1] && rest[0] == all[|failed|];
      }
      if y in all && y != rest[0] {
        var i :| 0 <= i < |all| && all[i] == y;
        assert y == left[if i < |failed| then i else i - 1];
      }
    }
  }

  lemma JoinSound(queued: seq<Item>, a: seq<Item>, b: seq<Item>)
    requires ListSound(queued, a) && ListSound(queued, b) && (forall x :: x in a ==> x !in b)
    ensures ListSound(queued, a + b)
  {
    forall i, j | 0 <= i < j < |a + b| ensures (a + b)[i] != (a + b)[j] {
      if i < |a| <= j { assert a[i] in a && b[j - |a|] in b; }
    }
  }

  /** A sender's batch shares nothing with any other list. */
  lemma HeldApart(s: State, t: Sender)
    requires Conserved(s) && t in s.senders
    ensures forall x :: x in s.senders[t].Held() ==>
      x !in PendingFor(s.shared.pending, s.senders[t].friend) && x !in s.sent && x !in s.discarded
  {
    forall x | x in s.senders[t].Held()
      ensures x !in PendingFor(s.shared.pending, s.senders[t].friend) && x !in s.sent && x !in s.discarded
    {
      assert At(s, x, HeldBy(t));
      assert InOnePlace(s, x);
      assert x.friend == s.senders[t].friend;
      assert !At(s, x, InPending) && !At(s, x, InSent) && !At(s, x, InDiscarded);
    }
  }

  lemma PendingApart(s: State, f: Friend)
    requires Conserved(s)
    ensures forall x :: x in PendingFor(s.shared.pending, f) ==> x !in s.discarded
  {
    forall x | x in PendingFor(s.shared.pending, f) ensures x !in s.discarded {
      assert At(s, x, InPending);
      assert InOnePlace(s, x);
      assert !At(s, x, InDiscarded);
    }
  }

  /** Re-queueing part of what a sender holds. */
  lemma RequeueSound(s: State, t: Sender, batch: seq<Item>)
    requires Conserved(s) && t in s.senders && ListSound(s.queued, batch)
    requires forall x :: x in batch ==> x in s.senders[t].Held()
    ensures ListSound(s.queued, batch + PendingFor(s.shared.pending, s.senders[t].friend))
    ensures AllFor(batch + PendingFor(s.shared.pending, s.senders[t].friend), s.senders[t].friend)
  {
    HeldApart(s, t);
    JoinSound(s.queued, batch, PendingFor(s.shared.pending, s.senders[t].friend));
  }

  /** The lists of sender `t`, and that its batch may be put back or kept for sending. */
  lemma BatchSound(s: State, t: Sender, batch: seq<Item>)
    requires Conserved(s) && t in s.senders && ListSound(s.queued, batch)
    requires forall x :: x in batch ==> x in s.senders[t].Held()
    ensures AllFor(batch, s.senders[t].friend)
    ensures
      var f := s.senders[t].friend;
      PendingSound(s.queued, s.shared.pending[f := batch + PendingFor(s.shared.pending, f)])
    ensures HeldSound(s.queued, s.senders - {t})
  {
    var f := s.senders[t].friend;
    PendingUpdate(s.queued, s.shared.pending, f, []);
    RequeueSound(s, t, batch);
    PendingUpdate(s.queued, s.shared.pending, f, batch + PendingFor(s.shared.pending, f));
    HeldUpdate(s.queued, s.senders, t, s.senders[t]);
  }

  lemma StepLists(s: State, a: Action)
    requires Conserved(s) && Enabled(s, a)
    ensures ListsSound(Next(s, a))
  {
    hide PendingSound, HeldSound, ListSound, AllFor, Numbered, InOnePlace;
    match a
    case Queue(f, message, kind) => QueueLists(s, f, message, kind);
    case Take(t, f) =>
      EmptySound(s.queued, f);
      PendingUpdate(s.queued, s.shared.pending, f, []);
      HeldUpdate(s.queued, s.senders, t, Holding(f, PendingFor(s.shared.pending, f), ChannelFor(s.shared.ready, f)));
    case Check(t, _) => BatchLists(s, t);
    case Wake(t, _) => BatchLists(s, t);
    case SendOne(t, ok) => SendLists(s, t, ok);
    case Finish(t) =>
      HeldIsSound(s, t);
      assert s.senders[t].Held() == s.senders[t].failed;
      BatchSound(s, t, s.senders[t].failed);
    case Online(_) =>
    case Signal(_) =>
    case Clear(f) => ClearLists(s, f);
    case Stop =>
    case Start =>
  }

  lemma HeldIsSound(s: State, t: Sender)
    requires ListsSound(s) && t in s.senders
    ensures ListSound(s.queued, s.senders[t].Held()) && AllFor(s.senders[t].Held(), s.senders[t].friend)
  {
  }

  /** Everything a sender with an untouched batch can do with it keeps the lists sound. */
  lemma BatchLists(s: State, t: Sender)
    requires Conserved(s) && t in s.senders && (s.senders[t].Holding? || s.senders[t].Waiting?)
    ensures
      var f, b := s.senders[t].friend, s.senders[t].batch;
      && PendingSound(s.queued, s.shared.pending[f := b + PendingFor(s.shared.pending, f)])
      && HeldSound(s.queued, s.senders - {t})
      && HeldSound(s.queued, s.senders[t := Sending(f, b, [])])
      && ListSound(s.queued, s.discarded + b)
      && (forall c, stop :: HeldSound(s.queued, s.senders[t := Waiting(f, b, c, stop)]))
  {
    hide PendingSound, ListSound, AllFor, InOnePlace;
    var f, b := s.senders[t].friend, s.senders[t].batch;
    HeldIsSound(s, t);
    BatchSound(s, t, b);
    assert [] + b == b;
    HeldUpdate(s.queued, s.senders, t, Sending(f, b, []));
    forall c, stop ensures HeldSound(s.queued, s.senders[t := Waiting(f, b, c, stop)]) {
      HeldUpdate(s.queued, s.senders, t, Waiting(f, b, c, stop));
    }
    HeldApart(s, t);
    JoinSound(s.queued, s.discarded, b);
  }

  lemma QueueLists(s: State, f: Friend, message: seq<Byte>, kind: nat)
    requires Conserved(s)
    ensures ListsSound(Next(s, Queue(f, message, kind)))
  {
    var y := Item(|s.queued|, f, message, kind);
    var queued := s.queued + [y];
    assert y !in s.queued;
    assert forall q :: ListSound(s.queued, q) ==> ListSound(queued, q);
    assert PendingSound(queued, s.shared.pending) && HeldSound(queued, s.senders);
    JoinSound(queued, PendingFor(s.shared.pending, f), [y]);
    PendingUpdate(queued, s.shared.pending, f, PendingFor(s.shared.pending, f) + [y]);
  }

  lemma SendLists(s: State, t: Sender, ok: bool)
    requires Conserved(s) && Enabled(s, SendOne(t, ok))
    ensures ListsSound(Next(s, SendOne(t, ok)))
  {
    var Sending(f, rest, failed) := s.senders[t];
    HeldIsSound(s, t);
    DropHead(failed, rest);
    HeldApart(s, t);
    JoinSound(s.queued, s.sent, [rest[0]]);
    var ok', failed' := Sending(f, rest[1..], failed), Sending(f, rest[1..], failed + [rest[0]]);
    assert ListSound(s.queued, ok'.Held()) && AllFor(ok'.Held(), f);
    assert failed'.Held() == s.senders[t].Held();
    HeldUpdate(s.queued, s.senders, t, ok');
    HeldUpdate(s.queued, s.senders, t, failed');
    hide HeldSound, PendingSound, ListSound, AllFor, Numbered;
  }

  lemma ClearLists(s: State, f: Friend)
    requires Conserved(s)
    ensures ListsSound(Next(s, Clear(f)))
  {
    EmptySound(s.queued, f);
    PendingUpdate(s.queued, s.shared.pending, f, []);
    PendingApart(s, f);
    JoinSound(s.queued, s.discarded, PendingFor(s.shared.pending, f));
    hide PendingSound, ListSound, AllFor;
  }

  lemma StepConserves(s: State, a: Action)
    requires Conserved(s) && Enabled(s, a)
    ensures Conserved(Next(s, a))
  {
    StepLists(s, a);
    var s' := Next(s, a);
    forall x | x in s'.queued ensures InOnePlace(s', x) {
      if x in s.queued {
        assert InOnePlace(s, x);
        var p :| At(s, x, p);
        forall q ensures At(s', x, q) <==> q == Moved(s, a, x, p) { StepMoves(s, a, x, p, q); }
        assert At(s', x, Moved(s, a, x, p));
      } else {
        NewItemPlace(s, a, x);
      }
    }
  }

  lemma NewItemPlace(s: State, a: Action, x: Item)
    requires ListsSound(s) && Enabled(s, a) && x in Next(s, a).queued && x !in s.queued
    ensures InOnePlace(Next(s, a), x)
  {
    var s' := Next(s, a);
    assert a.Queue?;
    assert s'.senders == s.senders && s'.sent == s.sent && s'.discarded == s.discarded;
    assert At(s', x, InPending);
    forall p | At(s', x, p) ensures p == InPending {
    }
  }

  /** In every interleaving of queueing, takes, waits, timeouts, sends, clears and stops, each queued
      message stays in exactly one place. */
  lemma {:induction false} RunConserves(s: State, actions: seq<Action>)
    requires Conserved(s) && Runs(s, actions)
    ensures Conserved(After(s, actions))
    decreases |actions|
  {
    if actions != [] {
      hide Conserved;
      StepConserves(s, actions[0]);
      RunConserves(Next(s, actions[0]), actions[1..]);
    }
  }

  lemma InitialConserved()
    ensures Conserved(INITIAL)
  {
  }

  /** Messages are discarded only by clearing a friend or by a stop seen while waiting, and the record of
      what was queued, sent and discarded only grows. */
  lemma OnlyClearOrStopDiscards(s: State, a: Action)
    requires Enabled(s, a)
    ensures
      var s' := Next(s, a);
      && s.queued <= s'.queued && s.sent <= s'.sent && s.discarded <= s'.discarded
      && (s'.discarded != s.discarded ==> a.Clear? || (a.Wake? && a.outcome == StopSeen))
      && (s'.sent != s.sent ==> a.SendOne? && a.ok)
  {
  }

  // ----- No channel is closed twice -----

  /** Registered channels are distinct, allocated and open; so is the stop channel while running. */
  ghost predicate ChannelsSound(h: Shared) {
    && (forall f :: f in h.ready ==> h.ready[f] < h.nextChannel && h.ready[f] !in h.closed && h.ready[f] != h.stopChan)
    && (forall f, g :: f in h.ready && g in h.ready && f != g ==> h.ready[f] != h.ready[g])
    && (forall c :: c in h.closed ==> c < h.nextChannel)
    && h.stopChan < h.nextChannel
    && (h.running ==> h.stopChan !in h.closed)
  }

  lemma StepChannels(s: State, a: Action)
    requires ChannelsSound(s.shared) && Enabled(s, a)
    ensures ChannelsSound(Next(s, a).shared)
  {
    hide ChannelsSound;
    var h := s.shared;
    match a
    case Online(f) => ChannelMade(h, f);
    case Signal(f) => ChannelForgotten(h, f);
    case Clear(f) =>
      ChannelForgotten(h, f);
      PendingApartFromChannels(h.(ready := h.ready - {f}), Next(s, a).shared);
    case Wake(t, TimerFired) =>
      ChannelForgotten(h, s.senders[t].friend);
      PendingApartFromChannels(h.(ready := h.ready - {s.senders[t].friend}), Next(s, a).shared);
    case Stop => StopChannel(h);
    case Start => StopChannel(h);
    case _ => PendingApartFromChannels(h, Next(s, a).shared);
  }

  lemma PendingApartFromChannels(h: Shared, h': Shared)
    requires ChannelsSound(h) && h' == h.(pending := h'.pending)
    ensures ChannelsSound(h')
  {
  }

  lemma ChannelMade(h: Shared, f: Friend)
    requires ChannelsSound(h)
    ensures ChannelsSound(WithChannel(h, f))
  {
  }

  lemma ChannelForgotten(h: Shared, f: Friend)
    requires ChannelsSound(h)
    ensures ChannelsSound(h.(ready := h.ready - {f})) && ChannelsSound(Signalled(h, f))
  {
  }

  lemma StopChannel(h: Shared)
    requires ChannelsSound(h)
    ensures ChannelsSound(Stopped(h)) && ChannelsSound(Started(h))
  {
  }

  /** In every run a signal or a stop closes a channel that is still open. */
  lemma {:induction false} RunClosesOnce(s: State, actions: seq<Action>)
    requires ChannelsSound(s.shared) && Runs(s, actions)
    ensures
      var h := After(s, actions).shared;
      && ChannelsSound(h)
      && (forall f :: f in h.ready ==> h.ready[f] !in h.closed)
      && (h.running ==> h.stopChan !in h.closed)
    decreases |actions|
  {
    if actions != [] {
      StepChannels(s, actions[0]);
      RunClosesOnce(Next(s, actions[0]), actions[1..]);
    }
  }

  // ----- Order -----

  ghost predicate Increasing(q: seq<Item>) {
    forall i, j | 0 <= i < j < |q| :: q[i].n < q[j].n
  }

  ghost predicate Holds(s: State, t: Sender, f: Friend) {
    t in s.senders && s.senders[t].friend == f
  }

  ghost predicate OneHolder(s: State, f: Friend) {
    forall t, u :: Holds(s, t, f) && Holds(s, u, f) ==> t == u
  }

  /** What is held for `f` followed by what is pending for `f` is in the order of queueing. */
  ghost predicate InOrder(s: State, f: Friend) {
    && OneHolder(s, f)
    && Increasing(PendingFor(s.shared.pending, f))
    && (forall t :: Holds(s, t, f) ==> Increasing(s.senders[t].Held() + PendingFor(s.shared.pending, f)))
  }

  /** The largest number a list may hold when all its messages have been queued. */
  lemma QueuedBound(s: State, f: Friend)
    requires Conserved(s)
    ensures forall x :: x in PendingFor(s.shared.pending, f) ==> x.n < |s.queued|
    ensures forall t, x :: t in s.senders && x in s.senders[t].Held() ==> x.n < |s.queued|
  {
    forall x | x in s.queued ensures x.n < |s.queued| { var i :| 0 <= i < |s.queued| && s.queued[i] == x; }
  }

  lemma IncreasingSnoc(q: seq<Item>, y: Item)
    requires Increasing(q) && forall x :: x in q ==> x.n < y.n
    ensures Increasing(q + [y])
  {
    assert forall i | 0 <= i < |q| :: q[i] in q;
  }

  lemma IncreasingParts(a: seq<Item>, b: seq<Item>)
    requires Increasing(a + b)
    ensures Increasing(a) && Increasing(b)
  {
    assert forall i | 0 <= i < |a| :: (a + b)[i] == a[i];
    assert forall i | 0 <= i < |b| :: (a + b)[|a| + i] == b[i];
  }

  lemma QueueKeepsOrder(s: State, f: Friend, message: seq<Byte>, kind: nat, g: Friend)
    requires Conserved(s) && InOrder(s, g)
    ensures InOrder(Next(s, Queue(f, message, kind)), g)
  {
    var s' := Next(s, Queue(f, message, kind));
    QueuedBound(s, g);
    if f == g {
      var y, l := Item(|s.queued|, f, message, kind), PendingFor(s.shared.pending, f);
      IncreasingSnoc(l, y);
      forall t | Holds(s', t, g) ensures Increasing(s'.senders[t].Held() + (l + [y])) {
        assert Holds(s, t, g);
        IncreasingSnoc(s.senders[t].Held() + l, y);
        assert s.senders[t].Held() + l + [y] == s.senders[t].Held() + (l + [y]);
      }
    }
    assert forall t :: Holds(s', t, g) <==> Holds(s, t, g);
  }

  /** The part of a batch that is left after one send attempt is still in order before the queue. */
  lemma SendKeepsOrder(s: State, t: Sender, ok: bool, f: Friend)
    requires InOrder(s, f) && Enabled(s, SendOne(t, ok))
    ensures InOrder(Next(s, SendOne(t, ok)), f)
  {
    hide Increasing;
    var s' := Next(s, SendOne(t, ok));
    var Sending(g, rest, failed) := s.senders[t];
    assert forall u :: Holds(s', u, f) <==> Holds(s, u, f);
    if g == f {
      assert Holds(s, t, f);
      IncreasingDropHead(failed, rest, PendingFor(s.shared.pending, f));
    }
  }

  /** Taking the first unsent message out leaves the others in order. */
  lemma IncreasingDropHead(failed: seq<Item>, rest: seq<Item>, l: seq<Item>)
    requires rest != [] && Increasing(failed + rest + l)
    ensures Increasing(failed + rest[1..] + l)
    ensures failed + [rest[0]] + rest[1..] == failed + rest
  {
    var all, left := failed + rest + l, failed + rest[1..] + l;
    assert forall i | 0 <= i < |left| :: left[i] == all[if i < |failed| then i else i + 1];
  }

  /** A step that leaves what concerns `f` as it was. */
  lemma SameOrder(s: State, s': State, f: Friend)
    requires InOrder(s, f)
    requires PendingFor(s'.shared.pending, f) == PendingFor(s.shared.pending, f)
    requires forall u :: Holds(s', u, f) ==> Holds(s, u, f) && s'.senders[u].Held() == s.senders[u].Held()
    ensures InOrder(s', f)
  {
    hide Increasing;
  }

  /** The only holder puts its batch back in front. */
  lemma RequeueKeepsOrder(s: State, s': State, t: Sender, f: Friend)
    requires InOrder(s, f) && Holds(s, t, f)
    requires s'.senders == s.senders - {t}
    requires PendingFor(s'.shared.pending, f) == s.senders[t].Held() + PendingFor(s.shared.pending, f)
    ensures InOrder(s', f)
  {
    hide Increasing;
    assert forall u :: Holds(s', u, f) ==> Holds(s, u, f) && u != t;
  }

  lemma TakeKeepsOrder(s: State, t: Sender, g: Friend, f: Friend)
    requires InOrder(s, f) && Enabled(s, Take(t, g)) && OneHolder(Next(s, Take(t, g)), f)
    ensures InOrder(Next(s, Take(t, g)), f)
  {
    var s' := Next(s, Take(t, g));
    hide Increasing;
    if g == f && PendingFor(s.shared.pending, f) != [] {
      assert Holds(s', t, f);
      assert s'.senders[t].Held() + PendingFor(s'.shared.pending, f) == PendingFor(s.shared.pending, f);
      assert Increasing(PendingFor(s'.shared.pending, f)) by { EmptyIncreasing(); }
    } else {
      SameOrder(s, s', f);
    }
  }

  lemma EmptyIncreasing()
    ensures Increasing([])
  {
  }

  lemma ClearKeepsOrder(s: State, g: Friend, f: Friend)
    requires InOrder(s, f)
    ensures InOrder(Next(s, Clear(g)), f)
  {
    var s' := Next(s, Clear(g));
    assert forall u :: Holds(s', u, f) <==> Holds(s, u, f);
    if g == f {
      forall u | Holds(s', u, f) ensures Increasing(s'.senders[u].Held() + PendingFor(s'.shared.pending, f)) {
        IncreasingParts(s.senders[u].Held(), PendingFor(s.shared.pending, f));
        assert s.senders[u].Held() + [] == s.senders[u].Held();
      }
    } else {
      SameOrder(s, s', f);
    }
  }

  lemma StepKeepsOrder(s: State, a: Action, f: Friend)
    requires Conserved(s) && InOrder(s, f) && Enabled(s, a) && OneHolder(Next(s, a), f)
    ensures InOrder(Next(s, a), f)
  {
    hide *;
    match a
    case Queue(g, message, kind) => QueueKeepsOrder(s, g, message, kind, f);
    case Take(t, g) => TakeKeepsOrder(s, t, g, f);
    case Check(t, canSend) => CheckKeepsOrder(s, t, canSend, f);
    case Wake(t, o) => WakeKeepsOrder(s, t, o, f);
    case SendOne(t, ok) => SendKeepsOrder(s, t, ok, f);
    case Finish(t) => FinishKeepsOrder(s, t, f);
    case Online(_) => NothingReordered(s, a, f);
    case Signal(_) => NothingReordered(s, a, f);
    case Clear(g) => ClearKeepsOrder(s, g, f);
    case Stop => NothingReordered(s, a, f);
    case Start => NothingReordered(s, a, f);
  }

  lemma NothingReordered(s: State, a: Action, f: Friend)
    requires InOrder(s, f) && Enabled(s, a) && (a.Online? || a.Signal? || a.Stop? || a.Start?)
    ensures InOrder(Next(s, a), f)
  {
    hide InOrder;
    SameOrder(s, Next(s, a), f);
  }

  lemma CheckKeepsOrder(s: State, t: Sender, canSend: bool, f: Friend)
    requires InOrder(s, f) && Enabled(s, Check(t, canSend))
    ensures InOrder(Next(s, Check(t, canSend)), f)
  {
    hide InOrder;
    var s' := Next(s, Check(t, canSend));
    var b := s.senders[t].batch;
    assert [] + b == b;
    if s.senders[t].friend == f && !canSend && s.senders[t].ch.None? {
      RequeueKeepsOrder(s, s', t, f);
    } else {
      SameOrder(s, s', f);
    }
  }

  lemma WakeKeepsOrder(s: State, t: Sender, o: Outcome, f: Friend)
    requires InOrder(s, f) && Enabled(s, Wake(t, o))
    ensures InOrder(Next(s, Wake(t, o)), f)
  {
    hide InOrder;
    var s' := Next(s, Wake(t, o));
    var b := s.senders[t].batch;
    assert [] + b == b;
    if s.senders[t].friend == f && o == TimerFired && s.senders[t].wait !in s.shared.closed {
      RequeueKeepsOrder(s, s', t, f);
    } else {
      SameOrder(s, s', f);
    }
  }

  lemma FinishKeepsOrder(s: State, t: Sender, f: Friend)
    requires InOrder(s, f) && Enabled(s, Finish(t))
    ensures InOrder(Next(s, Finish(t)), f)
  {
    hide InOrder;
    var s' := Next(s, Finish(t));
    assert s.senders[t].Held() == s.senders[t].failed;
    if s.senders[t].friend == f {
      RequeueKeepsOrder(s, s', t, f);
    } else {
      SameOrder(s, s', f);
    }
  }

  /** At most one sender holds a batch for `f` in every state of the run. */
  ghost predicate OneHolderThroughout(s: State, actions: seq<Action>, f: Friend)
    requires Runs(s, actions)
    decreases |actions|
  {
    OneHolder(s, f) && (actions != [] ==> OneHolderThroughout(Next(s, actions[0]), actions[1..], f))
  }

  /** While at most one sender at a time holds a batch for a friend, its pending list stays in the order
      of queueing, whatever fails, times out or is re-queued. */
  lemma {:induction false} RunKeepsOrder(s: State, actions: seq<Action>, f: Friend)
    requires Conserved(s) && InOrder(s, f) && Runs(s, actions) && OneHolderThroughout(s, actions, f)
    ensures InOrder(After(s, actions), f)
    decreases |actions|
  {
    if actions != [] {
      hide Conserved, InOrder, OneHolder;
      StepConserves(s, actions[0]);
      assert OneHolderThroughout(Next(s, actions[0]), actions[1..], f);
      assert OneHolder(Next(s, actions[0]), f);
      StepKeepsOrder(s, actions[0], f);
      RunKeepsOrder(Next(s, actions[0]), actions[1..], f);
    }
  }

  // ----- Without that condition the order can be lost -----

  lemma RunsCons(s: State, a: Action, more: seq<Action>)
    requires Enabled(s, a) && Runs(Next(s, a), more)
    ensures Runs(s, [a] + more) && After(s, [a] + more) == After(Next(s, a), more)
  {
    assert ([a] + more)[1..] == more;
  }

  lemma {:induction false} RunsAppend(s: State, a: seq<Action>, b: seq<Action>)
    requires Runs(s, a) && Runs(After(s, a), b)
    ensures Runs(s, a + b) && After(s, a + b) == After(After(s, a), b)
    decreases |a|
  {
    if a == [] {
      assert a + b == b;
    } else {
      assert (a + b)[1..] == a[1..] + b;
      RunsAppend(Next(s, a[0]), a[1..], b);
    }
  }

  /** A sender whose sends all fail puts back exactly what it held. */
  lemma {:induction false} FailAll(s: State, t: Sender) returns (actions: seq<Action>)
    requires t in s.senders && s.senders[t].Sending?
    ensures Runs(s, actions)
    ensures
      var s', f := After(s, actions), s.senders[t].friend;
      && s'.senders == s.senders - {t}
      && PendingFor(s'.shared.pending, f) == s.senders[t].Held() + PendingFor(s.shared.pending, f)
    decreases |s.senders[t].rest|
  {
    var Sending(f, rest, failed) := s.senders[t];
    if rest == [] {
      actions := [Finish(t)];
      assert s.senders[t].Held() == failed;
      assert After(s, actions) == Next(s, Finish(t)) by { assert actions[1..] == []; }
    } else {
      var a := SendOne(t, false);
      var s1 := Next(s, a);
      assert s1.senders[t].Held() == s.senders[t].Held();
      var more := FailAll(s1, t);
      actions := [a] + more;
      assert actions[1..] == more;
      assert s1.senders - {t} == s.senders - {t};
    }
  }

  /** From any phase there is a schedule in which a sender puts back exactly what it holds. */
  lemma PutBack(s: State, t: Sender) returns (actions: seq<Action>)
    requires t in s.senders
    ensures Runs(s, actions)
    ensures
      var s', f := After(s, actions), s.senders[t].friend;
      && s'.senders == s.senders - {t}
      && PendingFor(s'.shared.pending, f) == s.senders[t].Held() + PendingFor(s.shared.pending, f)
    decreases match s.senders[t] case Holding(_, _, _) => 2 case Waiting(_, _, _, _) => 1 case Sending(_, _, _) => 0
  {
    match s.senders[t]
    case Sending(_, _, _) => actions := FailAll(s, t);
    case Waiting(f, b, c, _) => actions := PutBackAfter(s, t, Wake(t, TimerFired));
    case Holding(f, b, ch) => actions := PutBackAfter(s, t, Check(t, false));
  }

  lemma PutBackAfter(s: State, t: Sender, a: Action) returns (actions: seq<Action>)
    requires t in s.senders && Enabled(s, a) && (a == Check(t, false) || a == Wake(t, TimerFired))
    ensures Runs(s, actions)
    ensures
      var s', f := After(s, actions), s.senders[t].friend;
      && s'.senders == s.senders - {t}
      && PendingFor(s'.shared.pending, f) == s.senders[t].Held() + PendingFor(s.shared.pending, f)
    decreases match s.senders[t] case Holding(_, _, _) => 2 case Waiting(_, _, _, _) => 1 case Sending(_, _, _) => 0, 0
  {
    var b := s.senders[t].batch;
    assert [] + b == b;
    var s1 := Next(s, a);
    if t in s1.senders {
      var more := PutBack(s1, t);
      actions := [a] + more;
      assert actions[1..] == more;
      assert s1.senders - {t} == s.senders - {t};
    } else {
      actions := [a];
      assert actions[1..] == [];
    }
  }

  /** As soon as two senders hold messages for one friend, some schedule re-queues them out of order:
      the condition of `RunKeepsOrder` cannot be dropped in any state. */
  lemma TwoHoldersCanDisorder(s: State, t: Sender, u: Sender, f: Friend) returns (actions: seq<Action>)
    requires t != u && Holds(s, t, f) && Holds(s, u, f)
    requires s.senders[t].Held() != [] && s.senders[u].Held() != []
    ensures Runs(s, actions) && !Increasing(PendingFor(After(s, actions).shared.pending, f))
  {
    var first, second := t, u;
    if s.senders[u].Held()[0].n < s.senders[t].Held()[0].n { first, second := u, t; }
    var a, b := s.senders[first].Held(), s.senders[second].Held();
    var one := PutBack(s, first);
    var s1 := After(s, one);
    var two := PutBack(s1, second);
    RunsAppend(s, one, two);
    actions := one + two;
    var l := PendingFor(s.shared.pending, f);
    var q := PendingFor(After(s, actions).shared.pending, f);
    assert q == b + (a + l);
    assert q[0] == b[0] && q[|b|] == a[0];
  }

  /** Such a state is reached: queue, take, queue, take. */
  lemma DisorderIsReachable(f: Friend) returns (actions: seq<Action>)
    ensures Runs(INITIAL, actions) && !Increasing(PendingFor(After(INITIAL, actions).shared.pending, f))
  {
    var a, b, c, d := Queue(f, [], 0), Take(0, f), Queue(f, [], 0), Take(1, f);
    var s1 := Next(INITIAL, a);
    var s2 := Next(s1, b);
    var s3 := Next(s2, c);
    var s4 := Next(s3, d);
    assert PendingFor(s1.shared.pending, f) == [Item(0, f, [], 0)];
    assert PendingFor(s3.shared.pending, f) == [Item(1, f, [], 0)];
    var more := TwoHoldersCanDisorder(s4, 0, 1, f);
    RunsCons(s3, d, more);
    RunsCons(s2, c, [d] + more);
    RunsCons(s1, b, [c] + ([d] + more));
    RunsCons(INITIAL, a, [b] + ([c] + ([d] + more)));
    actions := [a] + ([b] + ([c] + ([d] + more)));
  }

  /** From the initial state, for every interleaving: conservation, and no channel closed twice. */
  lemma EveryInterleaving(actions: seq<Action>)
    requires Runs(INITIAL, actions)
    ensures Conserved(After(INITIAL, actions)) && ChannelsSound(After(INITIAL, actions).shared)
  {
    InitialConserved();
    RunConserves(INITIAL, actions);
    RunClosesOnce(INITIAL, actions);
  }

  // ----- Sending a batch -----

  /** The messages whose send failed, in batch order; `outcomes` says which sends succeed. */
  ghost function Failures(batch: seq<Item>, outcomes: seq<bool>): seq<Item>
    requires |batch| == |outcomes|
  {
    if batch == [] then []
    else (if outcomes[0] then [] else [batch[0]]) + Failures(batch[1..], outcomes[1..])
  }

  ghost function Successes(batch: seq<Item>, outcomes: seq<bool>): seq<Item>
    requires |batch| == |outcomes|
  {
    if batch == [] then []
    else (if outcomes[0] then [batch[0]] else []) + Successes(batch[1..], outcomes[1..])
  }

  lemma BatchStep(batch: seq<Item>, outcomes: seq<bool>, i: nat)
    requires |batch| == |outcomes| && i < |batch|
    ensures Failures(batch[i..], outcomes[i..]) ==
      (if outcomes[i] then [] else [batch[i]]) + Failures(batch[i + 1..], outcomes[i + 1..])
    ensures |Successes(batch[i..], outcomes[i..])| ==
      (if outcomes[i] then 1 else 0) + |Successes(batch[i + 1..], outcomes[i + 1..])|
  {
    assert batch[i..][1..] == batch[i + 1..] && outcomes[i..][1..] == outcomes[i + 1..];
  }

  lemma BatchEnd(batch: seq<Item>, outcomes: seq<bool>)
    requires |batch| == |outcomes|
    ensures Failures(batch[|batch|..], outcomes[|batch|..]) == [] == Successes(batch[|batch|..], outcomes[|batch|..])
  {
  }

  ghost function BatchActions(t: Sender, outcomes: seq<bool>): seq<Action> {
    if outcomes == [] then [Finish(t)] else [SendOne(t, outcomes[0])] + BatchActions(t, outcomes[1..])
  }

  ghost function BatchSent(h: Shared, f: Friend, failed: seq<Item>): Shared {
    if failed == [] then h else Prepend(h, f, failed)
  }

  /** The sending loop is a run of the protocol's single sends: successes are recorded in order and
      failures go back in front of the queue in order. */
  lemma {:induction false} BatchIsRun(s: State, t: Sender, outcomes: seq<bool>)
    requires t in s.senders && s.senders[t].Sending? && |s.senders[t].rest| == |outcomes|
    ensures Runs(s, BatchActions(t, outcomes))
    ensures
      var Sending(f, rest, failed) := s.senders[t];
      After(s, BatchActions(t, outcomes)) ==
        s.(shared := BatchSent(s.shared, f, failed + Failures(rest, outcomes)),
           senders := s.senders - {t},
           sent := s.sent + Successes(rest, outcomes))
    decreases |outcomes|
  {
    var Sending(f, rest, failed) := s.senders[t];
    var actions := BatchActions(t, outcomes);
    if outcomes == [] {
      assert actions[1..] == [];
      assert failed + Failures(rest, outcomes) == failed && s.sent + Successes(rest, outcomes) == s.sent;
    } else {
      var s1 := Next(s, SendOne(t, outcomes[0]));
      BatchIsRun(s1, t, outcomes[1..]);
      RunsCons(s, SendOne(t, outcomes[0]), BatchActions(t, outcomes[1..]));
      assert s1.senders - {t} == s.senders - {t};
      assert s1.senders[t].failed + Failures(rest[1..], outcomes[1..]) == failed + Failures(rest, outcomes);
      assert s1.sent + Successes(rest[1..], outcomes[1..]) == s.sent + Successes(rest, outcomes);
    }
  }

  // ----- A whole send -----

  /** The action is a step of sender `t`. */
  predicate By(a: Action, t: Sender) {
    (a.Take? || a.Check? || a.Wake? || a.SendOne? || a.Finish?) && a.sender == t
  }

  /** Others cannot touch what a sender holds. */
  lemma {:induction false} OthersLeaveSender(s: State, actions: seq<Action>, t: Sender)
    requires Runs(s, actions) && t in s.senders && forall a :: a in actions ==> !By(a, t)
    ensures t in After(s, actions).senders && After(s, actions).senders[t] == s.senders[t]
    decreases |actions|
  {
    if actions != [] {
      assert actions[0] in actions;
      OthersLeaveSender(Next(s, actions[0]), actions[1..], t);
    }
  }

  /** A sender that takes the messages of `f` now has to wait for pre-keys. */
  predicate Waits(s: State, f: Friend, canSend: bool) {
    !canSend && PendingFor(s.shared.pending, f) != [] && f in s.shared.ready
  }

  /** It goes on to send: at once, or after a wait in which its channel was closed. */
  predicate Proceeds(s: State, f: Friend, canSend: bool, meanwhile: Shared, o: Outcome) {
    canSend ||
    (f in s.shared.ready && (o == PreKeysReady || (o == TimerFired && s.shared.ready[f] in meanwhile.closed)))
  }

  /** The state in which it waits. */
  function Waited(s: State, t: Sender, f: Friend): State
    requires t !in s.senders && Waits(s, f, false)
  {
    Next(Next(s, Take(t, f)), Check(t, false))
  }

  /** What others do during the wait, and how the wait ends. */
  ghost predicate Interlude(s: State, t: Sender, f: Friend, others: seq<Action>, meanwhile: Shared, o: Outcome)
    requires t !in s.senders && Waits(s, f, false)
  {
    && Runs(Waited(s, t, f), others) && (forall a :: a in others ==> !By(a, t))
    && After(Waited(s, t, f), others).shared == meanwhile
    && Enabled(After(Waited(s, t, f), others), Wake(t, o))
  }

  /** `actions` lead from `s` to `now`. */
  ghost predicate Reaches(s: State, actions: seq<Action>, now: State) {
    Runs(s, actions) && After(s, actions) == now
  }

  lemma Advance(s: State, actions: seq<Action>, now: State, a: Action)
    requires Reaches(s, actions, now) && Enabled(now, a)
    ensures Reaches(s, actions + [a], Next(now, a))
  {
    assert [a][1..] == [];
    RunsAppend(s, actions, [a]);
  }

  lemma AdvanceAll(s: State, actions: seq<Action>, now: State, more: seq<Action>)
    requires Reaches(s, actions, now) && Runs(now, more)
    ensures Reaches(s, actions + more, After(now, more))
  {
    RunsAppend(s, actions, more);
  }

  /** Taking and finding the pre-keys ready, or the friend without a channel. */
  lemma TakeAndCheck(s: State, t: Sender, f: Friend, canSend: bool) returns (now: State)
    requires t !in s.senders && PendingFor(s.shared.pending, f) != []
    ensures Waits(s, f, canSend) ==> now == Waited(s, t, f)
    ensures
      var batch := PendingFor(s.shared.pending, f);
      && Reaches(s, [Take(t, f)] + [Check(t, canSend)], now)
      && (canSend ==> now.shared == Taken(s.shared, f) && t in now.senders && now.senders[t] == Sending(f, batch, []))
      && (!canSend && f !in s.shared.ready ==>
            now.shared == Prepend(Taken(s.shared, f), f, batch) && t !in now.senders)
      && (Waits(s, f, canSend) ==>
            && now.shared == Taken(s.shared, f) && t in now.senders
            && now.senders[t] == Waiting(f, batch, s.shared.ready[f], s.shared.stopChan))
  {
    assert Reaches(s, [], s) by { }
    assert [] + [Take(t, f)] == [Take(t, f)];
    Advance(s, [], s, Take(t, f));
    Advance(s, [Take(t, f)], Next(s, Take(t, f)), Check(t, canSend));
    hide Reaches;
    now := Next(Next(s, Take(t, f)), Check(t, canSend));
  }

  lemma NothingTaken(s: State, t: Sender, f: Friend)
    requires t !in s.senders && PendingFor(s.shared.pending, f) == []
    ensures Reaches(s, [Take(t, f)], Next(s, Take(t, f)))
    ensures Next(s, Take(t, f)) == s.(shared := Taken(s.shared, f))
  {
    assert [Take(t, f)][1..] == [];
  }

  lemma AfterWait(s: State, t: Sender, f: Friend, others: seq<Action>, meanwhile: Shared, o: Outcome)
    returns (now: State)
    requires t !in s.senders && Waits(s, f, false) && Interlude(s, t, f, others, meanwhile, o)
    ensures
      var batch, ch := PendingFor(s.shared.pending, f), s.shared.ready[f];
      && Reaches(s, [Take(t, f)] + [Check(t, false)] + others + [Wake(t, o)], now)
      && now.shared == (if o == TimerFired then TimedOut(meanwhile, f, batch, ch) else meanwhile)
      && if o == PreKeysReady || (o == TimerFired && ch in meanwhile.closed)
         then t in now.senders && now.senders[t] == Sending(f, batch, [])
         else t !in now.senders
  {
    var w := TakeAndCheck(s, t, f, false);
    OthersLeaveSender(w, others, t);
    AdvanceAll(s, [Take(t, f)] + [Check(t, false)], w, others);
    now := Next(After(w, others), Wake(t, o));
    Advance(s, [Take(t, f)] + [Check(t, false)] + others, After(w, others), Wake(t, o));
    hide Reaches, Runs, After;
  }

  lemma SendAll(s: State, actions: seq<Action>, now: State, t: Sender, outcomes: seq<bool>) returns (end: State)
    requires Reaches(s, actions, now) && t in now.senders && now.senders[t].Sending? && now.senders[t].failed == []
    requires |now.senders[t].rest| == |outcomes|
    ensures
      var Sending(f, rest, _) := now.senders[t];
      && Reaches(s, actions + BatchActions(t, outcomes), end)
      && end.shared == BatchSent(now.shared, f, Failures(rest, outcomes)) && t !in end.senders
  {
    BatchIsRun(now, t, outcomes);
    AdvanceAll(s, actions, now, BatchActions(t, outcomes));
    assert [] + Failures(now.senders[t].rest, outcomes) == Failures(now.senders[t].rest, outcomes);
    end := After(now, BatchActions(t, outcomes));
  }

  // ----- The manager object -----

  class AsyncManager {
    var pendingMessages: map<Friend, seq<Item>>
    var preKeyReadyCh: map<Friend, Channel>
    var closedChannels: set<Channel>
    var stopChan: Channel
    var running: bool
    var nextChannel: nat

    function View(): Shared
      reads this
    {
      Shared(pendingMessages, preKeyReadyCh, closedChannels, stopChan, running, nextChannel)
    }

    constructor ()
      ensures View() == INITIAL.shared
    {
      pendingMessages, preKeyReadyCh, closedChannels := map[], map[], {};
      stopChan, running, nextChannel := 0, false, 1;
    }

    method QueuePendingMessage(x: Item)
      modifies this
      ensures View() == Enqueue(old(View()), x)
    {
      pendingMessages := pendingMessages[x.friend := PendingFor(pendingMessages, x.friend) + [x]];
    }

    /** The first critical section of a sender: takes the whole list, and the channel to wait on. */
    method TakeQueued(f: Friend) returns (queued: seq<Item>, ch: Option<Channel>)
      modifies this
      ensures queued == PendingFor(old(pendingMessages), f) && ch == ChannelFor(old(preKeyReadyCh), f)
      ensures View() == Taken(old(View()), f)
    {
      queued := PendingFor(pendingMessages, f);
      pendingMessages := pendingMessages - {f};
      ch := ChannelFor(preKeyReadyCh, f);
    }

    method PrependPendingMessages(f: Friend, queued: seq<Item>)
      modifies this
      ensures View() == Prepend(old(View()), f, queued)
    {
      pendingMessages := pendingMessages[f := queued + PendingFor(pendingMessages, f)];
    }

    method ResolveTimedOutPreKeyWait(f: Friend, ch: Channel, queued: seq<Item>) returns (proceed: bool)
      modifies this
      ensures proceed <==> ch in old(closedChannels)
      ensures View() == TimedOut(old(View()), f, queued, ch)
    {
      proceed := ch in closedChannels;
      preKeyReadyCh := preKeyReadyCh - {f};
      if !proceed {
        pendingMessages := pendingMessages[f := queued + PendingFor(pendingMessages, f)];
      }
    }

    /** Sends each message of the batch and re-queues the failures. */
    method SendPendingBatch(f: Friend, queued: seq<Item>, outcomes: seq<bool>) returns (successCount: nat)
      requires |queued| == |outcomes|
      modifies this
      ensures View() == BatchSent(old(View()), f, Failures(queued, outcomes))
      ensures successCount == |Successes(queued, outcomes)|
    {
      hide Failures, Successes;
      successCount := 0;
      var failed: seq<Item> := [];
      assert queued[0..] == queued && outcomes[0..] == outcomes;
      for i := 0 to |queued|
        invariant failed + Failures(queued[i..], outcomes[i..]) == Failures(queued, outcomes)
        invariant successCount + |Successes(queued[i..], outcomes[i..])| == |Successes(queued, outcomes)|
        invariant View() == old(View())
      {
        BatchStep(queued, outcomes, i);
        if outcomes[i] {
          successCount := successCount + 1;
        } else {
          failed := failed + [queued[i]];
        }
      }
      BatchEnd(queued, outcomes);
      assert failed == Failures(queued, outcomes);
      if |failed| > 0 {
        PrependPendingMessages(f, failed);
      }
    }

    /** The mutex is free while the sender waits: others leave the manager as they please. */
    method Resume(h: Shared)
      modifies this
      ensures View() == h
    {
      pendingMessages, preKeyReadyCh, closedChannels := h.pending, h.ready, h.closed;
      stopChan, running, nextChannel := h.stopChan, h.running, h.nextChannel;
    }

    /** Without a channel the batch is put back. Otherwise the sender waits while others act; it proceeds if the
        channel was closed, and drops its batch if it sees a stop. */
    method WaitForPreKeyReady(f: Friend, ch: Option<Channel>, queued: seq<Item>, meanwhile: Shared, o: Outcome)
      returns (proceed: bool)
      modifies this
      ensures ch.None? ==> !proceed && View() == Prepend(old(View()), f, queued)
      ensures ch.Some? ==> View() == if o == TimerFired then TimedOut(meanwhile, f, queued, ch.value) else meanwhile
      ensures ch.Some? ==> (proceed <==> o == PreKeysReady || (o == TimerFired && ch.value in meanwhile.closed))
    {
      if ch.None? {
        PrependPendingMessages(f, queued);
        return false;
      }
      Resume(meanwhile);
      match o
      case PreKeysReady => proceed := true;
      case TimerFired => proceed := ResolveTimedOutPreKeyWait(f, ch.value, queued);
      case StopSeen => proceed := false;
    }

    /** A whole send, with others acting during the wait, is a run of the protocol that ends with the sender
        holding nothing. */
    method SendQueuedMessages(f: Friend, canSend: bool, meanwhile: Shared, o: Outcome, outcomes: seq<bool>,
                              ghost s: State, ghost t: Sender, ghost others: seq<Action>)
      returns (successCount: nat, ghost actions: seq<Action>)
      requires s.shared == View() && t !in s.senders && |outcomes| == |PendingFor(pendingMessages, f)|
      requires Waits(s, f, canSend) ==> Interlude(s, t, f, others, meanwhile, o)
      modifies this
      ensures Runs(s, actions) && After(s, actions).shared == View() && t !in After(s, actions).senders
      ensures successCount ==
        if Proceeds(s, f, canSend, meanwhile, o) then |Successes(PendingFor(old(pendingMessages), f), outcomes)| else 0
    {
      hide Next, Runs, Interlude;
      var queued, ch := TakeQueued(f);
      successCount := 0;
      if |queued| == 0 {
        NothingTaken(s, t, f);
        actions := [Take(t, f)];
        return;
      }
      ghost var now := TakeAndCheck(s, t, f, canSend);
      actions := [Take(t, f)] + [Check(t, canSend)];
      if !canSend {
        var proceed := WaitForPreKeyReady(f, ch, queued, meanwhile, o);
        if ch.None? { return; }
        now := AfterWait(s, t, f, others, meanwhile, o);
        actions := actions + others + [Wake(t, o)];
        if !proceed { return; }
      }
      ghost var _ := SendAll(s, actions, now, t, outcomes);
      actions := actions + BatchActions(t, outcomes);
      successCount := SendPendingBatch(f, queued, outcomes);
    }

    method SignalPreKeyReady(f: Friend)
      modifies this
      ensures View() == Signalled(old(View()), f)
      ensures f !in preKeyReadyCh && (f in old(preKeyReadyCh) ==> old(preKeyReadyCh[f]) in closedChannels)
    {
      if f in preKeyReadyCh {
        closedChannels := closedChannels + {preKeyReadyCh[f]};
        preKeyReadyCh := preKeyReadyCh - {f};
      }
    }

    method PrepareReadyChannel(f: Friend)
      modifies this
      ensures View() == WithChannel(old(View()), f)
    {
      if f !in preKeyReadyCh {
        preKeyReadyCh := preKeyReadyCh[f := nextChannel];
        nextChannel := nextChannel + 1;
      }
    }

    /** Starting makes a new stop channel; starting twice changes nothing. */
    method Start()
      modifies this
      ensures View() == Started(old(View()))
    {
      if running { return; }
      running, stopChan, nextChannel := true, nextChannel, nextChannel + 1;
    }

    method Stop()
      modifies this
      ensures View() == Stopped(old(View()))
    {
      if !running { return; }
      running := false;
      closedChannels := closedChannels + {stopChan};
    }

    method ClearPendingMessagesForFriend(f: Friend) returns (count: nat)
      modifies this
      ensures count == |PendingFor(old(pendingMessages), f)|
      ensures View() == Forgotten(old(View()), f)
    {
      count := |PendingFor(pendingMessages, f)|;
      pendingMessages := pendingMessages - {f};
      preKeyReadyCh := preKeyReadyCh - {f};
    }
  }
}
