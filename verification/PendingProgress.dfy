/** Waiting for pre-keys: what wakes a sender, and that what it waited for is then sent. */
module PendingProgress {
  import opened Common
  import opened Pending

  // ----- Which channels are closed -----

  /** The action closes channel `c`: the signal for the friend it is registered for, or the stop. */
  predicate Closes(h: Shared, a: Action, c: Channel) {
    match a
    case Signal(f) => f in h.ready && h.ready[f] == c
    case Stop => h.running && h.stopChan == c
    case _ => false
  }

  lemma ClosedIff(s: State, a: Action, c: Channel)
    requires Enabled(s, a)
    ensures c in Next(s, a).shared.closed <==> c in s.shared.closed || Closes(s.shared, a, c)
  {
    match a
    case Queue(_, _, _) =>
    case Take(_, _) =>
    case Check(_, _) =>
    case Wake(_, _) =>
    case SendOne(_, _) =>
    case Finish(_) =>
    case Online(_) =>
    case Signal(_) =>
    case Clear(_) =>
    case Stop =>
    case Start =>
  }

  /** A channel that a sender waits on or will wait on: an old one, not the stop channel, and registered for no other
      friend. */
  ghost predicate OwnChannel(h: Shared, f: Friend, c: Channel) {
    c < h.nextChannel && c != h.stopChan && forall g :: g in h.ready && h.ready[g] == c ==> g == f
  }

  /** The channel is registered for no friend. */
  ghost predicate StopsApart(h: Shared, c: Channel) {
    c < h.nextChannel && forall g :: g in h.ready ==> h.ready[g] != c
  }

  ghost predicate SenderSound(h: Shared, ph: Phase) {
    match ph
    case Holding(f, _, ch) => ch.Some? ==> OwnChannel(h, f, ch.value)
    case Waiting(f, _, wait, stop) => OwnChannel(h, f, wait) && StopsApart(h, stop)
    case Sending(_, _, _) => true
  }

  /** Channels are sound, for every sender too. */
  ghost predicate WaitsSound(s: State) {
    ChannelsSound(s.shared) && forall t :: t in s.senders ==> SenderSound(s.shared, s.senders[t])
  }

  /** No step registers an old channel again or makes it the stop channel. */
  lemma OwnChannelStays(s: State, a: Action, f: Friend, c: Channel)
    requires Enabled(s, a) && OwnChannel(s.shared, f, c)
    ensures OwnChannel(Next(s, a).shared, f, c) && s.shared.nextChannel <= Next(s, a).shared.nextChannel
  {
    var h, h' := s.shared, Next(s, a).shared;
    assert forall g :: g in h'.ready ==> (g in h.ready && h'.ready[g] == h.ready[g]) || h'.ready[g] == h.nextChannel;
  }

  lemma StopsStayApart(s: State, a: Action, c: Channel)
    requires Enabled(s, a) && StopsApart(s.shared, c)
    ensures StopsApart(Next(s, a).shared, c)
    ensures Closes(s.shared, a, c) <==> a == Stop && s.shared.running && s.shared.stopChan == c
  {
    var h, h' := s.shared, Next(s, a).shared;
    assert forall g :: g in h'.ready ==> (g in h.ready && h'.ready[g] == h.ready[g]) || h'.ready[g] == h.nextChannel;
  }

  lemma NotRegistered(h: Shared)
    requires ChannelsSound(h)
    ensures StopsApart(h, h.stopChan)
  {
  }

  lemma StepWaitsSound(s: State, a: Action)
    requires WaitsSound(s) && Enabled(s, a)
    ensures WaitsSound(Next(s, a))
  {
    hide OwnChannel, ChannelsSound;
    StepChannels(s, a);
    var s' := Next(s, a);
    forall t | t in s'.senders ensures SenderSound(s'.shared, s'.senders[t]) {
      SenderStaysSound(s, a, t);
    }
  }

  lemma SenderStaysSound(s: State, a: Action, t: Sender)
    requires WaitsSound(s) && Enabled(s, a) && t in Next(s, a).senders
    ensures SenderSound(Next(s, a).shared, Next(s, a).senders[t])
  {
    hide OwnChannel, StopsApart, ChannelsSound;
    var h, ph := s.shared, Next(s, a).senders[t];
    if By(a, t) {
      match a
      case Take(_, f) => if f in h.ready { Registered(h, f); OwnChannelStays(s, a, f, h.ready[f]); }
      case Check(_, _) => NotRegistered(h);
      case Wake(_, _) =>
      case SendOne(_, _) =>
      case Finish(_) =>
    } else if t in s.senders {
      OtherSender(s, a, t);
      if ph.Waiting? {
        OwnChannelStays(s, a, ph.friend, ph.wait);
        StopsStayApart(s, a, ph.stop);
      }
      if ph.Holding? && ph.ch.Some? { OwnChannelStays(s, a, ph.friend, ph.ch.value); }
    }
  }

  lemma OtherSender(s: State, a: Action, t: Sender)
    requires Enabled(s, a) && !By(a, t) && t in s.senders
    ensures t in Next(s, a).senders && Next(s, a).senders[t] == s.senders[t]
    ensures s.shared.nextChannel <= Next(s, a).shared.nextChannel
  {
  }

  lemma Registered(h: Shared, f: Friend)
    requires ChannelsSound(h) && f in h.ready
    ensures OwnChannel(h, f, h.ready[f])
  {
  }

  lemma {:induction false} RunWaitsSound(s: State, actions: seq<Action>)
    requires WaitsSound(s) && Runs(s, actions)
    ensures WaitsSound(After(s, actions))
    decreases |actions|
  {
    if actions != [] {
      StepWaitsSound(s, actions[0]);
      RunWaitsSound(Next(s, actions[0]), actions[1..]);
    }
  }

  lemma InitialWaitsSound()
    ensures WaitsSound(INITIAL)
  {
  }

  // ----- How long a channel stays registered -----

  /** The action takes the friend's channel away: a signal, the friend's removal, or the timeout of one of its
      senders. */
  predicate Unregisters(s: State, a: Action, f: Friend) {
    match a
    case Signal(g) => g == f
    case Clear(g) => g == f
    case Wake(t, TimerFired) => t in s.senders && s.senders[t].Waiting? && s.senders[t].friend == f
    case _ => false
  }

  predicate Registers(h: Shared, f: Friend, c: Channel) {
    f in h.ready && h.ready[f] == c
  }

  /** A channel is registered when its friend comes online without one, and stays so until something takes it away:
      coming online again keeps it. */
  lemma RegisteredIff(s: State, a: Action, f: Friend, c: Channel)
    requires Enabled(s, a)
    ensures Registers(Next(s, a).shared, f, c) <==>
      || (Registers(s.shared, f, c) && !Unregisters(s, a, f))
      || (a == Online(f) && f !in s.shared.ready && c == s.shared.nextChannel)
  {
    match a
    case Queue(_, _, _) =>
    case Take(_, _) =>
    case Check(_, _) =>
    case Wake(_, _) =>
    case SendOne(_, _) =>
    case Finish(_) =>
    case Online(_) =>
    case Signal(_) =>
    case Clear(_) =>
    case Stop =>
    case Start =>
  }

  /** The manager runs from a start to the next stop. Only the start of a stopped manager makes a stop channel, which
      is new and open. */
  lemma RunningIff(s: State, a: Action)
    requires ChannelsSound(s.shared) && Enabled(s, a)
    ensures Next(s, a).shared.running <==> a == Start || (s.shared.running && a != Stop)
    ensures Next(s, a).shared.stopChan != s.shared.stopChan <==> a == Start && !s.shared.running
    ensures a == Start ==> Next(s, a).shared.stopChan !in Next(s, a).shared.closed
  {
    match a
    case Queue(_, _, _) =>
    case Take(_, _) =>
    case Check(_, _) =>
    case Wake(_, _) =>
    case SendOne(_, _) =>
    case Finish(_) =>
    case Online(_) =>
    case Signal(_) =>
    case Clear(_) =>
    case Stop =>
    case Start =>
  }

  // ----- What wakes a waiting sender -----

  /** In the run the friend is signalled while `c` is registered for it. */
  ghost predicate SignalledIn(s: State, actions: seq<Action>, f: Friend, c: Channel)
    requires Runs(s, actions)
    decreases |actions|
  {
    actions != [] &&
    ((actions[0] == Signal(f) && f in s.shared.ready && s.shared.ready[f] == c) ||
     SignalledIn(Next(s, actions[0]), actions[1..], f, c))
  }

  /** In the run the manager is stopped while `c` is its stop channel. */
  ghost predicate StoppedIn(s: State, actions: seq<Action>, c: Channel)
    requires Runs(s, actions)
    decreases |actions|
  {
    actions != [] &&
    ((actions[0] == Stop && s.shared.running && s.shared.stopChan == c) ||
     StoppedIn(Next(s, actions[0]), actions[1..], c))
  }

  /** However the others act, a waiting sender finds the pre-keys ready exactly when its channel was closed before,
      or its friend was signalled since while the channel was registered. A closed channel stays closed. */
  lemma {:induction false} WakesIffSignalled(s: State, actions: seq<Action>, t: Sender)
    requires WaitsSound(s) && Runs(s, actions) && t in s.senders && s.senders[t].Waiting?
    requires forall a :: a in actions ==> !By(a, t)
    ensures
      var Waiting(f, _, wait, _) := s.senders[t];
      Enabled(After(s, actions), Wake(t, PreKeysReady)) <==>
        wait in s.shared.closed || SignalledIn(s, actions, f, wait)
    decreases |actions|
  {
    if actions != [] {
      var a := actions[0];
      assert a in actions;
      hide OwnChannel, ChannelsSound;
      StepWaitsSound(s, a);
      OtherSender(s, a, t);
      ClosedIff(s, a, s.senders[t].wait);
      assert Closes(s.shared, a, s.senders[t].wait) <==>
        a == Signal(s.senders[t].friend) && Registers(s.shared, s.senders[t].friend, s.senders[t].wait) by {
        OnlyOwnSignalCloses(s.shared, a, s.senders[t].friend, s.senders[t].wait);
      }
      WakesIffSignalled(Next(s, a), actions[1..], t);
    }
  }

  lemma OnlyOwnSignalCloses(h: Shared, a: Action, f: Friend, c: Channel)
    requires OwnChannel(h, f, c)
    ensures Closes(h, a, c) <==> a == Signal(f) && Registers(h, f, c)
  {
  }

  /** The same for the stop: a waiting sender sees it exactly when the manager it waits under was stopped before or has
      been stopped since. */
  lemma {:induction false} SeesStopIffStopped(s: State, actions: seq<Action>, t: Sender)
    requires WaitsSound(s) && Runs(s, actions) && t in s.senders && s.senders[t].Waiting?
    requires forall a :: a in actions ==> !By(a, t)
    ensures
      var stop := s.senders[t].stop;
      Enabled(After(s, actions), Wake(t, StopSeen)) <==> stop in s.shared.closed || StoppedIn(s, actions, stop)
    decreases |actions|
  {
    if actions != [] {
      var a := actions[0];
      assert a in actions;
      hide OwnChannel, ChannelsSound;
      StepWaitsSound(s, a);
      OtherSender(s, a, t);
      ClosedIff(s, a, s.senders[t].stop);
      StopsStayApart(s, a, s.senders[t].stop);
      SeesStopIffStopped(Next(s, a), actions[1..], t);
    }
  }

  ghost predicate SendingNow(s: State, t: Sender) {
    t in s.senders && s.senders[t].Sending?
  }

  /** A sender starts to send exactly when its pre-keys suffice, or its wait ends, woken or by the timer, with its
      channel closed. Without pre-keys and without a channel it puts its batch back in front. */
  lemma StartsSendingIff(s: State, a: Action, t: Sender)
    requires Enabled(s, a) && !SendingNow(s, t)
    ensures SendingNow(Next(s, a), t) <==>
      || a == Check(t, true)
      || (a.Wake? && a.sender == t && a.outcome != StopSeen && s.senders[t].wait in s.shared.closed)
    ensures a == Check(t, false) && s.senders[t].ch.None? ==>
      var f := s.senders[t].friend;
      && t !in Next(s, a).senders
      && PendingFor(Next(s, a).shared.pending, f) == s.senders[t].batch + PendingFor(s.shared.pending, f)
  {
    if !By(a, t) {
      if t in s.senders { OtherSender(s, a, t); } else { StaysOut(s, a, t); }
    }
  }

  lemma StaysOut(s: State, a: Action, t: Sender)
    requires Enabled(s, a) && !By(a, t) && t !in s.senders
    ensures t !in Next(s, a).senders
  {
  }

  // ----- Delivery -----

  ghost function AllSucceed(n: nat): (r: seq<bool>)
    ensures |r| == n && forall i | 0 <= i < n :: r[i]
  {
    if n == 0 then [] else [true] + AllSucceed(n - 1)
  }

  lemma {:induction false} AllSent(batch: seq<Item>, outcomes: seq<bool>)
    requires |outcomes| == |batch| && forall i | 0 <= i < |outcomes| :: outcomes[i]
    ensures Failures(batch, outcomes) == [] && Successes(batch, outcomes) == batch
  {
    if batch != [] { AllSent(batch[1..], outcomes[1..]); }
  }

  /** From a state in which the sender may send, it delivers its whole batch in order. */
  lemma SendingDelivers(s: State, t: Sender) returns (actions: seq<Action>)
    requires t in s.senders && s.senders[t].Sending? && s.senders[t].failed == []
    ensures Runs(s, actions)
    ensures After(s, actions) == s.(senders := s.senders - {t}, sent := s.sent + s.senders[t].rest)
  {
    var outcomes := AllSucceed(|s.senders[t].rest|);
    AllSent(s.senders[t].rest, outcomes);
    BatchIsRun(s, t, outcomes);
    assert [] + Failures(s.senders[t].rest, outcomes) == [];
    actions := BatchActions(t, outcomes);
  }

  /** One more step in front of a delivery. */
  lemma DeliversAfter(s: State, a: Action, t: Sender, batch: seq<Item>) returns (actions: seq<Action>)
    requires Enabled(s, a) && t in Next(s, a).senders && Next(s, a).senders[t].Sending?
    requires Next(s, a).senders[t].rest == batch && Next(s, a).senders[t].failed == [] && Next(s, a).sent == s.sent
    ensures Runs(s, actions) && actions != [] && actions[0] == a
    ensures After(s, actions).sent == s.sent + batch && t !in After(s, actions).senders
  {
    var more := SendingDelivers(Next(s, a), t);
    RunsCons(s, a, more);
    actions := [a] + more;
  }

  /** A batch whose pre-keys suffice is sent without waiting. */
  lemma ReadyBatchIsSent(s: State, t: Sender) returns (actions: seq<Action>)
    requires t in s.senders && s.senders[t].Holding?
    ensures Runs(s, actions) && actions != [] && actions[0] == Check(t, true)
    ensures After(s, actions).sent == s.sent + s.senders[t].batch && t !in After(s, actions).senders
  {
    actions := DeliversAfter(s, Check(t, true), t, s.senders[t].batch);
  }

  /** A signal for a waiting sender's friend is never lost: whatever others do afterwards, the sender can go on, by the
      signal or by its timer, and its batch can be sent in full and in order. */
  lemma SignalDelivers(s: State, f: Friend, t: Sender, others: seq<Action>, o: Outcome) returns (actions: seq<Action>)
    requires WaitsSound(s) && t in s.senders && s.senders[t].Waiting? && o != StopSeen
    requires f in s.shared.ready && s.senders[t].wait == s.shared.ready[f]
    requires Runs(Next(s, Signal(f)), others) && forall a :: a in others ==> !By(a, t)
    ensures
      var now := After(Next(s, Signal(f)), others);
      && Runs(now, actions) && actions != [] && actions[0] == Wake(t, o)
      && After(now, actions).sent == now.sent + s.senders[t].batch && t !in After(now, actions).senders
  {
    var s1 := Next(s, Signal(f));
    var now := After(s1, others);
    StepWaitsSound(s, Signal(f));
    OthersLeaveSender(s1, others, t);
    assert s.senders[t].wait in s1.shared.closed;
    WakesIffSignalled(s1, others, t);
    hide Runs, After, WaitsSound;
    actions := DeliversAfter(now, Wake(t, o), t, s.senders[t].batch);
  }

  /** A stop reaches every sender that waits under the running manager: it can leave, dropping its batch, whatever
      others do afterwards. */
  lemma StopReaches(s: State, t: Sender, others: seq<Action>)
    requires WaitsSound(s) && t in s.senders && s.senders[t].Waiting?
    requires s.shared.running && s.senders[t].stop == s.shared.stopChan
    requires Runs(Next(s, Stop), others) && forall a :: a in others ==> !By(a, t)
    ensures
      var now := After(Next(s, Stop), others);
      && Enabled(now, Wake(t, StopSeen))
      && Next(now, Wake(t, StopSeen)).discarded == now.discarded + s.senders[t].batch
  {
    var s1 := Next(s, Stop);
    StepWaitsSound(s, Stop);
    OthersLeaveSender(s1, others, t);
    SeesStopIffStopped(s1, others, t);
  }

  lemma NoSteps(s: State)
    ensures Runs(s, []) && After(s, []) == s
  {
  }

  lemma SignalSendsNothing(s: State, f: Friend)
    ensures Next(s, Signal(f)).sent == s.sent
  {
  }

  /** A sender that takes the messages of a friend who came online waits on the friend's channel. */
  lemma WaitingOnline(s: State, f: Friend, t: Sender) returns (waiting: State)
    requires WaitsSound(s) && t !in s.senders && PendingFor(s.shared.pending, f) != []
    ensures Waits(Next(s, Online(f)), f, false) && waiting == Waited(Next(s, Online(f)), t, f) && WaitsSound(waiting)
    ensures t in waiting.senders && f in waiting.shared.ready
    ensures waiting.senders[t] ==
      Waiting(f, PendingFor(s.shared.pending, f), waiting.shared.ready[f], waiting.shared.stopChan)
  {
    hide WaitsSound;
    var online := Next(s, Online(f));
    StepWaitsSound(s, Online(f));
    StepWaitsSound(online, Take(t, f));
    StepWaitsSound(Next(online, Take(t, f)), Check(t, false));
    waiting := Waited(online, t, f);
  }

  /** The whole way: the friend comes online, a sender takes what is queued and waits, and the signal arrives while its
      channel is still registered. Everything that was queued can then be sent. */
  lemma OnlineThenSignalDelivers(s: State, f: Friend, t: Sender, others: seq<Action>) returns (actions: seq<Action>)
    requires WaitsSound(s) && t !in s.senders && PendingFor(s.shared.pending, f) != []
    requires
      var waiting := Waited(Next(s, Online(f)), t, f);
      && Runs(waiting, others) && (forall a :: a in others ==> !By(a, t))
      && Registers(After(waiting, others).shared, f, waiting.senders[t].wait)
    ensures
      var now := After(Waited(Next(s, Online(f)), t, f), others);
      && Runs(now, actions) && |actions| >= 2 && actions[0] == Signal(f) && actions[1] == Wake(t, PreKeysReady)
      && After(now, actions).sent == now.sent + PendingFor(s.shared.pending, f)
      && t !in After(now, actions).senders
  {
    var waiting := WaitingOnline(s, f, t);
    var now := After(waiting, others);
    RunWaitsSound(waiting, others);
    OthersLeaveSender(waiting, others, t);
    hide WaitsSound, Waited, Next, After, Runs;
    NoSteps(Next(now, Signal(f)));
    var more := SignalDelivers(now, f, t, [], PreKeysReady);
    assert Next(now, Signal(f)).sent == now.sent by { SignalSendsNothing(now, f); }
    RunsCons(now, Signal(f), more);
    actions := [Signal(f)] + more;
  }
}
