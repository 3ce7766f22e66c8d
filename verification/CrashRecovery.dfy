/** Crash recovery of the legacy store: every run with its checkpoints, every cut of its log. */
module CrashRecovery {
  import opened Common
  import opened Grouping
  import opened Wal
  import opened StoreSpec
  import opened Storage
  import opened Epochs
  import StorageRuns

  datatype Env = Env(codec: Codec, serializer: Serializer)
  {
    /** Encodings round-trip; nothing is assumed about their size. */
    ghost predicate Valid() {
      codec.Valid() && serializer.Valid()
    }
  }

  /** One call into the store; a store carries the limits in force when it is made. A checkpoint may be asked
      for or scheduled by the log itself. */
  datatype Event =
    | Store(m: AsyncMessage, capacity: int, limit: int)
    | Delete(id: MessageId, recipient: PublicKey, at: int)
    | Expire(now: int)
    | Checkpoint(at: int)

  /** The live messages and the log; and as history the messages that were logged and not deleted, the
      identifiers of those that expiry removed, and of those stored before the last checkpoint. */
  datatype System = System(
    live: seq<AsyncMessage>,
    wal: LogState,
    logged: seq<AsyncMessage>,
    gone: set<MessageId>,
    early: set<MessageId>)

  const EMPTY := System([], LogState([], 0), [], {}, {})

  ghost function IdsOf(q: seq<AsyncMessage>): set<MessageId> {
    set m | m in q :: m.id
  }

  ghost function ExpiredIds(q: seq<AsyncMessage>, now: int): set<MessageId> {
    set m | m in q && IsExpired(m, now) :: m.id
  }

  ghost function Step(env: Env, s: System, ev: Event): System {
    match ev
    case Store(m, capacity, limit) =>
      if StoreRefusal(s.live, capacity, limit, m.recipient, |m.encryptedData|).Some? then s
      else s.(live := s.live + [m], logged := s.logged + [m],
              wal := LogStep(env.codec, s.wal, StoreOp(env.serializer, m)))
    case Delete(id, recipient, at) =>
      if DeleteRefusal(s.live, id, recipient).Some? then s
      else s.(live := Without(s.live, id), logged := Without(s.logged, id), early := s.early - {id},
              wal := LogStep(env.codec, s.wal, DeleteOp(id, recipient, at)))
    case Expire(now) =>
      s.(live := Filter(Unexpired(now), s.live), gone := s.gone + ExpiredIds(s.live, now))
    case Checkpoint(at) =>
      s.(early := IdsOf(s.logged), wal := LogStep(env.codec, s.wal, CheckpointNow(at)))
  }

  ghost function Run(env: Env, events: seq<Event>): System {
    if events == [] then EMPTY
    else Step(env, Run(env, events[..|events| - 1]), events[|events| - 1])
  }

  /** What replaying the recovered entries of a log into an empty store gives. */
  ghost function Recovered(env: Env, log: seq<Entry>): seq<AsyncMessage> {
    Replay(env.serializer, [], Uncommitted(log))
  }

  /** Every drawn identifier differs from those of the messages logged and not deleted. */
  ghost predicate Fresh(env: Env, events: seq<Event>) {
    events == [] ||
    (var before, ev := events[..|events| - 1], events[|events| - 1];
     && Fresh(env, before)
     && (ev.Store? ==> forall x :: x in Run(env, before).logged ==> x.id != ev.m.id))
  }

  // ----- The live messages are those of the store -----

  /** The calls of a run, without its checkpoints. */
  ghost function Calls(events: seq<Event>): seq<StorageRuns.Event> {
    if events == [] then [] else Calls(events[..|events| - 1]) + Call(events[|events| - 1])
  }

  ghost function Call(ev: Event): seq<StorageRuns.Event> {
    match ev
    case Store(m, _, _) => [StorageRuns.StoreLegacy(m)]
    case Delete(id, recipient, _) => [StorageRuns.DeleteLegacy(id, recipient)]
    case Expire(now) => [StorageRuns.ExpireAll(now)]
    case Checkpoint(_) => []
  }

  /** Under fixed limits the live messages of a run are exactly what the store holds after its calls. */
  lemma {:induction false} LiveIsStored(env: Env, cfg: StorageRuns.Config, events: seq<Event>)
    requires cfg.em.Valid()
    requires forall ev :: ev in events && ev.Store? ==> ev.capacity == cfg.capacity && ev.limit == cfg.Limit()
    ensures Run(env, events).live == StorageRuns.Run(cfg, StorageRuns.State([], []), Calls(events)).legacy
  {
    if events != [] {
      hide Step;
      var before, ev := events[..|events| - 1], events[|events| - 1];
      assert ev in events;
      LiveIsStored(env, cfg, before);
      SameCall(env, Run(env, before), cfg, Calls(before), ev);
      hide StorageRuns.Run;
    }
  }

  /** One call does the same to the live messages as to the store. */
  lemma SameCall(env: Env, s: System, cfg: StorageRuns.Config, calls: seq<StorageRuns.Event>, ev: Event)
    requires cfg.em.Valid() && (ev.Store? ==> ev.capacity == cfg.capacity && ev.limit == cfg.Limit())
    requires s.live == StorageRuns.Run(cfg, StorageRuns.State([], []), calls).legacy
    ensures Step(env, s, ev).live ==
      StorageRuns.Run(cfg, StorageRuns.State([], []), calls + Call(ev)).legacy
  {
    hide LogStep, StoreRefusal, DeleteRefusal, Without, Filter, IdsOf, ExpiredIds;
    if ev.Checkpoint? {
      assert calls + Call(ev) == calls;
    } else {
      assert (calls + Call(ev))[..|calls|] == calls;
    }
  }

  /** Every entry a run logs can be replayed. */
  lemma {:induction false} LoggedReplays(env: Env, events: seq<Event>)
    requires env.Valid()
    ensures forall e :: e in Run(env, events).wal.log && e.status == Pending ==> Replayable(env.serializer)(e)
  {
    if events != [] {
      hide StoreRefusal, DeleteRefusal, Without, Filter;
      LoggedReplays(env, events[..|events| - 1]);
    }
  }

  /** So the count that recovery reports is the number of entries since the last checkpoint. */
  lemma RecoveryCountsAll(env: Env, events: seq<Event>)
    requires env.Valid() && |events| < U64
    ensures
      var log := Run(env, events).wal.log;
      |Filter(Replayable(env.serializer), Uncommitted(log))| == |Since(log)|
  {
    var w := Run(env, events).wal;
    LoggedReplays(env, events);
    RunNumbered(env, events);
    RecoveryIsSinceCheckpoint(w.log, w.sequence);
    FilterMembers(IsUncommitted(CommittedSequences(w.log), LastCheckpoint(w.log)), w.log);
    hide Run, Filter, Replayable, Numbered, Since;
    FilterAll(Replayable(env.serializer), Uncommitted(w.log));
  }

  // ----- The log of a run -----

  /** Pending entries numbered 1, 2, 3, ... and checkpoint marks that carry the number before them. */
  ghost predicate Numbered(log: seq<Entry>, n: nat) {
    if log == [] then n == 0
    else
      var front, e := log[..|log| - 1], log[|log| - 1];
      && e.sequence == n
      && if e.status == Pending then n > 0 && Numbered(front, n - 1)
         else e.operation == CheckpointMark && e.status == Committed && Numbered(front, n)
  }

  /** The entries after the last checkpoint mark. */
  ghost function Since(log: seq<Entry>): seq<Entry> {
    if log == [] || log[|log| - 1].status != Pending then []
    else Since(log[..|log| - 1]) + [log[|log| - 1]]
  }

  /** Where the last mark splits the log: up to it nothing is above the checkpoint, after it everything is. */
  lemma {:induction false} SplitAtCheckpoint(log: seq<Entry>, n: nat) returns (k: nat)
    requires Numbered(log, n)
    ensures k <= |log| && Since(log) == log[k..] && LastCheckpoint(log) <= n
    ensures forall e :: e in log[..k] ==> e.sequence <= LastCheckpoint(log)
    ensures forall e :: e in log[k..] ==> e.status == Pending && e.sequence > LastCheckpoint(log)
    ensures forall e :: e in log ==> e.sequence <= n
  {
    if log == [] {
      k := 0;
    } else {
      var front, e := log[..|log| - 1], log[|log| - 1];
      assert log == front + [e];
      if e.status == Pending {
        assert Since(log) == Since(front) + [e] && LastCheckpoint(log) == LastCheckpoint(front);
        k := SplitAtCheckpoint(front, n - 1);
        hide *;
        assert log[..k] == front[..k] && log[k..] == front[k..] + [e];
      } else {
        assert Since(log) == [] && LastCheckpoint(log) == n;
        var _ := SplitAtCheckpoint(front, n);
        k := |log|;
        hide *;
        assert log[..k] == log && log[k..] == [];
      }
    }
  }

  /** Recovery returns exactly the entries after the last checkpoint mark. */
  lemma RecoveryIsSinceCheckpoint(log: seq<Entry>, n: nat)
    requires Numbered(log, n)
    ensures Uncommitted(log) == Since(log)
  {
    hide Filter;
    var k := SplitAtCheckpoint(log, n);
    var p := IsUncommitted(CommittedSequences(log), LastCheckpoint(log));
    assert log == log[..k] + log[k..];
    FilterAppend(p, log[..k], log[k..]);
    FilterNone(p, log[..k]);
    assert forall x :: x in log && x.status == Committed ==> x in log[..k];
    FilterAll(p, log[k..]);
  }

  lemma {:induction false} NumberedOrdered(log: seq<Entry>, n: nat)
    requires Numbered(log, n)
    ensures Ordered(log, n)
  {
    if log != [] {
      var front, e := log[..|log| - 1], log[|log| - 1];
      assert log == front + [e];
      if e.status == Pending {
        NumberedOrdered(front, n - 1);
        OrderedSnoc(front, n - 1, e, n);
      } else {
        NumberedOrdered(front, n);
        OrderedSnoc(front, n, e, n);
      }
    }
  }

  lemma NumberedStep(env: Env, s: System, ev: Event)
    requires Numbered(s.wal.log, s.wal.sequence) && AllSealed(env.codec, s.wal.log) && s.wal.sequence < U64 - 1
    ensures
      var w := Step(env, s, ev).wal;
      && Numbered(w.log, w.sequence) && AllSealed(env.codec, w.log)
      && s.wal.sequence <= w.sequence <= s.wal.sequence + 1
      && |w.log| <= |s.wal.log| + 1 && s.wal.log <= w.log
  {
    hide Filter, Without, DeleteRefusal, StoreRefusal, LogStep, Numbered, AllSealed;
    match ev
    case Store(m, _, _) => NumberedLog(env.codec, s.wal, StoreOp(env.serializer, m));
    case Delete(id, recipient, at) => NumberedLog(env.codec, s.wal, DeleteOp(id, recipient, at));
    case Expire(_) =>
    case Checkpoint(at) => NumberedLog(env.codec, s.wal, CheckpointNow(at));
  }

  lemma NumberedLog(c: Codec, w: LogState, op: LogOp)
    requires Numbered(w.log, w.sequence) && AllSealed(c, w.log) && w.sequence < U64 - 1
    requires op.Append? || op.CheckpointNow?
    ensures
      var w' := LogStep(c, w, op);
      && Numbered(w'.log, w'.sequence) && AllSealed(c, w'.log)
      && w.sequence <= w'.sequence <= w.sequence + 1
      && |w'.log| == |w.log| + 1 && w.log <= w'.log
  {
    var w' := LogStep(c, w, op);
    var e := w'.log[|w.log|];
    assert w'.log == w.log + [e];
    assert w'.log[..|w'.log| - 1] == w.log;
  }

  lemma {:induction false} RunNumbered(env: Env, events: seq<Event>)
    requires |events| < U64
    ensures
      var w := Run(env, events).wal;
      Numbered(w.log, w.sequence) && AllSealed(env.codec, w.log) && w.sequence <= |events|
  {
    if events != [] {
      hide Step, Numbered;
      RunNumbered(env, events[..|events| - 1]);
      NumberedStep(env, Run(env, events[..|events| - 1]), events[|events| - 1]);
    }
  }

  // ----- The refinement: live store against replayed log -----

  /** The live store is what was logged without what expiry removed; the replay of the entries after the last
      checkpoint is what was logged without what was stored before it. Both are in the order of storing. */
  ghost predicate Refines(env: Env, s: System) {
    && Unique(Id(), s.logged)
    && s.live == Filter(IdNotIn(Id(), s.gone), s.logged)
    && Replay(env.serializer, [], Since(s.wal.log)) == Filter(IdNotIn(Id(), s.early), s.logged)
    && ReplaySound(env.serializer, [], Since(s.wal.log))
    && s.gone <= IdsOf(s.logged) && s.early <= IdsOf(s.logged)
  }

  lemma ReplayLogged(env: Env, w: LogState, op: LogOp)
    requires op.Append?
    ensures
      var w' := LogStep(env.codec, w, op);
      var e := w'.log[|w.log|];
      var r := Replay(env.serializer, [], Since(w.log));
      && Replay(env.serializer, [], Since(w'.log)) == ReplayStep(env.serializer, r, e)
      && ReplaySound(env.serializer, [], Since(w'.log)) ==
           (ReplaySound(env.serializer, [], Since(w.log)) && EntrySound(env.serializer, r, e))
      && e.operation == op.operation && e.messageId == op.messageId && e.recipient == op.recipient && e.data == op.data
  {
    var w' := LogStep(env.codec, w, op);
    var e := w'.log[|w.log|];
    assert w'.log[..|w'.log| - 1] == w.log;
    assert Since(w'.log) == Since(w.log) + [e];
    assert (Since(w.log) + [e])[..|Since(w.log)|] == Since(w.log);
    hide ReplayStep, EntrySound, Since;
  }

  lemma RefinesStore(env: Env, s: System, m: AsyncMessage)
    requires env.Valid() && Refines(env, s) && forall x :: x in s.logged ==> x.id != m.id
    ensures
      var w := LogStep(env.codec, s.wal, StoreOp(env.serializer, m));
      Refines(env, s.(live := s.live + [m], logged := s.logged + [m], wal := w))
  {
    hide LogStep, Replay, ReplaySound, Filter, Since;
    ReplayLogged(env, s.wal, StoreOp(env.serializer, m));
    FilterSnoc(IdNotIn(Id(), s.gone), s.logged, m);
    FilterSnoc(IdNotIn(Id(), s.early), s.logged, m);
    FilterMembers(IdNotIn(Id(), s.early), s.logged);
    forall i | 0 <= i < |s.logged| ensures Id()(s.logged[i]) != m.id { assert s.logged[i] in s.logged; }
    assert Unique(Id(), s.logged + [m]);
    assert IdsOf(s.logged + [m]) == IdsOf(s.logged) + {m.id};
  }

  lemma RefinesDelete(env: Env, s: System, id: MessageId, recipient: PublicKey, at: int)
    requires Refines(env, s) && DeleteRefusal(s.live, id, recipient) == None
    ensures
      var w := LogStep(env.codec, s.wal, DeleteOp(id, recipient, at));
      Refines(env, s.(live := Without(s.live, id), logged := Without(s.logged, id), early := s.early - {id}, wal := w))
  {
    hide LogStep, Replay, ReplaySound, Filter, Since;
    ReplayLogged(env, s.wal, DeleteOp(id, recipient, at));
    var m :| m in s.live && m.id == id && m.recipient == recipient;
    FilterMembers(IdNotIn(Id(), s.gone), s.logged);
    FilterMembers(IdNotIn(Id(), s.early), s.logged);
    forall x | x in s.logged && x.id == id ensures x == m { SameIdSameMessage(s.logged, x, m); }
    FilterCommutes(IdNotIn(Id(), {id}), IdNotIn(Id(), s.gone), s.logged);
    EarlyDeleted(s.logged, s.early, id);
    UniqueFilter(Id(), IdNotIn(Id(), {id}), s.logged);
    FilterMembers(IdNotIn(Id(), {id}), s.logged);
  }

  /** Deleting commutes with leaving out the early messages, early or not. */
  lemma EarlyDeleted(q: seq<AsyncMessage>, early: set<MessageId>, id: MessageId)
    ensures Without(Filter(IdNotIn(Id(), early), q), id) == Filter(IdNotIn(Id(), early - {id}), Without(q, id))
  {
    hide Filter;
    FilterTwice(IdNotIn(Id(), {id}), IdNotIn(Id(), early), IdNotIn(Id(), early + {id}), q);
    FilterTwice(IdNotIn(Id(), early - {id}), IdNotIn(Id(), {id}), IdNotIn(Id(), early + {id}), q);
  }

  lemma RefinesExpire(env: Env, s: System, now: int)
    requires Refines(env, s)
    ensures Refines(env, s.(live := Filter(Unexpired(now), s.live), gone := s.gone + ExpiredIds(s.live, now)))
  {
    hide Replay, ReplaySound, Filter, Since;
    var gone' := s.gone + ExpiredIds(s.live, now);
    FilterMembers(IdNotIn(Id(), s.gone), s.logged);
    forall x | x in s.logged
      ensures IdNotIn(Id(), gone')(x) == (Unexpired(now)(x) && IdNotIn(Id(), s.gone)(x))
    {
      if x.id in ExpiredIds(s.live, now) {
        var m :| m in s.live && IsExpired(m, now) && m.id == x.id;
        SameIdSameMessage(s.logged, x, m);
      }
    }
    FilterTwice(Unexpired(now), IdNotIn(Id(), s.gone), IdNotIn(Id(), gone'), s.logged);
  }

  lemma RefinesCheckpoint(env: Env, s: System, at: int)
    requires Refines(env, s)
    ensures Refines(env, s.(early := IdsOf(s.logged), wal := LogStep(env.codec, s.wal, CheckpointNow(at))))
  {
    hide Filter;
    var w := LogStep(env.codec, s.wal, CheckpointNow(at));
    assert Since(w.log) == [];
    FilterNone(IdNotIn(Id(), IdsOf(s.logged)), s.logged);
  }

  lemma RefinesStep(env: Env, s: System, ev: Event)
    requires env.Valid() && Refines(env, s)
    requires ev.Store? ==> forall x :: x in s.logged ==> x.id != ev.m.id
    ensures Refines(env, Step(env, s, ev))
  {
    hide Refines, LogStep, Filter, StoreRefusal, DeleteRefusal;
    match ev
    case Store(m, _, _) => RefinesStore(env, s, m);
    case Delete(id, recipient, at) =>
      if DeleteRefusal(s.live, id, recipient).None? { RefinesDelete(env, s, id, recipient, at); }
    case Expire(now) => RefinesExpire(env, s, now);
    case Checkpoint(at) => RefinesCheckpoint(env, s, at);
  }

  /** No event ran an expiry pass later than `t`. */
  ghost predicate ExpiriesBy(events: seq<Event>, t: int) {
    forall i | 0 <= i < |events| :: events[i].Expire? ==> events[i].now <= t
  }

  /** What expiry removed is still expired at any later time. */
  ghost predicate GoneExpired(s: System, t: int) {
    forall m :: m in s.logged && m.id in s.gone ==> IsExpired(m, t)
  }

  lemma GoneStep(env: Env, s: System, ev: Event, t: int)
    requires Refines(env, s) && GoneExpired(s, t)
    requires ev.Store? ==> forall x :: x in s.logged ==> x.id != ev.m.id
    requires ev.Expire? ==> ev.now <= t
    ensures GoneExpired(Step(env, s, ev), t)
  {
    hide Replay, ReplaySound, Filter, LogStep, StoreRefusal, DeleteRefusal, Since;
    if ev.Delete? { FilterMembers(IdNotIn(Id(), {ev.id}), s.logged); }
    if ev.Expire? {
      FilterMembers(IdNotIn(Id(), s.gone), s.logged);
      forall x | x in s.logged && x.id in ExpiredIds(s.live, ev.now) ensures IsExpired(x, t) {
        var m :| m in s.live && IsExpired(m, ev.now) && m.id == x.id;
        SameIdSameMessage(s.logged, x, m);
      }
    }
  }

  lemma RefinesEmpty(env: Env)
    ensures Refines(env, EMPTY)
  {
  }

  lemma {:induction false} RunRefines(env: Env, events: seq<Event>, t: int)
    requires env.Valid() && Fresh(env, events) && ExpiriesBy(events, t)
    ensures Refines(env, Run(env, events)) && GoneExpired(Run(env, events), t)
  {
    hide Refines, GoneExpired, Step;
    if events == [] {
      RefinesEmpty(env);
      assert GoneExpired(EMPTY, t) by { NothingGoneYet(t); }
    } else {
      var before, ev := events[..|events| - 1], events[|events| - 1];
      RunRefines(env, before, t);
      RefinesStep(env, Run(env, before), ev);
      GoneStep(env, Run(env, before), ev, t);
    }
  }

  lemma NothingGoneYet(t: int)
    ensures GoneExpired(EMPTY, t)
  {
  }

  // ----- The theorems -----

  /** How recovery relates to the live store: apart from what was stored before the last checkpoint, every live
      message is restored in order, and the only extras are messages that expiry had removed. After one later
      expiry pass the stores are equal exactly when no unexpired live message is older than the checkpoint. */
  ghost predicate Restores(s: System, r: seq<AsyncMessage>, t: int) {
    && Filter(IdNotIn(Id(), s.gone), r) == Filter(IdNotIn(Id(), s.early), s.live)
    && (forall m :: m in r && m !in s.live ==> m.id in s.gone && IsExpired(m, t))
    && (Filter(Unexpired(t), r) == Filter(Unexpired(t), s.live) <==>
          forall m :: m in s.live && !IsExpired(m, t) ==> m.id !in s.early)
    && (s.gone == {} ==> (r == s.live <==> forall m :: m in s.live ==> m.id !in s.early))
  }

  lemma RefinedRestores(q: seq<AsyncMessage>, s: System, r: seq<AsyncMessage>, t: int)
    requires s.logged == q && s.live == Filter(IdNotIn(Id(), s.gone), q) && r == Filter(IdNotIn(Id(), s.early), q)
    requires GoneExpired(s, t)
    ensures Restores(s, r, t)
  {
    hide Filter;
    FilterCommutes(IdNotIn(Id(), s.gone), IdNotIn(Id(), s.early), q);
    FilterMembers(IdNotIn(Id(), s.gone), q);
    FilterMembers(IdNotIn(Id(), s.early), q);
    LaterPass(q, s, r, t);
    if s.gone == {} {
      FilterAll(IdNotIn(Id(), s.gone), q);
      if forall m :: m in s.live ==> m.id !in s.early { FilterAll(IdNotIn(Id(), s.early), q); }
    }
  }

  lemma LaterPass(q: seq<AsyncMessage>, s: System, r: seq<AsyncMessage>, t: int)
    requires s.logged == q && s.live == Filter(IdNotIn(Id(), s.gone), q) && r == Filter(IdNotIn(Id(), s.early), q)
    requires GoneExpired(s, t)
    ensures Filter(Unexpired(t), r) == Filter(Unexpired(t), s.live) <==>
      forall m :: m in s.live && !IsExpired(m, t) ==> m.id !in s.early
  {
    hide Filter;
    FilterTwice(Unexpired(t), IdNotIn(Id(), s.gone), Unexpired(t), q);
    FilterMembers(IdNotIn(Id(), s.gone), q);
    FilterMembers(IdNotIn(Id(), s.early), q);
    FilterMembers(Unexpired(t), r);
    FilterMembers(Unexpired(t), s.live);
    if forall m :: m in s.live && !IsExpired(m, t) ==> m.id !in s.early {
      FilterTwice(Unexpired(t), IdNotIn(Id(), s.early), Unexpired(t), q);
    }
    if m :| m in s.live && !IsExpired(m, t) && m.id in s.early {
      assert m in Filter(Unexpired(t), s.live) && m !in Filter(Unexpired(t), r);
    }
  }

  /** For every run, checkpoints included, recovery from the whole log. */
  lemma ReplayRestoresLive(env: Env, events: seq<Event>, t: int)
    requires env.Valid() && Fresh(env, events) && |events| < U64 && ExpiriesBy(events, t)
    ensures Restores(Run(env, events), Recovered(env, Run(env, events).wal.log), t)
    ensures Uncommitted(Run(env, events).wal.log) == Since(Run(env, events).wal.log)
  {
    hide Replay, ReplaySound, Filter, LogStep, Run, Fresh, Since, Restores, Numbered;
    var s := Run(env, events);
    RunNumbered(env, events);
    RunRefines(env, events, t);
    RecoveryIsSinceCheckpoint(s.wal.log, s.wal.sequence);
    RefinedRestores(s.logged, s, Replay(env.serializer, [], Since(s.wal.log)), t);
  }

  /** Without checkpoints nothing is early, and without expiry passes nothing is gone. */
  lemma {:induction false} QuietRun(env: Env, events: seq<Event>)
    ensures (forall ev :: ev in events ==> !ev.Checkpoint?) ==> Run(env, events).early == {}
    ensures (forall ev :: ev in events ==> !ev.Expire?) ==> Run(env, events).gone == {}
  {
    hide LogStep, Filter, StoreRefusal, DeleteRefusal;
    if events != [] {
      assert events[|events| - 1] in events;
      assert forall ev :: ev in events[..|events| - 1] ==> ev in events;
      QuietRun(env, events[..|events| - 1]);
    }
  }

  /** Without a checkpoint every live message comes back, in order; one later expiry pass makes the stores equal,
      and without expiry passes they are equal at once. */
  lemma NoCheckpointRestoresAll(env: Env, events: seq<Event>, t: int)
    requires env.Valid() && Fresh(env, events) && |events| < U64 && ExpiriesBy(events, t)
    requires forall ev :: ev in events ==> !ev.Checkpoint?
    ensures
      var s := Run(env, events);
      var r := Recovered(env, s.wal.log);
      && s.live == Filter(IdNotIn(Id(), s.gone), r)
      && Filter(Unexpired(t), r) == Filter(Unexpired(t), s.live)
      && ((forall ev :: ev in events ==> !ev.Expire?) ==> r == s.live)
  {
    hide Run, Fresh, Recovered, Filter, Uncommitted, Since;
    ReplayRestoresLive(env, events, t);
    QuietRun(env, events);
    FilterAll(IdNotIn(Id(), {}), Run(env, events).live);
  }

  /** Right after a checkpoint, which recovery itself writes, the live messages come back exactly when there are
      none. */
  lemma CheckpointedRestoresIffEmpty(env: Env, events: seq<Event>, at: int)
    requires |events| < U64
    ensures
      var s := Run(env, events);
      Recovered(env, LogStep(env.codec, s.wal, CheckpointNow(at)).log) == s.live <==> s.live == []
  {
    hide Run, Filter, LogStep, Numbered;
    var w := Run(env, events).wal;
    RunNumbered(env, events);
    NumberedOrdered(w.log, w.sequence);
    CheckpointForgets(env.codec, w, at);
  }

  /** Each length of the log is reached after some prefix of the run. */
  lemma {:induction false} PrefixWithLog(env: Env, events: seq<Event>, j: nat) returns (n: nat)
    requires |events| < U64 && j <= |Run(env, events).wal.log|
    ensures n <= |events| && Run(env, events[..n]).wal.log == Run(env, events).wal.log[..j]
    ensures j == |Run(env, events).wal.log| ==> n == |events|
  {
    hide Step, Numbered;
    var log := Run(env, events).wal.log;
    if j == |log| {
      n := |events|;
      assert events[..n] == events && log[..j] == log;
    } else {
      var before, ev := events[..|events| - 1], events[|events| - 1];
      RunNumbered(env, before);
      NumberedStep(env, Run(env, before), ev);
      n := PrefixWithLog(env, before, j);
      assert before[..n] == events[..n];
      assert Run(env, before).wal.log[..j] == log[..j];
    }
  }

  lemma {:induction false} FreshPrefix(env: Env, events: seq<Event>, n: nat)
    requires Fresh(env, events) && n <= |events|
    ensures Fresh(env, events[..n])
    decreases |events|
  {
    if n == |events| {
      assert events[..n] == events;
    } else {
      assert events[..|events| - 1][..n] == events[..n];
      FreshPrefix(env, events[..|events| - 1], n);
    }
  }

  /** A crash may cut the log file at any byte, and records may be too large to read back. Recovery always gives
      the state after some prefix of the run; after the whole run, if nothing was cut and every record fits. */
  lemma CrashAnywhere(env: Env, events: seq<Event>, cut: nat, t: int) returns (n: nat)
    requires env.Valid() && Fresh(env, events) && |events| < U64 && ExpiriesBy(events, t)
    requires cut <= |Frames(env.codec, Run(env, events).wal.log)|
    ensures n <= |events|
    ensures
      var log := Run(env, events).wal.log;
      var file := Frames(env.codec, log);
      && Restores(Run(env, events[..n]), Recovered(env, ReadAll(env.codec, file[..cut])), t)
      && ReadAll(env.codec, file[..cut]) == Run(env, events[..n]).wal.log
      && (cut == |file| && AllFit(env.codec, log) ==> n == |events|)
  {
    hide Run, Fresh, Frames, ReadAll, Recovered, Restores, Surviving, Readable, Numbered;
    var log := Run(env, events).wal.log;
    RunNumbered(env, events);
    CutLogReadsPrefix(env.codec, log, cut);
    WholeLogSurvives(env.codec, log, cut);
    n := PrefixWithLog(env, events, Surviving(env.codec, log, cut));
    FreshPrefix(env, events, n);
    assert ExpiriesBy(events[..n], t);
    ReplayRestoresLive(env, events[..n], t);
  }

  lemma WholeLogSurvives(c: Codec, log: seq<Entry>, cut: nat)
    requires c.Valid() && AllSealed(c, log) && cut <= |Frames(c, log)|
    ensures cut == |Frames(c, log)| && AllFit(c, log) ==> Surviving(c, log, cut) == |log|
  {
    if cut == |Frames(c, log)| {
      LogReadsBack(c, log);
      AllFramesWhole(c, log);
    }
  }

  lemma {:induction false} AllFramesWhole(c: Codec, log: seq<Entry>)
    ensures WholeFrames(c, log, |Frames(c, log)|) == |log|
  {
    if log != [] { AllFramesWhole(c, log[1..]); }
  }

  /** What the restart after a crash needs to know about the entries it reads back. */
  lemma CutLogIsSound(env: Env, events: seq<Event>, t: int)
    requires env.Valid() && Fresh(env, events) && |events| < U64 && ExpiriesBy(events, t)
    ensures
      var log := Run(env, events).wal.log;
      && Increasing(Filter(IsPending(), log))
      && ReplaySound(env.serializer, [], Uncommitted(log))
  {
    hide Run, Fresh, Filter, ReplaySound, Uncommitted, Since, Numbered;
    var w := Run(env, events).wal;
    RunNumbered(env, events);
    RunRefines(env, events, t);
    RecoveryIsSinceCheckpoint(w.log, w.sequence);
    NumberedOrdered(w.log, w.sequence);
  }

  /** Restarting on a log file that a crash cut at any byte: the new store files what recovery gives for some
      prefix `n` of the run, table and index agreeing. */
  method Restart(codec: Codec, serializer: Serializer, em: EpochManager, capacity: int, perRecipient: int,
                 file: seq<Byte>, now: int, ghost events: seq<Event>, ghost t: int)
    returns (store: MessageStorage, ghost n: nat)
    requires em.Valid()
    requires Env(codec, serializer).Valid() && Fresh(Env(codec, serializer), events) && |events| < U64
    requires ExpiriesBy(events, t)
    requires file <= Frames(codec, Run(Env(codec, serializer), events).wal.log)
    ensures store.LegacyFiled() && n <= |events|
    ensures Restores(Run(Env(codec, serializer), events[..n]), store.arrivals, t)
  {
    hide Run, Fresh, Frames, ReadAll, Filter, ReplaySound, Filed, FiledObf, Ordered;
    hide Replay, LogStep, Restores, Uncommitted;
    ghost var env := Env(codec, serializer);
    ghost var whole := Frames(codec, Run(env, events).wal.log);
    assert file == whole[..|file|];
    n := CrashAnywhere(env, events, |file|, t);
    FreshPrefix(env, events, n);
    assert ExpiriesBy(events[..n], t);
    CutLogIsSound(env, events[..n], t);
    var wal := new WriteAheadLog(codec, file, now);
    store := new MessageStorage.Fresh(em, serializer, capacity, perRecipient, wal);
    var _ := store.RecoverFromWal(now);
  }
}
