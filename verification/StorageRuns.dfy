/** Runs of the message store: capacity, and how long an obfuscated message stays retrievable. */
module StorageRuns {
  import opened Common
  import opened Grouping
  import opened Epochs
  import opened Wal
  import opened StoreSpec
  import opened Storage

  /** Limits that stay fixed over a run; the recipient limit is positive by construction. */
  datatype Config = Config(capacity: nat, dynamic: bool, perRecipient: int, em: EpochManager)
  {
    function Limit(): int {
      RecipientLimit(dynamic, perRecipient)
    }
  }

  datatype State = State(legacy: seq<AsyncMessage>, obf: seq<ObfuscatedMessage>)

  datatype Event =
    | StoreLegacy(m: AsyncMessage)
    | DeleteLegacy(id: MessageId, recipient: PublicKey)
    | StoreObf(om: ObfuscatedMessage, now: int)
    | DeleteObf(obfId: nat, pseudonym: PublicKey)
    | ExpireAll(now: int)
    | DropOldEpochs(now: int)

  /** Each case is the contract of the store method of that name. `legacy` counts arrivals: it is the code's table
      as long as drawn identifiers are new. */
  ghost function Step(cfg: Config, s: State, ev: Event): State
    requires cfg.em.Valid()
  {
    match ev
    case StoreLegacy(m) =>
      if StoreRefusal(s.legacy, cfg.capacity, cfg.Limit(), m.recipient, |m.encryptedData|).Some? then s
      else s.(legacy := s.legacy + [m])
    case DeleteLegacy(id, recipient) =>
      if DeleteRefusal(s.legacy, id, recipient).Some? then s else s.(legacy := Without(s.legacy, id))
    case StoreObf(m, now) =>
      if ObfRefusal(s.obf, |s.legacy|, cfg.capacity, cfg.Limit(), cfg.em, m, now).Some? then s
      else s.(obf := s.obf + [m])
    case DeleteObf(id, p) =>
      if exists m :: m in s.obf && m.id == id && m.pseudonym == p then s.(obf := ObfWithout(s.obf, id)) else s
    case ExpireAll(now) =>
      State(Filter(Unexpired(now), s.legacy), Filter(ObfUnexpired(now), s.obf))
    case DropOldEpochs(now) =>
      s.(obf := Filter(RecentEnough(cfg.em.EpochAt(now)), s.obf))
  }

  ghost function Run(cfg: Config, s: State, events: seq<Event>): State
    requires cfg.em.Valid()
  {
    if events == [] then s
    else Step(cfg, Run(cfg, s, events[..|events| - 1]), events[|events| - 1])
  }

  // ----- Capacity -----

  ghost predicate WithinLimits(cfg: Config, s: State) {
    && |s.legacy| <= cfg.capacity && |s.obf| <= cfg.capacity
    && (forall r :: |ForRecipient(s.legacy, r)| <= cfg.Limit())
    && (forall p :: |ForPseudonym(s.obf, p)| <= cfg.Limit())
  }

  lemma DropKeepsLimits(cfg: Config, s: State, keep: AsyncMessage -> bool, obfKeep: ObfuscatedMessage -> bool)
    requires WithinLimits(cfg, s)
    ensures WithinLimits(cfg, State(Filter(keep, s.legacy), Filter(obfKeep, s.obf)))
    ensures WithinLimits(cfg, State(Filter(keep, s.legacy), s.obf))
    ensures WithinLimits(cfg, State(s.legacy, Filter(obfKeep, s.obf)))
  {
    hide Filter;
    forall r ensures |ForRecipient(Filter(keep, s.legacy), r)| <= cfg.Limit() {
      FilterCommutes(HasKey(Recipient(), r), keep, s.legacy);
      assert |Filter(keep, ForRecipient(s.legacy, r))| <= |ForRecipient(s.legacy, r)|;
    }
    forall p ensures |ForPseudonym(Filter(obfKeep, s.obf), p)| <= cfg.Limit() {
      FilterCommutes(HasKey(Pseudonym(), p), obfKeep, s.obf);
      assert |Filter(obfKeep, ForPseudonym(s.obf, p))| <= |ForPseudonym(s.obf, p)|;
    }
  }

  lemma StoreKeepsLimits(cfg: Config, s: State, ev: Event)
    requires cfg.em.Valid() && WithinLimits(cfg, s) && (ev.StoreLegacy? || ev.StoreObf?)
    ensures WithinLimits(cfg, Step(cfg, s, ev))
  {
    hide Filter;
    if ev.StoreLegacy? {
      forall r ensures |ForRecipient(s.legacy + [ev.m], r)| <=
        |ForRecipient(s.legacy, r)| + (if r == ev.m.recipient then 1 else 0)
      {
        FilterSnoc(HasKey(Recipient(), r), s.legacy, ev.m);
      }
    } else {
      forall p ensures |ForPseudonym(s.obf + [ev.om], p)| <=
        |ForPseudonym(s.obf, p)| + (if p == ev.om.pseudonym then 1 else 0)
      {
        FilterSnoc(HasKey(Pseudonym(), p), s.obf, ev.om);
      }
    }
  }

  lemma StepKeepsLimits(cfg: Config, s: State, ev: Event)
    requires cfg.em.Valid() && WithinLimits(cfg, s)
    ensures WithinLimits(cfg, Step(cfg, s, ev))
  {
    hide Filter, WithinLimits;
    match ev
    case StoreLegacy(_) => StoreKeepsLimits(cfg, s, ev);
    case StoreObf(_, _) => StoreKeepsLimits(cfg, s, ev);
    case DeleteLegacy(id, _) => DropKeepsLimits(cfg, s, IdNotIn(Id(), {id}), ObfUnexpired(0));
    case DeleteObf(id, _) => DropKeepsLimits(cfg, s, Unexpired(0), IdNotIn(ObfId(), {id}));
    case ExpireAll(now) => DropKeepsLimits(cfg, s, Unexpired(now), ObfUnexpired(now));
    case DropOldEpochs(now) => DropKeepsLimits(cfg, s, Unexpired(0), RecentEnough(cfg.em.EpochAt(now)));
  }

  /** From an empty store every run keeps both tables, every recipient and every pseudonym within
      their limits, and so never holds more than twice the capacity. */
  lemma {:induction false} RunWithinLimits(cfg: Config, events: seq<Event>)
    requires cfg.em.Valid()
    ensures
      var s := Run(cfg, State([], []), events);
      WithinLimits(cfg, s) && |s.legacy| + |s.obf| <= 2 * cfg.capacity
  {
    if events != [] {
      RunWithinLimits(cfg, events[..|events| - 1]);
      hide Step;
      StepKeepsLimits(cfg, Run(cfg, State([], []), events[..|events| - 1]), events[|events| - 1]);
    }
  }

  /** An accepted obfuscated store leaves the total within the capacity; an accepted legacy store does so
      exactly when the total was below it, because the legacy check counts legacy messages only. */
  lemma TotalAfterStore(cfg: Config, s: State, ev: Event)
    requires cfg.em.Valid() && Step(cfg, s, ev) != s
    ensures
      var s' := Step(cfg, s, ev);
      && (ev.StoreObf? ==> |s'.legacy| + |s'.obf| <= cfg.capacity)
      && (ev.StoreLegacy? ==>
            (|s'.legacy| + |s'.obf| <= cfg.capacity <==> |s.legacy| + |s.obf| < cfg.capacity))
  {
    hide Filter;
  }

  ghost function ObfuscatedAt(i: nat, epoch: Epoch, now: int): ObfuscatedMessage {
    ObfuscatedMessage(i, i, epoch, [0], now, [])
  }

  ghost function LegacyAt(i: nat, now: int): AsyncMessage {
    AsyncMessage(i, i, 0, [0], now, 0, 0)
  }

  /** `n` acceptable obfuscated messages, each under its own pseudonym. */
  ghost function Obfuscated(n: nat, epoch: Epoch, now: int): (q: seq<ObfuscatedMessage>)
    ensures |q| == n && forall m :: m in q ==> m.id < n && m.pseudonym < n
  {
    if n == 0 then [] else Obfuscated(n - 1, epoch, now) + [ObfuscatedAt(n - 1, epoch, now)]
  }

  /** `n` acceptable legacy messages, each to its own recipient. */
  ghost function Legacy(n: nat, now: int): (q: seq<AsyncMessage>)
    ensures |q| == n && forall m :: m in q ==> m.recipient < n
  {
    if n == 0 then [] else Legacy(n - 1, now) + [LegacyAt(n - 1, now)]
  }

  lemma StepLast(cfg: Config, events: seq<Event>, ev: Event)
    requires cfg.em.Valid()
    ensures Run(cfg, State([], []), events + [ev]) == Step(cfg, Run(cfg, State([], []), events), ev)
  {
    assert (events + [ev])[..|events|] == events;
  }

  lemma ObfuscatedAccepted(cfg: Config, n: nat, now: int)
    requires cfg.em.Valid() && n < cfg.capacity
    ensures
      var epoch := cfg.em.EpochAt(now);
      Step(cfg, State([], Obfuscated(n, epoch, now)), StoreObf(ObfuscatedAt(n, epoch, now), now)) ==
        State([], Obfuscated(n + 1, epoch, now))
  {
    hide Filter, EpochManager.EpochAt;
    var epoch := cfg.em.EpochAt(now);
    FilterNone(HasKey(Pseudonym(), n), Obfuscated(n, epoch, now));
    assert ForPseudonym(Obfuscated(n, epoch, now), n) == [];
    assert ObfRefusal(Obfuscated(n, epoch, now), 0, cfg.capacity, cfg.Limit(), cfg.em,
                      ObfuscatedAt(n, epoch, now), now) == None;
    hide ObfRefusal;
  }

  lemma LegacyAccepted(cfg: Config, n: nat, now: int, obf: seq<ObfuscatedMessage>)
    requires cfg.em.Valid() && n < cfg.capacity
    ensures Step(cfg, State(Legacy(n, now), obf), StoreLegacy(LegacyAt(n, now))) == State(Legacy(n + 1, now), obf)
  {
    hide Filter;
    FilterNone(HasKey(Recipient(), n), Legacy(n, now));
    assert ForRecipient(Legacy(n, now), n) == [];
    assert StoreRefusal(Legacy(n, now), cfg.capacity, cfg.Limit(), n, 1) == None;
    hide StoreRefusal;
  }

  lemma {:induction false} FillObfuscated(cfg: Config, n: nat, now: int) returns (events: seq<Event>)
    requires cfg.em.Valid() && n <= cfg.capacity
    ensures Run(cfg, State([], []), events) == State([], Obfuscated(n, cfg.em.EpochAt(now), now))
  {
    hide Step, EpochManager.EpochAt;
    if n == 0 {
      events := [];
    } else {
      hide *;
      var before := FillObfuscated(cfg, n - 1, now);
      var ev := StoreObf(ObfuscatedAt(n - 1, cfg.em.EpochAt(now), now), now);
      events := before + [ev];
      StepLast(cfg, before, ev);
      ObfuscatedAccepted(cfg, n - 1, now);
    }
  }

  lemma {:induction false} FillLegacy(cfg: Config, n: nat, now: int) returns (events: seq<Event>)
    requires cfg.em.Valid() && n <= cfg.capacity
    ensures Run(cfg, State([], []), events) ==
      State(Legacy(n, now), Obfuscated(cfg.capacity, cfg.em.EpochAt(now), now))
  {
    hide Run, Step, Obfuscated, EpochManager.EpochAt;
    if n == 0 {
      events := FillObfuscated(cfg, cfg.capacity, now);
    } else {
      hide *;
      var before := FillLegacy(cfg, n - 1, now);
      var ev := StoreLegacy(LegacyAt(n - 1, now));
      events := before + [ev];
      StepLast(cfg, before, ev);
      LegacyAccepted(cfg, n - 1, now, Obfuscated(cfg.capacity, cfg.em.EpochAt(now), now));
    }
  }

  /** Under every capacity, limit and clock, some run fills the store with obfuscated messages and then once more
      with legacy ones, up to twice the capacity. */
  lemma TotalCanReachTwiceCapacity(cfg: Config, now: int) returns (events: seq<Event>)
    requires cfg.em.Valid()
    ensures
      var s := Run(cfg, State([], []), events);
      |s.obf| == |s.legacy| == cfg.capacity && |s.legacy| + |s.obf| == 2 * cfg.capacity
  {
    events := FillLegacy(cfg, cfg.capacity, now);
  }

  // ----- What is accepted -----

  ghost function HasRecipient(r: PublicKey): AsyncMessage -> bool { (m: AsyncMessage) => m.recipient == r }
  ghost function HasPseudonym(p: PublicKey): ObfuscatedMessage -> bool { (m: ObfuscatedMessage) => m.pseudonym == p }

  /** Without a positive dynamic limit, a recipient or pseudonym may have a hundred messages. */
  lemma LimitIs(cfg: Config)
    ensures cfg.Limit() == if cfg.dynamic && cfg.perRecipient >= 1 then cfg.perRecipient else 100
  {
  }

  lemma CountForIs(q: seq<AsyncMessage>, r: PublicKey)
    ensures ForRecipient(q, r) == Filter(HasRecipient(r), q)
  {
    FilterCong(HasKey(Recipient(), r), HasRecipient(r), q);
  }

  lemma ObfCountForIs(q: seq<ObfuscatedMessage>, p: PublicKey)
    ensures ForPseudonym(q, p) == Filter(HasPseudonym(p), q)
  {
    FilterCong(HasKey(Pseudonym(), p), HasPseudonym(p), q);
  }

  /** A legacy message is stored exactly when it has 1 to 1388 bytes, there is room for a legacy message, and its
      recipient is below the limit; the first of these that fails names the error. */
  lemma LegacyAcceptedIff(cfg: Config, s: State, m: AsyncMessage)
    requires cfg.em.Valid()
    ensures
      var fits := 1 <= |m.encryptedData| <= 1388;
      var room := |s.legacy| < cfg.capacity;
      var below := |Filter(HasRecipient(m.recipient), s.legacy)| < cfg.Limit();
      var r := StoreRefusal(s.legacy, cfg.capacity, cfg.Limit(), m.recipient, |m.encryptedData|);
      && (m in Step(cfg, s, StoreLegacy(m)).legacy[|s.legacy|..] <==> fits && room && below)
      && (r == Some(EmptyMessage) <==> m.encryptedData == [])
      && (r == Some(MessageTooLong) <==> |m.encryptedData| >= 1389)
      && (r == Some(StorageFull) <==> fits && !room)
      && (r == Some(TooManyForRecipient) <==> fits && room && !below)
  {
    hide Filter;
    CountForIs(s.legacy, m.recipient);
  }

  /** An obfuscated message is stored exactly when it is from the current or one of the three epochs before, has not
      expired, has 1 to 1388 bytes, both kinds together leave room, its pseudonym is below the limit, and its
      identifier is new; the first of these that fails names the error. */
  lemma ObfAcceptedIff(cfg: Config, s: State, m: ObfuscatedMessage, now: int)
    requires cfg.em.Valid()
    ensures
      var current := m.epoch <= cfg.em.EpochAt(now) <= m.epoch + 3;
      var alive := current && now <= m.expiresAt;
      var fits := alive && 1 <= |m.payload| <= 1388;
      var room := fits && |s.legacy| + |s.obf| < cfg.capacity;
      var below := room && |Filter(HasPseudonym(m.pseudonym), s.obf)| < cfg.Limit();
      var known := exists x :: x in s.obf && x.id == m.id;
      var r := ObfRefusal(s.obf, |s.legacy|, cfg.capacity, cfg.Limit(), cfg.em, m, now);
      && (m in Step(cfg, s, StoreObf(m, now)).obf[|s.obf|..] <==> below && !known)
      && (r == Some(InvalidEpoch) <==> !current)
      && (r == Some(AlreadyExpired) <==> current && !alive)
      && (r == Some(EmptyMessage) <==> alive && m.payload == [])
      && (r == Some(MessageTooLong) <==> alive && |m.payload| >= 1389)
      && (r == Some(StorageFull) <==> fits && !room)
      && (r == Some(TooManyForRecipient) <==> room && !below)
      && (r == Some(DuplicateId) <==> below && known)
  {
    hide Filter, EpochManager.EpochAt;
    ObfCountForIs(s.obf, m.pseudonym);
  }

  // ----- Retention of obfuscated messages -----

  /** The event takes message `m` out of the store. */
  ghost predicate Removes(em: EpochManager, ev: Event, m: ObfuscatedMessage)
    requires em.Valid()
  {
    match ev
    case DeleteObf(id, p) => id == m.id && p == m.pseudonym
    case ExpireAll(now) => now > m.expiresAt
    case DropOldEpochs(now) => em.EpochAt(now) > m.epoch + 3
    case _ => false
  }

  /** The event stores message `m`: a second store of the identifier is refused. */
  ghost predicate Accepts(cfg: Config, s: State, ev: Event, m: ObfuscatedMessage)
    requires cfg.em.Valid()
  {
    && ev.StoreObf? && ev.om == m
    && ObfRefusal(s.obf, |s.legacy|, cfg.capacity, cfg.Limit(), cfg.em, m, ev.now).None?
  }

  /** After any event a message is stored exactly when it was and the event does not remove it, or the event
      stores it. Identifiers stay unique. */
  lemma StepRetains(cfg: Config, s: State, ev: Event, m: ObfuscatedMessage)
    requires cfg.em.Valid() && Unique(ObfId(), s.obf)
    ensures Unique(ObfId(), Step(cfg, s, ev).obf)
    ensures m in Step(cfg, s, ev).obf <==> (m in s.obf && !Removes(cfg.em, ev, m)) || Accepts(cfg, s, ev, m)
  {
    hide Filter;
    match ev
    case StoreLegacy(_) =>
    case DeleteLegacy(_, _) =>
    case StoreObf(x, now) => StoreObfUnique(cfg, s, x, now);
    case DeleteObf(id, p) =>
      UniqueFilter(ObfId(), IdNotIn(ObfId(), {id}), s.obf);
      FilterMember(IdNotIn(ObfId(), {id}), s.obf, m);
      if m in s.obf && id == m.id && (exists x :: x in s.obf && x.id == id && x.pseudonym == p) {
        var x :| x in s.obf && x.id == id && x.pseudonym == p;
        ObfSameIdSameMessage(s.obf, x, m);
      }
    case ExpireAll(now) =>
      UniqueFilter(ObfId(), ObfUnexpired(now), s.obf);
      FilterMember(ObfUnexpired(now), s.obf, m);
    case DropOldEpochs(now) =>
      UniqueFilter(ObfId(), RecentEnough(cfg.em.EpochAt(now)), s.obf);
      FilterMember(RecentEnough(cfg.em.EpochAt(now)), s.obf, m);
  }

  lemma StoreObfUnique(cfg: Config, s: State, x: ObfuscatedMessage, now: int)
    requires cfg.em.Valid() && Unique(ObfId(), s.obf)
    ensures Unique(ObfId(), Step(cfg, s, StoreObf(x, now)).obf)
  {
    hide Filter;
    if ObfRefusal(s.obf, |s.legacy|, cfg.capacity, cfg.Limit(), cfg.em, x, now).None? {
      forall i | 0 <= i < |s.obf| ensures ObfId()(s.obf[i]) != x.id { assert s.obf[i] in s.obf; }
    }
  }

  /** Event `i` of a run from the empty store stores `m`. */
  ghost predicate AcceptedAt(cfg: Config, events: seq<Event>, i: nat, m: ObfuscatedMessage)
    requires cfg.em.Valid()
  {
    i < |events| && Accepts(cfg, Run(cfg, State([], []), events[..i]), events[i], m)
  }

  ghost predicate KeptSince(em: EpochManager, events: seq<Event>, i: nat, m: ObfuscatedMessage)
    requires em.Valid()
  {
    forall j | i < j < |events| :: !Removes(em, events[j], m)
  }

  /** Over every run, submitting an identifier again or not, a message is stored exactly when some event stored
      it and no later event removes it. */
  lemma {:induction false} RunRetains(cfg: Config, events: seq<Event>, m: ObfuscatedMessage)
    requires cfg.em.Valid()
    ensures Unique(ObfId(), Run(cfg, State([], []), events).obf)
    ensures m in Run(cfg, State([], []), events).obf <==>
      exists i: nat :: AcceptedAt(cfg, events, i, m) && KeptSince(cfg.em, events, i, m)
  {
    if events != [] {
      hide Step, Removes, Accepts;
      var before, ev := events[..|events| - 1], events[|events| - 1];
      RunRetains(cfg, before, m);
      StepRetains(cfg, Run(cfg, State([], []), before), ev, m);
      RetainedFrom(cfg, events, m);
    }
  }

  /** Where the last event leaves the condition of `RunRetains`. */
  lemma RetainedFrom(cfg: Config, events: seq<Event>, m: ObfuscatedMessage)
    requires cfg.em.Valid() && events != []
    ensures
      var before, ev := events[..|events| - 1], events[|events| - 1];
      (exists i: nat :: AcceptedAt(cfg, events, i, m) && KeptSince(cfg.em, events, i, m)) <==>
        || ((exists i: nat :: AcceptedAt(cfg, before, i, m) && KeptSince(cfg.em, before, i, m))
            && !Removes(cfg.em, ev, m))
        || Accepts(cfg, Run(cfg, State([], []), before), ev, m)
  {
    hide Run, Removes, Accepts;
    var before, ev := events[..|events| - 1], events[|events| - 1];
    assert forall i | 0 <= i < |before| :: before[i] == events[i] && before[..i] == events[..i];
    if i: nat :| AcceptedAt(cfg, events, i, m) && KeptSince(cfg.em, events, i, m) && i < |before| {
      assert AcceptedAt(cfg, before, i, m) && KeptSince(cfg.em, before, i, m);
    }
    if !Removes(cfg.em, ev, m) {
      if i: nat :| AcceptedAt(cfg, before, i, m) && KeptSince(cfg.em, before, i, m) {
        assert AcceptedAt(cfg, events, i, m) && KeptSince(cfg.em, events, i, m);
      }
    }
    if Accepts(cfg, Run(cfg, State([], []), before), ev, m) {
      assert AcceptedAt(cfg, events, |before|, m) && KeptSince(cfg.em, events, |before|, m);
    }
  }

  /** No event happens after `now`. */
  ghost predicate NotAfter(events: seq<Event>, now: int) {
    forall ev :: ev in events && (ev.StoreObf? || ev.ExpireAll? || ev.DropOldEpochs?) ==> ev.now <= now
  }

  /** After event `i` the message is neither deleted nor caught by an expiry pass. */
  ghost predicate LeftAlone(events: seq<Event>, i: nat, m: ObfuscatedMessage) {
    forall j | i < j < |events| ::
      && (events[j].DeleteObf? ==> events[j].obfId != m.id || events[j].pseudonym != m.pseudonym)
      && (events[j].ExpireAll? ==> events[j].now <= m.expiresAt)
  }

  /** After every run, an obfuscated message is in the recent-epoch retrieval of its pseudonym exactly when it is
      not more than three epochs old and some event stored it, after which it was not deleted and no expiry pass
      ran past its expiry time: old-epoch cleanup never takes a retrievable message. */
  lemma AcceptedIsRetrievable(cfg: Config, events: seq<Event>, m: ObfuscatedMessage, now: int)
    requires cfg.em.Valid() && NotAfter(events, now)
    ensures m in Recent(Run(cfg, State([], []), events).obf, cfg.em, m.pseudonym, now) <==>
      && cfg.em.EpochAt(now) <= m.epoch + 3
      && exists i: nat :: AcceptedAt(cfg, events, i, m) && LeftAlone(events, i, m)
  {
    hide Filter, Run, EpochManager.EpochAt;
    RunRetains(cfg, events, m);
    FilterMember(IsRecent(cfg.em, m.pseudonym, now), Run(cfg, State([], []), events).obf, m);
    forall i: nat | AcceptedAt(cfg, events, i, m) && cfg.em.EpochAt(now) <= m.epoch + 3
      ensures m.epoch <= cfg.em.EpochAt(now)
      ensures KeptSince(cfg.em, events, i, m) <==> LeftAlone(events, i, m)
    {
      StoredInTime(cfg, events, i, m, now);
    }
    if i: nat :| AcceptedAt(cfg, events, i, m) && KeptSince(cfg.em, events, i, m) {
      assert cfg.em.EpochAt(now) <= m.epoch + 3 ==> LeftAlone(events, i, m);
    }
  }

  /** Until the message is too old, only a deletion or an expiry pass removes it. */
  lemma StoredInTime(cfg: Config, events: seq<Event>, i: nat, m: ObfuscatedMessage, now: int)
    requires cfg.em.Valid() && NotAfter(events, now) && AcceptedAt(cfg, events, i, m)
    requires cfg.em.EpochAt(now) <= m.epoch + 3
    ensures m.epoch <= cfg.em.EpochAt(now)
    ensures KeptSince(cfg.em, events, i, m) <==> LeftAlone(events, i, m)
  {
    hide Run, EpochManager.EpochAt;
    assert events[i] in events;
    cfg.em.EpochMonotone(events[i].now, now);
    forall j | i < j < |events| && events[j].DropOldEpochs? ensures !Removes(cfg.em, events[j], m) {
      assert events[j] in events;
      cfg.em.EpochMonotone(events[j].now, now);
    }
  }

  /** Once accepted, a message stays retrievable until it is deleted, expires or is more than three epochs old,
      whatever else is stored, deleted, cleaned up or submitted again. */
  lemma AcceptedStays(cfg: Config, events: seq<Event>, i: nat, m: ObfuscatedMessage, now: int)
    requires cfg.em.Valid() && NotAfter(events, now) && AcceptedAt(cfg, events, i, m)
    requires LeftAlone(events, i, m) && cfg.em.EpochAt(now) <= m.epoch + 3
    ensures m in Recent(Run(cfg, State([], []), events).obf, cfg.em, m.pseudonym, now)
  {
    hide Run, Recent, AcceptedAt, LeftAlone;
    AcceptedIsRetrievable(cfg, events, m, now);
  }

  // ----- Retention of legacy messages -----

  /** The event takes message `m` out of the store. */
  ghost predicate RemovesLegacy(ev: Event, m: AsyncMessage) {
    match ev
    case DeleteLegacy(id, recipient) => id == m.id && recipient == m.recipient
    case ExpireAll(now) => now - m.timestamp > 24 * 3600 * 1_000_000_000
    case _ => false
  }

  ghost predicate AcceptsLegacy(cfg: Config, s: State, ev: Event, m: AsyncMessage) {
    && ev.StoreLegacy? && ev.m == m
    && StoreRefusal(s.legacy, cfg.capacity, cfg.Limit(), m.recipient, |m.encryptedData|).None?
  }

  /** A store draws an identifier that no stored message has. */
  ghost predicate DrawsNew(s: State, ev: Event) {
    ev.StoreLegacy? ==> forall x :: x in s.legacy ==> x.id != ev.m.id
  }

  lemma LegacyStepRetains(cfg: Config, s: State, ev: Event, m: AsyncMessage)
    requires cfg.em.Valid() && Unique(Id(), s.legacy) && DrawsNew(s, ev)
    ensures Unique(Id(), Step(cfg, s, ev).legacy)
    ensures m in Step(cfg, s, ev).legacy <==> (m in s.legacy && !RemovesLegacy(ev, m)) || AcceptsLegacy(cfg, s, ev, m)
  {
    hide Filter;
    match ev
    case StoreLegacy(x) =>
      forall i | 0 <= i < |s.legacy| ensures Id()(s.legacy[i]) != x.id { assert s.legacy[i] in s.legacy; }
    case DeleteLegacy(id, r) =>
      UniqueFilter(Id(), IdNotIn(Id(), {id}), s.legacy);
      FilterMember(IdNotIn(Id(), {id}), s.legacy, m);
      if m in s.legacy && id == m.id && (exists x :: x in s.legacy && x.id == id && x.recipient == r) {
        var x :| x in s.legacy && x.id == id && x.recipient == r;
        SameIdSameMessage(s.legacy, x, m);
      }
    case ExpireAll(now) =>
      UniqueFilter(Id(), Unexpired(now), s.legacy);
      ExpiryMembers(s.legacy, now);
    case StoreObf(_, _) =>
    case DeleteObf(_, _) =>
    case DropOldEpochs(_) =>
  }

  ghost predicate DrawnNew(cfg: Config, events: seq<Event>)
    requires cfg.em.Valid()
  {
    forall i | 0 <= i < |events| :: DrawsNew(Run(cfg, State([], []), events[..i]), events[i])
  }

  /** Event `i` stores `m`, and no later event removes it. */
  ghost predicate StoredForGood(cfg: Config, events: seq<Event>, i: nat, m: AsyncMessage)
    requires cfg.em.Valid()
  {
    && i < |events| && AcceptsLegacy(cfg, Run(cfg, State([], []), events[..i]), events[i], m)
    && forall j | i < j < |events| :: !RemovesLegacy(events[j], m)
  }

  /** Over every run whose drawn identifiers are new, a legacy message is stored exactly when some event stored it,
      after which its recipient did not delete it and no expiry pass ran more than 24 hours after its timestamp. */
  lemma {:induction false} LegacyRunRetains(cfg: Config, events: seq<Event>, m: AsyncMessage)
    requires cfg.em.Valid() && DrawnNew(cfg, events)
    ensures Unique(Id(), Run(cfg, State([], []), events).legacy)
    ensures m in Run(cfg, State([], []), events).legacy <==> exists i: nat :: StoredForGood(cfg, events, i, m)
  {
    if events != [] {
      hide Step, RemovesLegacy, AcceptsLegacy, DrawsNew;
      var before, ev := events[..|events| - 1], events[|events| - 1];
      assert forall i | 0 <= i < |before| :: before[i] == events[i] && before[..i] == events[..i];
      LegacyRunRetains(cfg, before, m);
      LegacyStepRetains(cfg, Run(cfg, State([], []), before), ev, m);
      StoredForGoodFrom(cfg, events, m);
    }
  }

  lemma StoredForGoodFrom(cfg: Config, events: seq<Event>, m: AsyncMessage)
    requires cfg.em.Valid() && events != []
    ensures
      var before, ev := events[..|events| - 1], events[|events| - 1];
      (exists i: nat :: StoredForGood(cfg, events, i, m)) <==>
        || ((exists i: nat :: StoredForGood(cfg, before, i, m)) && !RemovesLegacy(ev, m))
        || AcceptsLegacy(cfg, Run(cfg, State([], []), before), ev, m)
  {
    hide Run, RemovesLegacy, AcceptsLegacy;
    var before, ev := events[..|events| - 1], events[|events| - 1];
    assert forall i | 0 <= i < |before| :: before[i] == events[i] && before[..i] == events[..i];
    if i: nat :| StoredForGood(cfg, events, i, m) && i < |before| { assert StoredForGood(cfg, before, i, m); }
    if !RemovesLegacy(ev, m) {
      if i: nat :| StoredForGood(cfg, before, i, m) { assert StoredForGood(cfg, events, i, m); }
    }
    if AcceptsLegacy(cfg, Run(cfg, State([], []), before), ev, m) { assert StoredForGood(cfg, events, |before|, m); }
  }
}
