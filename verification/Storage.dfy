/** The message store: two primary maps, each shadowed by an index, and an optional write-ahead log. */
module Storage {
  import opened Common
  import opened Grouping
  import opened Wal
  import opened Epochs
  import opened StoreSpec

  /** The JSON form of a stored message, foreign code. */
  datatype Serializer = Serializer(encode: AsyncMessage -> seq<Byte>, decode: seq<Byte> -> Option<AsyncMessage>)
  {
    ghost predicate Valid() {
      forall m :: encode(m) != [] && decode(encode(m)) == Some(m)
    }
  }

  // ----- What the operations do to the lists -----

  /** Why a legacy store is refused, in the order the checks are made. */
  ghost function StoreRefusal(q: seq<AsyncMessage>, capacity: int, limit: int, r: PublicKey, size: nat)
    : Option<StorageError>
  {
    if size == 0 then Some(EmptyMessage)
    else if size > MAX_MESSAGE_SIZE + ENCRYPTION_OVERHEAD then Some(MessageTooLong)
    else if |q| >= capacity then Some(StorageFull)
    else if |ForRecipient(q, r)| >= limit then Some(TooManyForRecipient)
    else None
  }

  ghost function DeleteRefusal(q: seq<AsyncMessage>, id: MessageId, r: PublicKey): Option<StorageError> {
    if forall m :: m in q ==> m.id != id then Some(NotFound)
    else if forall m :: m in q && m.id == id ==> m.recipient != r then Some(Unauthorized)
    else None
  }

  ghost function ObfRefusal(q: seq<ObfuscatedMessage>, legacy: nat, capacity: int, limit: int,
                            em: EpochManager, m: ObfuscatedMessage, now: int): Option<StorageError>
    requires em.Valid()
  {
    if !em.IsValidEpoch(m.epoch, now) then Some(InvalidEpoch)
    else if now > m.expiresAt then Some(AlreadyExpired)
    else if m.payload == [] then Some(EmptyMessage)
    else if |m.payload| > MAX_MESSAGE_SIZE + ENCRYPTION_OVERHEAD then Some(MessageTooLong)
    else if legacy + |q| >= capacity then Some(StorageFull)
    else if |ForPseudonym(q, m.pseudonym)| >= limit then Some(TooManyForRecipient)
    else if exists x :: x in q && x.id == m.id then Some(DuplicateId)
    else None
  }

  function RecipientLimit(dynamic: bool, perRecipient: int): int {
    if dynamic && perRecipient > 0 then perRecipient else MAX_MESSAGES_PER_RECIPIENT
  }

  /** The log records of a store and of a deletion. */
  function StoreOp(s: Serializer, m: AsyncMessage): LogOp {
    Append(StoreMessage, m.id, m.recipient, s.encode(m), m.timestamp)
  }

  function DeleteOp(id: MessageId, recipient: PublicKey, now: int): LogOp {
    Append(DeleteMessage, id, recipient, [], now)
  }

  /** What replaying one log entry does: a store is skipped when its identifier is present. */
  ghost function ReplayStep(s: Serializer, q: seq<AsyncMessage>, e: Entry): seq<AsyncMessage> {
    match e.operation
    case StoreMessage =>
      if e.data == [] || s.decode(e.data) == None || (exists m :: m in q && m.id == e.messageId) then q
      else q + [s.decode(e.data).value]
    case DeleteMessage => Without(q, e.messageId)
    case _ => q
  }

  ghost function Replay(s: Serializer, q: seq<AsyncMessage>, entries: seq<Entry>): seq<AsyncMessage> {
    if entries == [] then q
    else ReplayStep(s, Replay(s, q, entries[..|entries| - 1]), entries[|entries| - 1])
  }

  /** Replaying one entry on the maps, whatever its payload says: a store files the decoded message under the
      entry's identifier and recipient; a deletion splices the list of the entry's recipient, but drops an
      empty list of the stored message's recipient. */
  ghost function ReplayMaps(s: Serializer, messages: map<MessageId, AsyncMessage>,
                            index: map<PublicKey, seq<AsyncMessage>>, e: Entry)
    : (map<MessageId, AsyncMessage>, map<PublicKey, seq<AsyncMessage>>)
  {
    match e.operation
    case StoreMessage =>
      if e.data == [] || s.decode(e.data) == None || e.messageId in messages then (messages, index)
      else
        var m := s.decode(e.data).value;
        (messages[e.messageId := m], index[e.recipient := Get(index, e.recipient) + [m]])
    case DeleteMessage =>
      if e.messageId !in messages then (messages, index)
      else (messages - {e.messageId}, Spliced(index, e.recipient, messages[e.messageId].recipient, e.messageId))
    case _ => (messages, index)
  }

  ghost function ReplayedMaps(s: Serializer, messages: map<MessageId, AsyncMessage>,
                              index: map<PublicKey, seq<AsyncMessage>>, entries: seq<Entry>)
    : (map<MessageId, AsyncMessage>, map<PublicKey, seq<AsyncMessage>>)
  {
    if entries == [] then (messages, index)
    else
      var (m, i) := ReplayedMaps(s, messages, index, entries[..|entries| - 1]);
      ReplayMaps(s, m, i, entries[|entries| - 1])
  }

  /** The entries that recovery returns for a readable log: the survivors, in increasing order. */
  ghost predicate IsRecovery(log: seq<Entry>, entries: seq<Entry>) {
    Increasing(entries) && forall e :: e in entries <==> Survives(Track(log), e)
  }

  ghost function Replayable(s: Serializer): Entry -> bool {
    (e: Entry) => e.operation == DeleteMessage ||
      (e.operation == StoreMessage && e.data != [] && s.decode(e.data).Some?)
  }

  /** The entry could have been written by the store when it held `q`: a store's payload is the
      message it names, and a deletion names the recipient of the message it deletes. */
  ghost predicate EntrySound(s: Serializer, q: seq<AsyncMessage>, e: Entry) {
    && (e.operation == StoreMessage && e.data != [] && s.decode(e.data).Some? ==>
          s.decode(e.data).value.id == e.messageId && s.decode(e.data).value.recipient == e.recipient)
    && (e.operation == DeleteMessage ==> forall m :: m in q && m.id == e.messageId ==> m.recipient == e.recipient)
  }

  ghost predicate ReplaySound(s: Serializer, q: seq<AsyncMessage>, entries: seq<Entry>) {
    entries == [] ||
    (var before := entries[..|entries| - 1];
     ReplaySound(s, q, before) && EntrySound(s, Replay(s, q, before), entries[|entries| - 1]))
  }

  lemma {:induction false} ReplaySoundPrefix(s: Serializer, q: seq<AsyncMessage>, entries: seq<Entry>, n: nat)
    requires ReplaySound(s, q, entries) && n <= |entries|
    ensures ReplaySound(s, q, entries[..n])
  {
    if n == |entries| {
      assert entries[..n] == entries;
    } else {
      ReplaySoundPrefix(s, q, entries[..|entries| - 1], n);
      assert entries[..|entries| - 1][..n] == entries[..n];
    }
  }

  /** The lists of the requested epochs, one after the other. */
  ghost function Collected(q: seq<ObfuscatedMessage>, p: PublicKey, epochs: seq<Epoch>): seq<ObfuscatedMessage> {
    if epochs == [] then []
    else Collected(q, p, epochs[..|epochs| - 1]) + InEpoch(q, p, epochs[|epochs| - 1])
  }

  ghost function InEpochs(p: PublicKey, epochs: seq<Epoch>): ObfuscatedMessage -> bool {
    (m: ObfuscatedMessage) => m.pseudonym == p && m.epoch in epochs
  }

  /** Retrieval over distinct epochs returns exactly the filter of the whole store, each message once. */
  lemma {:induction false} CollectedIsFilter(q: seq<ObfuscatedMessage>, p: PublicKey, epochs: seq<Epoch>)
    requires forall i, j | 0 <= i < j < |epochs| :: epochs[i] != epochs[j]
    ensures multiset(Collected(q, p, epochs)) == multiset(Filter(InEpochs(p, epochs), q))
  {
    if epochs == [] {
      FilterNone(InEpochs(p, epochs), q);
    } else {
      var front, e := epochs[..|epochs| - 1], epochs[|epochs| - 1];
      CollectedIsFilter(q, p, front);
      var all := Filter(InEpochs(p, epochs), q);
      FilterMembers(InEpochs(p, epochs), q);
      FilterSplit(InEpochs(p, front), HasKey(EpochOf(), e), all);
      FilterTwice(InEpochs(p, front), InEpochs(p, epochs), InEpochs(p, front), q);
      FilterTwice(HasKey(EpochOf(), e), InEpochs(p, epochs), InEpochs(p, [e]), q);
      FilterTwice(HasKey(EpochOf(), e), HasKey(Pseudonym(), p), InEpochs(p, [e]), q);
    }
  }

  // ----- The store object -----

  class MessageStorage {
    var messages: map<MessageId, AsyncMessage>
    var recipientIndex: map<PublicKey, seq<AsyncMessage>>
    var obfuscatedMessages: map<nat, ObfuscatedMessage>
    var pseudonymIndex: map<PublicKey, map<Epoch, seq<ObfuscatedMessage>>>
    var maxCapacity: int
    var maxMessagesPerRecip: int
    var dynamicLimitsEnabled: bool
    var wal: WriteAheadLog?
    const epochManager: EpochManager
    const serializer: Serializer
    /** The stored messages in arrival order: what the maps and indexes file. */
    ghost var arrivals: seq<AsyncMessage>
    ghost var obfArrivals: seq<ObfuscatedMessage>

    ghost predicate LegacyFiled()
      reads this`arrivals, this`messages, this`recipientIndex
    {
      Filed(arrivals, messages, recipientIndex)
    }

    ghost predicate ObfFiled()
      reads this`obfArrivals, this`obfuscatedMessages, this`pseudonymIndex
    {
      FiledObf(obfArrivals, obfuscatedMessages, pseudonymIndex)
    }

    ghost predicate Valid()
      reads this, wal
    {
      LegacyFiled() && ObfFiled() && epochManager.Valid() && serializer.Valid() && (wal != null ==> wal.Valid())
    }

    function Limit(): int
      reads this`dynamicLimitsEnabled, this`maxMessagesPerRecip
    {
      RecipientLimit(dynamicLimitsEnabled, maxMessagesPerRecip)
    }

    /** An empty store over a log that may still hold entries to recover. */
    constructor Fresh(epochManager: EpochManager, serializer: Serializer, capacity: int, perRecipient: int,
                      wal: WriteAheadLog?)
      ensures LegacyFiled() && ObfFiled() && arrivals == [] && obfArrivals == []
      ensures epochManager.Valid() && serializer.Valid() && (wal != null ==> wal.Valid()) ==> Valid()
      ensures this.wal == wal && this.serializer == serializer && this.epochManager == epochManager
      ensures maxCapacity == capacity && maxMessagesPerRecip == perRecipient && dynamicLimitsEnabled
    {
      this.epochManager, this.serializer, this.wal := epochManager, serializer, wal;
      messages, recipientIndex, obfuscatedMessages, pseudonymIndex := map[], map[], map[], map[];
      maxCapacity, maxMessagesPerRecip, dynamicLimitsEnabled := capacity, perRecipient, true;
      arrivals, obfArrivals := [], [];
    }

    /** Stores a message under the freshly drawn identifier `id`, after logging it. */
    method StoreMessage(recipient: PublicKey, sender: PublicKey, data: seq<Byte>, nonce: nat,
                        messageType: nat, id: MessageId, now: int)
      returns (r: Result<MessageId, StorageError>)
      requires Valid()
      modifies this`messages, this`recipientIndex, this`arrivals, wal
      ensures var refusal := old(StoreRefusal(arrivals, maxCapacity, Limit(), recipient, |data|));
        var m := AsyncMessage(id, recipient, sender, data, now, nonce, messageType);
        if refusal.Some? || (wal != null && old(wal.closed)) then
          && r == Err(if refusal.Some? then refusal.value else LogFailed)
          && arrivals == old(arrivals) && messages == old(messages) && recipientIndex == old(recipientIndex)
          && (wal != null ==> wal.State() == old(wal.State())) && Valid()
        else
          && r == Ok(id)
          && arrivals == old(arrivals) + [m]
          && messages == old(messages)[id := m]
          && recipientIndex == old(recipientIndex)[recipient := Get(old(recipientIndex), recipient) + [m]]
          && (wal != null ==> wal.State() == LogStep(wal.codec, old(wal.State()), StoreOp(serializer, m)))
          && (id !in old(messages) && (wal != null ==> old(wal.sequence) < U64 - 1) ==> Valid())
    {
      hide Ordered, Frames, AllSealed, FiledObf, Filed, LogStep;
      CountsMatch(recipient);
      if |data| == 0 { return Err(EmptyMessage); }
      if |data| > MAX_MESSAGE_SIZE + ENCRYPTION_OVERHEAD { return Err(MessageTooLong); }
      if |messages| >= maxCapacity { return Err(StorageFull); }
      if |Get(recipientIndex, recipient)| >= Limit() { return Err(TooManyForRecipient); }
      var m := AsyncMessage(id, recipient, sender, data, now, nonce, messageType);
      if wal != null {
        var logged := wal.LogEntry(Operation.StoreMessage, id, recipient, serializer.encode(m), now);
        if logged.Err? { return Err(LogFailed); }
      }
      if id !in messages { FiledStore(arrivals, messages, recipientIndex, m); }
      messages := messages[id := m];
      recipientIndex := recipientIndex[recipient := Get(recipientIndex, recipient) + [m]];
      arrivals := arrivals + [m];
      r := Ok(id);
    }

    /** The sizes the capacity checks read are the sizes of the filed lists. */
    lemma CountsMatch(recipient: PublicKey)
      requires LegacyFiled()
      ensures |messages| == |arrivals|
      ensures Get(recipientIndex, recipient) == ForRecipient(arrivals, recipient)
    {
      TableSize(Id(), arrivals);
      GroupGet(Recipient(), arrivals, recipient);
    }

    /** Removes a message that its own recipient asks to delete, after logging the deletion. */
    method DeleteMessage(id: MessageId, recipient: PublicKey, now: int) returns (r: Result<(), StorageError>)
      requires Valid()
      modifies this`messages, this`recipientIndex, this`arrivals, wal
      ensures var refusal := old(DeleteRefusal(arrivals, id, recipient));
        if refusal.Some? || (wal != null && old(wal.closed)) then
          && r == Err(if refusal.Some? then refusal.value else LogFailed)
          && arrivals == old(arrivals) && Valid()
          && (wal != null ==> wal.State() == old(wal.State()))
        else
          && r == Ok(()) && arrivals == Without(old(arrivals), id) && LegacyFiled()
          && (wal != null ==> wal.State() == LogStep(wal.codec, old(wal.State()), DeleteOp(id, recipient, now)))
          && ((wal != null ==> old(wal.sequence) < U64 - 1) ==> Valid())
    {
      hide Ordered, Frames, AllSealed, FiledObf, LogStep, Filter, Group, Spliced;
      TableLookup(id);
      if id !in messages { return Err(NotFound); }
      var m := messages[id];
      if m.recipient != recipient { return Err(Unauthorized); }
      if wal != null {
        var logged := wal.LogEntry(Operation.DeleteMessage, id, recipient, [], now);
        if logged.Err? { return Err(LogFailed); }
      }
      RemoveStored(m);
      r := Ok(());
    }

    lemma TableLookup(id: MessageId)
      requires LegacyFiled()
      ensures id in messages <==> exists m :: m in arrivals && m.id == id
      ensures id in messages ==> messages[id] in arrivals && messages[id].id == id
      ensures forall m :: m in arrivals && m.id == id ==> id in messages && messages[id] == m
    {
      if id in messages {
        assert messages[id] in arrivals && Id()(messages[id]) == id;
      }
      forall m | m in arrivals && m.id == id ensures id in messages && messages[id] == m {
        assert Id()(m) in Table(Id(), arrivals);
        SameIdSameMessage(arrivals, m, messages[id]);
      }
    }

    /** Takes one stored message out of the table and out of the recipient index. */
    method RemoveStored(m: AsyncMessage)
      requires LegacyFiled() && m in arrivals
      modifies this`messages, this`recipientIndex, this`arrivals
      ensures LegacyFiled() && arrivals == Without(old(arrivals), m.id) && messages == old(messages) - {m.id}
    {
      hide Filed, Filter, Group, Unique, Spliced;
      FiledRemove(arrivals, messages, recipientIndex, m);
      messages := messages - {m.id};
      RemoveFromRecipientIndex(m.recipient, m.id);
      arrivals := Without(arrivals, m.id);
    }

    /** Splices the first listed message with this identifier out, and drops an emptied list. */
    method RemoveFromRecipientIndex(recipient: PublicKey, id: MessageId)
      modifies this`recipientIndex
      ensures recipientIndex == Spliced(old(recipientIndex), recipient, recipient, id)
    {
      SpliceFromIndex(recipient, recipient, id);
    }

    /** The same where the list and the emptied entry may belong to different keys. */
    method SpliceFromIndex(at: PublicKey, owner: PublicKey, id: MessageId)
      modifies this`recipientIndex
      ensures recipientIndex == Spliced(old(recipientIndex), at, owner, id)
    {
      hide DropFirst;
      var list := Get(recipientIndex, at);
      var i := 0;
      while i < |list| && list[i].id != id
        invariant 0 <= i <= |list|
        invariant forall k | 0 <= k < i :: list[k].id != id
      {
        i := i + 1;
      }
      DropFirstAt(Id(), list, id, i);
      if i < |list| {
        recipientIndex := recipientIndex[at := list[..i] + list[i + 1..]];
      } else if at in recipientIndex {
        assert recipientIndex[at := list] == recipientIndex;
      }
      if |Get(recipientIndex, owner)| == 0 {
        recipientIndex := recipientIndex - {owner};
      }
    }

    // ----- Expiry -----

    method CleanupExpiredMessages(now: int) returns (count: nat)
      requires LegacyFiled() && ObfFiled()
      modifies this`messages, this`recipientIndex, this`arrivals
      modifies this`obfuscatedMessages, this`pseudonymIndex, this`obfArrivals
      ensures LegacyFiled() && arrivals == Filter(Unexpired(now), old(arrivals))
      ensures ObfFiled() && obfArrivals == Filter(ObfUnexpired(now), old(obfArrivals))
      ensures forall m :: m in arrivals <==> m in old(arrivals) && now - m.timestamp <= 24 * 3600 * 1_000_000_000
      ensures forall m :: m in obfArrivals <==> m in old(obfArrivals) && now <= m.expiresAt
      ensures count == old(|arrivals| + |obfArrivals|) - (|arrivals| + |obfArrivals|)
    {
      hide Filed, FiledObf, Filter;
      var expired := FindExpired(now);
      RemoveAll(expired, now);
      var obfExpired := FindExpiredObfuscated(now);
      RemoveAllObfuscated(obfExpired, now);
      count := |expired| + |obfExpired|;
      ExpiryMembers(old(arrivals), now);
      FilterMembers(ObfUnexpired(now), old(obfArrivals));
    }

    /** Walks the table in any order and lists the identifiers of expired messages. */
    method FindExpired(now: int) returns (ids: seq<MessageId>)
      ensures forall i, j | 0 <= i < j < |ids| :: ids[i] != ids[j]
      ensures forall id :: id in ids <==> id in messages && IsExpired(messages[id], now)
      ensures forall id :: id in ids <==>
        id in messages && now - messages[id].timestamp > 24 * 3600 * 1_000_000_000
    {
      ids := [];
      var keys := messages.Keys;
      while keys != {}
        invariant keys <= messages.Keys
        invariant forall i, j | 0 <= i < j < |ids| :: ids[i] != ids[j]
        invariant forall id :: id in ids <==> id in messages && id !in keys && IsExpired(messages[id], now)
        decreases |keys|
      {
        var id :| id in keys;
        keys := keys - {id};
        if IsExpired(messages[id], now) {
          assert id !in ids;
          ids := ids + [id];
        }
      }
    }

    method RemoveAll(ids: seq<MessageId>, ghost now: int)
      requires LegacyFiled()
      requires forall i, j | 0 <= i < j < |ids| :: ids[i] != ids[j]
      requires forall id :: id in ids <==> id in messages && IsExpired(messages[id], now)
      modifies this`messages, this`recipientIndex, this`arrivals
      ensures LegacyFiled() && arrivals == Filter(Unexpired(now), old(arrivals))
      ensures |arrivals| + |ids| == |old(arrivals)|
    {
      hide Filed, Filter;
      ghost var q, table, index := arrivals, messages, recipientIndex;
      FilterAll(IdNotIn(Id(), Ids(ids[..0])), q);
      for k := 0 to |ids|
        invariant LegacyFiled() && messages == table - Ids(ids[..k])
        invariant arrivals == Filter(IdNotIn(Id(), Ids(ids[..k])), q)
        invariant |arrivals| + k == |q|
      {
        IdsSnoc(ids, k);
        assert ids[k] in ids;
        RemoveById(ids[k], q, Ids(ids[..k]));
      }
      assert ids[..|ids|] == ids;
      OldTableExpiry(q, table, index, ids, now);
    }

    /** One turn of the expiry loop, `done` being the identifiers of `q` already removed. */
    method RemoveById(id: MessageId, ghost q: seq<AsyncMessage>, ghost done: set<MessageId>)
      requires LegacyFiled() && id in messages && arrivals == Filter(IdNotIn(Id(), done), q)
      modifies this`messages, this`recipientIndex, this`arrivals
      ensures LegacyFiled() && messages == old(messages) - {id}
      ensures arrivals == Filter(IdNotIn(Id(), done + {id}), q)
      ensures |arrivals| + 1 == |old(arrivals)|
    {
      hide Filed, Filter;
      var m := messages[id];
      TableLookup(id);
      CountsMatch(m.recipient);
      assert messages.Keys == (messages - {id}).Keys + {id};
      RemoveStored(m);
      CountsMatch(m.recipient);
      FilterTwice(IdNotIn(Id(), {id}), IdNotIn(Id(), done), IdNotIn(Id(), done + {id}), q);
    }

    /** Walks the table in any order and lists the identifiers of expired messages. */
    method FindExpiredObfuscated(now: int) returns (ids: seq<nat>)
      ensures forall i, j | 0 <= i < j < |ids| :: ids[i] != ids[j]
      ensures forall id :: id in ids <==> id in obfuscatedMessages && now > obfuscatedMessages[id].expiresAt
    {
      ids := [];
      var keys := obfuscatedMessages.Keys;
      while keys != {}
        invariant keys <= obfuscatedMessages.Keys
        invariant forall i, j | 0 <= i < j < |ids| :: ids[i] != ids[j]
        invariant forall id :: id in ids <==>
          id in obfuscatedMessages && id !in keys && now > obfuscatedMessages[id].expiresAt
        decreases |keys|
      {
        var id :| id in keys;
        keys := keys - {id};
        if now > obfuscatedMessages[id].expiresAt {
          assert id !in ids;
          ids := ids + [id];
        }
      }
    }

    method RemoveAllObfuscated(ids: seq<nat>, ghost now: int)
      requires ObfFiled()
      requires forall i, j | 0 <= i < j < |ids| :: ids[i] != ids[j]
      requires forall id :: id in ids <==> id in obfuscatedMessages && now > obfuscatedMessages[id].expiresAt
      modifies this`obfuscatedMessages, this`pseudonymIndex, this`obfArrivals
      ensures ObfFiled() && obfArrivals == Filter(ObfUnexpired(now), old(obfArrivals))
      ensures |obfArrivals| + |ids| == |old(obfArrivals)|
    {
      hide FiledObf, Filter;
      ghost var q, table, index := obfArrivals, obfuscatedMessages, pseudonymIndex;
      FilterAll(IdNotIn(ObfId(), Ids(ids[..0])), q);
      for k := 0 to |ids|
        invariant ObfFiled() && obfuscatedMessages == table - Ids(ids[..k])
        invariant obfArrivals == Filter(IdNotIn(ObfId(), Ids(ids[..k])), q)
        invariant |obfArrivals| + k == |q|
      {
        IdsSnoc(ids, k);
        assert ids[k] in ids;
        RemoveObfuscatedById(ids[k], q, Ids(ids[..k]));
      }
      assert ids[..|ids|] == ids;
      OldObfTableExpiry(q, table, index, ids, now);
    }

    method RemoveObfuscatedById(id: nat, ghost q: seq<ObfuscatedMessage>, ghost done: set<nat>)
      requires ObfFiled() && id in obfuscatedMessages && obfArrivals == Filter(IdNotIn(ObfId(), done), q)
      modifies this`obfuscatedMessages, this`pseudonymIndex, this`obfArrivals
      ensures ObfFiled() && obfuscatedMessages == old(obfuscatedMessages) - {id}
      ensures obfArrivals == Filter(IdNotIn(ObfId(), done + {id}), q)
      ensures |obfArrivals| + 1 == |old(obfArrivals)|
    {
      hide FiledObf, Filter;
      var m := obfuscatedMessages[id];
      ObfTableLookup(id);
      ObfCountsMatch();
      assert obfuscatedMessages.Keys == (obfuscatedMessages - {id}).Keys + {id};
      RemoveStoredObfuscated(m);
      ObfCountsMatch();
      FilterTwice(IdNotIn(ObfId(), {id}), IdNotIn(ObfId(), done), IdNotIn(ObfId(), done + {id}), q);
    }

    lemma ObfCountsMatch()
      requires ObfFiled()
      ensures |obfuscatedMessages| == |obfArrivals|
    {
      TableSize(ObfId(), obfArrivals);
    }

    lemma ObfTableLookup(id: nat)
      requires ObfFiled()
      ensures id in obfuscatedMessages <==> exists m :: m in obfArrivals && m.id == id
      ensures id in obfuscatedMessages ==> obfuscatedMessages[id] in obfArrivals && obfuscatedMessages[id].id == id
      ensures forall m :: m in obfArrivals && m.id == id ==> id in obfuscatedMessages && obfuscatedMessages[id] == m
    {
      if id in obfuscatedMessages {
        assert obfuscatedMessages[id] in obfArrivals && ObfId()(obfuscatedMessages[id]) == id;
      }
      forall m | m in obfArrivals && m.id == id ensures id in obfuscatedMessages && obfuscatedMessages[id] == m {
        assert ObfId()(m) in Table(ObfId(), obfArrivals);
        ObfSameIdSameMessage(obfArrivals, m, obfuscatedMessages[id]);
      }
    }

    // ----- Obfuscated messages -----

    method StoreObfuscatedMessage(m: ObfuscatedMessage, now: int) returns (r: Result<(), StorageError>)
      requires LegacyFiled() && ObfFiled() && epochManager.Valid()
      modifies this`obfuscatedMessages, this`pseudonymIndex, this`obfArrivals
      ensures ObfFiled()
      ensures var refusal := old(ObfRefusal(obfArrivals, |arrivals|, maxCapacity, Limit(), epochManager, m, now));
        && r == (if refusal.Some? then Err(refusal.value) else Ok(()))
        && obfArrivals == if refusal.Some? then old(obfArrivals) else old(obfArrivals) + [m]
    {
      hide Filed, FiledObf, Filter;
      if !epochManager.IsValidEpoch(m.epoch, now) { return Err(InvalidEpoch); }
      if now > m.expiresAt { return Err(AlreadyExpired); }
      if |m.payload| == 0 { return Err(EmptyMessage); }
      if |m.payload| > MAX_MESSAGE_SIZE + ENCRYPTION_OVERHEAD { return Err(MessageTooLong); }
      CountsMatch(0);
      ObfCountsMatch();
      if |messages| + |obfuscatedMessages| >= maxCapacity { return Err(StorageFull); }
      var total := CountForPseudonym(m.pseudonym);
      if total >= Limit() { return Err(TooManyForRecipient); }
      ObfTableLookup(m.id);
      if m.id in obfuscatedMessages { return Err(DuplicateId); }
      FiledObfStore(obfArrivals, obfuscatedMessages, pseudonymIndex, m);
      obfuscatedMessages := obfuscatedMessages[m.id := m];
      var inner := GetInner(pseudonymIndex, m.pseudonym);
      pseudonymIndex := pseudonymIndex[m.pseudonym := inner[m.epoch := Get(inner, m.epoch) + [m]]];
      obfArrivals := obfArrivals + [m];
      r := Ok(());
    }

    /** Adds up the epoch lists of one pseudonym, in any order. */
    method CountForPseudonym(p: PublicKey) returns (total: nat)
      requires ObfFiled()
      ensures total == |ForPseudonym(obfArrivals, p)|
    {
      hide FiledObf, Filter, Group;
      var inner := GetInner(pseudonymIndex, p);
      ghost var f := ForPseudonym(obfArrivals, p);
      InnerIsGroup(p);
      var keys := inner.Keys;
      ghost var done: set<Epoch> := {};
      total := 0;
      FilterNone(EpochIn({}), f);
      while keys != {}
        invariant keys <= inner.Keys && done == inner.Keys - keys
        invariant total == |Filter(EpochIn(done), f)|
        decreases |keys|
      {
        var e :| e in keys;
        CountEpoch(f, done, e);
        GroupGet(EpochOf(), f, e);
        keys := keys - {e};
        done := done + {e};
        total := total + |inner[e]|;
      }
      forall m | m in f ensures EpochIn(done)(m) {
        GroupGet(EpochOf(), f, m.epoch);
        FilterMember(HasKey(EpochOf(), m.epoch), f, m);
      }
      FilterAll(EpochIn(done), f);
    }

    lemma InnerIsGroup(p: PublicKey)
      requires ObfFiled()
      ensures GetInner(pseudonymIndex, p) == Group(EpochOf(), ForPseudonym(obfArrivals, p))
      ensures p in pseudonymIndex <==> GetInner(pseudonymIndex, p) != map[]
    {
      NestedGet(Pseudonym(), EpochOf(), obfArrivals, p);
    }

    method DeleteObfuscatedMessage(id: nat, p: PublicKey) returns (r: Result<(), StorageError>)
      requires ObfFiled()
      modifies this`obfuscatedMessages, this`pseudonymIndex, this`obfArrivals
      ensures ObfFiled()
      ensures r == Ok(()) <==> exists m :: m in old(obfArrivals) && m.id == id && m.pseudonym == p
      ensures r == Err(NotFound) <==> forall m :: m in old(obfArrivals) ==> m.id != id
      ensures r.Err? ==> r.error == NotFound || r.error == Unauthorized
      ensures obfArrivals == if r.Ok? then ObfWithout(old(obfArrivals), id) else old(obfArrivals)
    {
      hide FiledObf, Filter;
      ObfTableLookup(id);
      if id !in obfuscatedMessages { return Err(NotFound); }
      var m := obfuscatedMessages[id];
      if m.pseudonym != p { return Err(Unauthorized); }
      RemoveStoredObfuscated(m);
      r := Ok(());
    }

    method RemoveStoredObfuscated(m: ObfuscatedMessage)
      requires ObfFiled() && m in obfArrivals
      modifies this`obfuscatedMessages, this`pseudonymIndex, this`obfArrivals
      ensures ObfFiled() && obfArrivals == ObfWithout(old(obfArrivals), m.id)
      ensures obfuscatedMessages == old(obfuscatedMessages) - {m.id}
    {
      hide FiledObf, Filter, Unique;
      FiledObfRemove(obfArrivals, obfuscatedMessages, pseudonymIndex, m);
      ObfListed(m);
      obfuscatedMessages := obfuscatedMessages - {m.id};
      RemoveFromPseudonymIndex(m.pseudonym, m.epoch, m.id);
      obfArrivals := ObfWithout(obfArrivals, m.id);
    }

    lemma ObfListed(m: ObfuscatedMessage)
      requires ObfFiled() && m in obfArrivals
      ensures m.pseudonym in pseudonymIndex
      ensures Unique(ObfId(), Get(pseudonymIndex[m.pseudonym], m.epoch))
    {
      hide Filter, Nested;
      FiledObfLookup(obfArrivals, obfuscatedMessages, pseudonymIndex, m.pseudonym, m.epoch);
      InEpochMembers(obfArrivals, m.pseudonym, m.epoch);
      assert m in InEpoch(obfArrivals, m.pseudonym, m.epoch);
    }

    /** Splices the message out of its epoch list, then drops an emptied epoch and an emptied pseudonym. */
    method RemoveFromPseudonymIndex(p: PublicKey, epoch: Epoch, id: nat)
      modifies this`pseudonymIndex
      ensures p !in old(pseudonymIndex) ==> pseudonymIndex == old(pseudonymIndex)
      ensures p in old(pseudonymIndex) ==> pseudonymIndex == ObfUnindexed(old(pseudonymIndex), p, epoch, id)
    {
      hide DropFirst;
      if p !in pseudonymIndex { return; }
      var inner := pseudonymIndex[p];
      var list := Get(inner, epoch);
      var i := 0;
      while i < |list| && list[i].id != id
        invariant 0 <= i <= |list|
        invariant forall k | 0 <= k < i :: list[k].id != id
      {
        i := i + 1;
      }
      DropFirstAt(ObfId(), list, id, i);
      if i < |list| {
        inner := inner[epoch := list[..i] + list[i + 1..]];
      } else {
        assert list != [] ==> inner[epoch := list] == inner;
      }
      if |Get(inner, epoch)| == 0 { inner := inner - {epoch}; }
      ghost var left := DropFirst(ObfId(), list, id);
      ghost var was := old(pseudonymIndex)[p];
      assert inner == if left == [] then was - {epoch} else was[epoch := left];
      assert inner == map[] <==> |inner| == 0;
      if |inner| == 0 {
        pseudonymIndex := pseudonymIndex - {p};
      } else {
        pseudonymIndex := pseudonymIndex[p := inner];
      }
    }

    method RetrieveMessagesByPseudonym(p: PublicKey, epochs: seq<Epoch>)
      returns (r: Result<seq<ObfuscatedMessage>, StorageError>)
      requires ObfFiled()
      ensures var found := Collected(obfArrivals, p, epochs);
        r == if found == [] then Err(NotFound) else Ok(found)
    {
      hide FiledObf, Filter, Group, InEpoch;
      ghost var q := obfArrivals;
      if p !in pseudonymIndex {
        forall e ensures InEpoch(q, p, e) == [] { FiledObfLookup(q, obfuscatedMessages, pseudonymIndex, p, e); }
        NothingCollected(q, p, epochs);
        return Err(NotFound);
      }
      var inner := pseudonymIndex[p];
      var found: seq<ObfuscatedMessage> := [];
      for k := 0 to |epochs|
        invariant found == Collected(q, p, epochs[..k])
      {
        assert epochs[..k + 1][..k] == epochs[..k];
        FiledObfLookup(q, obfuscatedMessages, pseudonymIndex, p, epochs[k]);
        if epochs[k] in inner {
          found := found + inner[epochs[k]];
        }
      }
      assert epochs[..|epochs|] == epochs;
      if |found| == 0 { return Err(NotFound); }
      r := Ok(found);
    }

    /** All messages of a pseudonym whose epoch is the current one or one of the three before it. */
    method RetrieveRecentObfuscatedMessages(p: PublicKey, now: int)
      returns (r: Result<seq<ObfuscatedMessage>, StorageError>)
      requires ObfFiled() && epochManager.Valid()
      ensures r.Err? ==> r == Err(NotFound)
      ensures r.Err? <==> Recent(obfArrivals, epochManager, p, now) == []
      ensures r.Ok? ==> multiset(r.value) == multiset(Recent(obfArrivals, epochManager, p, now))
    {
      hide FiledObf, Filter, Collected;
      var epochs := epochManager.GetRecentEpochs(now);
      r := RetrieveMessagesByPseudonym(p, epochs);
      CollectedIsFilter(obfArrivals, p, epochs);
      FilterCong(InEpochs(p, epochs), IsRecent(epochManager, p, now), obfArrivals);
      var found, want := Collected(obfArrivals, p, epochs), Recent(obfArrivals, epochManager, p, now);
      assert |multiset(found)| == |found| && |multiset(want)| == |want|;
    }

    // ----- Crash recovery -----

    /** Replays the recovered entries of any log file into the store, then writes a checkpoint mark. When the
        readable entries are in order and could have been written by the store, table and index agree again. */
    method RecoverFromWal(now: int) returns (r: Result<nat, StorageError>)
      requires wal != null ==> wal.codec.Valid()
      modifies this`messages, this`recipientIndex, this`arrivals, wal
      ensures wal == null ==> r == Err(LogNotEnabled)
      ensures wal != null && old(wal.closed) ==> r == Err(LogFailed)
      ensures r.Err? ==>
        messages == old(messages) && recipientIndex == old(recipientIndex) && arrivals == old(arrivals)
      ensures wal != null && !old(wal.closed) ==>
        && r.Ok? && wal.State() == LogStep(wal.codec, old(wal.State()), CheckpointNow(now))
        && exists entries ::
             && IsRecovery(ReadAll(wal.codec, old(wal.file)), entries)
             && (messages, recipientIndex) == ReplayedMaps(serializer, old(messages), old(recipientIndex), entries)
             && r.value == |Filter(Replayable(serializer), entries)|
      ensures
        wal != null && !old(wal.closed) && old(LegacyFiled() && wal.Open()) &&
        ReplaySound(serializer, old(arrivals), Uncommitted(ReadAll(wal.codec, old(wal.file)))) ==>
          LegacyFiled() && arrivals == Replay(serializer, old(arrivals), Uncommitted(ReadAll(wal.codec, old(wal.file))))
      ensures wal != null && old(wal.Valid()) ==> wal.Valid()
    {
      hide Ordered, Frames, AllSealed, FiledObf, Filed, LogStep, Filter, ReadAll, Replay, Uncommitted, ReplayedMaps,
        ReplaySound, Track;
      if wal == null { return Err(LogNotEnabled); }
      var recovered := wal.Recover();
      if recovered.Err? { return Err(LogFailed); }
      assert IsRecovery(ReadAll(wal.codec, wal.file), recovered.value);
      var count := ReplayEntries(recovered.value);
      var _ := wal.Checkpoint(now);
      r := Ok(count);
    }

    /** The loop is the fold of the single replays, on the maps for any entries. */
    method ReplayEntries(entries: seq<Entry>) returns (count: nat)
      modifies this`messages, this`recipientIndex, this`arrivals
      ensures (messages, recipientIndex) == ReplayedMaps(serializer, old(messages), old(recipientIndex), entries)
      ensures count == |Filter(Replayable(serializer), entries)|
      ensures old(LegacyFiled()) && ReplaySound(serializer, old(arrivals), entries) ==>
        LegacyFiled() && arrivals == Replay(serializer, old(arrivals), entries)
    {
      hide Filed, ReplayStep, EntrySound, Replayable, ReplayMaps;
      count := 0;
      for k := 0 to |entries|
        invariant (messages, recipientIndex) ==
          ReplayedMaps(serializer, old(messages), old(recipientIndex), entries[..k])
        invariant count == |Filter(Replayable(serializer), entries[..k])|
        invariant old(LegacyFiled()) && ReplaySound(serializer, old(arrivals), entries) ==>
          LegacyFiled() && arrivals == Replay(serializer, old(arrivals), entries[..k])
      {
        assert entries[..k + 1][..k] == entries[..k];
        if ReplaySound(serializer, old(arrivals), entries) {
          ReplaySoundPrefix(serializer, old(arrivals), entries, k + 1);
        }
        var replayed := ReplaySingleEntry(entries[k]);
        if replayed { count := count + 1; }
      }
      assert entries[..|entries|] == entries;
    }

    /** Replays one entry of any content. A sound one keeps table and index in agreement. */
    method ReplaySingleEntry(e: Entry) returns (replayed: bool)
      modifies this`messages, this`recipientIndex, this`arrivals
      ensures (messages, recipientIndex) == ReplayMaps(serializer, old(messages), old(recipientIndex), e)
      ensures replayed == Replayable(serializer)(e)
      ensures old(LegacyFiled()) && EntrySound(serializer, old(arrivals), e) ==>
        LegacyFiled() && arrivals == ReplayStep(serializer, old(arrivals), e)
    {
      hide Filed, Filter, Spliced;
      if LegacyFiled() { TableLookup(e.messageId); }
      match e.operation {
        case StoreMessage =>
          if e.data == [] { return false; }
          var decoded := serializer.decode(e.data);
          if decoded.None? { return false; }
          if e.messageId in messages { return true; }
          RestoreDecoded(e, decoded.value);
          return true;
        case DeleteMessage =>
          if e.messageId !in messages {
            if LegacyFiled() { FilterAll(IdNotIn(Id(), {e.messageId}), arrivals); }
            return true;
          }
          RemoveReplayed(e);
          return true;
        case _ =>
          return false;
      }
    }

    method RestoreDecoded(e: Entry, m: AsyncMessage)
      requires e.messageId !in messages
      modifies this`messages, this`recipientIndex, this`arrivals
      ensures messages == old(messages)[e.messageId := m]
      ensures recipientIndex == old(recipientIndex)[e.recipient := Get(old(recipientIndex), e.recipient) + [m]]
      ensures arrivals == old(arrivals) + [m]
      ensures old(LegacyFiled()) && m.id == e.messageId && m.recipient == e.recipient ==> LegacyFiled()
    {
      hide Filed;
      if LegacyFiled() && m.id == e.messageId && m.recipient == e.recipient {
        FiledStore(arrivals, messages, recipientIndex, m);
      }
      messages := messages[e.messageId := m];
      recipientIndex := recipientIndex[e.recipient := Get(recipientIndex, e.recipient) + [m]];
      arrivals := arrivals + [m];
    }

    method RemoveReplayed(e: Entry)
      requires e.messageId in messages
      modifies this`messages, this`recipientIndex, this`arrivals
      ensures messages == old(messages) - {e.messageId}
      ensures recipientIndex ==
        Spliced(old(recipientIndex), e.recipient, old(messages)[e.messageId].recipient, e.messageId)
      ensures arrivals == Without(old(arrivals), e.messageId)
      ensures old(LegacyFiled() && messages[e.messageId].recipient == e.recipient) ==> LegacyFiled()
    {
      hide Filed, Filter, Spliced;
      var m := messages[e.messageId];
      if LegacyFiled() {
        TableLookup(e.messageId);
        FiledRemove(arrivals, messages, recipientIndex, m);
      }
      messages := messages - {e.messageId};
      SpliceFromIndex(e.recipient, m.recipient, e.messageId);
      arrivals := Without(arrivals, e.messageId);
    }

    // ----- Old epochs -----

    /** Removes exactly the messages more than three epochs old. */
    method CleanupOldEpochs(now: int) returns (count: nat)
      requires ObfFiled() && epochManager.Valid()
      modifies this`obfuscatedMessages, this`pseudonymIndex, this`obfArrivals
      ensures ObfFiled()
      ensures obfArrivals == Filter(RecentEnough(epochManager.EpochAt(now)), old(obfArrivals))
      ensures forall m :: m in obfArrivals <==> m in old(obfArrivals) && epochManager.EpochAt(now) <= m.epoch + 3
      ensures count == |old(obfArrivals)| - |obfArrivals|
    {
      hide FiledObf, Filter;
      var current := epochManager.EpochAt(now);
      count := 0;
      var todo := pseudonymIndex.Keys;
      ghost var q, keys, done: set<PublicKey> := obfArrivals, todo, {};
      forall m | m in q ensures m.pseudonym in keys { ObfListed(m); }
      FilterAll(KeepUnless(done, current), q);
      while todo != {}
        invariant ObfFiled() && done == keys - todo && todo <= keys
        invariant obfArrivals == Filter(KeepUnless(done, current), q)
        invariant count == |q| - |obfArrivals|
        decreases |todo|
      {
        var p :| p in todo;
        var n := CleanupPseudonym(p, current);
        FilterTwice(KeepUnless({p}, current), KeepUnless(done, current), KeepUnless(done + {p}, current), q);
        todo := todo - {p};
        done := done + {p};
        count := count + n;
      }
      FilterCong(KeepUnless(done, current), RecentEnough(current), q);
      FilterMembers(RecentEnough(current), q);
    }

    /** Drops the old epochs of one pseudonym, in any order, and the pseudonym if nothing is left. */
    method CleanupPseudonym(p: PublicKey, current: Epoch) returns (count: nat)
      requires ObfFiled()
      modifies this`obfuscatedMessages, this`pseudonymIndex, this`obfArrivals
      ensures ObfFiled()
      ensures obfArrivals == Filter(KeepUnless({p}, current), old(obfArrivals))
      ensures count == |old(obfArrivals)| - |obfArrivals|
    {
      hide FiledObf, Filter, Group, Progress;
      count := 0;
      ghost var q, index := obfArrivals, pseudonymIndex;
      var inner := GetInner(pseudonymIndex, p);
      ProgressStart(q, obfuscatedMessages, index, p, current);
      var epochs := inner.Keys;
      ghost var all, done: set<Epoch> := epochs, {};
      while epochs != {}
        invariant epochs <= all && done == all - epochs && epochs <= inner.Keys
        invariant Progress(q, p, done, current, obfuscatedMessages, inner, count)
        invariant pseudonymIndex == index
        decreases |epochs|
      {
        var e :| e in epochs;
        ProgressStep(q, p, done, e, current, obfuscatedMessages, inner, count);
        if TooOld(e, current) {
          var list := inner[e];
          DeleteListed(list);
          inner := inner - {e};
          count := count + |list|;
        }
        epochs := epochs - {e};
        done := done + {e};
      }
      assert done == all;
      ProgressEnd(q, index, p, all, current, obfuscatedMessages, inner, count);
      assert inner == map[] <==> |inner| == 0;
      if |inner| == 0 {
        pseudonymIndex := pseudonymIndex - {p};
      } else {
        pseudonymIndex := pseudonymIndex[p := inner];
      }
      obfArrivals := Filter(KeepUnless({p}, current), q);
    }

    /** Deletes every listed message from the table. */
    method DeleteListed(list: seq<ObfuscatedMessage>)
      modifies this`obfuscatedMessages
      ensures obfuscatedMessages == old(obfuscatedMessages) - IdsOf(list)
    {
      for k := 0 to |list|
        invariant obfuscatedMessages == old(obfuscatedMessages) - IdsOf(list[..k])
      {
        assert list[..k + 1] == list[..k] + [list[k]];
        obfuscatedMessages := obfuscatedMessages - {list[k].id};
      }
      assert list[..|list|] == list;
    }
  }

  ghost function IdsOf(list: seq<ObfuscatedMessage>): set<nat> {
    set m | m in list :: m.id
  }

  /** Keeps everything except the old messages of the given pseudonyms. */
  ghost function KeepUnless(done: set<PublicKey>, current: Epoch): ObfuscatedMessage -> bool {
    (m: ObfuscatedMessage) => !(m.pseudonym in done && TooOld(m.epoch, current))
  }

  /** Keeps everything except the old messages of `p` in the given epochs. */
  ghost function KeepEpochs(p: PublicKey, done: set<Epoch>, current: Epoch): ObfuscatedMessage -> bool {
    (m: ObfuscatedMessage) => !(m.pseudonym == p && m.epoch in done && TooOld(m.epoch, current))
  }

  /** Where the loop over one pseudonym's epochs stands when `done` are processed. */
  ghost predicate Progress(q: seq<ObfuscatedMessage>, p: PublicKey, done: set<Epoch>, current: Epoch,
                           messages: map<nat, ObfuscatedMessage>, inner: map<Epoch, seq<ObfuscatedMessage>>,
                           count: int)
  {
    var left := Filter(KeepEpochs(p, done, current), q);
    && Unique(ObfId(), left)
    && messages == Table(ObfId(), left)
    && inner == Group(EpochOf(), Filter(KeepEpochs(p, done, current), ForPseudonym(q, p)))
    && count == |q| - |left|
  }

  lemma ProgressStart(q: seq<ObfuscatedMessage>, messages: map<nat, ObfuscatedMessage>,
                      index: map<PublicKey, map<Epoch, seq<ObfuscatedMessage>>>, p: PublicKey, current: Epoch)
    requires FiledObf(q, messages, index)
    ensures Progress(q, p, {}, current, messages, GetInner(index, p), 0)
  {
    hide Filter, Group;
    NestedGet(Pseudonym(), EpochOf(), q, p);
    FilterAll(KeepEpochs(p, {}, current), q);
    FilterAll(KeepEpochs(p, {}, current), ForPseudonym(q, p));
  }

  lemma ProgressStep(q: seq<ObfuscatedMessage>, p: PublicKey, done: set<Epoch>, e: Epoch, current: Epoch,
                     messages: map<nat, ObfuscatedMessage>, inner: map<Epoch, seq<ObfuscatedMessage>>, count: int)
    requires Progress(q, p, done, current, messages, inner, count) && e !in done && e in inner
    ensures !TooOld(e, current) ==> Progress(q, p, done + {e}, current, messages, inner, count)
    ensures TooOld(e, current) ==>
      Progress(q, p, done + {e}, current, messages - IdsOf(inner[e]), inner - {e}, count + |inner[e]|)
  {
    hide Filter, Group, Unique, Table;
    EpochDropped(q, p, done, e, current);
  }

  lemma ProgressEnd(q: seq<ObfuscatedMessage>, index: map<PublicKey, map<Epoch, seq<ObfuscatedMessage>>>,
                    p: PublicKey, all: set<Epoch>, current: Epoch,
                    messages: map<nat, ObfuscatedMessage>, inner: map<Epoch, seq<ObfuscatedMessage>>, count: int)
    requires exists before :: FiledObf(q, before, index)
    requires all == GetInner(index, p).Keys
    requires Progress(q, p, all, current, messages, inner, count)
    ensures
      var left := Filter(KeepUnless({p}, current), q);
      && FiledObf(left, messages, if inner == map[] then index - {p} else index[p := inner])
      && count == |q| - |left|
  {
    hide Filter, Group, Nested, Unique, Table;
    FiledAfterCleanup(q, index, p, all, current);
  }

  /** What one more processed epoch changes: nothing unless it is old, and then exactly its list. */
  lemma EpochDropped(q: seq<ObfuscatedMessage>, p: PublicKey, done: set<Epoch>, e: Epoch, current: Epoch)
    requires Unique(ObfId(), Filter(KeepEpochs(p, done, current), q)) && e !in done
    ensures
      var f := ForPseudonym(q, p);
      var before, after := Filter(KeepEpochs(p, done, current), q), Filter(KeepEpochs(p, done + {e}, current), q);
      var g, g' := Group(EpochOf(), Filter(KeepEpochs(p, done, current), f)),
                   Group(EpochOf(), Filter(KeepEpochs(p, done + {e}, current), f));
      && Unique(ObfId(), after)
      && (!TooOld(e, current) ==> after == before && g' == g)
      && (TooOld(e, current) ==>
            && Table(ObfId(), after) == Table(ObfId(), before) - IdsOf(Get(g, e))
            && g' == g - {e} && |after| == |before| - |Get(g, e)|)
  {
    hide Filter, Group, Table, Unique;
    var f := ForPseudonym(q, p);
    if !TooOld(e, current) {
      FilterCong(KeepEpochs(p, done, current), KeepEpochs(p, done + {e}, current), q);
      FilterCong(KeepEpochs(p, done, current), KeepEpochs(p, done + {e}, current), f);
    } else {
      EpochListDropped(q, p, done, e, current);
      EpochTableDropped(q, p, done, e, current);
    }
  }

  ghost function NotInEpoch(p: PublicKey, e: Epoch): ObfuscatedMessage -> bool {
    (m: ObfuscatedMessage) => !(m.pseudonym == p && m.epoch == e)
  }

  lemma EpochListDropped(q: seq<ObfuscatedMessage>, p: PublicKey, done: set<Epoch>, e: Epoch, current: Epoch)
    requires TooOld(e, current) && e !in done
    ensures
      var f := ForPseudonym(q, p);
      var g := Group(EpochOf(), Filter(KeepEpochs(p, done, current), f));
      && Group(EpochOf(), Filter(KeepEpochs(p, done + {e}, current), f)) == g - {e}
      && Get(g, e) == InEpoch(q, p, e)
  {
    hide Filter, Group;
    var f := ForPseudonym(q, p);
    var keep, keep' := KeepEpochs(p, done, current), KeepEpochs(p, done + {e}, current);
    FilterMembers(HasKey(Pseudonym(), p), q);
    var b := Filter(keep, f);
    FilterMembers(keep, f);
    FilterTwice(NotInEpoch(p, e), keep, keep', f);
    GroupGet(EpochOf(), b, e);
    var l := Filter(HasKey(EpochOf(), e), b);
    FilterMembers(HasKey(EpochOf(), e), b);
    FilterNone(NotInEpoch(p, e), l);
    GroupDrop(EpochOf(), NotInEpoch(p, e), b, e);
    FilterTwice(HasKey(EpochOf(), e), keep, HasKey(EpochOf(), e), f);
  }

  lemma EpochTableDropped(q: seq<ObfuscatedMessage>, p: PublicKey, done: set<Epoch>, e: Epoch, current: Epoch)
    requires Unique(ObfId(), Filter(KeepEpochs(p, done, current), q)) && TooOld(e, current) && e !in done
    ensures
      var before, after := Filter(KeepEpochs(p, done, current), q), Filter(KeepEpochs(p, done + {e}, current), q);
      && Unique(ObfId(), after)
      && Table(ObfId(), after) == Table(ObfId(), before) - IdsOf(InEpoch(q, p, e))
      && |after| == |before| - |InEpoch(q, p, e)|
  {
    hide Filter, Table;
    var keep, keep' := KeepEpochs(p, done, current), KeepEpochs(p, done + {e}, current);
    var before, list := Filter(keep, q), InEpoch(q, p, e);
    InEpochMembers(q, p, e);
    FilterMembers(keep, q);
    var d := IdsOf(list);
    forall m | m in before ensures IdNotIn(ObfId(), d)(m) == NotInEpoch(p, e)(m) {
      if m.id in d {
        var x :| x in list && x.id == m.id;
        ObfSameIdSameMessage(before, m, x);
      }
    }
    FilterCong(IdNotIn(ObfId(), d), NotInEpoch(p, e), before);
    FilterTwice(NotInEpoch(p, e), keep, keep', q);
    TableDrop(ObfId(), before, d);
    var inE := InEpochs(p, [e]);
    FilterSplit(NotInEpoch(p, e), inE, before);
    FilterTwice(inE, keep, inE, q);
    FilterTwice(HasKey(EpochOf(), e), HasKey(Pseudonym(), p), inE, q);
  }

  /** With every epoch of `p` processed, what is left is filed by dropping or replacing its inner index. */
  lemma FiledAfterCleanup(q: seq<ObfuscatedMessage>, index: map<PublicKey, map<Epoch, seq<ObfuscatedMessage>>>,
                          p: PublicKey, all: set<Epoch>, current: Epoch)
    requires index == Nested(Pseudonym(), EpochOf(), q)
    requires all == GetInner(index, p).Keys
    ensures Filter(KeepEpochs(p, all, current), q) == Filter(KeepUnless({p}, current), q)
    ensures
      var left := Group(EpochOf(), Filter(KeepEpochs(p, all, current), ForPseudonym(q, p)));
      Nested(Pseudonym(), EpochOf(), Filter(KeepUnless({p}, current), q)) ==
        if left == map[] then index - {p} else index[p := left]
  {
    hide Filter, Group, Nested;
    var f := ForPseudonym(q, p);
    NestedGet(Pseudonym(), EpochOf(), q, p);
    FilterMembers(HasKey(Pseudonym(), p), q);
    forall m | m in f ensures m.epoch in all {
      GroupGet(EpochOf(), f, m.epoch);
      FilterMember(HasKey(EpochOf(), m.epoch), f, m);
    }
    FilterCong(KeepEpochs(p, all, current), KeepUnless({p}, current), q);
    FilterCong(KeepEpochs(p, all, current), KeepUnless({p}, current), f);
    NestedDrop(Pseudonym(), EpochOf(), KeepUnless({p}, current), q, p);
  }

  ghost function IsRecent(em: EpochManager, p: PublicKey, now: int): ObfuscatedMessage -> bool
    requires em.Valid()
  {
    (m: ObfuscatedMessage) => m.pseudonym == p && em.IsValidEpoch(m.epoch, now)
  }

  ghost function Recent(q: seq<ObfuscatedMessage>, em: EpochManager, p: PublicKey, now: int): seq<ObfuscatedMessage>
    requires em.Valid()
  {
    Filter(IsRecent(em, p, now), q)
  }

  ghost function EpochIn(epochs: set<Epoch>): ObfuscatedMessage -> bool {
    (m: ObfuscatedMessage) => m.epoch in epochs
  }

  lemma CountEpoch(f: seq<ObfuscatedMessage>, done: set<Epoch>, e: Epoch)
    requires e !in done
    ensures |Filter(EpochIn(done + {e}), f)| == |Filter(EpochIn(done), f)| + |Filter(HasKey(EpochOf(), e), f)|
  {
    var both := Filter(EpochIn(done + {e}), f);
    FilterMembers(EpochIn(done + {e}), f);
    FilterSplit(EpochIn(done), HasKey(EpochOf(), e), both);
    FilterTwice(EpochIn(done), EpochIn(done + {e}), EpochIn(done), f);
    FilterTwice(HasKey(EpochOf(), e), EpochIn(done + {e}), HasKey(EpochOf(), e), f);
  }

  lemma {:induction false} NothingCollected(q: seq<ObfuscatedMessage>, p: PublicKey, epochs: seq<Epoch>)
    requires forall e :: InEpoch(q, p, e) == []
    ensures Collected(q, p, epochs) == []
  {
    if epochs != [] { NothingCollected(q, p, epochs[..|epochs| - 1]); }
  }

  ghost function Ids<K>(ids: seq<K>): set<K> {
    set id | id in ids
  }

  lemma IdsSnoc<K>(ids: seq<K>, k: nat)
    requires k < |ids| && forall i, j | 0 <= i < j < |ids| :: ids[i] != ids[j]
    ensures Ids(ids[..k + 1]) == Ids(ids[..k]) + {ids[k]} && ids[k] !in Ids(ids[..k])
  {
    assert ids[..k + 1] == ids[..k] + [ids[k]];
  }

  /** Dropping the expired identifiers is dropping the expired messages. */
  lemma OldTableExpiry(q: seq<AsyncMessage>, table: map<MessageId, AsyncMessage>,
                       index: map<PublicKey, seq<AsyncMessage>>, ids: seq<MessageId>, now: int)
    requires Filed(q, table, index)
    requires forall id :: id in ids <==> id in table && IsExpired(table[id], now)
    ensures Filter(IdNotIn(Id(), Ids(ids)), q) == Filter(Unexpired(now), q)
  {
    forall m | m in q ensures IdNotIn(Id(), Ids(ids))(m) == Unexpired(now)(m) {
      assert Id()(m) in table;
      SameIdSameMessage(q, m, table[m.id]);
    }
    FilterCong(IdNotIn(Id(), Ids(ids)), Unexpired(now), q);
  }

  lemma OldObfTableExpiry(q: seq<ObfuscatedMessage>, table: map<nat, ObfuscatedMessage>,
                          index: map<PublicKey, map<Epoch, seq<ObfuscatedMessage>>>, ids: seq<nat>, now: int)
    requires FiledObf(q, table, index)
    requires forall id :: id in ids <==> id in table && now > table[id].expiresAt
    ensures Filter(IdNotIn(ObfId(), Ids(ids)), q) == Filter(ObfUnexpired(now), q)
  {
    forall m | m in q ensures IdNotIn(ObfId(), Ids(ids))(m) == ObfUnexpired(now)(m) {
      assert ObfId()(m) in table;
      ObfSameIdSameMessage(q, m, table[m.id]);
    }
    FilterCong(IdNotIn(ObfId(), Ids(ids)), ObfUnexpired(now), q);
  }
}
