/** The message store as two arrival-ordered lists, and what its maps must look like for them. */
module StoreSpec {
  import opened Common
  import opened Grouping
  import opened Wal
  import opened Epochs

  const ENCRYPTION_OVERHEAD := 16
  const MAX_MESSAGES_PER_RECIPIENT := 100
  /** 24 hours in nanoseconds. */
  const MAX_STORAGE_TIME := 24 * 3600 * 1_000_000_000

  /** A legacy message; times are nanoseconds. */
  datatype AsyncMessage = AsyncMessage(
    id: MessageId,
    recipient: PublicKey,
    sender: PublicKey,
    encryptedData: seq<Byte>,
    timestamp: int,
    nonce: nat,
    messageType: nat)

  /** An obfuscated message; `envelope` holds the fields the store only carries. */
  datatype ObfuscatedMessage = ObfuscatedMessage(
    id: nat,
    pseudonym: PublicKey,
    epoch: Epoch,
    payload: seq<Byte>,
    expiresAt: int,
    envelope: seq<Byte>)

  datatype StorageError =
    | EmptyMessage | MessageTooLong | StorageFull | TooManyForRecipient
    | LogFailed | LogNotEnabled | NotFound | Unauthorized
    | InvalidEpoch | AlreadyExpired | DuplicateId

  ghost function Id(): AsyncMessage -> MessageId { (m: AsyncMessage) => m.id }
  ghost function Recipient(): AsyncMessage -> PublicKey { (m: AsyncMessage) => m.recipient }
  ghost function ObfId(): ObfuscatedMessage -> nat { (m: ObfuscatedMessage) => m.id }
  ghost function Pseudonym(): ObfuscatedMessage -> PublicKey { (m: ObfuscatedMessage) => m.pseudonym }
  ghost function EpochOf(): ObfuscatedMessage -> Epoch { (m: ObfuscatedMessage) => m.epoch }

  predicate IsExpired(m: AsyncMessage, now: int) {
    now - m.timestamp > MAX_STORAGE_TIME
  }

  ghost function Unexpired(now: int): AsyncMessage -> bool { (m: AsyncMessage) => !IsExpired(m, now) }
  ghost function ObfUnexpired(now: int): ObfuscatedMessage -> bool { (m: ObfuscatedMessage) => now <= m.expiresAt }

  /** Messages expire 24 hours after their timestamp. */
  lemma ExpiryMembers(q: seq<AsyncMessage>, now: int)
    ensures forall m :: m in Filter(Unexpired(now), q) <==> m in q && now - m.timestamp <= 24 * 3600 * 1_000_000_000
  {
    FilterMembers(Unexpired(now), q);
  }

  /** The epoch is more than three behind. */
  predicate TooOld(epoch: Epoch, current: Epoch) {
    current > epoch && current - epoch > 3
  }

  ghost function RecentEnough(current: Epoch): ObfuscatedMessage -> bool {
    (m: ObfuscatedMessage) => !TooOld(m.epoch, current)
  }

  ghost function Without(q: seq<AsyncMessage>, id: MessageId): seq<AsyncMessage> {
    Filter(IdNotIn(Id(), {id}), q)
  }

  ghost function ObfWithout(q: seq<ObfuscatedMessage>, id: nat): seq<ObfuscatedMessage> {
    Filter(IdNotIn(ObfId(), {id}), q)
  }

  ghost function ForRecipient(q: seq<AsyncMessage>, r: PublicKey): seq<AsyncMessage> {
    Filter(HasKey(Recipient(), r), q)
  }

  ghost function ForPseudonym(q: seq<ObfuscatedMessage>, p: PublicKey): seq<ObfuscatedMessage> {
    Filter(HasKey(Pseudonym(), p), q)
  }

  // ----- Legacy messages: the maps that file a list -----

  ghost predicate Filed(q: seq<AsyncMessage>, messages: map<MessageId, AsyncMessage>,
                        index: map<PublicKey, seq<AsyncMessage>>) {
    && Unique(Id(), q)
    && messages == Table(Id(), q)
    && index == Group(Recipient(), q)
  }

  /** The first message `id` leaves the list of `at`; an empty list of `owner` is dropped. */
  ghost function Spliced(index: map<PublicKey, seq<AsyncMessage>>, at: PublicKey, owner: PublicKey, id: MessageId)
    : map<PublicKey, seq<AsyncMessage>>
  {
    var index' := if at in index then index[at := DropFirst(Id(), index[at], id)] else index;
    if Get(index', owner) == [] then index' - {owner} else index'
  }

  lemma FiledStore(q: seq<AsyncMessage>, messages: map<MessageId, AsyncMessage>,
                   index: map<PublicKey, seq<AsyncMessage>>, m: AsyncMessage)
    requires Filed(q, messages, index) && m.id !in messages
    ensures Filed(q + [m], messages[m.id := m], index[m.recipient := Get(index, m.recipient) + [m]])
  {
    TableSnoc(Id(), q, m);
    GroupSnoc(Recipient(), q, m);
  }

  lemma SplicedUnique(index: map<PublicKey, seq<AsyncMessage>>, r: PublicKey, id: MessageId)
    requires Unique(Id(), Get(index, r))
    ensures
      var left := Without(Get(index, r), id);
      Spliced(index, r, r, id) == if left == [] then index - {r} else index[r := left]
  {
    hide Filter, DropFirst;
    DropFirstUnique(Id(), Get(index, r), id);
    FilterNone(IdNotIn(Id(), {id}), []);
  }

  lemma FiledRemove(q: seq<AsyncMessage>, messages: map<MessageId, AsyncMessage>,
                    index: map<PublicKey, seq<AsyncMessage>>, m: AsyncMessage)
    requires Filed(q, messages, index) && m in q
    ensures Filed(Without(q, m.id), messages - {m.id}, Spliced(index, m.recipient, m.recipient, m.id))
  {
    hide Filter, DropFirst;
    GroupGet(Recipient(), q, m.recipient);
    UniqueFilter(Id(), HasKey(Recipient(), m.recipient), q);
    SplicedUnique(index, m.recipient, m.id);
    TableDrop(Id(), q, {m.id});
    forall x | x in q && Recipient()(x) != m.recipient ensures IdNotIn(Id(), {m.id})(x) {
      if x.id == m.id { SameIdSameMessage(q, x, m); }
    }
    GroupDrop(Recipient(), IdNotIn(Id(), {m.id}), q, m.recipient);
  }

  lemma SameIdSameMessage(q: seq<AsyncMessage>, x: AsyncMessage, y: AsyncMessage)
    requires Unique(Id(), q) && x in q && y in q && x.id == y.id
    ensures x == y
  {
    var i :| 0 <= i < |q| && q[i] == x;
    var j :| 0 <= j < |q| && q[j] == y;
    assert Id()(q[i]) == Id()(q[j]);
  }

  /** Message table and recipient index agree: every message is listed exactly once, under its own
      recipient; nothing else is listed; no list is empty. */
  ghost predicate IndexAgrees(messages: map<MessageId, AsyncMessage>, index: map<PublicKey, seq<AsyncMessage>>) {
    EveryListed(messages, index) && ListsDistinct(index) && OnlyStored(messages, index)
  }

  ghost predicate EveryListed(messages: map<MessageId, AsyncMessage>, index: map<PublicKey, seq<AsyncMessage>>) {
    forall id :: id in messages ==> messages[id].id == id && messages[id] in Get(index, messages[id].recipient)
  }

  ghost predicate ListsDistinct(index: map<PublicKey, seq<AsyncMessage>>) {
    forall r :: r in index ==> index[r] != [] && Unique(Id(), index[r])
  }

  ghost predicate OnlyStored(messages: map<MessageId, AsyncMessage>, index: map<PublicKey, seq<AsyncMessage>>) {
    forall r, m :: r in index && m in index[r] ==> m.recipient == r && m.id in messages && messages[m.id] == m
  }

  lemma FiledAgrees(q: seq<AsyncMessage>, messages: map<MessageId, AsyncMessage>,
                    index: map<PublicKey, seq<AsyncMessage>>)
    requires Filed(q, messages, index)
    ensures IndexAgrees(messages, index)
  {
    hide Filter;
    forall r
      ensures Get(index, r) == ForRecipient(q, r) && (r in index <==> ForRecipient(q, r) != [])
      ensures Unique(Id(), ForRecipient(q, r))
      ensures forall m :: m in ForRecipient(q, r) <==> m in q && m.recipient == r
    {
      GroupGet(Recipient(), q, r);
      UniqueFilter(Id(), HasKey(Recipient(), r), q);
      FilterMembers(HasKey(Recipient(), r), q);
    }
  }

  lemma StoreFreshAgrees(messages: map<MessageId, AsyncMessage>,
                         index: map<PublicKey, seq<AsyncMessage>>, m: AsyncMessage)
    requires IndexAgrees(messages, index) && m.id !in messages
    ensures IndexAgrees(messages[m.id := m], index[m.recipient := Get(index, m.recipient) + [m]])
  {
    hide Unique;
    FreshDistinct(messages, index, m);
    FreshOnlyStored(messages, index, m);
    hide OnlyStored, ListsDistinct;
  }

  lemma FreshDistinct(messages: map<MessageId, AsyncMessage>,
                      index: map<PublicKey, seq<AsyncMessage>>, m: AsyncMessage)
    requires OnlyStored(messages, index) && ListsDistinct(index) && m.id !in messages
    ensures ListsDistinct(index[m.recipient := Get(index, m.recipient) + [m]])
  {
    var l := Get(index, m.recipient);
    forall i | 0 <= i < |l| ensures Id()(l[i]) != m.id { assert l[i] in l; }
    assert Unique(Id(), l + [m]);
    hide Unique;
  }

  lemma FreshOnlyStored(messages: map<MessageId, AsyncMessage>,
                        index: map<PublicKey, seq<AsyncMessage>>, m: AsyncMessage)
    requires OnlyStored(messages, index) && m.id !in messages
    ensures OnlyStored(messages[m.id := m], index[m.recipient := Get(index, m.recipient) + [m]])
  {
    var index' := index[m.recipient := Get(index, m.recipient) + [m]];
    forall r, x: AsyncMessage | r in index' && x in index'[r]
      ensures x.recipient == r && (x == m || (x.id in messages && messages[x.id] == x))
    {
      assert x != m ==> r in index && x in index[r];
    }
  }

  lemma StoreReusedDisagrees(messages: map<MessageId, AsyncMessage>,
                             index: map<PublicKey, seq<AsyncMessage>>, m: AsyncMessage)
    requires IndexAgrees(messages, index) && m.id in messages
    ensures !IndexAgrees(messages[m.id := m], index[m.recipient := Get(index, m.recipient) + [m]])
  {
    var index' := index[m.recipient := Get(index, m.recipient) + [m]];
    var l := Get(index, m.recipient);
    var stored := messages[m.id];
    if stored.recipient == m.recipient {
      var i :| 0 <= i < |l| && l[i] == stored;
      assert Id()((l + [m])[i]) == Id()((l + [m])[|l|]);
      assert !Unique(Id(), index'[m.recipient]);
    } else {
      assert stored in index'[stored.recipient];
    }
  }

  /** Storing keeps the agreement exactly when the random identifier is not already in use. */
  lemma StoreAgreesIffFresh(messages: map<MessageId, AsyncMessage>,
                            index: map<PublicKey, seq<AsyncMessage>>, m: AsyncMessage)
    requires IndexAgrees(messages, index)
    ensures IndexAgrees(messages[m.id := m], index[m.recipient := Get(index, m.recipient) + [m]])
      <==> m.id !in messages
  {
    hide IndexAgrees;
    if m.id in messages {
      StoreReusedDisagrees(messages, index, m);
    } else {
      StoreFreshAgrees(messages, index, m);
    }
  }

  // ----- Obfuscated messages: the maps that file a list -----

  ghost predicate FiledObf(q: seq<ObfuscatedMessage>, messages: map<nat, ObfuscatedMessage>,
                           index: map<PublicKey, map<Epoch, seq<ObfuscatedMessage>>>) {
    && Unique(ObfId(), q)
    && messages == Table(ObfId(), q)
    && index == Nested(Pseudonym(), EpochOf(), q)
  }

  ghost function ObfUnindexed(index: map<PublicKey, map<Epoch, seq<ObfuscatedMessage>>>,
                              p: PublicKey, e: Epoch, id: nat)
    : map<PublicKey, map<Epoch, seq<ObfuscatedMessage>>>
  {
    var inner := GetInner(index, p);
    var left := DropFirst(ObfId(), Get(inner, e), id);
    var inner' := if left == [] then inner - {e} else inner[e := left];
    if inner' == map[] then index - {p} else index[p := inner']
  }

  lemma FiledObfStore(q: seq<ObfuscatedMessage>, messages: map<nat, ObfuscatedMessage>,
                      index: map<PublicKey, map<Epoch, seq<ObfuscatedMessage>>>, m: ObfuscatedMessage)
    requires FiledObf(q, messages, index) && m.id !in messages
    ensures
      var inner := GetInner(index, m.pseudonym);
      FiledObf(q + [m], messages[m.id := m],
               index[m.pseudonym := inner[m.epoch := Get(inner, m.epoch) + [m]]])
  {
    TableSnoc(ObfId(), q, m);
    NestedSnoc(Pseudonym(), EpochOf(), q, m);
  }

  lemma ObfSameIdSameMessage(q: seq<ObfuscatedMessage>, x: ObfuscatedMessage, y: ObfuscatedMessage)
    requires Unique(ObfId(), q) && x in q && y in q && x.id == y.id
    ensures x == y
  {
    var i :| 0 <= i < |q| && q[i] == x;
    var j :| 0 <= j < |q| && q[j] == y;
    assert ObfId()(q[i]) == ObfId()(q[j]);
  }

  lemma FiledObfRemove(q: seq<ObfuscatedMessage>, messages: map<nat, ObfuscatedMessage>,
                       index: map<PublicKey, map<Epoch, seq<ObfuscatedMessage>>>, m: ObfuscatedMessage)
    requires FiledObf(q, messages, index) && m in q
    ensures FiledObf(ObfWithout(q, m.id), messages - {m.id}, ObfUnindexed(index, m.pseudonym, m.epoch, m.id))
  {
    var keep := IdNotIn(ObfId(), {m.id});
    TableDrop(ObfId(), q, {m.id});
    forall x | x in q && (x.pseudonym != m.pseudonym || x.epoch != m.epoch) ensures keep(x) {
      if x.id == m.id { ObfSameIdSameMessage(q, x, m); }
    }
    var f := ForPseudonym(q, m.pseudonym);
    UniqueFilter(ObfId(), HasKey(Pseudonym(), m.pseudonym), q);
    UniqueFilter(ObfId(), HasKey(EpochOf(), m.epoch), f);
    GroupGet(EpochOf(), f, m.epoch);
    DropFirstUnique(ObfId(), InEpoch(q, m.pseudonym, m.epoch), m.id);
    NestedDrop(Pseudonym(), EpochOf(), keep, q, m.pseudonym);
    NestedGet(Pseudonym(), EpochOf(), q, m.pseudonym);
    FilterMembers(HasKey(Pseudonym(), m.pseudonym), q);
    GroupDrop(EpochOf(), keep, f, m.epoch);
  }

  /** Every obfuscated message is listed under its own pseudonym and epoch. */
  ghost predicate EveryMessageIndexed(messages: map<nat, ObfuscatedMessage>,
                                      index: map<PublicKey, map<Epoch, seq<ObfuscatedMessage>>>) {
    forall id :: id in messages ==>
      && messages[id].id == id
      && messages[id] in Get(GetInner(index, messages[id].pseudonym), messages[id].epoch)
  }

  /** One list of the pseudonym index: not empty, no repeats, only stored messages that belong there. */
  ghost predicate ListSound(messages: map<nat, ObfuscatedMessage>, p: PublicKey, e: Epoch, l: seq<ObfuscatedMessage>) {
    && l != [] && Unique(ObfId(), l)
    && forall m :: m in l ==> m.pseudonym == p && m.epoch == e && m.id in messages && messages[m.id] == m
  }

  /** Obfuscated table and pseudonym index agree, without empty lists or inner maps. */
  ghost predicate ObfIndexAgrees(messages: map<nat, ObfuscatedMessage>,
                                 index: map<PublicKey, map<Epoch, seq<ObfuscatedMessage>>>) {
    && EveryMessageIndexed(messages, index)
    && (forall p :: p in index ==> index[p] != map[])
    && (forall p, e :: p in index && e in index[p] ==> ListSound(messages, p, e, index[p][e]))
  }

  /** The list filed under one pseudonym and epoch. */
  ghost function InEpoch(q: seq<ObfuscatedMessage>, p: PublicKey, e: Epoch): seq<ObfuscatedMessage> {
    Filter(HasKey(EpochOf(), e), ForPseudonym(q, p))
  }

  lemma InEpochMembers(q: seq<ObfuscatedMessage>, p: PublicKey, e: Epoch)
    ensures forall m :: m in InEpoch(q, p, e) <==> m in q && m.pseudonym == p && m.epoch == e
    ensures Unique(ObfId(), q) ==> Unique(ObfId(), InEpoch(q, p, e))
  {
    hide Filter;
    FilterMembers(HasKey(Pseudonym(), p), q);
    FilterMembers(HasKey(EpochOf(), e), ForPseudonym(q, p));
    if Unique(ObfId(), q) {
      UniqueFilter(ObfId(), HasKey(Pseudonym(), p), q);
      UniqueFilter(ObfId(), HasKey(EpochOf(), e), ForPseudonym(q, p));
    }
  }

  lemma FiledObfLookup(q: seq<ObfuscatedMessage>, messages: map<nat, ObfuscatedMessage>,
                       index: map<PublicKey, map<Epoch, seq<ObfuscatedMessage>>>, p: PublicKey, e: Epoch)
    requires FiledObf(q, messages, index)
    ensures Get(GetInner(index, p), e) == InEpoch(q, p, e)
    ensures e in GetInner(index, p) <==> InEpoch(q, p, e) != []
    ensures p in index ==> index[p] != map[]
  {
    NestedGet(Pseudonym(), EpochOf(), q, p);
    GroupGet(EpochOf(), ForPseudonym(q, p), e);
  }

  lemma FiledObfIndexed(q: seq<ObfuscatedMessage>, messages: map<nat, ObfuscatedMessage>,
                        index: map<PublicKey, map<Epoch, seq<ObfuscatedMessage>>>)
    requires FiledObf(q, messages, index)
    ensures EveryMessageIndexed(messages, index)
  {
    hide Filter, Nested, InEpoch, Unique;
    forall id | id in messages
      ensures messages[id].id == id
      ensures messages[id] in Get(GetInner(index, messages[id].pseudonym), messages[id].epoch)
    {
      var m := messages[id];
      FiledObfLookup(q, messages, index, m.pseudonym, m.epoch);
      InEpochMembers(q, m.pseudonym, m.epoch);
    }
  }

  lemma FiledObfListSound(q: seq<ObfuscatedMessage>, messages: map<nat, ObfuscatedMessage>,
                          index: map<PublicKey, map<Epoch, seq<ObfuscatedMessage>>>, p: PublicKey, e: Epoch)
    requires FiledObf(q, messages, index) && p in index && e in index[p]
    ensures ListSound(messages, p, e, index[p][e])
  {
    hide Filter, Nested, InEpoch, Unique;
    FiledObfLookup(q, messages, index, p, e);
    InEpochMembers(q, p, e);
    forall m | m in q ensures m.id in messages && messages[m.id] == m {
      assert ObfId()(m) in messages;
      ObfSameIdSameMessage(q, m, messages[m.id]);
    }
  }

  lemma FiledObfAgrees(q: seq<ObfuscatedMessage>, messages: map<nat, ObfuscatedMessage>,
                       index: map<PublicKey, map<Epoch, seq<ObfuscatedMessage>>>)
    requires FiledObf(q, messages, index)
    ensures ObfIndexAgrees(messages, index)
  {
    hide Filter, Nested, Unique, ListSound, EveryMessageIndexed, FiledObf;
    FiledObfIndexed(q, messages, index);
    forall p | p in index ensures index[p] != map[] {
      FiledObfLookup(q, messages, index, p, 0);
    }
    forall p, e | p in index && e in index[p] ensures ListSound(messages, p, e, index[p][e]) {
      FiledObfListSound(q, messages, index, p, e);
    }
  }
}
