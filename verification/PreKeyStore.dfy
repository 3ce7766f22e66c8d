/** The pre-key store: bundles whose key pairs are objects that are wiped in place. */
module PreKeyStore {
  import opened Common
  import opened PreKeySpec

  type Peer = nat

  const MAX_PRE_KEY_AGE := 30 * 24 * 3600 * 1_000_000_000

  class KeyPair {
    var pub: nat
    var priv: nat

    constructor (pub: nat, priv: nat)
      ensures this.pub == pub && this.priv == priv
    {
      this.pub, this.priv := pub, priv;
    }

    /** Erases the private half only. */
    method Wipe()
      modifies this`priv
      ensures priv == WIPED
    {
      priv := WIPED;
    }
  }

  datatype PreKey = PreKey(id: nat, keyPair: KeyPair?, used: bool)

  ghost function View(k: PreKey): KeyRecord
    reads k.keyPair
  {
    KeyRecord(k.id, if k.keyPair == null then None else Some(KeyMaterial(k.keyPair.pub, k.keyPair.priv)), k.used)
  }

  /** No two keys share a key pair. */
  ghost predicate Unshared(keys: seq<PreKey>) {
    forall i, j | 0 <= i < j < |keys| :: keys[i].keyPair != null ==> keys[i].keyPair != keys[j].keyPair
  }

  lemma UnsharedRemove(keys: seq<PreKey>, i: nat)
    requires Unshared(keys) && i < |keys|
    ensures Unshared(keys[..i] + keys[i + 1..])
  {
    var left := keys[..i] + keys[i + 1..];
    assert forall j | 0 <= j < |left| :: left[j] == keys[if j < i then j else j + 1];
  }

  lemma RemovedMatches(keys: seq<PreKey>, records: seq<KeyRecord>, i: nat)
    requires i < |keys| == |records| && forall j | 0 <= j < |keys| && j != i :: records[j] == View(keys[j])
    ensures
      var left, kept := keys[..i] + keys[i + 1..], records[..i] + records[i + 1..];
      && (forall j | 0 <= j < |left| :: kept[j] == View(left[j]))
      && (forall k :: k in left ==> k in keys)
  {
    var left, kept := keys[..i] + keys[i + 1..], records[..i] + records[i + 1..];
    forall j | 0 <= j < |left| ensures kept[j] == View(left[j]) {
      if j < i { assert left[j] == keys[j]; } else { assert left[j] == keys[j + 1]; }
    }
  }

  lemma UnsharedFlag(keys: seq<PreKey>, i: nat)
    requires Unshared(keys) && i < |keys|
    ensures Unshared(keys[i := keys[i].(used := true)])
  {
  }

  lemma SamePairs(keys: seq<PreKey>, i: nat)
    requires i < |keys|
    ensures PairsOf(keys[i := keys[i].(used := true)]) == PairsOf(keys)
  {
    var flagged := keys[i := keys[i].(used := true)];
    forall k | k in keys && k.keyPair != null ensures k.keyPair in PairsOf(flagged) {
      var j :| 0 <= j < |keys| && keys[j] == k;
      assert flagged[j] in flagged;
    }
    forall k | k in flagged && k.keyPair != null ensures k.keyPair in PairsOf(keys) {
      var j :| 0 <= j < |flagged| && flagged[j] == k;
      assert keys[j] in keys;
    }
  }

  /** The keys are unshared and `records` describes them. */
  ghost predicate Copied(keys: seq<PreKey>, records: seq<KeyRecord>)
    reads PairsOf(keys)
  {
    |records| == |keys| && Unshared(keys) && forall i | 0 <= i < |keys| :: records[i] == View(keys[i])
  }

  lemma CopiedSnoc(keys: seq<PreKey>, records: seq<KeyRecord>, k: PreKey)
    requires Copied(keys, records) && k.keyPair !in PairsOf(keys)
    ensures Copied(keys + [k], records + [View(k)])
    ensures k.keyPair != null ==> PairsOf(keys + [k]) == PairsOf(keys) + {k.keyPair}
    ensures k.keyPair == null ==> PairsOf(keys + [k]) == PairsOf(keys)
    ensures IdSet(records + [View(k)]) == IdSet(records) + {k.id}
  {
    assert forall x :: x in keys + [k] <==> x in keys || x == k;
    assert forall i | 0 <= i < |keys| :: keys[i] in keys;
    UnsharedSnoc(keys, k);
    assert forall x :: x in records + [View(k)] <==> x in records || x == View(k);
  }

  ghost function PairsOf(keys: seq<PreKey>): set<KeyPair> {
    set k | k in keys && k.keyPair != null :: k.keyPair
  }

  lemma UnsharedSnoc(keys: seq<PreKey>, k: PreKey)
    requires Unshared(keys) && forall i | 0 <= i < |keys| :: keys[i].keyPair != null ==> keys[i].keyPair != k.keyPair
    ensures Unshared(keys + [k])
  {
  }

  /** A copy that shares no key pair with the original. */
  method ClonePreKey(k: PreKey) returns (c: PreKey)
    ensures View(c) == View(k)
    ensures c.keyPair != null ==> fresh(c.keyPair)
  {
    c := k;
    if k.keyPair != null {
      var copy := new KeyPair(k.keyPair.pub, k.keyPair.priv);
      c := k.(keyPair := copy);
    }
  }

  /** A fresh key for every drawn identifier and key pair. */
  method MakeKeys(drawn: seq<(nat, KeyMaterial)>) returns (keys: seq<PreKey>, ghost records: seq<KeyRecord>)
    ensures Copied(keys, records) && |keys| == |drawn| && forall k :: k in PairsOf(keys) ==> fresh(k)
    ensures forall i | 0 <= i < |drawn| :: records[i] == KeyRecord(drawn[i].0, Some(drawn[i].1), false)
  {
    keys, records := [], [];
    for i := 0 to |drawn|
      invariant |keys| == i && Copied(keys, records) && forall k :: k in PairsOf(keys) ==> fresh(k)
      invariant forall j | 0 <= j < i :: records[j] == KeyRecord(drawn[j].0, Some(drawn[j].1), false)
    {
      var pair := new KeyPair(drawn[i].1.pub, drawn[i].1.priv);
      var k := PreKey(drawn[i].0, pair, false);
      CopiedSnoc(keys, records, k);
      keys, records := keys + [k], records + [View(k)];
    }
  }

  class PreKeyBundle {
    const peer: Peer
    var keys: seq<PreKey>
    var usedCount: int
    var createdAt: int
    /** The bundle as a value. */
    ghost var model: Bundle

    ghost function Pairs(): set<KeyPair>
      reads this
    {
      PairsOf(keys)
    }

    /** No two keys share a key pair, so wiping one never touches another. */
    ghost predicate Valid()
      reads this, Pairs()
    {
      && model.usedCount == usedCount && |model.keys| == |keys|
      && (forall i | 0 <= i < |keys| :: model.keys[i] == View(keys[i]))
      && Unshared(keys)
    }

    constructor (peer: Peer, keys: seq<PreKey>, ghost records: seq<KeyRecord>, usedCount: int, createdAt: int)
      requires |records| == |keys| && forall i | 0 <= i < |keys| :: records[i] == View(keys[i])
      requires Unshared(keys)
      ensures Valid() && this.peer == peer && this.keys == keys && this.createdAt == createdAt
      ensures model == Bundle(records, usedCount)
    {
      this.peer, this.keys, this.usedCount, this.createdAt := peer, keys, usedCount, createdAt;
      model := Bundle(records, usedCount);
    }

    method FindById(id: nat) returns (i: nat)
      requires Valid()
      ensures i == FirstWith(model.keys, id)
    {
      i := 0;
      while i < |keys| && keys[i].id != id
        invariant 0 <= i <= |keys|
        invariant forall j | 0 <= j < i :: model.keys[j].id != id
      {
        i := i + 1;
      }
      if i < |keys| { FirstWithIs(model.keys, id, i); }
    }

    /** Wipes and flags the first key with this identifier, unless it is already used. */
    method MarkKeyAsUsedSecurely(id: nat) returns (r: Result<(), PreKeyError>)
      requires Valid()
      modifies this, Pairs()
      ensures Valid() && Pairs() == old(Pairs()) && createdAt == old(createdAt)
      ensures model == Marked(old(model), id)
      ensures r == (if MarkRefusal(old(model), id).Some? then Err(MarkRefusal(old(model), id).value) else Ok(()))
    {
      var i := FindById(id);
      if i == |keys| { return Err(KeyNotFound); }
      if keys[i].used { return Err(AlreadyUsed); }
      if keys[i].keyPair == null { return Err(WipeFailed); }
      assert keys[i] in keys;
      hide Marked;
      keys[i].keyPair.Wipe();
      FlagWiped(i, id);
      r := Ok(());
    }

    method FlagWiped(i: nat, ghost id: nat)
      requires ValidBut(i) && i < |keys| && i == FirstWith(model.keys, id) && MarkRefusal(model, id).None?
      requires View(keys[i]) == model.keys[i].(pair := Some(model.keys[i].pair.value.(priv := WIPED)))
      modifies this
      ensures Valid() && Pairs() == old(Pairs()) && createdAt == old(createdAt)
      ensures model == Marked(old(model), id)
    {
      ghost var k := model.keys[i];
      assert Marked(model, id) ==
        Bundle(model.keys[i := k.(used := true, pair := Some(k.pair.value.(priv := WIPED)))], usedCount + 1);
      UnsharedFlag(keys, i);
      SamePairs(keys, i);
      hide Marked, MarkRefusal, FirstWith, Unshared;
      keys := keys[i := keys[i].(used := true)];
      usedCount := usedCount + 1;
      model := Marked(model, id);
    }

    /** Checks and marks in one step: returns a copy that still holds the private key, while the stored
        key is wiped. */
    method CheckAndMark(id: nat) returns (r: Result<PreKey, PreKeyError>)
      requires Valid()
      modifies this, Pairs()
      ensures Valid() && Pairs() == old(Pairs()) && createdAt == old(createdAt)
      ensures model == Marked(old(model), id)
      ensures r.Err? <==> MarkRefusal(old(model), id).Some?
      ensures r.Err? ==> r.error == MarkRefusal(old(model), id).value
      ensures r.Ok? ==>
        var i := FirstWith(old(model).keys, id);
        && r.value.keyPair != null && fresh(r.value.keyPair)
        && View(r.value) == old(model).keys[i]
        && model.keys[i].pair == Some(KeyMaterial(r.value.keyPair.pub, WIPED))
    {
      var i := FindById(id);
      if i == |keys| { return Err(KeyNotFound); }
      if keys[i].used { return Err(AlreadyUsed); }
      var snapshot := ClonePreKey(keys[i]);
      var marked := MarkKeyAsUsedSecurely(id);
      if marked.Err? { return Err(marked.error); }
      r := Ok(snapshot);
    }

    /** Hands out the first unused key: a copy is returned, the stored pair is wiped and removed. */
    method TakeAvailable() returns (r: Result<PreKey, PreKeyError>)
      requires Valid() && Takeable(model)
      modifies this, Pairs()
      ensures Valid() && Pairs() <= old(Pairs()) && createdAt == old(createdAt)
      ensures model == Taken(old(model))
      ensures r.Err? ==> r == Err(NoneAvailable)
      ensures r.Err? <==> FirstUnused(old(model).keys) == |old(model).keys|
      ensures r.Ok? ==>
        && r.value.keyPair != null && fresh(r.value.keyPair) && r.value.used
        && View(r.value).(used := false) == old(model).keys[FirstUnused(old(model).keys)]
    {
      var i := 0;
      while i < |keys| && keys[i].used
        invariant 0 <= i <= |keys|
        invariant forall j | 0 <= j < i :: model.keys[j].used
      {
        i := i + 1;
      }
      FirstUnusedIs(model.keys, i);
      if i == |keys| { return Err(NoneAvailable); }
      var k := ExtractAndProcess(i);
      r := Ok(k);
    }

    method ExtractAndProcess(i: nat) returns (k: PreKey)
      requires Valid() && i < |keys| && keys[i].keyPair != null
      requires i == FirstUnused(model.keys)
      modifies this, Pairs()
      ensures Valid() && Pairs() <= old(Pairs()) && createdAt == old(createdAt)
      ensures model == Taken(old(model))
      ensures k.keyPair != null && fresh(k.keyPair) && k.used && View(k).(used := false) == old(model).keys[i]
    {
      hide Taken, FirstUnused;
      var copy := new KeyPair(keys[i].keyPair.pub, keys[i].keyPair.priv);
      k := PreKey(keys[i].id, copy, true);
      assert keys[i] in keys;
      keys[i].keyPair.Wipe();
      RemoveWiped(i);
    }

    // ----- Backups -----

    /** A copy of the unused keys, sharing no key pair with this bundle. */
    method Export() returns (copy: PreKeyBundle)
      requires Valid()
      ensures copy.Valid() && fresh(copy) && forall k :: k in copy.Pairs() ==> fresh(k)
      ensures copy.peer == peer && copy.createdAt == createdAt && copy.model == Exported(model)
    {
      hide Filter;
      var list: seq<PreKey> := [];
      ghost var records: seq<KeyRecord> := [];
      FilterNone(IsUnused(), model.keys[..0]);
      for i := 0 to |keys|
        invariant Copied(list, records) && forall k :: k in PairsOf(list) ==> fresh(k)
        invariant records == Filter(IsUnused(), model.keys[..i])
      {
        assert model.keys[..i + 1] == model.keys[..i] + [model.keys[i]];
        FilterSnoc(IsUnused(), model.keys[..i], model.keys[i]);
        if !keys[i].used {
          var c := ClonePreKey(keys[i]);
          CopiedSnoc(list, records, c);
          list, records := list + [c], records + [model.keys[i]];
        }
      }
      assert model.keys[..|keys|] == model.keys;
      copy := new PreKeyBundle(peer, list, records, usedCount, createdAt);
    }

    /** The bundle adopted for an unknown peer: copies of every key that has material. */
    method Adopt() returns (copy: PreKeyBundle)
      requires Valid()
      ensures copy.Valid() && fresh(copy) && forall k :: k in copy.Pairs() ==> fresh(k)
      ensures copy.peer == peer && copy.createdAt == createdAt && copy.model == Imported(model)
    {
      hide Filter;
      var list: seq<PreKey> := [];
      ghost var records: seq<KeyRecord> := [];
      FilterNone(HasPair(), model.keys[..0]);
      for i := 0 to |keys|
        invariant Copied(list, records) && forall k :: k in PairsOf(list) ==> fresh(k)
        invariant records == Filter(HasPair(), model.keys[..i])
      {
        assert model.keys[..i + 1] == model.keys[..i] + [model.keys[i]];
        FilterSnoc(HasPair(), model.keys[..i], model.keys[i]);
        var c := ClonePreKey(keys[i]);
        if c.keyPair != null {
          CopiedSnoc(list, records, c);
          list, records := list + [c], records + [model.keys[i]];
        }
      }
      assert model.keys[..|keys|] == model.keys;
      copy := new PreKeyBundle(peer, list, records, usedCount, createdAt);
    }

    /** Appends copies of the imported unused keys whose identifiers are not yet known. */
    method MergeFrom(imported: PreKeyBundle) returns (added: nat)
      requires Valid() && imported.Valid()
      modifies this
      ensures Valid() && createdAt == old(createdAt)
      ensures model == old(model).(keys := Merged(old(model).keys, old(imported.model.keys)))
      ensures added > 0 <==> Merged(old(model).keys, old(imported.model.keys)) != old(model).keys
      ensures forall k :: k in Pairs() && k !in old(Pairs()) ==> fresh(k)
    {
      hide MergedOne, Unshared;
      added := 0;
      ghost var records, before := imported.model.keys, model;
      var list := imported.keys;
      var known := set k | k in keys :: k.id;
      KnownIds();
      for i := 0 to |list|
        invariant Valid() && createdAt == old(createdAt) && known == IdSet(model.keys)
        invariant model == before.(keys := Merged(before.keys, records[..i])) && |model.keys| == |before.keys| + added
        invariant forall k :: k in Pairs() && k !in old(Pairs()) ==> fresh(k)
      {
        assert records[..i + 1][..i] == records[..i];
        assert records[i] == View(list[i]);
        var more;
        known, more := MergeOne(list[i], known);
        added := added + more;
      }
      assert records[..|list|] == records;
      MergeExtends(before.keys, records);
    }

    method MergeOne(k: PreKey, known: set<nat>) returns (known': set<nat>, added: nat)
      requires Valid() && known == IdSet(model.keys)
      modifies this
      ensures Valid() && createdAt == old(createdAt) && known' == IdSet(model.keys)
      ensures model == old(model).(keys := MergedOne(old(model).keys, View(k)))
      ensures |model.keys| == |old(model).keys| + added
      ensures forall k :: k in Pairs() && k !in old(Pairs()) ==> fresh(k)
    {
      known', added := known, 0;
      if k.keyPair != null && !k.used && k.id !in known {
        var c := ClonePreKey(k);
        AppendKey(c);
        known', added := known + {k.id}, 1;
      }
    }

    lemma KnownIds()
      requires Valid()
      ensures (set k | k in keys :: k.id) == IdSet(model.keys)
    {
      forall k | k in keys ensures k.id in IdSet(model.keys) {
        var i :| 0 <= i < |keys| && keys[i] == k;
        assert model.keys[i] in model.keys;
      }
      forall r | r in model.keys ensures r.id in (set k | k in keys :: k.id) {
        var i :| 0 <= i < |keys| && model.keys[i] == r;
        assert keys[i] in keys;
      }
    }

    method AppendKey(k: PreKey)
      requires Valid() && k.keyPair != null && k.keyPair !in Pairs()
      modifies this
      ensures Valid() && createdAt == old(createdAt)
      ensures model == old(model).(keys := old(model).keys + [View(k)])
      ensures Pairs() == old(Pairs()) + {k.keyPair}
      ensures IdSet(model.keys) == IdSet(old(model).keys) + {k.id}
    {
      CopiedSnoc(keys, model.keys, k);
      model := model.(keys := model.keys + [View(k)]);
      keys := keys + [k];
    }

    /** Valid, except that key `i` has been wiped since its record was taken. */
    ghost predicate ValidBut(i: nat)
      reads this, Pairs()
    {
      && model.usedCount == usedCount && |model.keys| == |keys|
      && (forall j | 0 <= j < |keys| && j != i :: model.keys[j] == View(keys[j]))
      && Unshared(keys)
    }

    method RemoveWiped(i: nat)
      requires ValidBut(i) && i < |keys| && i == FirstUnused(model.keys)
      modifies this
      ensures Valid() && Pairs() <= old(Pairs()) && createdAt == old(createdAt)
      ensures model == Taken(old(model))
    {
      RemovedMatches(keys, model.keys, i);
      UnsharedRemove(keys, i);
      assert Taken(model) == Bundle(model.keys[..i] + model.keys[i + 1..], usedCount + 1);
      hide Taken, FirstUnused, Unshared;
      keys := RemoveKeyFromSlice(keys, i);
      usedCount := usedCount + 1;
      model := Taken(model);
    }

    static method RemoveKeyFromSlice(keys: seq<PreKey>, index: nat) returns (left: seq<PreKey>)
      requires index < |keys|
      ensures left == keys[..index] + keys[index + 1..]
    {
      left := [];
      for j := 0 to |keys|
        invariant left == if j <= index then keys[..j] else keys[..index] + keys[index + 1..j]
      {
        if j != index {
          left := left + [keys[j]];
        }
      }
    }
  }

  lemma FirstUnusedIs(keys: seq<KeyRecord>, i: nat)
    requires i <= |keys| && (i < |keys| ==> !keys[i].used) && forall j | 0 <= j < i :: keys[j].used
    ensures FirstUnused(keys) == i
  {
  }

  method GenerateBundle(peer: Peer, drawn: seq<(nat, KeyMaterial)>, now: int) returns (b: PreKeyBundle)
    requires |drawn| == PRE_KEYS_PER_PEER
    ensures b.Valid() && fresh(b) && forall k :: k in b.Pairs() ==> fresh(k)
    ensures b.peer == peer && b.createdAt == now && Generated(b.model)
  {
    var keys, records := MakeKeys(drawn);
    b := new PreKeyBundle(peer, keys, records, 0, now);
  }

  // ----- The store -----

  ghost predicate Apart(a: PreKeyBundle, b: PreKeyBundle)
    reads a, b
  {
    a != b && a.Pairs() !! b.Pairs()
  }

  /** Bundles are filed under their peer, own only these pairs, and no two share an object. */
  ghost predicate Filed(bundles: map<Peer, PreKeyBundle>, owned: set<KeyPair>)
    reads bundles.Values, owned
  {
    && (forall p :: p in bundles ==> bundles[p].peer == p && bundles[p].Pairs() <= owned && bundles[p].Valid())
    && (forall p, q :: p in bundles && q in bundles && p != q ==> Apart(bundles[p], bundles[q]))
  }

  lemma FiledAdd(bundles: map<Peer, PreKeyBundle>, owned: set<KeyPair>, b: PreKeyBundle, all: set<KeyPair>)
    requires Filed(bundles, owned) && b.Valid() && b.peer !in bundles
    requires forall q :: q in bundles ==> b != bundles[q]
    requires b.Pairs() !! owned && owned + b.Pairs() <= all
    ensures Filed(bundles[b.peer := b], all)
  {
    hide PreKeyBundle.Valid;
  }

  lemma FiledRest(bundles: map<Peer, PreKeyBundle>, owned: set<KeyPair>, peer: Peer)
    requires Filed(bundles, owned) && peer in bundles
    ensures Filed(bundles - {peer}, owned - bundles[peer].Pairs())
    ensures bundles[peer].peer == peer && bundles[peer].Valid() && bundles[peer].Pairs() <= owned
    ensures forall q :: q in bundles && q != peer ==> bundles[q] != bundles[peer]
    ensures bundles == (bundles - {peer})[peer := bundles[peer]]
  {
    hide PreKeyBundle.Valid;
    assert forall q :: q in bundles && q != peer ==> Apart(bundles[peer], bundles[q]);
  }

  lemma FiledSome(bundles: map<Peer, PreKeyBundle>, owned: set<KeyPair>, some: map<Peer, PreKeyBundle>)
    requires Filed(bundles, owned) && forall p :: p in some ==> p in bundles && some[p] == bundles[p]
    ensures Filed(some, owned)
  {
    hide PreKeyBundle.Valid;
  }

  const BACKUP_VERSION := 1

  /** What a backup carries; an entry may be missing. */
  datatype PreKeyBackup = PreKeyBackup(version: int, bundles: seq<PreKeyBundle?>)

  ghost function ItemOf(b: PreKeyBundle?): Option<Item>
    reads b
  {
    if b == null then None else Some(Item(b.peer, b.model))
  }

  ghost function Items(list: seq<PreKeyBundle?>): seq<Option<Item>>
    reads list
  {
    seq(|list|, i requires 0 <= i < |list| reads list => ItemOf(list[i]))
  }

  ghost predicate AllValid(list: seq<PreKeyBundle?>)
    reads list, set b, k | b in list && b != null && k in b.Pairs() :: k
  {
    forall b :: b in list && b != null ==> b.Valid()
  }

  lemma MergedDiffers(views: map<nat, Bundle>, peer: nat, keys: seq<KeyRecord>)
    requires peer in views
    ensures Merged(views[peer].keys, keys) != views[peer].keys <==>
      views[peer := views[peer].(keys := Merged(views[peer].keys, keys))] != views
  {
    var v := views[peer := views[peer].(keys := Merged(views[peer].keys, keys))];
    if Merged(views[peer].keys, keys) == views[peer].keys { assert v == views; }
    assert v[peer].keys == Merged(views[peer].keys, keys);
  }

  lemma {:induction false} KnownIdsAddNothing(keys: seq<KeyRecord>, imported: seq<KeyRecord>)
    requires forall k :: k in imported ==> k.id in IdSet(keys)
    ensures Merged(keys, imported) == keys
  {
    if imported != [] { KnownIdsAddNothing(keys, imported[..|imported| - 1]); }
  }

  /** Importing what the bundle holds changes nothing, and no more does importing what it once held. */
  lemma OwnImportsNothing(views: map<nat, Bundle>, item: Item)
    requires item.peer in views && item.bundle.keys <= views[item.peer].keys
    ensures
      var own := Some(Item(item.peer, views[item.peer]));
      && ImportOne(views, Some(item)) == ImportOne(views, own) == views
      && !Saves(views, Some(item)) && !Saves(views, own)
  {
    var keys := views[item.peer].keys;
    assert forall k :: k in item.bundle.keys ==> k in keys;
    KnownIdsAddNothing(keys, item.bundle.keys);
    KnownIdsAddNothing(keys, keys);
  }

  lemma ImportNextIs(views: map<nat, Bundle>, items: seq<Option<Item>>, saveOk: seq<bool>, i: nat)
    requires i < |items| == |saveOk| && AllSaved(views, items, saveOk, i)
    ensures ImportAll(views, items[..i + 1]) == ImportOne(ImportAll(views, items[..i]), items[i])
    ensures
      var saves := Saves(ImportAll(views, items[..i]), items[i]);
      if saves && !saveOk[i]
      then ImportResult(views, items, saveOk, Err(SaveFailed), i + 1, ImportAll(views, items[..i + 1]))
      else AllSaved(views, items, saveOk, i + 1)
  {
    hide ImportOne, Saves;
    assert items[..i + 1][..i] == items[..i];
  }

  lemma ImportStarts(views: map<nat, Bundle>, items: seq<Option<Item>>, saveOk: seq<bool>)
    requires |items| == |saveOk|
    ensures ImportAll(views, items[..0]) == views && AllSaved(views, items, saveOk, 0)
  {
  }

  lemma ImportEnds(views: map<nat, Bundle>, items: seq<Option<Item>>, saveOk: seq<bool>, after: map<nat, Bundle>)
    requires |items| == |saveOk| && AllSaved(views, items, saveOk, |items|)
    requires after == ImportAll(views, items[..|items|])
    ensures ImportResult(views, items, saveOk, Ok(()), |items|, after)
  {
  }

  lemma NothingImported(views: map<nat, Bundle>)
    ensures ImportOne(views, None) == views && !Saves(views, None)
  {
  }

  /** Validity depends on the bundle and its key pairs only. */
  twostate lemma Untouched(b: PreKeyBundle)
    requires old(b.Valid()) && unchanged(b) && forall k :: k in old(b.Pairs()) ==> unchanged(k)
    ensures b.Valid()
  {
  }

  class PreKeyStore {
    var bundles: map<Peer, PreKeyBundle>
    ghost var owned: set<KeyPair>

    ghost function Views(): map<Peer, Bundle>
      reads this, bundles.Values
    {
      map p | p in bundles :: bundles[p].model
    }

    ghost predicate Valid()
      reads this, bundles.Values, owned
    {
      Filed(bundles, owned)
    }

    constructor ()
      ensures Valid() && Views() == map[]
    {
      bundles, owned := map[], {};
    }

    /** A new bundle replaces the old one. A failed save is reported, but the bundle stays; when the random
        source fails before all keys are drawn, nothing changes. */
    method GeneratePreKeys(peer: Peer, drawn: seq<(nat, KeyMaterial)>, now: int, saveOk: bool)
      returns (r: Result<PreKeyBundle, PreKeyError>)
      requires Valid() && |drawn| <= PRE_KEYS_PER_PEER
      modifies this
      ensures Valid()
      ensures |drawn| < PRE_KEYS_PER_PEER ==> r == Err(GenerationFailed) && bundles == old(bundles)
      ensures |drawn| == PRE_KEYS_PER_PEER ==>
        && peer in bundles && Generated(bundles[peer].model) && bundles[peer].createdAt == now
        && bundles == old(bundles)[peer := bundles[peer]] && fresh(bundles[peer])
        && r == if saveOk then Ok(bundles[peer]) else Err(SaveFailed)
    {
      if |drawn| < PRE_KEYS_PER_PEER { return Err(GenerationFailed); }
      hide PreKeyBundle.Valid, Generated, Filed;
      ghost var rest := bundles - {peer};
      FiledSome(bundles, owned, rest);
      var b := GenerateBundle(peer, drawn, now);
      FiledAdd(rest, owned, b, owned + b.Pairs());
      assert rest[peer := b] == bundles[peer := b];
      bundles, owned := bundles[peer := b], owned + b.Pairs();
      r := if saveOk then Ok(b) else Err(SaveFailed);
    }

    /** Checks and marks under one lock. A failed save is reported, but the key stays used. */
    method CheckAndMarkPreKeyUsed(peer: Peer, id: nat, saveOk: bool) returns (r: Result<PreKey, PreKeyError>)
      requires Valid()
      modifies bundles.Values, owned
      ensures Valid() && bundles == old(bundles) && owned == old(owned)
      ensures peer !in bundles ==> r == Err(NoBundle) && Views() == old(Views())
      ensures peer in bundles ==>
        var b := old(bundles[peer].model);
        && Views() == old(Views())[peer := Marked(b, id)]
        && (r.Ok? <==> MarkRefusal(b, id).None? && saveOk)
        && (MarkRefusal(b, id).Some? ==> r == Err(MarkRefusal(b, id).value))
        && (r.Ok? ==>
              && r.value.keyPair != null && fresh(r.value.keyPair)
              && View(r.value) == b.keys[FirstWith(b.keys, id)])
    {
      hide Marked, MarkRefusal, FirstWith, PreKeyBundle.Valid, Filed;
      if peer !in bundles { return Err(NoBundle); }
      var b := bundles[peer];
      assert b in bundles.Values;
      FiledRest(bundles, owned, peer);
      ghost var rest, others := bundles - {peer}, owned - b.Pairs();
      r := b.CheckAndMark(id);
      FiledAdd(rest, others, b, owned);
      if r.Ok? && !saveOk { r := Err(SaveFailed); }
    }

    method GetAvailablePreKey(peer: Peer, saveOk: bool) returns (r: Result<PreKey, PreKeyError>)
      requires Valid() && (peer in bundles ==> Takeable(bundles[peer].model))
      modifies bundles.Values, owned
      ensures Valid() && bundles == old(bundles) && owned == old(owned)
      ensures peer !in bundles ==> r == Err(NoBundle) && Views() == old(Views())
      ensures peer in bundles ==>
        var b := old(bundles[peer].model);
        && Views() == old(Views())[peer := Taken(b)]
        && (r.Ok? <==> FirstUnused(b.keys) < |b.keys| && saveOk)
        && (r.Ok? ==> r.value.keyPair != null && fresh(r.value.keyPair)
                      && View(r.value).(used := false) == b.keys[FirstUnused(b.keys)])
    {
      hide Taken, FirstUnused, PreKeyBundle.Valid, Filed;
      if peer !in bundles { return Err(NoBundle); }
      var b := bundles[peer];
      assert b in bundles.Values;
      FiledRest(bundles, owned, peer);
      ghost var rest, others := bundles - {peer}, owned - b.Pairs();
      r := b.TakeAvailable();
      FiledAdd(rest, others, b, owned);
      if r.Ok? && !saveOk { r := Err(SaveFailed); }
    }

    /** Every bundle stays where it was filed and keeps its keys in front. */
    twostate predicate Grown()
      reads this, bundles.Values
    {
      forall p :: p in old(bundles) ==>
        p in bundles && bundles[p] == old(bundles[p]) && old(bundles[p].model.keys) <= bundles[p].model.keys
    }

    /** One bundle of a backup: adopted for an unknown peer, merged into a known one. */
    method ImportBundle(imported: PreKeyBundle) returns (saves: bool)
      requires Valid() && imported.Valid()
      modifies this, bundles.Values
      ensures Valid() && Grown() && forall b :: b in bundles.Values ==> b in old(bundles.Values) || fresh(b)
      ensures
        var item := Some(Item(imported.peer, old(imported.model)));
        Views() == ImportOne(old(Views()), item) && (saves <==> Saves(old(Views()), item))
    {
      hide Imported, Merged, PreKeyBundle.Valid, Filed;
      if imported.peer !in bundles {
        AdoptNew(imported);
        saves := true;
      } else {
        ghost var views, more := Views(), imported.model.keys;
        saves := MergeKnown(imported);
        MergedDiffers(views, imported.peer, more);
        MergeExtends(views[imported.peer].keys, more);
        assert forall p :: p in bundles ==> bundles[p].model == Views()[p];
      }
    }

    /** A backup of another version is refused. Its bundles are imported one after the other; the first failed save
        stops the import and keeps what was imported so far, that bundle included. */
    method ImportPreKeys(backup: Option<PreKeyBackup>, saveOk: seq<bool>)
      returns (r: Result<(), PreKeyError>, ghost done: nat)
      requires Valid() && (backup.Some? ==> |saveOk| == |backup.value.bundles| && AllValid(backup.value.bundles))
      modifies this, bundles.Values
      ensures Valid()
      ensures backup.None? ==> r == Err(NilBackup) && Views() == old(Views())
      ensures backup.Some? && backup.value.version != BACKUP_VERSION ==>
        r == Err(UnsupportedVersion) && Views() == old(Views())
      ensures backup.Some? && backup.value.version == BACKUP_VERSION ==>
        ImportResult(old(Views()), old(Items(backup.value.bundles)), saveOk, r, done, Views())
    {
      hide ImportResult, AllValid, Filed;
      done := 0;
      if backup.None? { return Err(NilBackup), 0; }
      if backup.value.version != BACKUP_VERSION { return Err(UnsupportedVersion), 0; }
      r, done := ImportBundles(backup.value.bundles, saveOk);
    }

    method ImportBundles(list: seq<PreKeyBundle?>, saveOk: seq<bool>)
      returns (r: Result<(), PreKeyError>, ghost done: nat)
      requires Valid() && |saveOk| == |list| && AllValid(list)
      modifies this, bundles.Values
      ensures Valid()
      ensures ImportResult(old(Views()), old(Items(list)), saveOk, r, done, Views())
    {
      hide ImportOne, ImportAll, Saves, AllSaved, ImportResult, AllValid, Filed, Views, Items, Listed;
      done := 0;
      ghost var items, views := Items(list), Views();
      ItemsListed(list);
      ImportStarts(views, items, saveOk);
      for i := 0 to |list|
        invariant Valid() && AllValid(list) && |items| == |list| && Listed(list, items)
        invariant forall b :: b in bundles.Values ==> b in old(bundles.Values) || fresh(b)
        invariant Views() == ImportAll(views, items[..i]) && AllSaved(views, items, saveOk, i)
      {
        var saves := ImportNext(list, i, items);
        ImportNextIs(views, items, saveOk, i);
        if saves && !saveOk[i] { return Err(SaveFailed), i + 1; }
      }
      ImportEnds(views, items, saveOk, Views());
      r, done := Ok(()), |list|;
    }

    /** The entry is what the item says; if it is a bundle of the store itself, it may have grown since. */
    ghost predicate Entry(b: PreKeyBundle?, item: Option<Item>)
      reads this, b
    {
      if b == null then item.None?
      else
        && item.Some? && item.value.peer == b.peer
        && (item.value.bundle == b.model ||
            (b.peer in bundles && bundles[b.peer] == b && item.value.bundle.keys <= b.model.keys))
    }

    ghost predicate Listed(list: seq<PreKeyBundle?>, items: seq<Option<Item>>)
      reads this, list
    {
      |items| == |list| && forall i | 0 <= i < |list| :: Entry(list[i], items[i])
    }

    lemma ItemsListed(list: seq<PreKeyBundle?>)
      ensures Listed(list, Items(list))
    {
    }

    lemma OwnIsFiled()
      requires Valid()
      ensures forall b :: b in bundles.Values ==> b.Valid() && b.peer in bundles && bundles[b.peer] == b
    {
      hide PreKeyBundle.Valid;
    }

    /** One turn of the loop. A bundle of the store itself that turns up in the list is merged into itself, which
        changes nothing; the other bundles of the caller are neither changed nor shared. */
    method ImportNext(list: seq<PreKeyBundle?>, i: nat, ghost items: seq<Option<Item>>) returns (saves: bool)
      requires Valid() && i < |list| && AllValid(list) && Listed(list, items)
      modifies this, bundles.Values
      ensures Valid() && forall b :: b in bundles.Values ==> b in old(bundles.Values) || fresh(b)
      ensures AllValid(list) && Listed(list, items)
      ensures Views() == ImportOne(old(Views()), items[i]) && (saves <==> Saves(old(Views()), items[i]))
    {
      hide ImportOne, Saves, PreKeyBundle.Valid, Filed;
      if list[i] == null {
        NothingImported(Views());
        saves := false;
      } else {
        assert list[i] in list;
        if items[i].value.bundle != list[i].model { OwnImportsNothing(Views(), items[i].value); }
        OwnIsFiled();
        saves := ImportBundle(list[i]);
        OwnIsFiled();
        forall j | 0 <= j < |list| ensures Entry(list[j], items[j]) && (list[j] != null ==> list[j].Valid()) {
          assert list[j] in list;
          if list[j] != null && list[j] !in old(bundles.Values) { Untouched(list[j]); }
        }
      }
    }

    method AdoptNew(imported: PreKeyBundle)
      requires Valid() && imported.Valid() && imported.peer !in bundles
      modifies this
      ensures Valid() && Views() == old(Views())[imported.peer := Imported(imported.model)]
      ensures imported.peer in bundles && fresh(bundles[imported.peer])
      ensures bundles == old(bundles)[imported.peer := bundles[imported.peer]]
    {
      hide Imported, PreKeyBundle.Valid, Filed;
      var copy := imported.Adopt();
      FiledAdd(bundles, owned, copy, owned + copy.Pairs());
      bundles, owned := bundles[imported.peer := copy], owned + copy.Pairs();
    }

    method MergeKnown(imported: PreKeyBundle) returns (added: bool)
      requires Valid() && imported.Valid() && imported.peer in bundles
      modifies `owned, bundles.Values
      ensures Valid() && bundles == old(bundles)
      ensures
        var b, more := old(bundles[imported.peer].model), old(imported.model.keys);
        && Views() == old(Views())[imported.peer := b.(keys := Merged(b.keys, more))]
        && (added <==> Merged(b.keys, more) != b.keys)
    {
      hide Merged, PreKeyBundle.Valid, Filed;
      var peer := imported.peer;
      var b := bundles[peer];
      assert b in bundles.Values;
      FiledRest(bundles, owned, peer);
      ghost var rest, others := bundles - {peer}, owned - b.Pairs();
      var count := b.MergeFrom(imported);
      added := count > 0;
      FiledAdd(rest, others, b, owned + b.Pairs());
      owned := owned + b.Pairs();
    }

    /** Drops bundles whose used count has reached the bundle size, and bundles that are too old. */
    method CleanupExpiredBundles(now: int) returns (cleaned: nat)
      requires Valid()
      modifies this
      ensures Valid()
      ensures bundles == map p | p in old(bundles) && !Droppable(old(bundles)[p], now) :: old(bundles)[p]
      ensures forall p :: p in bundles <==>
        p in old(bundles) && old(bundles[p].usedCount) < 200 &&
        now - old(bundles[p].createdAt) <= 30 * 24 * 3600 * 1_000_000_000
      ensures cleaned == |old(bundles)| - |bundles|
    {
      hide PreKeyBundle.Valid, Droppable, Filed;
      var kept;
      kept, cleaned := WithoutExpired(bundles, now);
      FiledSome(bundles, owned, kept);
      KeptIff(bundles, now);
      bundles := kept;
    }
  }

  method WithoutExpired(all: map<Peer, PreKeyBundle>, now: int) returns (kept: map<Peer, PreKeyBundle>, cleaned: nat)
    ensures kept == map p | p in all && !Droppable(all[p], now) :: all[p]
    ensures cleaned == |all| - |kept|
  {
    kept, cleaned := all, 0;
    var todo := all.Keys;
    while todo != {}
      invariant todo <= all.Keys
      invariant kept == map p | p in all && (p in todo || !Droppable(all[p], now)) :: all[p]
      invariant cleaned == |all| - |kept|
      decreases |todo|
    {
      var p :| p in todo;
      todo := todo - {p};
      if Droppable(kept[p], now) {
        assert kept.Keys == (kept - {p}).Keys + {p};
        kept := kept - {p};
        cleaned := cleaned + 1;
      }
    }
  }

  predicate Droppable(b: PreKeyBundle, now: int)
    reads b
  {
    b.usedCount >= PRE_KEYS_PER_PEER || now - b.createdAt > MAX_PRE_KEY_AGE
  }

  lemma KeptIff(bundles: map<Peer, PreKeyBundle>, now: int)
    ensures forall p :: p in bundles ==>
      (!Droppable(bundles[p], now) <==>
       bundles[p].usedCount < 200 && now - bundles[p].createdAt <= 30 * 24 * 3600 * 1_000_000_000)
  {
  }

  /** A bundle that was generated and then used in any way, but never merged into, outlives the cleanup exactly when
      it still has an unused key and is at most 30 days old. */
  lemma UnmergedSurvivesIff(b: PreKeyBundle, generated: Bundle, events: seq<Event>, now: int)
    requires b.Valid() && Generated(generated) && b.model == Run(generated, events)
    requires forall ev :: ev in events ==> !ev.Merge?
    ensures !Droppable(b, now) <==>
      (exists k :: k in b.model.keys && !k.used) && now - b.createdAt <= 30 * 24 * 3600 * 1_000_000_000
  {
    hide PreKeyBundle.Valid, Run, Generated;
    UnusedPlusUsed(generated, events);
    UnusedIff(b.model);
    assert b.model.usedCount == b.usedCount by { UsedCountIs(b); }
  }

  lemma UsedCountIs(b: PreKeyBundle)
    requires b.Valid()
    ensures b.model.usedCount == b.usedCount
  {
  }
}
