/** A bundle of one-time pre-keys as a value: what the store does to it, and what every run keeps. */
module PreKeySpec {
  import opened Common

  const PRE_KEYS_PER_PEER := 200

  /** Key material; a wiped private key is all zeros. */
  datatype KeyMaterial = KeyMaterial(pub: nat, priv: nat)

  const WIPED := 0

  datatype KeyRecord = KeyRecord(id: nat, pair: Option<KeyMaterial>, used: bool)

  datatype Bundle = Bundle(keys: seq<KeyRecord>, usedCount: int)

  datatype PreKeyError = NoBundle | KeyNotFound | AlreadyUsed | WipeFailed | NoneAvailable | SaveFailed
    | GenerationFailed | NilBackup | UnsupportedVersion

  /** The position of the first key with this identifier; random identifiers may repeat. */
  function FirstWith(keys: seq<KeyRecord>, id: nat): (i: nat)
    ensures i <= |keys| && (i < |keys| ==> keys[i].id == id)
    ensures forall j | 0 <= j < i :: keys[j].id != id
  {
    if keys == [] || keys[0].id == id then 0 else 1 + FirstWith(keys[1..], id)
  }

  function FirstUnused(keys: seq<KeyRecord>): (i: nat)
    ensures i <= |keys| && (i < |keys| ==> !keys[i].used)
    ensures forall j | 0 <= j < i :: keys[j].used
  {
    if keys == [] || !keys[0].used then 0 else 1 + FirstUnused(keys[1..])
  }

  function MarkRefusal(b: Bundle, id: nat): Option<PreKeyError> {
    var i := FirstWith(b.keys, id);
    if i == |b.keys| then Some(KeyNotFound)
    else if b.keys[i].used then Some(AlreadyUsed)
    else if b.keys[i].pair.None? then Some(WipeFailed)
    else None
  }

  /** Marking wipes the private key in place and keeps the record. */
  function Marked(b: Bundle, id: nat): Bundle {
    if MarkRefusal(b, id).Some? then b
    else
      var i := FirstWith(b.keys, id);
      var k := b.keys[i];
      Bundle(b.keys[i := k.(used := true, pair := Some(k.pair.value.(priv := WIPED)))], b.usedCount + 1)
  }

  /** Handing out a key removes its record. */
  function Taken(b: Bundle): Bundle {
    var i := FirstUnused(b.keys);
    if i == |b.keys| then b else Bundle(b.keys[..i] + b.keys[i + 1..], b.usedCount + 1)
  }

  /** Handing out dereferences the pair of the first unused key. */
  ghost predicate Takeable(b: Bundle) {
    var i := FirstUnused(b.keys);
    i < |b.keys| ==> b.keys[i].pair.Some?
  }

  function IdSet(keys: seq<KeyRecord>): set<nat> {
    set k | k in keys :: k.id
  }

  /** Importing into a known bundle appends unused keys with new identifiers. */
  function Merged(keys: seq<KeyRecord>, imported: seq<KeyRecord>): seq<KeyRecord> {
    if imported == [] then keys
    else MergedOne(Merged(keys, imported[..|imported| - 1]), imported[|imported| - 1])
  }

  function MergedOne(keys: seq<KeyRecord>, k: KeyRecord): seq<KeyRecord> {
    if k.pair.None? || k.used || k.id in IdSet(keys) then keys else keys + [k]
  }

  ghost function IsUnused(): KeyRecord -> bool { (k: KeyRecord) => !k.used }
  ghost function HasPair(): KeyRecord -> bool { (k: KeyRecord) => k.pair.Some? }

  ghost function Unused(b: Bundle): nat {
    |Filter(IsUnused(), b.keys)|
  }

  /** A backup holds the unused keys; importing it for an unknown peer drops keys without material. */
  ghost function Exported(b: Bundle): Bundle {
    b.(keys := Filter(IsUnused(), b.keys))
  }

  ghost function Imported(b: Bundle): Bundle {
    b.(keys := Filter(HasPair(), b.keys))
  }

  // ----- Importing a backup -----

  /** A backup entry: the bundle of one peer, or nothing. */
  datatype Item = Item(peer: nat, bundle: Bundle)

  /** Adopted for an unknown peer, merged into a known one. */
  ghost function ImportOne(views: map<nat, Bundle>, item: Option<Item>): map<nat, Bundle> {
    if item.None? then views
    else
      var Item(peer, b) := item.value;
      if peer !in views then views[peer := Imported(b)]
      else views[peer := views[peer].(keys := Merged(views[peer].keys, b.keys))]
  }

  ghost function ImportAll(views: map<nat, Bundle>, items: seq<Option<Item>>): map<nat, Bundle> {
    if items == [] then views else ImportOne(ImportAll(views, items[..|items| - 1]), items[|items| - 1])
  }

  /** The entry is saved to disk: always when adopted, and when a merge added keys. */
  ghost predicate Saves(views: map<nat, Bundle>, item: Option<Item>) {
    item.Some? && (item.value.peer !in views || ImportOne(views, item) != views)
  }

  /** Every save that the first `n` entries call for succeeds. */
  ghost predicate AllSaved(views: map<nat, Bundle>, items: seq<Option<Item>>, saveOk: seq<bool>, n: nat)
    requires n <= |items| == |saveOk|
  {
    forall i | 0 <= i < n && Saves(ImportAll(views, items[..i]), items[i]) :: saveOk[i]
  }

  /** All entries are imported, or all up to and including the first whose save fails. */
  ghost predicate ImportResult(views: map<nat, Bundle>, items: seq<Option<Item>>, saveOk: seq<bool>,
                               r: Result<(), PreKeyError>, done: nat, after: map<nat, Bundle>)
  {
    && done <= |items| == |saveOk| && after == ImportAll(views, items[..done])
    && if r.Ok? then done == |items| && AllSaved(views, items, saveOk, done)
       else
         && r.error == SaveFailed && 0 < done && AllSaved(views, items, saveOk, done - 1)
         && Saves(ImportAll(views, items[..done - 1]), items[done - 1]) && !saveOk[done - 1]
  }

  /** The files after an import: an entry that calls for a save writes its peer's bundle as it is then. */
  ghost function Files(disk: map<nat, Bundle>, views: map<nat, Bundle>, items: seq<Option<Item>>): map<nat, Bundle> {
    if items == [] then disk
    else
      var front, item := items[..|items| - 1], items[|items| - 1];
      var before := ImportAll(views, front);
      if Saves(before, item) then Files(disk, views, front)[item.value.peer := ImportOne(before, item)[item.value.peer]]
      else Files(disk, views, front)
  }

  /** Nothing imported is left unsaved: if the files agreed with the store before, they do after. */
  lemma {:induction false} ImportPersists(views: map<nat, Bundle>, items: seq<Option<Item>>)
    ensures Files(views, views, items) == ImportAll(views, items)
  {
    if items != [] {
      hide Imported, Merged;
      ImportPersists(views, items[..|items| - 1]);
    }
  }

  // ----- Runs of one bundle -----

  datatype Event =
    | CheckAndMark(id: nat)
    | MarkUsed(id: nat)
    | TakeAvailable
    | Merge(imported: seq<KeyRecord>)
    | RestoreBackup(taken: nat)

  /** A restore imports a backup into a store that does not know the peer; `backup` is the bundle as it was when
      the backup was exported. */
  ghost function Step(b: Bundle, ev: Event, backup: Bundle): Bundle {
    match ev
    case CheckAndMark(id) => Marked(b, id)
    case MarkUsed(id) => Marked(b, id)
    case TakeAvailable => Taken(b)
    case Merge(imported) => b.(keys := Merged(b.keys, imported))
    case RestoreBackup(_) => Imported(Exported(backup))
  }

  /** How many events of the run the restored backup has seen: any number of those before the restore. */
  function Seen(events: seq<Event>): nat
    requires events != []
    ensures Seen(events) < |events|
  {
    var ev := events[|events| - 1];
    if ev.RestoreBackup? && ev.taken < |events| then ev.taken else |events| - 1
  }

  ghost function Run(b: Bundle, events: seq<Event>): Bundle
    decreases |events|
  {
    if events == [] then b
    else Step(Run(b, events[..|events| - 1]), events[|events| - 1], Run(b, events[..Seen(events)]))
  }

  // ----- Each identifier is checked off at most once -----

  /** The first key with this identifier has been used. */
  predicate Burned(b: Bundle, id: nat) {
    FirstWith(b.keys, id) < |b.keys| && b.keys[FirstWith(b.keys, id)].used
  }

  lemma FirstWithIs(keys: seq<KeyRecord>, id: nat, i: nat)
    requires i < |keys| && keys[i].id == id && forall j | 0 <= j < i :: keys[j].id != id
    ensures FirstWith(keys, id) == i
  {
    assert FirstWith(keys, id) <= i;
  }

  lemma MarkBurns(b: Bundle, id: nat)
    requires MarkRefusal(b, id).None?
    ensures Burned(Marked(b, id), id)
  {
    FirstWithIs(Marked(b, id).keys, id, FirstWith(b.keys, id));
  }

  lemma MarkKeepsBurned(b: Bundle, other: nat, id: nat)
    requires Burned(b, id)
    ensures Burned(Marked(b, other), id)
  {
    if MarkRefusal(b, other).None? {
      FirstWithIs(Marked(b, other).keys, id, FirstWith(b.keys, id));
    }
  }

  lemma TakeKeepsBurned(b: Bundle, id: nat)
    requires Burned(b, id)
    ensures Burned(Taken(b), id)
  {
    var u, i := FirstUnused(b.keys), FirstWith(b.keys, id);
    if u < |b.keys| {
      FirstWithIs(Taken(b).keys, id, if u < i then i - 1 else i);
    }
  }

  lemma {:induction false} MergeExtends(keys: seq<KeyRecord>, imported: seq<KeyRecord>)
    ensures keys <= Merged(keys, imported)
  {
    if imported != [] { MergeExtends(keys, imported[..|imported| - 1]); }
  }

  lemma MergeKeepsBurned(b: Bundle, imported: seq<KeyRecord>, id: nat)
    requires Burned(b, id)
    ensures Burned(b.(keys := Merged(b.keys, imported)), id)
  {
    MergeExtends(b.keys, imported);
    FirstWithIs(Merged(b.keys, imported), id, FirstWith(b.keys, id));
  }

  lemma StepKeepsBurned(b: Bundle, ev: Event, backup: Bundle, id: nat)
    requires Burned(b, id) && !ev.RestoreBackup?
    ensures Burned(Step(b, ev, backup), id)
  {
    hide Burned, Marked, Taken, Merged;
    match ev
    case CheckAndMark(other) => MarkKeepsBurned(b, other, id);
    case MarkUsed(other) => MarkKeepsBurned(b, other, id);
    case TakeAvailable => TakeKeepsBurned(b, id);
    case Merge(imported) => MergeKeepsBurned(b, imported, id);
  }

  lemma {:induction false} RunKeepsBurned(b: Bundle, events: seq<Event>, id: nat)
    requires Burned(b, id) && forall ev :: ev in events ==> !ev.RestoreBackup?
    ensures Burned(Run(b, events), id)
  {
    if events != [] {
      hide Burned, Step;
      var before, ev := events[..|events| - 1], events[|events| - 1];
      assert ev in events;
      RunKeepsBurned(b, before, id);
      StepKeepsBurned(Run(b, before), ev, Run(b, events[..Seen(events)]), id);
    }
  }

  /** Importing any backup into a store that knows the peer leaves its used identifiers used. */
  lemma {:induction false} ImportKeepsBurned(views: map<nat, Bundle>, items: seq<Option<Item>>, peer: nat, id: nat)
    requires peer in views && Burned(views[peer], id)
    ensures peer in ImportAll(views, items) && Burned(ImportAll(views, items)[peer], id)
  {
    if items != [] {
      hide Burned, Merged;
      var front, item := items[..|items| - 1], items[|items| - 1];
      ImportKeepsBurned(views, front, peer, id);
      if item.Some? && item.value.peer == peer {
        MergeKeepsBurned(ImportAll(views, front)[peer], item.value.bundle.keys, id);
      }
    }
  }

  /** In the lifetime of a bundle a successful check-and-mark of an identifier is never followed by
      another, even when identifiers repeat, keys are handed out, or old backups are merged in. */
  lemma CheckAndMarkOnce(b: Bundle, id: nat, between: seq<Event>)
    requires MarkRefusal(b, id).None?
    requires forall ev :: ev in between ==> !ev.RestoreBackup?
    ensures MarkRefusal(Run(Marked(b, id), between), id) == Some(AlreadyUsed)
  {
    MarkBurns(b, id);
    RunKeepsBurned(Marked(b, id), between, id);
  }

  // ----- What a restored backup accepts again -----

  /** The bundle holds an unused key with this identifier and with material. */
  ghost predicate Offers(b: Bundle, id: nat) {
    exists k :: k in b.keys && k.id == id && !k.used && k.pair.Some?
  }

  /** A restore starts a new bundle, which knows nothing of what was used since the backup: an identifier is
      accepted exactly when the backed-up bundle still offered it. */
  lemma RestoredAcceptsIffOffered(backup: Bundle, id: nat)
    ensures MarkRefusal(Imported(Exported(backup)), id).None? <==> Offers(backup, id)
  {
    hide Filter, FirstWith;
    var e := Filter(IsUnused(), backup.keys);
    var r := Filter(HasPair(), e);
    FilterMembers(IsUnused(), backup.keys);
    FilterMembers(HasPair(), e);
    var f := FirstWith(r, id);
    assert f < |r| ==> r[f] in r;
    if k :| k in backup.keys && k.id == id && !k.used && k.pair.Some? {
      var x :| 0 <= x < |r| && r[x] == k;
    }
  }

  /** No other key has this identifier. */
  ghost predicate Sole(b: Bundle, id: nat) {
    forall j | 0 <= j < |b.keys| && b.keys[j].id == id :: j == FirstWith(b.keys, id)
  }

  lemma SoleBurnedOffersNothing(b: Bundle, id: nat)
    requires Burned(b, id) && Sole(b, id)
    ensures !Offers(b, id)
  {
  }

  lemma MarkKeepsSole(b: Bundle, other: nat, id: nat)
    requires Sole(b, id)
    ensures Sole(Marked(b, other), id)
  {
    var c := Marked(b, other);
    forall j | 0 <= j < |c.keys| && c.keys[j].id == id ensures j == FirstWith(c.keys, id) {
      FirstWithIs(c.keys, id, j);
    }
  }

  lemma TakeKeepsSole(b: Bundle, id: nat)
    requires Sole(b, id) && Burned(b, id)
    ensures Sole(Taken(b), id)
  {
    var u, c := FirstUnused(b.keys), Taken(b);
    if u < |b.keys| {
      assert forall j | 0 <= j < |c.keys| :: c.keys[j] == b.keys[if j < u then j else j + 1];
      forall j | 0 <= j < |c.keys| && c.keys[j].id == id ensures j == FirstWith(c.keys, id) {
        assert forall i | 0 <= i < j :: c.keys[i].id != id;
        FirstWithIs(c.keys, id, j);
      }
    }
  }

  lemma {:induction false} MergeKeepsSole(b: Bundle, imported: seq<KeyRecord>, id: nat)
    requires Sole(b, id) && Burned(b, id)
    ensures Sole(b.(keys := Merged(b.keys, imported)), id)
  {
    if imported != [] {
      var front, k := imported[..|imported| - 1], imported[|imported| - 1];
      MergeKeepsSole(b, front, id);
      MergeKeepsBurned(b, front, id);
      var m := Merged(b.keys, front);
      var f := FirstWith(m, id);
      assert m[f] in m;
      hide Merged;
      if k.id != id { SoleSnoc(m, k, id); }
    }
  }

  lemma SoleSnoc(m: seq<KeyRecord>, k: KeyRecord, id: nat)
    requires Sole(Bundle(m, 0), id) && FirstWith(m, id) < |m| && k.id != id
    ensures Sole(Bundle(m + [k], 0), id)
  {
    FirstWithIs(m + [k], id, FirstWith(m, id));
  }

  /** As long as nothing is restored, a used identifier that did not repeat is never offered again. */
  lemma {:induction false} RunKeepsSole(b: Bundle, events: seq<Event>, id: nat)
    requires Burned(b, id) && Sole(b, id) && forall ev :: ev in events ==> !ev.RestoreBackup?
    ensures Burned(Run(b, events), id) && Sole(Run(b, events), id)
  {
    hide Sole, Burned;
    if events != [] {
      var before, ev := events[..|events| - 1], events[|events| - 1];
      assert ev in events;
      RunKeepsSole(b, before, id);
      RunKeepsBurned(b, events, id);
      var c := Run(b, before);
      match ev
      case CheckAndMark(other) => MarkKeepsSole(c, other, id);
      case MarkUsed(other) => MarkKeepsSole(c, other, id);
      case TakeAvailable => TakeKeepsSole(c, id);
      case Merge(imported) => MergeKeepsSole(c, imported, id);
    }
  }

  /** An event that brings no keys in offers nothing that was not offered before. */
  lemma StepOffersLess(b: Bundle, ev: Event, id: nat)
    requires !ev.Merge? && !ev.RestoreBackup? && Offers(Step(b, ev, b), id)
    ensures Offers(b, id)
  {
    hide Offers, Marked, Taken;
    match ev
    case CheckAndMark(other) => MarkOffersLess(b, other, id);
    case MarkUsed(other) => MarkOffersLess(b, other, id);
    case TakeAvailable => TakeOffersLess(b, id);
  }

  lemma MarkOffersLess(b: Bundle, other: nat, id: nat)
    requires Offers(Marked(b, other), id)
    ensures Offers(b, id)
  {
    hide FirstWith;
    var k :| k in Marked(b, other).keys && k.id == id && !k.used && k.pair.Some?;
    var j :| 0 <= j < |b.keys| && Marked(b, other).keys[j] == k;
    assert k == b.keys[j];
  }

  lemma TakeOffersLess(b: Bundle, id: nat)
    requires Offers(Taken(b), id)
    ensures Offers(b, id)
  {
    hide FirstUnused;
    var k :| k in Taken(b).keys && k.id == id && !k.used && k.pair.Some?;
    assert k in b.keys;
  }

  lemma {:induction false} RunOffersLess(b: Bundle, events: seq<Event>, id: nat)
    requires forall ev :: ev in events ==> !ev.Merge? && !ev.RestoreBackup?
    requires Offers(Run(b, events), id)
    ensures Offers(b, id)
  {
    hide Offers, Step;
    if events != [] {
      var before, ev := events[..|events| - 1], events[|events| - 1];
      assert ev in events && events[..Seen(events)] == before;
      StepIgnoresBackup(Run(b, before), ev, Run(b, before), Run(b, before));
      StepOffersLess(Run(b, before), ev, id);
      RunOffersLess(b, before, id);
    }
  }

  lemma StepIgnoresBackup(b: Bundle, ev: Event, x: Bundle, y: Bundle)
    requires !ev.RestoreBackup?
    ensures Step(b, ev, x) == Step(b, ev, y)
  {
  }

  /** After any run, restoring a backup taken at any point of it: the identifier is accepted exactly when the
      bundle offered it at that point. */
  lemma RestoreInRunAcceptsIffOffered(b: Bundle, events: seq<Event>, taken: nat, id: nat)
    requires taken <= |events|
    ensures MarkRefusal(Run(b, events + [RestoreBackup(taken)]), id).None? <==> Offers(Run(b, events[..taken]), id)
  {
    hide MarkRefusal, Offers;
    var all := events + [RestoreBackup(taken)];
    assert all[..Seen(all)] == events[..taken];
    RestoredAcceptsIffOffered(Run(b, events[..taken]), id);
  }

  /** The identifier is marked after the events `earlier`, and `later` follow. A backup of `b`, from before the
      mark, makes it acceptable again, with no repeat needed, unless an import or a restore brought the key in
      since; a backup from after the mark, with no restore since, does so only if the identifier repeats, and right
      after the mark exactly then. */
  lemma RestoreReopensIff(b: Bundle, id: nat, earlier: seq<Event>, later: seq<Event>)
    requires MarkRefusal(Run(b, earlier), id).None?
    ensures
      var marked := Marked(Run(b, earlier), id);
      var after := Run(marked, later);
      && (MarkRefusal(Imported(Exported(b)), id).None? <==> Offers(b, id))
      && (MarkRefusal(Imported(Exported(after)), id).None? <==> Offers(after, id))
      && ((forall ev :: ev in earlier ==> !ev.Merge? && !ev.RestoreBackup?) ==> Offers(b, id))
      && (Sole(Run(b, earlier), id) && (forall ev :: ev in later ==> !ev.RestoreBackup?) ==> !Offers(after, id))
      && (Offers(marked, id) <==> Repeats(Run(b, earlier), id))
  {
    hide FirstWith, Merged, Filter;
    var c := Run(b, earlier);
    var marked := Marked(c, id);
    var after := Run(marked, later);
    RestoredAcceptsIffOffered(b, id);
    RestoredAcceptsIffOffered(after, id);
    AcceptedIsOffered(c, id);
    if forall ev :: ev in earlier ==> !ev.Merge? && !ev.RestoreBackup? { RunOffersLess(b, earlier, id); }
    if Sole(c, id) && forall ev :: ev in later ==> !ev.RestoreBackup? {
      MarkBurns(c, id);
      MarkKeepsSole(c, id, id);
      RunKeepsSole(marked, later, id);
      SoleBurnedOffersNothing(after, id);
    }
    MarkedOffersIffRepeats(c, id);
  }

  /** Another unused key with material has the identifier of the first. */
  ghost predicate Repeats(b: Bundle, id: nat) {
    exists j :: FirstWith(b.keys, id) < j < |b.keys| && b.keys[j].id == id && !b.keys[j].used && b.keys[j].pair.Some?
  }

  lemma AcceptedIsOffered(b: Bundle, id: nat)
    requires MarkRefusal(b, id).None?
    ensures Offers(b, id)
  {
    assert b.keys[FirstWith(b.keys, id)] in b.keys;
  }

  lemma MarkedOffersIffRepeats(b: Bundle, id: nat)
    requires MarkRefusal(b, id).None?
    ensures Offers(Marked(b, id), id) <==> Repeats(b, id)
  {
    var i, m := FirstWith(b.keys, id), Marked(b, id);
    if k :| k in m.keys && k.id == id && !k.used && k.pair.Some? {
      var j :| 0 <= j < |m.keys| && m.keys[j] == k;
      assert j != i && b.keys[j] == k;
    }
    if j :| i < j < |b.keys| && b.keys[j].id == id && !b.keys[j].used && b.keys[j].pair.Some? {
      assert m.keys[j] == b.keys[j] && m.keys[j] in m.keys;
    }
  }

  // ----- Unused keys and the used count -----

  lemma UnusedAt(keys: seq<KeyRecord>, i: nat)
    requires i < |keys|
    ensures Filter(IsUnused(), keys) ==
      Filter(IsUnused(), keys[..i]) + (if keys[i].used then [] else [keys[i]]) + Filter(IsUnused(), keys[i + 1..])
  {
    assert keys == keys[..i] + [keys[i]] + keys[i + 1..];
    FilterAppend(IsUnused(), keys[..i] + [keys[i]], keys[i + 1..]);
    FilterSnoc(IsUnused(), keys[..i], keys[i]);
  }

  lemma MarkCounts(b: Bundle, id: nat)
    ensures Unused(Marked(b, id)) + Marked(b, id).usedCount == Unused(b) + b.usedCount
  {
    if MarkRefusal(b, id).None? {
      hide Filter;
      var i := FirstWith(b.keys, id);
      UnusedAt(b.keys, i);
      UnusedAt(Marked(b, id).keys, i);
      assert Marked(b, id).keys[..i] == b.keys[..i] && Marked(b, id).keys[i + 1..] == b.keys[i + 1..];
    }
  }

  lemma TakeCounts(b: Bundle)
    ensures Unused(b) > 0 ==> Taken(b).usedCount == b.usedCount + 1 && Unused(Taken(b)) == Unused(b) - 1
    ensures Unused(b) == 0 ==> Taken(b) == b
  {
    hide Filter;
    var i := FirstUnused(b.keys);
    if i < |b.keys| {
      UnusedAt(b.keys, i);
      FilterAppend(IsUnused(), b.keys[..i], b.keys[i + 1..]);
    } else {
      FilterNone(IsUnused(), b.keys);
    }
  }

  lemma RestoreCounts(b: Bundle)
    requires forall k :: k in b.keys ==> k.pair.Some?
    ensures Unused(Imported(Exported(b))) == Unused(b)
  {
    hide Filter;
    var e := Filter(IsUnused(), b.keys);
    FilterMembers(IsUnused(), b.keys);
    FilterAll(HasPair(), e);
    FilterAll(IsUnused(), e);
  }

  lemma {:induction false} MergeCounts(keys: seq<KeyRecord>, imported: seq<KeyRecord>)
    ensures |Filter(IsUnused(), Merged(keys, imported))| ==
      |Filter(IsUnused(), keys)| + |Merged(keys, imported)| - |keys|
  {
    if imported != [] {
      hide Filter;
      var m, k := Merged(keys, imported[..|imported| - 1]), imported[|imported| - 1];
      MergeCounts(keys, imported[..|imported| - 1]);
      FilterSnoc(IsUnused(), m, k);
    }
  }

  /** How many keys merging imports have added; a restore takes this back to when the backup was made. */
  ghost function MergedIn(b: Bundle, events: seq<Event>): nat
    decreases |events|
  {
    if events == [] then 0
    else
      var ev := events[|events| - 1];
      var c := Run(b, events[..|events| - 1]);
      MergedIn(b, events[..Seen(events)]) +
      if ev.Merge? then MergeExtends(c.keys, ev.imported); |Merged(c.keys, ev.imported)| - |c.keys| else 0
  }

  ghost predicate AllPaired(keys: seq<KeyRecord>) {
    forall k :: k in keys ==> k.pair.Some?
  }

  lemma StepPaired(b: Bundle, ev: Event, backup: Bundle)
    requires AllPaired(b.keys)
    ensures AllPaired(Step(b, ev, backup).keys)
  {
    match ev
    case CheckAndMark(_) =>
    case MarkUsed(_) =>
    case TakeAvailable =>
    case Merge(imported) => MergePaired(b.keys, imported);
    case RestoreBackup(_) => FilterMembers(HasPair(), Exported(backup).keys);
  }

  lemma {:induction false} MergePaired(keys: seq<KeyRecord>, imported: seq<KeyRecord>)
    requires AllPaired(keys)
    ensures AllPaired(Merged(keys, imported))
  {
    if imported != [] { MergePaired(keys, imported[..|imported| - 1]); }
  }

  /** Over every run, unused keys plus the used count grow only by what merging imports add. */
  lemma {:induction false} UsedCountExact(b: Bundle, events: seq<Event>)
    requires AllPaired(b.keys)
    ensures AllPaired(Run(b, events).keys)
    ensures Unused(Run(b, events)) + Run(b, events).usedCount == Unused(b) + b.usedCount + MergedIn(b, events)
    decreases |events|
  {
    if events != [] {
      var before, ev := events[..|events| - 1], events[|events| - 1];
      var c, backup := Run(b, before), Run(b, events[..Seen(events)]);
      UsedCountExact(b, before);
      UsedCountExact(b, events[..Seen(events)]);
      StepPaired(c, ev, backup);
      match ev
      case CheckAndMark(id) => MarkCounts(c, id);
      case MarkUsed(id) => MarkCounts(c, id);
      case TakeAvailable => TakeCounts(c);
      case Merge(imported) => MergeExtends(c.keys, imported); MergeCounts(c.keys, imported);
      case RestoreBackup(_) => RestoreCounts(backup);
    }
  }

  ghost predicate Generated(b: Bundle) {
    |b.keys| == PRE_KEYS_PER_PEER && b.usedCount == 0 && forall k :: k in b.keys ==> !k.used && k.pair.Some?
  }

  lemma UnusedPlusUsed(b: Bundle, events: seq<Event>)
    requires Generated(b) && forall ev :: ev in events ==> !ev.Merge?
    ensures Unused(Run(b, events)) + Run(b, events).usedCount == PRE_KEYS_PER_PEER
  {
    FilterAll(IsUnused(), b.keys);
    UsedCountExact(b, events);
    NothingMerged(b, events);
  }

  lemma UnusedIff(b: Bundle)
    ensures Unused(b) > 0 <==> exists k :: k in b.keys && !k.used
  {
    hide Filter;
    FilterMembers(IsUnused(), b.keys);
    var f := Filter(IsUnused(), b.keys);
    if f != [] { assert f[0] in f; }
  }

  /** Without merging imports, cleanup's used-count test drops exactly the exhausted bundles. */
  lemma CleanupDropsOnlyExhausted(b: Bundle, events: seq<Event>)
    requires Generated(b) && forall ev :: ev in events ==> !ev.Merge?
    ensures Run(b, events).usedCount >= PRE_KEYS_PER_PEER <==> forall k :: k in Run(b, events).keys ==> k.used
  {
    UnusedPlusUsed(b, events);
    UnusedIff(Run(b, events));
  }

  lemma {:induction false} NothingMerged(b: Bundle, events: seq<Event>)
    requires forall ev :: ev in events ==> !ev.Merge?
    ensures MergedIn(b, events) == 0
    decreases |events|
  {
    if events != [] {
      assert events[|events| - 1] in events;
      assert forall ev :: ev in events[..Seen(events)] ==> ev in events;
      NothingMerged(b, events[..Seen(events)]);
    }
  }

  /** As soon as a merge has added keys, handing out keys leads to a bundle that the test drops although
      as many keys are still unused as were merged in. */
  lemma {:induction false} MergedKeysCanBeDropped(b: Bundle, merged: nat) returns (takes: seq<Event>)
    requires b.usedCount <= PRE_KEYS_PER_PEER && Unused(b) + b.usedCount == PRE_KEYS_PER_PEER + merged
    ensures Run(b, takes).usedCount == PRE_KEYS_PER_PEER && Unused(Run(b, takes)) == merged
    ensures forall ev :: ev in takes ==> ev == TakeAvailable
    decreases PRE_KEYS_PER_PEER - b.usedCount
  {
    if b.usedCount == PRE_KEYS_PER_PEER {
      takes := [];
    } else {
      TakeCounts(b);
      var more := MergedKeysCanBeDropped(Taken(b), merged);
      takes := [TakeAvailable] + more;
      RunCons(b, TakeAvailable, more);
    }
  }

  lemma {:induction false} RunCons(b: Bundle, ev: Event, more: seq<Event>)
    requires forall x :: x in [ev] + more ==> !x.RestoreBackup?
    ensures Run(b, [ev] + more) == Run(Step(b, ev, b), more)
  {
    hide Step;
    if more == [] {
      assert [ev] + more == [ev] && [ev][..0] == [];
      assert ev in [ev] + more;
    } else {
      var front, last := more[..|more| - 1], more[|more| - 1];
      assert forall x :: x in [ev] + front ==> x in [ev] + more;
      RunCons(b, ev, front);
      assert ([ev] + more)[..|more|] == [ev] + front && last in [ev] + more;
      assert ([ev] + more)[..Seen([ev] + more)] == [ev] + front && more[..Seen(more)] == front;
    }
  }
}
