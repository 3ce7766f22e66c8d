/** When a one-time private key that has left the store can leave it again, over every run of a bundle. */
module PreKeyReuse {
  import opened Common
  import opened PreKeySpec

  /** Unused and with material. */
  predicate Live(k: KeyRecord) {
    !k.used && k.pair.Some?
  }

  /** What a wanted key looks like, for example: it has this identifier. */
  type Wanted = KeyRecord -> bool

  ghost function HasId(id: nat): Wanted { (k: KeyRecord) => k.id == id }

  /** The position of the key that an event hands to a caller, or the length when it hands out none. */
  function ReleasedAt(b: Bundle, ev: Event): (i: nat)
    ensures i <= |b.keys|
  {
    match ev
    case CheckAndMark(id) => if MarkRefusal(b, id).None? then FirstWith(b.keys, id) else |b.keys|
    case TakeAvailable => FirstUnused(b.keys)
    case _ => |b.keys|
  }

  ghost predicate Releases(b: Bundle, ev: Event, want: Wanted) {
    ReleasedAt(b, ev) < |b.keys| && want(b.keys[ReleasedAt(b, ev)])
  }

  ghost predicate Holds(b: Bundle, want: Wanted) {
    exists k :: k in b.keys && Live(k) && want(k)
  }

  /** A wanted key other than the one at `i`. */
  ghost predicate HoldsBesides(b: Bundle, i: nat, want: Wanted) {
    exists j :: 0 <= j < |b.keys| && j != i && Live(b.keys[j]) && want(b.keys[j])
  }

  /** Handing out keys one after the other gives out a wanted one; a key without material ends this. */
  ghost predicate CanLeave(b: Bundle, want: Wanted)
    decreases |b.keys|
  {
    var i := FirstUnused(b.keys);
    i < |b.keys| && b.keys[i].pair.Some? && (want(b.keys[i]) || CanLeave(Taken(b), want))
  }

  // ----- What an event does to wanted keys -----

  /** The key is gone or used afterwards, and every other key is as it was. */
  lemma ReleaseHolds(b: Bundle, ev: Event, want: Wanted)
    requires ReleasedAt(b, ev) < |b.keys|
    ensures Holds(Step(b, ev, b), want) <==> HoldsBesides(b, ReleasedAt(b, ev), want)
  {
    hide Holds, HoldsBesides, FirstWith, FirstUnused;
    if ev.TakeAvailable? {
      TakeHolds(b, want);
    } else {
      MarkHolds(b, ev.id, want);
    }
  }

  lemma MarkHolds(b: Bundle, id: nat, want: Wanted)
    requires MarkRefusal(b, id).None?
    ensures Holds(Marked(b, id), want) <==> HoldsBesides(b, FirstWith(b.keys, id), want)
  {
    hide FirstWith;
    var i, c := FirstWith(b.keys, id), Marked(b, id);
    if k :| k in c.keys && Live(k) && want(k) {
      var j :| 0 <= j < |c.keys| && c.keys[j] == k;
      assert b.keys[j] == k;
    }
    if j :| 0 <= j < |b.keys| && j != i && Live(b.keys[j]) && want(b.keys[j]) {
      assert c.keys[j] == b.keys[j] && c.keys[j] in c.keys;
    }
  }

  lemma TakeHolds(b: Bundle, want: Wanted)
    requires FirstUnused(b.keys) < |b.keys|
    ensures Holds(Taken(b), want) <==> HoldsBesides(b, FirstUnused(b.keys), want)
  {
    hide FirstUnused;
    var i, c := FirstUnused(b.keys), Taken(b);
    if k :| k in c.keys && Live(k) && want(k) {
      var j :| 0 <= j < |c.keys| && c.keys[j] == k;
      assert b.keys[if j < i then j else j + 1] == k;
    }
    if j :| 0 <= j < |b.keys| && j != i && Live(b.keys[j]) && want(b.keys[j]) {
      assert c.keys[if j < i then j else j - 1] == b.keys[j];
      assert b.keys[j] in c.keys;
    }
  }

  /** A merge takes in a wanted key: one whose identifier is not present when its turn comes. */
  ghost predicate TakesIn(keys: seq<KeyRecord>, imported: seq<KeyRecord>, want: Wanted) {
    exists j :: 0 <= j < |imported| && TakesInAt(keys, imported, j, want)
  }

  ghost predicate TakesInAt(keys: seq<KeyRecord>, imported: seq<KeyRecord>, j: nat, want: Wanted)
    requires j < |imported|
  {
    Live(imported[j]) && want(imported[j]) && imported[j].id !in IdSet(Merged(keys, imported[..j]))
  }

  lemma TakesInSnoc(keys: seq<KeyRecord>, front: seq<KeyRecord>, k: KeyRecord, want: Wanted)
    ensures TakesIn(keys, front + [k], want) <==>
      TakesIn(keys, front, want) || (Live(k) && want(k) && k.id !in IdSet(Merged(keys, front)))
  {
    hide Merged, IdSet;
    var all := front + [k];
    assert forall j | 0 <= j < |front| :: all[j] == front[j] && all[..j] == front[..j];
    assert all[|front|] == k && all[..|front|] == front;
    if j :| 0 <= j < |front| && TakesInAt(keys, front, j, want) {
      assert TakesInAt(keys, all, j, want);
    }
    if j :| 0 <= j < |all| && TakesInAt(keys, all, j, want) {
      if j < |front| { assert TakesInAt(keys, front, j, want); }
    }
    if Live(k) && want(k) && k.id !in IdSet(Merged(keys, front)) { assert TakesInAt(keys, all, |front|, want); }
  }

  lemma {:induction false} MergeHolds(b: Bundle, imported: seq<KeyRecord>, want: Wanted)
    ensures Holds(b.(keys := Merged(b.keys, imported)), want) <==>
      Holds(b, want) || TakesIn(b.keys, imported, want)
  {
    if imported != [] {
      hide TakesIn, IdSet;
      var front, k := imported[..|imported| - 1], imported[|imported| - 1];
      MergeHolds(b, front, want);
      assert imported == front + [k];
      TakesInSnoc(b.keys, front, k, want);
      var m := Merged(b.keys, front);
      assert forall x :: x in m + [k] <==> x in m || x == k;
    }
  }

  /** A merge takes in a key with this identifier exactly when it carries one while no key has it. */
  lemma {:induction false} TakesInIdIff(keys: seq<KeyRecord>, imported: seq<KeyRecord>, id: nat)
    ensures TakesIn(keys, imported, HasId(id)) <==>
      id !in IdSet(keys) && exists k :: k in imported && Live(k) && k.id == id
    ensures id in IdSet(Merged(keys, imported)) <==>
      id in IdSet(keys) || exists k :: k in imported && Live(k) && k.id == id
  {
    if imported != [] {
      hide TakesIn;
      var front, k := imported[..|imported| - 1], imported[|imported| - 1];
      TakesInIdIff(keys, front, id);
      assert imported == front + [k];
      TakesInSnoc(keys, front, k, HasId(id));
      var m := Merged(keys, front);
      assert forall x :: x in m + [k] <==> x in m || x == k;
      assert forall x :: x in imported <==> x in front || x == k;
    }
  }

  lemma RestoreHolds(backup: Bundle, want: Wanted)
    ensures Holds(Imported(Exported(backup)), want) <==> Holds(backup, want)
  {
    hide Filter;
    FilterMembers(IsUnused(), backup.keys);
    FilterMembers(HasPair(), Exported(backup).keys);
  }

  lemma StepHolds(b: Bundle, ev: Event, want: Wanted)
    requires !ev.RestoreBackup? && !ev.Merge? && Holds(Step(b, ev, b), want)
    ensures Holds(b, want)
  {
    hide HoldsBesides, FirstWith, FirstUnused;
    var i := if ev.TakeAvailable? then FirstUnused(b.keys) else FirstWith(b.keys, ev.id);
    if ev.TakeAvailable? {
      if i < |b.keys| { TakeHolds(b, want); }
    } else if MarkRefusal(b, ev.id).None? {
      MarkHolds(b, ev.id, want);
    }
    if HoldsBesides(b, i, want) { BesidesHolds(b, i, want); }
  }

  lemma BesidesHolds(b: Bundle, i: nat, want: Wanted)
    requires HoldsBesides(b, i, want)
    ensures Holds(b, want)
  {
  }

  // ----- A key can leave exactly when it is held -----

  lemma {:induction false} CanLeaveIffHeld(b: Bundle, want: Wanted)
    requires AllPaired(b.keys)
    ensures CanLeave(b, want) <==> Holds(b, want)
    decreases |b.keys|
  {
    hide FirstUnused;
    var i := FirstUnused(b.keys);
    if i < |b.keys| {
      assert b.keys[i] in b.keys;
      if !want(b.keys[i]) {
        assert forall k :: k in Taken(b).keys ==> k in b.keys;
        CanLeaveIffHeld(Taken(b), want);
        TakeHolds(b, want);
      }
    }
  }

  lemma ReleasedIsHeld(b: Bundle, ev: Event, want: Wanted)
    requires AllPaired(b.keys) && Releases(b, ev, want)
    ensures Holds(b, want)
  {
    assert b.keys[ReleasedAt(b, ev)] in b.keys;
  }

  // ----- Over every run -----

  /** After the release by event `m`, event `i` lets a wanted key in again: a merge that takes one in, or the
      restore of a backup from before the release that held one. */
  ghost predicate Readmits(b: Bundle, events: seq<Event>, m: nat, i: nat, want: Wanted)
    requires i < |events|
  {
    match events[i]
    case Merge(imported) => TakesIn(Run(b, events[..i]).keys, imported, want)
    case RestoreBackup(_) => SeenAt(events, i) <= m && Holds(Run(b, events[..SeenAt(events, i)]), want)
    case _ => false
  }

  /** How much of the run the backup restored by event `i` has seen. */
  function SeenAt(events: seq<Event>, i: nat): (s: nat)
    requires i < |events|
    ensures s <= i
  {
    Seen(events[..i + 1])
  }

  lemma RunNext(b: Bundle, events: seq<Event>, i: nat)
    requires i < |events|
    ensures Run(b, events[..i + 1]) == Step(Run(b, events[..i]), events[i], Run(b, events[..SeenAt(events, i)]))
  {
    hide Step;
    var upTo := events[..i + 1];
    assert upTo[..i] == events[..i] && upTo[..Seen(upTo)] == events[..SeenAt(events, i)];
  }

  /** A wanted key that is held after the release was held besides the released one, or was let in again. */
  lemma {:induction false} HeldHasCause(b: Bundle, events: seq<Event>, m: nat, n: nat, want: Wanted)
    requires m < n <= |events| && ReleasedAt(Run(b, events[..m]), events[m]) < |Run(b, events[..m]).keys|
    requires Holds(Run(b, events[..n]), want)
    ensures
      || HoldsBesides(Run(b, events[..m]), ReleasedAt(Run(b, events[..m]), events[m]), want)
      || exists i :: m < i < n && Readmits(b, events, m, i, want)
    decreases n
  {
    hide Holds, HoldsBesides, TakesIn, Run, ReleasedAt, Seen;
    var last := n - 1;
    var c, ev := Run(b, events[..last]), events[last];
    RunNext(b, events, last);
    if last == m {
      ReleaseStep(c, ev, Run(b, events[..SeenAt(events, m)]), want);
    } else if ev.RestoreBackup? {
      var s := SeenAt(events, last);
      RestoreHolds(Run(b, events[..s]), want);
      if s > m { HeldHasCause(b, events, m, s, want); } else { assert Readmits(b, events, m, last, want); }
    } else if ev.Merge? {
      MergeHolds(c, ev.imported, want);
      if Holds(c, want) { HeldHasCause(b, events, m, last, want); } else { assert Readmits(b, events, m, last, want); }
    } else {
      StepIgnoresBackup(c, ev, Run(b, events[..SeenAt(events, last)]), c);
      StepHolds(c, ev, want);
      HeldHasCause(b, events, m, last, want);
    }
  }

  lemma ReleaseStep(b: Bundle, ev: Event, backup: Bundle, want: Wanted)
    requires ReleasedAt(b, ev) < |b.keys|
    ensures Holds(Step(b, ev, backup), want) <==> HoldsBesides(b, ReleasedAt(b, ev), want)
  {
    ReleaseHolds(b, ev, want);
    StepIgnoresBackup(b, ev, backup, b);
  }

  lemma ReadmittedIsHeld(b: Bundle, events: seq<Event>, m: nat, i: nat, want: Wanted)
    requires i < |events| && Readmits(b, events, m, i, want)
    ensures Holds(Run(b, events[..i + 1]), want)
  {
    hide Holds, TakesIn, Run, Seen;
    RunNext(b, events, i);
    if events[i].Merge? {
      MergeHolds(Run(b, events[..i]), events[i].imported, want);
    } else {
      RestoreHolds(Run(b, events[..SeenAt(events, i)]), want);
    }
  }

  lemma {:induction false} RunPaired(b: Bundle, events: seq<Event>)
    requires AllPaired(b.keys)
    ensures AllPaired(Run(b, events).keys)
  {
    UsedCountExact(b, events);
  }

  /** Some key leaves at event `m` of a run. A key like it, whatever `want` looks at, can leave at some later point
      exactly when another one was held then, a later merge takes one in, or a later restore goes back to one. */
  lemma LeavesAgainIff(b: Bundle, events: seq<Event>, m: nat, want: Wanted)
    requires AllPaired(b.keys) && m < |events|
    requires ReleasedAt(Run(b, events[..m]), events[m]) < |Run(b, events[..m]).keys|
    ensures (exists n :: m < n <= |events| && CanLeave(Run(b, events[..n]), want)) <==>
      || HoldsBesides(Run(b, events[..m]), ReleasedAt(Run(b, events[..m]), events[m]), want)
      || exists i :: m < i < |events| && Readmits(b, events, m, i, want)
    ensures forall n | m < n < |events| && Releases(Run(b, events[..n]), events[n], want) ::
      CanLeave(Run(b, events[..n]), want)
  {
    hide Releases, Holds, HoldsBesides, CanLeave, Readmits, Run, ReleasedAt, Step;
    forall n | 0 <= n <= |events|
      ensures CanLeave(Run(b, events[..n]), want) <==> Holds(Run(b, events[..n]), want)
    {
      RunPaired(b, events[..n]);
      CanLeaveIffHeld(Run(b, events[..n]), want);
    }
    forall n | m < n < |events| && Releases(Run(b, events[..n]), events[n], want)
      ensures CanLeave(Run(b, events[..n]), want)
    {
      RunPaired(b, events[..n]);
      ReleasedIsHeld(Run(b, events[..n]), events[n], want);
    }
    if n :| m < n <= |events| && CanLeave(Run(b, events[..n]), want) {
      HeldHasCause(b, events, m, n, want);
    }
    RunNext(b, events, m);
    ReleaseStep(Run(b, events[..m]), events[m], Run(b, events[..SeenAt(events, m)]), want);
    if i :| m < i < |events| && Readmits(b, events, m, i, want) {
      ReadmittedIsHeld(b, events, m, i, want);
      assert CanLeave(Run(b, events[..i + 1]), want);
    }
  }

  // ----- By identifier -----

  /** Event `i` lets a key with this identifier in again: a merge that carries one while no key has it, or the
      restore of a backup from before event `m` that offered one. */
  ghost predicate LetsIn(b: Bundle, events: seq<Event>, m: nat, i: nat, id: nat)
    requires i < |events|
  {
    match events[i]
    case Merge(imported) =>
      id !in IdSet(Run(b, events[..i]).keys) && exists k :: k in imported && Live(k) && k.id == id
    case RestoreBackup(_) => SeenAt(events, i) <= m && Offers(Run(b, events[..SeenAt(events, i)]), id)
    case _ => false
  }

  lemma LetsInIsReadmits(b: Bundle, events: seq<Event>, m: nat, i: nat, id: nat)
    requires i < |events|
    ensures LetsIn(b, events, m, i, id) <==> Readmits(b, events, m, i, HasId(id))
  {
    hide Run, Seen, TakesIn;
    if events[i].Merge? { TakesInIdIff(Run(b, events[..i]).keys, events[i].imported, id); }
  }

  lemma SoleReleased(b: Bundle, i: nat, id: nat)
    requires Sole(b, id) && i < |b.keys| && b.keys[i].id == id
    ensures !HoldsBesides(b, i, HasId(id))
  {
  }

  /** Until a restore, a marked identifier stays burned. */
  lemma {:induction false} StaysBurned(b: Bundle, events: seq<Event>, m: nat, n: nat, id: nat)
    requires m < n <= |events| && events[m] == CheckAndMark(id) && MarkRefusal(Run(b, events[..m]), id).None?
    requires forall i | m < i < |events| :: !events[i].RestoreBackup?
    ensures Burned(Run(b, events[..n]), id)
  {
    hide Burned, Run, MarkRefusal, Marked;
    RunNext(b, events, n - 1);
    if n - 1 == m {
      MarkBurns(Run(b, events[..m]), id);
    } else {
      StaysBurned(b, events, m, n - 1, id);
      StepKeepsBurned(Run(b, events[..n - 1]), events[n - 1], Run(b, events[..SeenAt(events, n - 1)]), id);
    }
  }

  lemma BurnedIsKnown(b: Bundle, id: nat)
    requires Burned(b, id)
    ensures id in IdSet(b.keys)
  {
    assert b.keys[FirstWith(b.keys, id)] in b.keys;
  }

  /** A key whose identifier does not repeat leaves at event `m`. A key with that identifier can leave again exactly
      when a later event lets one in; after a check-and-mark, only a restore can. */
  lemma IdLeavesAgainIff(b: Bundle, events: seq<Event>, m: nat, id: nat)
    requires AllPaired(b.keys) && m < |events|
    requires Releases(Run(b, events[..m]), events[m], HasId(id)) && Sole(Run(b, events[..m]), id)
    ensures (exists n :: m < n <= |events| && CanLeave(Run(b, events[..n]), HasId(id))) <==>
      exists i :: m < i < |events| && LetsIn(b, events, m, i, id)
    ensures events[m].CheckAndMark? && (exists n :: m < n <= |events| && CanLeave(Run(b, events[..n]), HasId(id))) ==>
      exists i :: m < i < |events| && events[i].RestoreBackup?
  {
    hide CanLeave, HoldsBesides, Readmits, Run, Sole, Seen;
    var c := Run(b, events[..m]);
    LeavesAgainIff(b, events, m, HasId(id));
    SoleReleased(c, ReleasedAt(c, events[m]), id);
    assert forall i | m < i < |events| :: LetsIn(b, events, m, i, id) <==> Readmits(b, events, m, i, HasId(id)) by {
      forall i | m < i < |events| { LetsInIsReadmits(b, events, m, i, id); }
    }
    if events[m].CheckAndMark? && forall i | m < i < |events| :: !events[i].RestoreBackup? {
      forall i | m < i < |events| ensures !LetsIn(b, events, m, i, id) {
        StaysBurned(b, events, m, i, id);
        BurnedIsKnown(Run(b, events[..i]), id);
      }
    }
  }

  /** No key is safe from this: handed out, merged back from an older backup, it leaves by check-and-mark as well. */
  lemma TakenKeyLeavesTwice(k: KeyRecord) returns (b: Bundle, events: seq<Event>)
    requires Live(k)
    ensures b == Bundle([k], 0) && events == [TakeAvailable, Merge([k]), CheckAndMark(k.id)]
    ensures Releases(Run(b, events[..0]), events[0], (x: KeyRecord) => x == k)
    ensures Releases(Run(b, events[..2]), events[2], (x: KeyRecord) => x == k)
  {
    b, events := Bundle([k], 0), [TakeAvailable, Merge([k]), CheckAndMark(k.id)];
    RunNext(b, events, 0);
    RunNext(b, events, 1);
    assert events[..0] == [] && Taken(b).keys == [];
    assert [k][..0] == [] && Merged([], [k]) == [k];
  }
}
