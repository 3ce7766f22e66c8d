/** The binary snapshot format as a list of fields: printing, parsing, and the laws between them. */
module SnapshotSpec {
  import opened Common
  import opened BigEndian

  const SNAPSHOT_MAGIC: nat := 0x544F5853
  const SNAPSHOT_VERSION: nat := 2
  const MIN_SNAPSHOT_SIZE := 86
  const MIN_FRIEND_ENTRY_SIZE := 50

  type Bytes = seq<Byte>
  type Key = b: Bytes | |b| == 32 witness seq(32, _ => 0)
  type Nospam = b: Bytes | |b| == 4 witness [0, 0, 0, 0]
  type FriendId = x: int | 0 <= x < U32
  /** A 64-bit signed count of nanoseconds. */
  type Nanos = x: int | -(U64 / 2) <= x < U64 / 2

  function ZeroKey(): Key { Zeros(32) }

  datatype KeyPair = KeyPair(pub: Key, priv: Key)

  /** The persisted fields of a friend; `lastSeen` is any time, in nanoseconds since 1970. */
  datatype Friend = Friend(pk: Key, status: Byte, connection: Byte, name: Bytes, statusMsg: Bytes, lastSeen: int)

  datatype SaveData = SaveData(
    keyPair: Option<KeyPair>,
    nospam: Nospam,
    name: Bytes,
    statusMsg: Bytes,
    status: Byte,
    friends: map<FriendId, Friend>)

  datatype SnapshotError = TooShort | BadMagic | BadVersion | Truncated | TooManyFriends

  /** A read either fails or yields a value and the unread bytes. */
  datatype Step<T> = Bad(error: SnapshotError) | Got(value: T, rest: Bytes)

  // ----- Fields -----

  /** A field has a fixed width or carries a two-byte length. */
  datatype Field = Fixed(n: nat) | Prefixed

  predicate Fits(v: Bytes, f: Field) {
    match f
    case Fixed(n) => |v| == n
    case Prefixed => |v| < U16
  }

  /** A length that does not fit is silently truncated. */
  function PrintField(v: Bytes, f: Field): Bytes {
    match f
    case Fixed(_) => v
    case Prefixed => Put(|v|, 2) + v
  }

  function ReadFixed(b: Bytes, n: nat): Step<Bytes> {
    if |b| < n then Bad(Truncated) else Got(b[..n], b[n..])
  }

  function ReadField(b: Bytes, f: Field): Step<Bytes> {
    match f
    case Fixed(n) => ReadFixed(b, n)
    case Prefixed =>
      match ReadFixed(b, 2)
      case Bad(e) => Bad(e)
      case Got(len, rest) => ReadFixed(rest, Get(len))
  }

  function Then(s: Step<seq<Bytes>>, f: Field): Step<seq<Bytes>> {
    if s.Bad? then s
    else
      match ReadField(s.rest, f)
      case Bad(e) => Bad(e)
      case Got(v, rest) => Got(s.value + [v], rest)
  }

  /** All fields of a list, in order. */
  function ReadFields(b: Bytes, fs: seq<Field>): Step<seq<Bytes>> {
    if fs == [] then Got([], b) else Then(ReadFields(b, fs[..|fs| - 1]), fs[|fs| - 1])
  }

  function PrintFields(vs: seq<Bytes>, fs: seq<Field>): Bytes
    requires |vs| == |fs|
  {
    if fs == [] then []
    else PrintFields(vs[..|vs| - 1], fs[..|fs| - 1]) + PrintField(vs[|vs| - 1], fs[|fs| - 1])
  }

  ghost predicate AllFit(vs: seq<Bytes>, fs: seq<Field>) {
    |vs| == |fs| && forall i | 0 <= i < |fs| :: Fits(vs[i], fs[i])
  }

  lemma AllFitSnoc(vs: seq<Bytes>, fs: seq<Field>, v: Bytes, f: Field)
    requires AllFit(vs, fs) && Fits(v, f)
    ensures AllFit(vs + [v], fs + [f])
  {
  }

  /** The bytes of `b` in front of its suffix `rest`. */
  function Used(b: Bytes, rest: Bytes): Bytes
    requires |rest| <= |b|
  {
    b[..|b| - |rest|]
  }

  lemma ReadPrintedField(v: Bytes, f: Field, tail: Bytes)
    requires Fits(v, f)
    ensures ReadField(PrintField(v, f) + tail, f) == Got(v, tail)
  {
    hide Put, Get;
    if f.Prefixed? {
      Widths();
      GetPut(|v|, 2);
      var b := Put(|v|, 2) + v + tail;
      assert b[..2] == Put(|v|, 2) && b[2..] == v + tail;
    }
  }

  lemma ReadLast(b: Bytes, fs: seq<Field>)
    requires fs != []
    ensures ReadFields(b, fs) == Then(ReadFields(b, fs[..|fs| - 1]), fs[|fs| - 1])
  {
  }

  lemma ThenGot(vs: seq<Bytes>, rest: Bytes, f: Field)
    requires ReadField(rest, f).Got?
    ensures Then(Got(vs, rest), f) == Got(vs + [ReadField(rest, f).value], ReadField(rest, f).rest)
  {
  }

  lemma {:induction false} ReadPrinted(vs: seq<Bytes>, fs: seq<Field>, tail: Bytes)
    requires AllFit(vs, fs)
    ensures ReadFields(PrintFields(vs, fs) + tail, fs) == Got(vs, tail)
  {
    if fs == [] {
      assert vs == [] && PrintFields(vs, fs) + tail == tail;
    } else {
      var n := |fs| - 1;
      var front, last := PrintFields(vs[..n], fs[..n]), PrintField(vs[n], fs[n]);
      assert PrintFields(vs, fs) + tail == front + (last + tail);
      assert vs == vs[..n] + [vs[n]];
      ReadPrintedField(vs[n], fs[n], tail);
      ReadPrinted(vs[..n], fs[..n], last + tail);
      hide *;
      var b := PrintFields(vs, fs) + tail;
      assert ReadFields(b, fs[..n]) == Got(vs[..n], last + tail);
      assert ReadFields(b, fs) == Then(ReadFields(b, fs[..n]), fs[n]) by { ReadLast(b, fs); }
      ThenGot(vs[..n], last + tail, fs[n]);
    }
  }

  /** A read takes a prefix, and depends on nothing after it. */
  lemma FieldIsLocal(b: Bytes, f: Field, x: Bytes)
    requires ReadField(b, f).Got?
    ensures
      var Got(v, rest) := ReadField(b, f);
      && |rest| <= |b| && b == Used(b, rest) + rest && Fits(v, f)
      && |Used(b, rest)| == |v| + (if f.Prefixed? then 2 else 0)
      && ReadField(Used(b, rest) + x, f) == Got(v, x)
  {
    var Got(v, rest) := ReadField(b, f);
    if f.Prefixed? {
      Widths();
      assert |rest| == |b| - 2 - Get(b[..2]);
      var c := Used(b, rest) + x;
      assert c[..2] == b[..2] && c[2..][..Get(b[..2])] == b[2..][..Get(b[..2])];
      assert c[2..][Get(b[..2])..] == x;
    } else {
      assert (Used(b, rest) + x)[..f.n] == v && (Used(b, rest) + x)[f.n..] == x;
    }
  }

  /** Taking two prefixes one after the other is taking one. */
  lemma UsedTwice(b: Bytes, mid: Bytes, rest: Bytes, x: Bytes)
    requires |rest| <= |mid| <= |b| && b == Used(b, mid) + mid && mid == Used(mid, rest) + rest
    ensures b == Used(b, rest) + rest
    ensures Used(b, rest) + x == Used(b, mid) + (Used(mid, rest) + x)
  {
    assert Used(b, rest) == Used(b, mid) + Used(mid, rest);
  }

  lemma {:induction false} FieldsAreLocal(b: Bytes, fs: seq<Field>, x: Bytes)
    requires ReadFields(b, fs).Got?
    ensures
      var Got(vs, rest) := ReadFields(b, fs);
      && |rest| <= |b| && b == Used(b, rest) + rest && AllFit(vs, fs)
      && ReadFields(Used(b, rest) + x, fs) == Got(vs, x)
  {
    if fs == [] {
      assert Used(b, b) + x == x;
    } else {
      var n := |fs| - 1;
      var Got(vs, mid) := ReadFields(b, fs[..n]);
      var Got(v, rest) := ReadField(mid, fs[n]);
      FieldIsLocal(mid, fs[n], x);
      FieldsAreLocal(b, fs[..n], Used(mid, rest) + x);
      UsedTwice(b, mid, rest, x);
      var c := Used(b, rest) + x;
      ReadLast(b, fs);
      ReadLast(c, fs);
      ThenGot(vs, mid, fs[n]);
      ThenGot(vs, Used(mid, rest) + x, fs[n]);
      AllFitSnoc(vs, fs[..n], v, fs[n]);
      assert fs == fs[..n] + [fs[n]];
      hide *;
    }
  }

  function Follow(s: Step<seq<Bytes>>, fs: seq<Field>): Step<seq<Bytes>> {
    if s.Bad? then s else Prepend(s.value, ReadFields(s.rest, fs))
  }

  function Prepend(vs: seq<Bytes>, s: Step<seq<Bytes>>): Step<seq<Bytes>> {
    if s.Bad? then s else Got(vs + s.value, s.rest)
  }

  lemma ThenAfter(vs: seq<Bytes>, s: Step<seq<Bytes>>, f: Field)
    ensures Then(Prepend(vs, s), f) == Prepend(vs, Then(s, f))
  {
    if s.Got? && ReadField(s.rest, f).Got? {
      var v := ReadField(s.rest, f).value;
      assert (vs + s.value) + [v] == vs + (s.value + [v]);
    }
  }

  /** Reading two lists one after the other is reading their concatenation. */
  lemma {:induction false} ReadAppend(b: Bytes, fs: seq<Field>, gs: seq<Field>)
    ensures ReadFields(b, fs + gs) == Follow(ReadFields(b, fs), gs)
  {
    if gs == [] {
      assert fs + gs == fs;
      if ReadFields(b, fs).Got? { assert ReadFields(b, fs).value + [] == ReadFields(b, fs).value; }
    } else {
      var n := |gs| - 1;
      assert (fs + gs)[..|fs| + n] == fs + gs[..n];
      ReadAppend(b, fs, gs[..n]);
      ReadLast(b, fs + gs);
      var s := ReadFields(b, fs);
      if s.Got? { ThenAfter(s.value, ReadFields(s.rest, gs[..n]), gs[n]); }
    }
  }

  lemma {:induction false} FieldsFailTruncated(b: Bytes, fs: seq<Field>)
    ensures ReadFields(b, fs).Bad? ==> ReadFields(b, fs) == Bad(Truncated)
  {
    if fs != [] { FieldsFailTruncated(b, fs[..|fs| - 1]); }
  }

  // ----- Friends -----

  const FRIEND: seq<Field> := [Fixed(4), Fixed(32), Fixed(2), Prefixed, Prefixed, Fixed(8)]

  /** A time is printed as 64-bit nanoseconds and wraps around outside their range. */
  function Unsigned(t: int): nat {
    t % U64
  }

  function Signed(v: nat): Nanos
    requires v < U64
  {
    if v < U64 / 2 then v else v - U64
  }

  function FriendFields(id: FriendId, f: Friend): seq<Bytes> {
    [Put(id, 4), f.pk, [f.status, f.connection], f.name, f.statusMsg, Put(Unsigned(f.lastSeen), 8)]
  }

  ghost predicate FriendFits(f: Friend) {
    |f.name| < U16 && |f.statusMsg| < U16 && -(U64 / 2) <= f.lastSeen < U64 / 2
  }

  function FriendOf(vs: seq<Bytes>): (FriendId, Friend)
    requires AllFit(vs, FRIEND)
  {
    assert forall i | 0 <= i < 6 :: Fits(vs[i], FRIEND[i]);
    Widths();
    (Get(vs[0]), Friend(vs[1], vs[2][0], vs[2][1], vs[3], vs[4], Signed(Get(vs[5]))))
  }

  function ReadFriend(b: Bytes): Step<(FriendId, Friend)> {
    match ReadFields(b, FRIEND)
    case Bad(e) => Bad(e)
    case Got(vs, rest) => FieldsAreLocal(b, FRIEND, []); Got(FriendOf(vs), rest)
  }

  function PrintFriend(id: FriendId, f: Friend): Bytes {
    PrintFields(FriendFields(id, f), FRIEND)
  }

  /** Entries in order; a repeated identifier overwrites. */
  function ReadFriends(b: Bytes, n: nat): Step<map<FriendId, Friend>> {
    if n == 0 then Got(map[], b)
    else
      match ReadFriends(b, n - 1)
      case Bad(e) => Bad(e)
      case Got(m, rest) =>
        match ReadFriend(rest)
        case Bad(e) => Bad(e)
        case Got((id, f), rest') => Got(m[id := f], rest')
  }

  function PrintFriends(order: seq<FriendId>, m: map<FriendId, Friend>): Bytes
    requires forall id :: id in order ==> id in m
  {
    if order == [] then []
    else
      var n := |order| - 1;
      PrintFriends(order[..n], m) + PrintFriend(order[n], m[order[n]])
  }

  /** The entries of `m` whose identifiers are listed. */
  function Among(order: seq<FriendId>, m: map<FriendId, Friend>): map<FriendId, Friend>
    requires forall id :: id in order ==> id in m
  {
    map id | id in order :: m[id]
  }

  /** `order` lists every key of `m` once. */
  ghost predicate Enumerates(order: seq<FriendId>, m: map<FriendId, Friend>) {
    |order| == |m| && (forall id :: id in order ==> id in m) && (forall id :: id in m ==> id in order)
  }

  lemma FriendFieldsFit(id: FriendId, f: Friend)
    requires FriendFits(f)
    ensures AllFit(FriendFields(id, f), FRIEND)
    ensures FriendOf(FriendFields(id, f)) == (id, f)
  {
    Widths();
    GetPut(id, 4);
    GetPut(Unsigned(f.lastSeen), 8);
  }

  lemma ReadPrintedFriend(id: FriendId, f: Friend, tail: Bytes)
    requires FriendFits(f)
    ensures ReadFriend(PrintFriend(id, f) + tail) == Got((id, f), tail)
  {
    hide ReadFields, PrintFields, FriendOf, FriendFields;
    FriendFieldsFit(id, f);
    ReadPrinted(FriendFields(id, f), FRIEND, tail);
  }

  lemma {:induction false} ReadPrintedFriends(order: seq<FriendId>, m: map<FriendId, Friend>, tail: Bytes)
    requires forall id :: id in order ==> id in m && FriendFits(m[id])
    ensures ReadFriends(PrintFriends(order, m) + tail, |order|) == Got(Among(order, m), tail)
  {
    hide ReadFriend, PrintFriend, FriendFits;
    if order == [] {
      assert PrintFriends(order, m) + tail == tail;
    } else {
      var n := |order| - 1;
      var front, last := PrintFriends(order[..n], m), PrintFriend(order[n], m[order[n]]);
      assert order == order[..n] + [order[n]];
      ReadPrintedFriends(order[..n], m, last + tail);
      ReadPrintedFriend(order[n], m[order[n]], tail);
      assert (front + last) + tail == front + (last + tail);
      assert Among(order, m) == Among(order[..n], m)[order[n] := m[order[n]]];
    }
  }

  lemma FriendIsLocal(b: Bytes, x: Bytes)
    requires ReadFriend(b).Got?
    ensures
      var Got(v, rest) := ReadFriend(b);
      && |rest| + MIN_FRIEND_ENTRY_SIZE <= |b| && b == Used(b, rest) + rest && FriendFits(v.1)
      && ReadFriend(Used(b, rest) + x) == Got(v, x)
  {
    FieldsAreLocal(b, FRIEND, x);
    var Got(vs, rest) := ReadFields(b, FRIEND);
    MinimumUsed(b, FRIEND);
    FriendMinSize();
    assert Fits(vs[3], FRIEND[3]) && Fits(vs[4], FRIEND[4]);
  }

  lemma FriendMinSize()
    ensures MinSize(FRIEND) == MIN_FRIEND_ENTRY_SIZE
  {
    assert MinSize([]) == 0;
    hide MinSize;
    var id := [] + [Fixed(4)];
    var key := id + [Fixed(32)];
    var status := key + [Fixed(2)];
    var name := status + [Prefixed];
    var message := name + [Prefixed];
    MinSizeSnoc([], Fixed(4));
    MinSizeSnoc(id, Fixed(32));
    MinSizeSnoc(key, Fixed(2));
    MinSizeSnoc(status, Prefixed);
    MinSizeSnoc(name, Prefixed);
    MinSizeSnoc(message, Fixed(8));
    assert FRIEND == message + [Fixed(8)];
  }

  lemma MinSizeSnoc(fs: seq<Field>, f: Field)
    ensures MinSize(fs + [f]) == MinSize(fs) + (if f.Prefixed? then 2 else f.n)
  {
    assert (fs + [f])[..|fs|] == fs;
  }

  /** The fewest bytes a field list can take. */
  function MinSize(fs: seq<Field>): nat {
    if fs == [] then 0
    else MinSize(fs[..|fs| - 1]) + (if fs[|fs| - 1].Prefixed? then 2 else fs[|fs| - 1].n)
  }

  lemma {:induction false} MinimumUsed(b: Bytes, fs: seq<Field>)
    requires ReadFields(b, fs).Got?
    ensures |ReadFields(b, fs).rest| + MinSize(fs) <= |b|
  {
    if fs != [] {
      var n := |fs| - 1;
      MinimumUsed(b, fs[..n]);
      var mid := ReadFields(b, fs[..n]).rest;
      FieldIsLocal(mid, fs[n], []);
    }
  }

  lemma {:induction false} FriendsAreLocal(b: Bytes, n: nat, x: Bytes)
    requires ReadFriends(b, n).Got?
    ensures
      var Got(m, rest) := ReadFriends(b, n);
      && |rest| + n * MIN_FRIEND_ENTRY_SIZE <= |b| && b == Used(b, rest) + rest
      && ReadFriends(Used(b, rest) + x, n) == Got(m, x)
      && |m| <= n && forall id :: id in m ==> FriendFits(m[id])
  {
    hide ReadFriend, FriendFits;
    if n == 0 {
      assert Used(b, b) + x == x;
    } else {
      var Got(m, mid) := ReadFriends(b, n - 1);
      var Got((id, f), rest) := ReadFriend(mid);
      FriendIsLocal(mid, x);
      FriendsAreLocal(b, n - 1, Used(mid, rest) + x);
      UsedTwice(b, mid, rest, x);
      assert m[id := f].Keys == m.Keys + {id};
    }
  }

  lemma {:induction false} FriendsStayBad(b: Bytes, n: nat, k: nat)
    requires k <= n && ReadFriends(b, k).Bad?
    ensures ReadFriends(b, n) == Bad(Truncated)
  {
    if k < n {
      FriendsStayBad(b, n - 1, k);
    } else {
      FriendsFailTruncated(b, n);
    }
  }

  lemma {:induction false} FriendsFailTruncated(b: Bytes, n: nat)
    ensures ReadFriends(b, n).Bad? ==> ReadFriends(b, n) == Bad(Truncated)
  {
    if n > 0 {
      FriendsFailTruncated(b, n - 1);
      if ReadFriends(b, n - 1).Got? { FieldsFailTruncated(ReadFriends(b, n - 1).rest, FRIEND); }
    }
  }

  // ----- Whole snapshots -----

  /** Magic, version, flags and timestamp, key pair, nospam, name, status message, status, friend count;
      version 1 has no status. */
  function Head(version: nat): seq<Field> {
    if version >= 2 then [Fixed(4), Fixed(2), Fixed(10), Fixed(64), Fixed(4), Prefixed, Prefixed, Fixed(1), Fixed(4)]
    else [Fixed(4), Fixed(2), Fixed(10), Fixed(64), Fixed(4), Prefixed, Prefixed, Fixed(4)]
  }

  function KeyBytes(k: Option<KeyPair>): (b: Bytes)
    ensures |b| == 64
  {
    if k.None? then ZeroKey() + ZeroKey() else k.value.pub + k.value.priv
  }

  /** An all-zero public key reads as no key pair. */
  function KeyPairOf(b: Bytes): Option<KeyPair>
    requires |b| == 64
  {
    if b[..32] == ZeroKey() then None else Some(KeyPair(b[..32], b[32..]))
  }

  function HeadFields(s: SaveData, now: nat): seq<Bytes> {
    [Put(SNAPSHOT_MAGIC, 4), Put(SNAPSHOT_VERSION, 2), Put(0, 2) + Put(now, 8), KeyBytes(s.keyPair), s.nospam,
     s.name, s.statusMsg, [s.status], Put(|s.friends|, 4)]
  }

  function Print(s: SaveData, order: seq<FriendId>, now: nat): Bytes
    requires forall id :: id in order ==> id in s.friends
  {
    PrintFields(HeadFields(s, now), Head(SNAPSHOT_VERSION)) + PrintFriends(order, s.friends)
  }

  lemma HeadShape(vs: seq<Bytes>, version: nat)
    requires AllFit(vs, Head(version))
    ensures |vs| == (if version >= 2 then 9 else 8) && |vs[3]| == 64 && |vs[4]| == 4
    ensures |vs[5]| < U16 && |vs[6]| < U16 && |vs[|vs| - 1]| == 4
    ensures version >= 2 ==> |vs[7]| == 1
  {
    assert forall i | 0 <= i < |vs| :: Fits(vs[i], Head(version)[i]);
  }

  function SaveOf(vs: seq<Bytes>, version: nat, friends: map<FriendId, Friend>): SaveData
    requires AllFit(vs, Head(version))
  {
    HeadShape(vs, version);
    SaveData(KeyPairOf(vs[3]), vs[4], vs[5], vs[6], if version >= 2 then vs[7][0] else 0, friends)
  }

  function Parse(b: Bytes): Step<SaveData> {
    if |b| < MIN_SNAPSHOT_SIZE then Bad(TooShort)
    else if Get(b[..4]) != SNAPSHOT_MAGIC then Bad(BadMagic)
    else if Get(b[4..6]) > SNAPSHOT_VERSION then Bad(BadVersion)
    else
      match ReadFields(b, Head(Get(b[4..6])))
      case Bad(e) => Bad(e)
      case Got(vs, rest) => FieldsAreLocal(b, Head(Get(b[4..6])), []); ParseFriends(vs, Get(b[4..6]), rest)
  }

  /** The friend count is refused when the unread bytes cannot hold that many entries. */
  function ParseFriends(vs: seq<Bytes>, version: nat, rest: Bytes): Step<SaveData>
    requires AllFit(vs, Head(version))
  {
    var count := Get(vs[|vs| - 1]);
    if count > |rest| / MIN_FRIEND_ENTRY_SIZE then Bad(TooManyFriends)
    else
      match ReadFriends(rest, count)
      case Bad(e) => Bad(e)
      case Got(m, rest') => Got(SaveOf(vs, version, m), rest')
  }

  /** What the format can hold: short strings, a usable public key, a friend count below 2^32. */
  ghost predicate Representable(s: SaveData) {
    && (s.keyPair.Some? ==> s.keyPair.value.pub != ZeroKey())
    && |s.name| < U16 && |s.statusMsg| < U16
    && |s.friends| < U32 && forall id :: id in s.friends ==> FriendFits(s.friends[id])
  }

  lemma HeadMinSize(version: nat)
    ensures MinSize(Head(version)) >= MIN_SNAPSHOT_SIZE
  {
    assert MinSize([]) == 0;
    hide MinSize;
    var magic := [] + [Fixed(4)];
    var versioned := magic + [Fixed(2)];
    var stamped := versioned + [Fixed(10)];
    var keyed := stamped + [Fixed(64)];
    var nospam := keyed + [Fixed(4)];
    var name := nospam + [Prefixed];
    var message := name + [Prefixed];
    var status := message + [Fixed(1)];
    MinSizeSnoc([], Fixed(4));
    MinSizeSnoc(magic, Fixed(2));
    MinSizeSnoc(versioned, Fixed(10));
    MinSizeSnoc(stamped, Fixed(64));
    MinSizeSnoc(keyed, Fixed(4));
    MinSizeSnoc(nospam, Prefixed);
    MinSizeSnoc(name, Prefixed);
    MinSizeSnoc(message, Fixed(1));
    MinSizeSnoc(status, Fixed(4));
    MinSizeSnoc(message, Fixed(4));
    assert Head(version) == if version >= 2 then status + [Fixed(4)] else message + [Fixed(4)];
  }

  /** The first two fields of a head are the first six bytes. */
  lemma {:induction false} FirstFields(b: Bytes, fs: seq<Field>)
    requires |fs| >= 2 && fs[0] == Fixed(4) && fs[1] == Fixed(2) && ReadFields(b, fs).Got?
    ensures |b| >= 6 && |ReadFields(b, fs).value| == |fs|
    ensures ReadFields(b, fs).value[0] == b[..4] && ReadFields(b, fs).value[1] == b[4..6]
  {
    var n := |fs| - 1;
    ReadLast(b, fs);
    if n == 1 {
      ReadLast(b, fs[..1]);
      assert fs[..1][..0] == [];
      assert ReadFields(b, []) == Got([], b);
      assert b[4..][..2] == b[4..6];
    } else {
      FirstFields(b, fs[..n]);
    }
  }

  lemma HeadFieldsFit(s: SaveData, now: nat)
    requires Representable(s)
    ensures AllFit(HeadFields(s, now), Head(SNAPSHOT_VERSION))
    ensures SaveOf(HeadFields(s, now), SNAPSHOT_VERSION, s.friends) == s
    ensures Get(Put(SNAPSHOT_MAGIC, 4)) == SNAPSHOT_MAGIC && Get(Put(SNAPSHOT_VERSION, 2)) == SNAPSHOT_VERSION
    ensures Get(Put(|s.friends|, 4)) == |s.friends|
  {
    hide Put, Get, KeyBytes, KeyPairOf;
    Widths();
    GetPut(SNAPSHOT_MAGIC, 4);
    GetPut(SNAPSHOT_VERSION, 2);
    GetPut(|s.friends|, 4);
    KeysReadBack(s.keyPair);
  }

  lemma KeysReadBack(k: Option<KeyPair>)
    requires k.Some? ==> k.value.pub != ZeroKey()
    ensures KeyPairOf(KeyBytes(k)) == k
  {
    var b := KeyBytes(k);
    if k.Some? {
      assert b[..32] == k.value.pub && b[32..] == k.value.priv;
    } else {
      assert b[..32] == ZeroKey();
    }
  }

  lemma PrintedFriendsParse(s: SaveData, order: seq<FriendId>, now: nat, tail: Bytes)
    requires Representable(s) && Enumerates(order, s.friends)
    requires AllFit(HeadFields(s, now), Head(SNAPSHOT_VERSION))
    ensures ParseFriends(HeadFields(s, now), SNAPSHOT_VERSION, PrintFriends(order, s.friends) + tail) == Got(s, tail)
  {
    var b := PrintFriends(order, s.friends) + tail;
    HeadFieldsFit(s, now);
    ReadPrintedFriends(order, s.friends, tail);
    assert Among(order, s.friends) == s.friends;
    FriendsAreLocal(b, |order|, tail);
    hide SaveOf, ReadFriends, PrintFriends, Put, Get, Representable;
  }

  /** Whatever the iteration order and whatever follows, a representable save parses back. */
  lemma ParsePrinted(s: SaveData, order: seq<FriendId>, now: nat, tail: Bytes)
    requires Representable(s) && Enumerates(order, s.friends)
    ensures Parse(Print(s, order, now) + tail) == Got(s, tail)
  {
    hide ReadFields, PrintFields, PrintFriends, ParseFriends, Representable, Put, Get, MinSize, AllFit;
    var vs, fs := HeadFields(s, now), Head(SNAPSHOT_VERSION);
    var rest := PrintFriends(order, s.friends) + tail;
    var b := Print(s, order, now) + tail;
    HeadFieldsFit(s, now);
    assert b == PrintFields(vs, fs) + rest;
    ReadPrinted(vs, fs, rest);
    FirstFields(b, fs);
    MinimumUsed(b, fs);
    HeadMinSize(SNAPSHOT_VERSION);
    PrintedFriendsParse(s, order, now, tail);
  }

  lemma ParsedIsRepresentable(b: Bytes)
    requires Parse(b).Got?
    ensures Representable(Parse(b).value)
  {
    var version := Get(b[4..6]);
    FieldsAreLocal(b, Head(version), []);
    var Got(vs, rest) := ReadFields(b, Head(version));
    HeadShape(vs, version);
    Widths();
    FriendsAreLocal(rest, Get(vs[|vs| - 1]), []);
    hide ReadFields, ReadFriends, Get, AllFit;
  }

  /** Exactly the representable saves survive, for every iteration order and every time of printing. */
  lemma RoundTripIffRepresentable(s: SaveData, order: seq<FriendId>, now: nat)
    requires Enumerates(order, s.friends)
    ensures
      var p := Parse(Print(s, order, now));
      p.Got? && p.value == s <==> Representable(s)
  {
    var b := Print(s, order, now);
    hide Parse, Print, Representable, Enumerates;
    if Representable(s) {
      ParsePrinted(s, order, now, []);
      assert b + [] == b;
    }
    if Parse(b).Got? { ParsedIsRepresentable(b); }
  }

  /** Parsing takes a prefix and depends on nothing after it. */
  lemma ParseIsLocal(b: Bytes, x: Bytes)
    requires Parse(b).Got?
    ensures
      var Got(s, rest) := Parse(b);
      && |rest| <= |b| && b == Used(b, rest) + rest
      && Parse(Used(b, rest) + x) == Got(s, x)
  {
    hide ReadFields, ParseFriends, Get, AllFit, MinSize, Head;
    var version := Get(b[4..6]);
    var fs := Head(version);
    var Got(vs, mid) := ReadFields(b, fs);
    FieldsAreLocal(b, fs, []);
    FriendsPartIsLocal(vs, version, mid, x);
    var Got(s, rest) := ParseFriends(vs, version, mid);
    FieldsAreLocal(b, fs, Used(mid, rest) + x);
    UsedTwice(b, mid, rest, x);
    MinimumUsed(b, fs);
    HeadMinSize(version);
    var c := Used(b, rest) + x;
    assert c[..4] == b[..4] && c[4..6] == b[4..6];
  }

  lemma FriendsPartIsLocal(vs: seq<Bytes>, version: nat, b: Bytes, x: Bytes)
    requires AllFit(vs, Head(version)) && ParseFriends(vs, version, b).Got?
    ensures
      var Got(s, rest) := ParseFriends(vs, version, b);
      && |rest| <= |b| && b == Used(b, rest) + rest
      && ParseFriends(vs, version, Used(b, rest) + x) == Got(s, x)
  {
    FriendsAreLocal(b, Get(vs[|vs| - 1]), x);
    hide ReadFriends, Get, SaveOf, AllFit;
  }

  /** No truncation of `b` is accepted, unless `b` itself is accepted with bytes to spare. */
  lemma PrefixesRejectedIff(b: Bytes)
    ensures (forall k | 0 <= k < |b| :: Parse(b[..k]).Bad?) <==> (Parse(b).Bad? || Parse(b).rest == [])
  {
    hide Parse;
    if Parse(b).Got? && Parse(b).rest != [] {
      ParseIsLocal(b, []);
      var k := |b| - |Parse(b).rest|;
      assert Used(b, Parse(b).rest) + [] == b[..k];
      assert Parse(b[..k]).Got?;
    }
    forall k | 0 <= k < |b| && Parse(b[..k]).Got? ensures Parse(b).Got? && Parse(b).rest != [] {
      var Got(s, rest) := Parse(b[..k]);
      ParseIsLocal(b[..k], rest + b[k..]);
      assert Used(b[..k], rest) + (rest + b[k..]) == b;
    }
  }

  /** Every strict prefix of a printed snapshot is rejected. */
  lemma TruncationRejected(s: SaveData, order: seq<FriendId>, now: nat, k: nat)
    requires Representable(s) && Enumerates(order, s.friends) && k < |Print(s, order, now)|
    ensures Parse(Print(s, order, now)[..k]).Bad?
  {
    hide Parse, Print, Representable;
    var b := Print(s, order, now);
    ParsePrinted(s, order, now, []);
    assert b + [] == b;
    PrefixesRejectedIff(b);
  }

  lemma PrintUpTo(vs: seq<Bytes>, fs: seq<Field>, k: nat)
    requires k < |vs| == |fs|
    ensures PrintFields(vs[..k + 1], fs[..k + 1]) == PrintFields(vs[..k], fs[..k]) + PrintField(vs[k], fs[k])
  {
    assert vs[..k + 1][..k] == vs[..k] && fs[..k + 1][..k] == fs[..k];
  }

  /** The printed fields up to the nospam value. */
  function Opening(s: SaveData, now: nat): Bytes {
    PrintFields(HeadFields(s, now)[..5], Head(SNAPSHOT_VERSION)[..5])
  }

  /** What is printed after the name. */
  function Closing(s: SaveData, order: seq<FriendId>): Bytes
    requires forall id :: id in order ==> id in s.friends
  {
    PrintField(s.statusMsg, Prefixed) + [s.status] + Put(|s.friends|, 4) + PrintFriends(order, s.friends)
  }

  lemma PrintLastFour(vs: seq<Bytes>, fs: seq<Field>)
    requires |vs| == |fs| == 9
    ensures PrintFields(vs, fs) == PrintFields(vs[..5], fs[..5]) + PrintField(vs[5], fs[5]) +
      PrintField(vs[6], fs[6]) + PrintField(vs[7], fs[7]) + PrintField(vs[8], fs[8])
  {
    hide PrintFields, PrintField;
    PrintUpTo(vs, fs, 5);
    PrintUpTo(vs, fs, 6);
    PrintUpTo(vs, fs, 7);
    PrintUpTo(vs, fs, 8);
    assert vs[..9] == vs && fs[..9] == fs;
  }

  lemma Regroup(a: Bytes, b: Bytes, c: Bytes, d: Bytes, e: Bytes, f: Bytes)
    ensures a + b + c + d + e + f == a + b + (c + d + e + f)
  {
  }

  lemma PrintedParts(s: SaveData, order: seq<FriendId>, now: nat)
    requires forall id :: id in order ==> id in s.friends
    ensures Print(s, order, now) == Opening(s, now) + PrintField(s.name, Prefixed) + Closing(s, order)
  {
    PrintLastFour(HeadFields(s, now), Head(SNAPSHOT_VERSION));
    hide PrintFields, PrintFriends, Put;
    Regroup(Opening(s, now), PrintField(s.name, Prefixed), PrintField(s.statusMsg, Prefixed), [s.status],
            Put(|s.friends|, 4), PrintFriends(order, s.friends));
  }

  /** A name one byte too long is printed with length 0: a name of zeros is then read as an empty name,
      an empty message and no friends, and the rest of the snapshot is ignored. */
  lemma OverlongNameMisread(s: SaveData, order: seq<FriendId>, now: nat)
    requires s.name == Zeros(U16) && Enumerates(order, s.friends)
    requires s.keyPair.Some? ==> s.keyPair.value.pub != ZeroKey()
    ensures
      var p := Parse(Print(s, order, now));
      p.Got? && p.rest != [] && p.value == SaveData(s.keyPair, s.nospam, [], [], 0, map[])
  {
    hide Parse, Print, Opening, Zeros, Representable;
    var empty := SaveData(s.keyPair, s.nospam, [], [], 0, map[]);
    var b, short := Print(s, order, now), Print(empty, [], now);
    PrintedEmpty(s, now);
    OverlongStarts(s, order, now);
    EmptyRepresentable(s);
    assert b == short + b[|short|..];
    ParsePrinted(empty, [], now, b[|short|..]);
  }

  lemma EmptyRepresentable(s: SaveData)
    requires s.keyPair.Some? ==> s.keyPair.value.pub != ZeroKey()
    ensures Representable(SaveData(s.keyPair, s.nospam, [], [], 0, map[]))
  {
  }

  lemma PrintedEmpty(s: SaveData, now: nat)
    ensures Print(SaveData(s.keyPair, s.nospam, [], [], 0, map[]), [], now) == Opening(s, now) + Zeros(9)
  {
    hide Print, Opening, Closing, Zeros, PrintField;
    var empty := SaveData(s.keyPair, s.nospam, [], [], 0, map[]);
    PrintedParts(empty, [], now);
    OpeningIgnoresRest(s, now);
    EmptyParts(empty);
    assert [0, 0] + ([0, 0] + [0] + [0, 0, 0, 0]) == Zeros(9);
    Regroup(Opening(s, now), [0, 0], [0, 0], [0], [0, 0, 0, 0], []);
  }

  lemma OpeningIgnoresRest(s: SaveData, now: nat)
    ensures Opening(SaveData(s.keyPair, s.nospam, [], [], 0, map[]), now) == Opening(s, now)
  {
    hide PrintFields, Put, KeyBytes;
    var empty := SaveData(s.keyPair, s.nospam, [], [], 0, map[]);
    assert HeadFields(s, now)[..5] == HeadFields(empty, now)[..5];
  }

  lemma EmptyParts(empty: SaveData)
    requires empty.statusMsg == [] && empty.status == 0 && empty.friends == map[]
    ensures PrintField([], Prefixed) == [0, 0] && Closing(empty, []) == [0, 0] + [0] + [0, 0, 0, 0]
  {
    ShortPuts();
    hide Put;
  }

  lemma OverlongStarts(s: SaveData, order: seq<FriendId>, now: nat)
    requires s.name == Zeros(U16) && Enumerates(order, s.friends)
    ensures Opening(s, now) + Zeros(9) < Print(s, order, now)
  {
    PrintedParts(s, order, now);
    ShortPuts();
    assert PrintField(s.name, Prefixed) == [0, 0] + Zeros(U16);
    hide *;
    ZerosStart(Opening(s, now), Closing(s, order));
  }

  lemma ZerosStart(a: Bytes, b: Bytes)
    ensures a + Zeros(9) < a + ([0, 0] + Zeros(U16)) + b
  {
    hide Zeros;
    assert ([0, 0] + Zeros(U16))[..9] == Zeros(9);
  }

  lemma ShortPuts()
    ensures Put(U16, 2) == [0, 0] && Put(0, 2) == [0, 0] && Put(0, 4) == [0, 0, 0, 0]
  {
    assert Put(U16, 2) == Put(256, 1) + [0] && Put(256, 1) == Put(1, 0) + [0];
    assert Put(0, 4) == Put(0, 3) + [0] && Put(0, 3) == Put(0, 2) + [0];
    assert Put(0, 2) == Put(0, 1) + [0] && Put(0, 1) == Put(0, 0) + [0];
  }

  // ----- The layout, byte by byte -----

  lemma MagicBytes()
    ensures Put(SNAPSHOT_MAGIC, 4) == [0x54, 0x4F, 0x58, 0x53] && Put(SNAPSHOT_VERSION, 2) == [0, 2]
  {
    hide Put;
    PutLast(SNAPSHOT_MAGIC, 3);
    PutLast(0x544F58, 2);
    PutLast(0x544F, 1);
    PutLast(0x54, 0);
    PutLast(2, 1);
    PutLast(0, 0);
  }

  lemma PutLast(v: nat, n: nat)
    ensures Put(v, n + 1) == Put(v / 256, n) + [v % 256] && Put(v, 0) == []
  {
  }

  lemma PrintFirstFive(vs: seq<Bytes>, fs: seq<Field>)
    requires |vs| == |fs| == 9 && forall i | 0 <= i < 5 :: fs[i].Fixed?
    ensures PrintFields(vs[..5], fs[..5]) == vs[0] + vs[1] + vs[2] + vs[3] + vs[4]
  {
    assert PrintFields(vs[..0], fs[..0]) == [];
    hide PrintFields;
    PrintUpTo(vs, fs, 0);
    PrintUpTo(vs, fs, 1);
    PrintUpTo(vs, fs, 2);
    PrintUpTo(vs, fs, 3);
    PrintUpTo(vs, fs, 4);
  }

  /** A two-byte length and the text. */
  function Text(v: Bytes): Bytes {
    Put(|v|, 2) + v
  }

  /** Magic "TOXS", version 2, two reserved bytes, the time, both keys or 64 zeros, the nospam value, name and status
      message with their lengths, the status, and the number of friends before the friends. */
  lemma Layout(s: SaveData, order: seq<FriendId>, now: nat)
    requires forall id :: id in order ==> id in s.friends
    ensures
      var keys := if s.keyPair.None? then Zeros(64) else s.keyPair.value.pub + s.keyPair.value.priv;
      Print(s, order, now) ==
        [0x54, 0x4F, 0x58, 0x53] + [0, 2] + ([0, 0] + Put(now, 8)) + keys + s.nospam + Text(s.name) +
        (Text(s.statusMsg) + [s.status] + Put(|s.friends|, 4) + PrintFriends(order, s.friends))
  {
    hide PrintFields, PrintFriends, Put;
    var vs, fs := HeadFields(s, now), Head(SNAPSHOT_VERSION);
    MagicBytes();
    ShortPuts();
    PrintedParts(s, order, now);
    PrintFirstFive(vs, fs);
    assert Zeros(64) == ZeroKey() + ZeroKey();
  }

  lemma PrintSix(vs: seq<Bytes>, fs: seq<Field>)
    requires |vs| == |fs| == 6
    ensures PrintFields(vs, fs) == PrintField(vs[0], fs[0]) + PrintField(vs[1], fs[1]) + PrintField(vs[2], fs[2]) +
      PrintField(vs[3], fs[3]) + PrintField(vs[4], fs[4]) + PrintField(vs[5], fs[5])
  {
    hide PrintFields, PrintField;
    PrintThree(vs, fs);
    PrintUpTo(vs, fs, 3);
    PrintUpTo(vs, fs, 4);
    PrintUpTo(vs, fs, 5);
    assert vs[..6] == vs && fs[..6] == fs;
  }

  lemma PrintThree(vs: seq<Bytes>, fs: seq<Field>)
    requires |vs| == |fs| >= 3
    ensures PrintFields(vs[..3], fs[..3]) ==
      PrintField(vs[0], fs[0]) + PrintField(vs[1], fs[1]) + PrintField(vs[2], fs[2])
  {
    assert PrintFields(vs[..0], fs[..0]) == [];
    hide PrintFields, PrintField;
    PrintUpTo(vs, fs, 0);
    PrintUpTo(vs, fs, 1);
    PrintUpTo(vs, fs, 2);
    assert [] + PrintField(vs[0], fs[0]) == PrintField(vs[0], fs[0]);
  }

  /** A friend's number, key, two status bytes, name and status message with their lengths, and when last seen. */
  lemma FriendLayout(id: FriendId, f: Friend)
    ensures PrintFriend(id, f) ==
      Put(id, 4) + f.pk + [f.status, f.connection] + Text(f.name) + Text(f.statusMsg) + Put(f.lastSeen % U64, 8)
  {
    hide PrintFields, Put;
    PrintSix(FriendFields(id, f), FRIEND);
  }

  // ----- Version 1 -----

  /** The fields of a version 1 snapshot, which has no status. */
  function OldHeadFields(s: SaveData, now: nat): seq<Bytes> {
    [Put(SNAPSHOT_MAGIC, 4), Put(1, 2), Put(0, 2) + Put(now, 8), KeyBytes(s.keyPair), s.nospam,
     s.name, s.statusMsg, Put(|s.friends|, 4)]
  }

  lemma OldHeadFieldsFit(s: SaveData, now: nat)
    requires Representable(s)
    ensures AllFit(OldHeadFields(s, now), Head(1))
    ensures SaveOf(OldHeadFields(s, now), 1, s.friends) == s.(status := 0)
    ensures Get(Put(SNAPSHOT_MAGIC, 4)) == SNAPSHOT_MAGIC && Get(Put(1, 2)) == 1
    ensures Get(Put(|s.friends|, 4)) == |s.friends|
  {
    hide Put, Get, KeyBytes, KeyPairOf;
    Widths();
    GetPut(SNAPSHOT_MAGIC, 4);
    GetPut(1, 2);
    GetPut(|s.friends|, 4);
    KeysReadBack(s.keyPair);
  }

  lemma OldFriendsParse(s: SaveData, order: seq<FriendId>, now: nat, tail: Bytes)
    requires Representable(s) && Enumerates(order, s.friends)
    requires AllFit(OldHeadFields(s, now), Head(1))
    ensures ParseFriends(OldHeadFields(s, now), 1, PrintFriends(order, s.friends) + tail) == Got(s.(status := 0), tail)
  {
    var b := PrintFriends(order, s.friends) + tail;
    OldHeadFieldsFit(s, now);
    ReadPrintedFriends(order, s.friends, tail);
    assert Among(order, s.friends) == s.friends;
    FriendsAreLocal(b, |order|, tail);
    hide SaveOf, ReadFriends, PrintFriends, Put, Get, Representable;
  }

  /** A snapshot written as version 1 is still read: everything comes back, with status 0. */
  lemma OldVersionParses(s: SaveData, order: seq<FriendId>, now: nat, tail: Bytes)
    requires Representable(s) && Enumerates(order, s.friends)
    ensures Parse(PrintFields(OldHeadFields(s, now), Head(1)) + PrintFriends(order, s.friends) + tail) ==
      Got(s.(status := 0), tail)
  {
    hide ReadFields, PrintFields, PrintFriends, ParseFriends, Representable, Put, Get, MinSize, AllFit;
    var vs, fs := OldHeadFields(s, now), Head(1);
    var rest := PrintFriends(order, s.friends) + tail;
    var b := PrintFields(vs, fs) + PrintFriends(order, s.friends) + tail;
    OldHeadFieldsFit(s, now);
    assert b == PrintFields(vs, fs) + rest;
    ReadPrinted(vs, fs, rest);
    FirstFields(b, fs);
    MinimumUsed(b, fs);
    HeadMinSize(1);
    OldFriendsParse(s, order, now, tail);
  }
}
