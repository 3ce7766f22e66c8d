/** The snapshot printer and the offset-driven reader, proved against the field-list format. */
module Snapshot {
  import opened Common
  import opened BigEndian
  import opened SnapshotSpec

  /** A read that was performed did what the format says. */
  ghost predicate Agrees<T>(r: Result<T, SnapshotError>, s: Step<T>, rest: Bytes) {
    match s
    case Bad(e) => r == Err(e)
    case Got(v, left) => r == Ok(v) && rest == left
  }

  datatype SelfInfo = SelfInfo(nospam: Nospam, name: Bytes, statusMsg: Bytes, status: Byte)

  function SelfFields(version: nat): seq<Field> {
    if version >= 2 then [Fixed(4), Prefixed, Prefixed, Fixed(1)] else [Fixed(4), Prefixed, Prefixed]
  }

  lemma HeadParts(version: nat)
    ensures Head(version) == [Fixed(4), Fixed(2), Fixed(10), Fixed(64)] + (SelfFields(version) + [Fixed(4)])
  {
  }

  lemma ReadOne(b: Bytes, f: Field)
    ensures ReadFields(b, [f]) == Then(Got([], b), f)
  {
    assert [f][..0] == [];
  }

  // ----- The printer -----

  /** `buf` holds the first `k` fields. */
  ghost predicate Printed(buf: Bytes, vs: seq<Bytes>, fs: seq<Field>, k: nat) {
    k <= |vs| == |fs| && buf == PrintFields(vs[..k], fs[..k])
  }

  method AppendFixed(buf: Bytes, piece: Bytes, ghost vs: seq<Bytes>, ghost fs: seq<Field>, ghost k: nat)
    returns (out: Bytes)
    requires Printed(buf, vs, fs, k) && k < |vs| && fs[k].Fixed? && piece == vs[k]
    ensures Printed(out, vs, fs, k + 1)
  {
    PrintUpTo(vs, fs, k);
    out := buf + piece;
  }

  method AppendText(buf: Bytes, text: Bytes, ghost vs: seq<Bytes>, ghost fs: seq<Field>, ghost k: nat)
    returns (out: Bytes)
    requires Printed(buf, vs, fs, k) && k < |vs| && fs[k].Prefixed? && text == vs[k]
    ensures Printed(out, vs, fs, k + 1)
  {
    PrintUpTo(vs, fs, k);
    hide Put, PrintFields;
    out := buf + Put(|text|, 2);
    out := out + text;
    assert out == buf + (Put(|text|, 2) + text);
  }

  lemma PrintedNone(vs: seq<Bytes>, fs: seq<Field>)
    requires |vs| == |fs|
    ensures Printed([], vs, fs, 0)
  {
  }

  lemma PrintedAll(buf: Bytes, vs: seq<Bytes>, fs: seq<Field>)
    requires Printed(buf, vs, fs, |vs|)
    ensures buf == PrintFields(vs, fs)
  {
    assert vs[..|vs|] == vs && fs[..|fs|] == fs;
  }

  method MarshalFriend(id: FriendId, f: Friend) returns (buf: Bytes)
    ensures buf == PrintFriend(id, f)
  {
    hide Printed, Put, PrintFields;
    ghost var vs := FriendFields(id, f);
    buf := [];
    PrintedNone(vs, FRIEND);
    buf := AppendFixed(buf, Put(id, 4), vs, FRIEND, 0);
    buf := AppendFixed(buf, f.pk, vs, FRIEND, 1);
    buf := AppendFixed(buf, [f.status, f.connection], vs, FRIEND, 2);
    buf := AppendText(buf, f.name, vs, FRIEND, 3);
    buf := AppendText(buf, f.statusMsg, vs, FRIEND, 4);
    buf := AppendFixed(buf, Put(Unsigned(f.lastSeen), 8), vs, FRIEND, 5);
    PrintedAll(buf, vs, FRIEND);
  }

  lemma HeadFacts(s: SaveData, now: nat)
    ensures
      var vs := HeadFields(s, now);
      && |vs| == 9 && vs[0] == Put(SNAPSHOT_MAGIC, 4) && vs[1] == Put(SNAPSHOT_VERSION, 2)
      && vs[2] == Put(0, 2) + Put(now, 8) && vs[4] == s.nospam && vs[5] == s.name
      && vs[3] == (if s.keyPair.Some? then s.keyPair.value.pub + s.keyPair.value.priv else Zeros(64))
      && vs[6] == s.statusMsg && vs[7] == [s.status] && vs[8] == Put(|s.friends|, 4)
    ensures
      var fs := Head(SNAPSHOT_VERSION);
      && |fs| == 9 && fs[5].Prefixed? && fs[6].Prefixed?
      && forall i | 0 <= i < 9 && i != 5 && i != 6 :: fs[i].Fixed?
  {
    hide Put, Zeros;
    assert Zeros(64) == ZeroKey() + ZeroKey();
  }

  method MarshalOpening(s: SaveData, now: nat) returns (buf: Bytes)
    ensures Printed(buf, HeadFields(s, now), Head(SNAPSHOT_VERSION), 5)
  {
    hide *;
    ghost var vs, fs := HeadFields(s, now), Head(SNAPSHOT_VERSION);
    HeadFacts(s, now);
    buf := [];
    PrintedNone(vs, fs);
    buf := AppendFixed(buf, Put(SNAPSHOT_MAGIC, 4), vs, fs, 0);
    buf := AppendFixed(buf, Put(SNAPSHOT_VERSION, 2), vs, fs, 1);
    buf := AppendFixed(buf, Put(0, 2) + Put(now, 8), vs, fs, 2);
    var keys := if s.keyPair.Some? then s.keyPair.value.pub + s.keyPair.value.priv else Zeros(64);
    buf := AppendFixed(buf, keys, vs, fs, 3);
    buf := AppendFixed(buf, s.nospam, vs, fs, 4);
  }

  method MarshalHead(s: SaveData, now: nat) returns (buf: Bytes)
    ensures buf == PrintFields(HeadFields(s, now), Head(SNAPSHOT_VERSION))
  {
    hide *;
    ghost var vs, fs := HeadFields(s, now), Head(SNAPSHOT_VERSION);
    HeadFacts(s, now);
    buf := MarshalOpening(s, now);
    buf := AppendText(buf, s.name, vs, fs, 5);
    buf := AppendText(buf, s.statusMsg, vs, fs, 6);
    buf := AppendFixed(buf, [s.status], vs, fs, 7);
    buf := AppendFixed(buf, Put(|s.friends|, 4), vs, fs, 8);
    PrintedAll(buf, vs, fs);
  }

  ghost predicate Prints(s: SaveData, now: nat, buf: Bytes) {
    exists order :: Enumerates(order, s.friends) && buf == Print(s, order, now)
  }

  /** Prints the friends in whatever order the map yields them. */
  method MarshalBinary(s: SaveData, now: nat) returns (buf: Bytes)
    ensures Prints(s, now, buf)
  {
    hide PrintFields, HeadFields, Head, PrintFriend;
    buf := MarshalHead(s, now);
    ghost var head := buf;
    ghost var order: seq<FriendId> := [];
    var todo := s.friends.Keys;
    while todo != {}
      invariant todo <= s.friends.Keys && |order| + |todo| == |s.friends.Keys|
      invariant forall id :: id in s.friends <==> id in todo || id in order
      invariant buf == head + PrintFriends(order, s.friends)
    {
      var id :| id in todo;
      var entry := MarshalFriend(id, s.friends[id]);
      assert (order + [id])[..|order|] == order;
      buf, order, todo := buf + entry, order + [id], todo - {id};
    }
    assert Enumerates(order, s.friends) && buf == Print(s, order, now);
  }

  // ----- The reader -----

  class SnapshotReader {
    const data: Bytes
    var offset: nat
    var version: nat

    ghost predicate Valid()
      reads this
    {
      offset <= |data|
    }

    function Rest(): Bytes
      requires Valid()
      reads this
    {
      data[offset..]
    }

    constructor (data: Bytes)
      ensures Valid() && this.data == data && offset == 0 && version == 0
    {
      this.data, offset, version := data, 0, 0;
    }

    method ReadBytes(n: nat) returns (r: Result<Bytes, SnapshotError>)
      requires Valid()
      modifies this`offset
      ensures Valid() && Agrees(r, ReadFixed(old(Rest()), n), Rest())
    {
      if |data| < offset + n { return Err(Truncated); }
      assert data[offset..offset + n] == Rest()[..n];
      r := Ok(data[offset..offset + n]);
      offset := offset + n;
    }

    /** A big-endian integer of `n` bytes. */
    method ReadUint(n: nat) returns (r: Result<nat, SnapshotError>)
      requires Valid()
      modifies this`offset
      ensures Valid()
      ensures ReadFixed(old(Rest()), n).Bad? ==> r == Err(Truncated)
      ensures ReadFixed(old(Rest()), n).Got? ==>
        r == Ok(Get(old(Rest())[..n])) && Rest() == old(Rest())[n..] && r.value < Capacity(n)
    {
      if |data| < offset + n { return Err(Truncated); }
      assert data[offset..offset + n] == Rest()[..n];
      r := Ok(Get(data[offset..offset + n]));
      offset := offset + n;
    }

    method ReadLengthPrefixedString() returns (r: Result<Bytes, SnapshotError>)
      requires Valid()
      modifies this`offset
      ensures Valid() && Agrees(r, ReadField(old(Rest()), Prefixed), Rest())
    {
      var length := ReadUint(2);
      if length.Err? { return Err(length.error); }
      r := ReadBytes(length.value);
    }

    method UnmarshalHeader() returns (r: Result<(), SnapshotError>)
      requires Valid() && offset == 0 && |data| >= MIN_SNAPSHOT_SIZE
      modifies this
      ensures Valid()
      ensures r ==
        if Get(data[..4]) != SNAPSHOT_MAGIC then Err(BadMagic)
        else if Get(data[4..6]) > SNAPSHOT_VERSION then Err(BadVersion)
        else Ok(())
      ensures r.Ok? ==> version == Get(data[4..6]) && offset == 16
    {
      var magic := ReadUint(4);
      assert data[..4] == old(Rest())[..4];
      if magic.value != SNAPSHOT_MAGIC { return Err(BadMagic); }
      var v := ReadUint(2);
      assert data[4..6] == old(Rest())[4..][..2];
      if v.value > SNAPSHOT_VERSION { return Err(BadVersion); }
      version := v.value;
      offset := offset + 10;
      r := Ok(());
    }

    method UnmarshalKeyPair() returns (r: Result<Option<KeyPair>, SnapshotError>)
      requires Valid()
      modifies this`offset
      ensures Valid()
      ensures ReadFixed(old(Rest()), 64).Bad? ==> r == Err(Truncated)
      ensures ReadFixed(old(Rest()), 64).Got? ==>
        r == Ok(KeyPairOf(old(Rest())[..64])) && Rest() == old(Rest())[64..]
    {
      var keyData := ReadBytes(64);
      if keyData.Err? { return Err(keyData.error); }
      var pub, priv := keyData.value[..32], keyData.value[32..64];
      assert priv == keyData.value[32..];
      r := Ok(if pub == ZeroKey() then None else Some(KeyPair(pub, priv)));
    }

    /** Nospam, name and status message. */
    method ReadSelfTexts() returns (r: Result<(Nospam, Bytes, Bytes), SnapshotError>)
      requires Valid()
      modifies this`offset
      ensures Valid()
      ensures
        match ReadFields(old(Rest()), SELF_TEXTS) {
          case Bad(e) => r == Err(e)
          case Got(vs, rest) => |vs| == 3 && |vs[0]| == 4 && r == Ok((vs[0], vs[1], vs[2])) && Rest() == rest
        }
    {
      hide ReadFields, Get;
      TextSteps(Rest());
      var nospam := ReadBytes(4);
      if nospam.Err? { return Err(nospam.error); }
      var name := ReadLengthPrefixedString();
      if name.Err? { return Err(name.error); }
      var message := ReadLengthPrefixedString();
      if message.Err? { return Err(message.error); }
      r := Ok((nospam.value, name.value, message.value));
    }

    method UnmarshalSelfInfo() returns (r: Result<SelfInfo, SnapshotError>)
      requires Valid()
      modifies this`offset
      ensures Valid()
      ensures
        match ReadFields(old(Rest()), SelfFields(version)) {
          case Bad(e) => r == Err(e)
          case Got(vs, rest) =>
            && r.Ok? && Rest() == rest && |vs| == |SelfFields(version)|
            && r.value.nospam == vs[0] && r.value.name == vs[1] && r.value.statusMsg == vs[2]
            && (if version >= 2 then vs[3] == [r.value.status] else r.value.status == 0)
        }
    {
      hide ReadFields, Get;
      SelfSteps(Rest(), version);
      var texts := ReadSelfTexts();
      if texts.Err? { return Err(texts.error); }
      var status: Byte := 0;
      if version >= 2 {
        var one := ReadBytes(1);
        if one.Err? { return Err(one.error); }
        status := one.value[0];
        assert one.value == [status];
      }
      r := Ok(SelfInfo(texts.value.0, texts.value.1, texts.value.2, status));
    }

    method ReadFriendStrings() returns (r: Result<(Bytes, Bytes, Nanos), SnapshotError>)
      requires Valid()
      modifies this`offset
      ensures Valid()
      ensures
        match ReadFields(old(Rest()), FRIEND_STRINGS) {
          case Bad(e) => r == Err(e)
          case Got(vs, rest) =>
            && r.Ok? && Rest() == rest && |vs| == 3 && Get(vs[2]) < U64
            && r.value == (vs[0], vs[1], Signed(Get(vs[2])))
        }
    {
      hide ReadFields, Get, Capacity;
      StringSteps(Rest());
      Widths();
      var name := ReadLengthPrefixedString();
      if name.Err? { return Err(name.error); }
      var message := ReadLengthPrefixedString();
      if message.Err? { return Err(message.error); }
      var lastSeen := ReadUint(8);
      if lastSeen.Err? { return Err(lastSeen.error); }
      r := Ok((name.value, message.value, Signed(lastSeen.value)));
    }

    method UnmarshalFriendEntry() returns (r: Result<(FriendId, Friend), SnapshotError>)
      requires Valid()
      modifies this`offset
      ensures Valid() && Agrees(r, ReadFriend(old(Rest())), Rest())
    {
      hide ReadFields, AllFit, Get, Capacity;
      FriendSteps(Rest());
      FieldsFit(Rest(), FRIEND);
      Widths();
      var id := ReadUint(4);
      if id.Err? { return Err(id.error); }
      var pk := ReadBytes(32);
      if pk.Err? { return Err(pk.error); }
      var status := ReadBytes(2);
      if status.Err? { return Err(status.error); }
      var strings := ReadFriendStrings();
      if strings.Err? { return Err(strings.error); }
      var (name, message, lastSeen) := strings.value;
      r := Ok((id.value, Friend(pk.value, status.value[0], status.value[1], name, message, lastSeen)));
    }

    method UnmarshalFriends() returns (r: Result<map<FriendId, Friend>, SnapshotError>)
      requires Valid()
      modifies this`offset
      ensures Valid() && Agrees(r, ReadFriendList(old(Rest())), Rest())
    {
      hide ReadFriend, Get;
      var count := ReadUint(4);
      if count.Err? { return Err(count.error); }
      var maxPossible := (|data| - offset) / MIN_FRIEND_ENTRY_SIZE;
      if count.value > maxPossible { return Err(TooManyFriends); }
      ghost var start := Rest();
      var friends: map<FriendId, Friend> := map[];
      for i := 0 to count.value
        invariant Valid() && ReadFriends(start, i) == Got(friends, Rest())
      {
        var entry := UnmarshalFriendEntry();
        if entry.Err? {
          FriendsFailTruncated(start, i + 1);
          FriendsStayBad(start, count.value, i + 1);
          return Err(entry.error);
        }
        friends := friends[entry.value.0 := entry.value.1];
      }
      r := Ok(friends);
    }
  }

  /** On every input, the parse that the format defines; reads stay in bounds. */
  method UnmarshalBinary(data: Bytes) returns (r: Result<SaveData, SnapshotError>)
    ensures
      match Parse(data) {
        case Bad(e) => r == Err(e)
        case Got(s, _) => r == Ok(s)
      }
  {
    hide Parse;
    TooShortOrForeign(data);
    if |data| < MIN_SNAPSHOT_SIZE { return Err(TooShort); }
    var reader := new SnapshotReader(data);
    var header := reader.UnmarshalHeader();
    if header.Err? { return Err(header.error); }
    ParseStages(data);
    hide ReadFields, ReadFriendList, AllFit, Get, SelfFields;
    var keyPair := reader.UnmarshalKeyPair();
    if keyPair.Err? { return Err(Truncated); }
    var self := reader.UnmarshalSelfInfo();
    if self.Err? { return Err(self.error); }
    var friends := reader.UnmarshalFriends();
    if friends.Err? { return Err(friends.error); }
    r := Ok(SaveData(keyPair.value, self.value.nospam, self.value.name, self.value.statusMsg, self.value.status,
                     friends.value));
  }

  /** Saving and loading gives back exactly the representable saves. */
  method SaveAndLoad(s: SaveData, now: nat) returns (r: Result<SaveData, SnapshotError>)
    ensures r == Ok(s) <==> Representable(s)
  {
    var buf := MarshalBinary(s, now);
    ghost var order :| Enumerates(order, s.friends) && buf == Print(s, order, now);
    r := UnmarshalBinary(buf);
    RoundTripIffRepresentable(s, order, now);
    hide Parse, Print, Representable;
  }

  function ReadFriendList(b: Bytes): Step<map<FriendId, Friend>> {
    match ReadFixed(b, 4)
    case Bad(e) => Bad(e)
    case Got(count, rest) =>
      if Get(count) > |rest| / MIN_FRIEND_ENTRY_SIZE then Bad(TooManyFriends) else ReadFriends(rest, Get(count))
  }

  lemma TooShortOrForeign(b: Bytes)
    ensures |b| < MIN_SNAPSHOT_SIZE ==> Parse(b) == Bad(TooShort)
    ensures |b| >= MIN_SNAPSHOT_SIZE && Get(b[..4]) != SNAPSHOT_MAGIC ==> Parse(b) == Bad(BadMagic)
    ensures |b| >= MIN_SNAPSHOT_SIZE && Get(b[..4]) == SNAPSHOT_MAGIC && Get(b[4..6]) > SNAPSHOT_VERSION ==>
      Parse(b) == Bad(BadVersion)
  {
  }

  /** What the reader does after the header, stage by stage. */
  function Stages(b: Bytes, version: nat): Step<SaveData>
    requires |b| >= 64
  {
    match ReadFields(b[64..], SelfFields(version))
    case Bad(e) => Bad(e)
    case Got(vs, rest) =>
      FieldsFit(b[64..], SelfFields(version));
      SelfShape(vs, version);
      match ReadFriendList(rest)
      case Bad(e) => Bad(e)
      case Got(m, rest') =>
        Got(SaveData(KeyPairOf(b[..64]), vs[0], vs[1], vs[2], if version >= 2 then vs[3][0] else 0, m), rest')
  }

  lemma SelfShape(vs: seq<Bytes>, version: nat)
    requires AllFit(vs, SelfFields(version))
    ensures |vs| == (if version >= 2 then 4 else 3) && |vs[0]| == 4
    ensures version >= 2 ==> |vs[3]| == 1
  {
    assert forall i | 0 <= i < |vs| :: Fits(vs[i], SelfFields(version)[i]);
  }

  lemma ParseStages(b: Bytes)
    requires |b| >= MIN_SNAPSHOT_SIZE && Get(b[..4]) == SNAPSHOT_MAGIC && Get(b[4..6]) <= SNAPSHOT_VERSION
    ensures Parse(b) == Stages(b[16..], Get(b[4..6]))
  {
    hide ReadFields, ReadFriends, Get, AllFit, Fits;
    var version := Get(b[4..6]);
    var fixed := [Fixed(4), Fixed(2), Fixed(10), Fixed(64)];
    FixedFields(b);
    HeadParts(version);
    ReadAppend(b, fixed, SelfFields(version) + [Fixed(4)]);
    ReadSnoc(b[80..], SelfFields(version), Fixed(4));
    FieldsFit(b[80..], SelfFields(version));
    FieldsFit(b, Head(version));
    assert b[16..][64..] == b[80..] && b[16..][..64] == b[16..80];
  }

  lemma FixedFields(b: Bytes)
    requires |b| >= MIN_SNAPSHOT_SIZE
    ensures
      var s := ReadFields(b, [Fixed(4), Fixed(2), Fixed(10), Fixed(64)]);
      s.Got? && |s.value| == 4 && s.value[3] == b[16..80] && s.rest == b[80..]
  {
    hide ReadFields;
    FixedPair(b, 4, 2);
    FixedPair(b[6..], 10, 64);
    ReadAppend(b, [Fixed(4), Fixed(2)], [Fixed(10), Fixed(64)]);
    assert [Fixed(4), Fixed(2), Fixed(10), Fixed(64)] == [Fixed(4), Fixed(2)] + [Fixed(10), Fixed(64)];
    assert b[6..][10..74] == b[16..80] && b[6..][74..] == b[80..];
    var first, second := ReadFields(b, [Fixed(4), Fixed(2)]), ReadFields(b[6..], [Fixed(10), Fixed(64)]);
    assert first.rest == b[6..];
    assert Follow(first, [Fixed(10), Fixed(64)]) == Got(first.value + second.value, second.rest);
  }

  lemma FixedPair(b: Bytes, m: nat, n: nat)
    requires m + n <= |b|
    ensures
      var s := ReadFields(b, [Fixed(m), Fixed(n)]);
      s.Got? && |s.value| == 2 && s.value[1] == b[m..m + n] && s.rest == b[m + n..]
  {
    hide ReadFields;
    ReadOne(b, Fixed(m));
    ReadSnoc(b, [Fixed(m)], Fixed(n));
    assert [Fixed(m), Fixed(n)] == [Fixed(m)] + [Fixed(n)];
    assert b[m..][..n] == b[m..m + n] && b[m..][n..] == b[m + n..];
    var one := Then(Got([], b), Fixed(m));
    assert |one.value| == 1 && one.rest == b[m..];
    var two := Then(one, Fixed(n));
    assert two.value == one.value + [b[m..][..n]] && two.rest == b[m..][n..];
    assert ReadFields(b, [Fixed(m), Fixed(n)]) == two;
  }

  const FRIEND_STRINGS: seq<Field> := [Prefixed, Prefixed, Fixed(8)]

  lemma StringSteps(b: Bytes)
    ensures ReadFields(b, FRIEND_STRINGS) == Then(Then(Then(Got([], b), Prefixed), Prefixed), Fixed(8))
  {
    hide ReadFields, Then;
    var name := [Prefixed];
    var message := name + [Prefixed];
    ReadOne(b, Prefixed);
    ReadSnoc(b, name, Prefixed);
    ReadSnoc(b, message, Fixed(8));
    assert FRIEND_STRINGS == message + [Fixed(8)];
  }

  lemma FriendSteps(b: Bytes)
    ensures ReadFields(b, FRIEND) ==
      Follow(Then(Then(Then(Got([], b), Fixed(4)), Fixed(32)), Fixed(2)), FRIEND_STRINGS)
  {
    hide ReadFields, Then;
    var id := [Fixed(4)];
    var key := id + [Fixed(32)];
    var status := key + [Fixed(2)];
    ReadOne(b, Fixed(4));
    ReadSnoc(b, id, Fixed(32));
    ReadSnoc(b, key, Fixed(2));
    ReadAppend(b, status, FRIEND_STRINGS);
    assert FRIEND == status + FRIEND_STRINGS;
  }

  lemma FieldsFit(b: Bytes, fs: seq<Field>)
    ensures ReadFields(b, fs).Got? ==> AllFit(ReadFields(b, fs).value, fs)
  {
    if ReadFields(b, fs).Got? { FieldsAreLocal(b, fs, []); }
  }

  const SELF_TEXTS: seq<Field> := [Fixed(4), Prefixed, Prefixed]

  lemma TextSteps(b: Bytes)
    ensures ReadFields(b, SELF_TEXTS) == Then(Then(Then(Got([], b), Fixed(4)), Prefixed), Prefixed)
  {
    hide ReadFields, Then;
    var nospam := [Fixed(4)];
    var name := nospam + [Prefixed];
    ReadOne(b, Fixed(4));
    ReadSnoc(b, nospam, Prefixed);
    ReadSnoc(b, name, Prefixed);
    assert SELF_TEXTS == name + [Prefixed];
  }

  lemma SelfSteps(b: Bytes, version: nat)
    ensures ReadFields(b, SelfFields(version)) ==
      if version >= 2 then Then(ReadFields(b, SELF_TEXTS), Fixed(1)) else ReadFields(b, SELF_TEXTS)
  {
    ReadSnoc(b, SELF_TEXTS, Fixed(1));
    assert SelfFields(version) == if version >= 2 then SELF_TEXTS + [Fixed(1)] else SELF_TEXTS;
  }

  lemma ReadSnoc(b: Bytes, fs: seq<Field>, f: Field)
    ensures ReadFields(b, fs + [f]) == Then(ReadFields(b, fs), f)
  {
    assert (fs + [f])[..|fs|] == fs;
  }
}
