/** The contracts assumed of foreign code can be met, so nothing is proved from an impossible assumption. */
module Contracts {
  import opened Common
  import opened Wal
  import opened StoreSpec
  import opened Storage
  import CrashRecovery
  import Erasure

  // ----- A self-delimiting encoding of lists of numbers -----

  ghost function Tally(n: nat): seq<Byte> {
    if n == 0 then [0] else [1] + Tally(n - 1)
  }

  lemma {:induction false} TallyDelimits(a: nat, b: nat, x: seq<Byte>, y: seq<Byte>)
    requires Tally(a) + x == Tally(b) + y
    ensures a == b && x == y
  {
    var s, t := Tally(a) + x, Tally(b) + y;
    assert s[0] == t[0];
    assert s[1..] == t[1..];
    if a > 0 && b > 0 {
      assert s[1..] == Tally(a - 1) + x && t[1..] == Tally(b - 1) + y;
      TallyDelimits(a - 1, b - 1, x, y);
    } else {
      assert a == 0 ==> s[1..] == x;
      assert b == 0 ==> t[1..] == y;
    }
  }

  ghost function Tallies(ns: seq<nat>): seq<Byte> {
    if ns == [] then [] else Tally(ns[0]) + Tallies(ns[1..])
  }

  lemma {:induction false} TalliesDelimit(a: seq<nat>, b: seq<nat>, x: seq<Byte>, y: seq<Byte>)
    requires |a| == |b| && Tallies(a) + x == Tallies(b) + y
    ensures a == b && x == y
  {
    if a == [] {
      assert Tallies(a) + x == x && Tallies(b) + y == y;
    } else {
      assert Tallies(a) + x == Tally(a[0]) + (Tallies(a[1..]) + x);
      assert Tallies(b) + y == Tally(b[0]) + (Tallies(b[1..]) + y);
      TallyDelimits(a[0], b[0], Tallies(a[1..]) + x, Tallies(b[1..]) + y);
      TalliesDelimit(a[1..], b[1..], x, y);
      assert a == [a[0]] + a[1..] && b == [b[0]] + b[1..];
    }
  }

  ghost function Text(ns: seq<nat>): seq<Byte> {
    Tally(|ns|) + Tallies(ns)
  }

  lemma TextDelimits(a: seq<nat>, b: seq<nat>, rest: seq<Byte>)
    requires Text(a) == Text(b) + rest
    ensures a == b && rest == []
  {
    assert Text(b) + rest == Tally(|b|) + (Tallies(b) + rest);
    TallyDelimits(|a|, |b|, Tallies(a), Tallies(b) + rest);
    assert Tallies(a) + [] == Tallies(b) + rest;
    TalliesDelimit(a, b, [], rest);
  }

  // ----- A codec and a serializer -----

  ghost function TimeNumbers(t: int): seq<nat> {
    if t < 0 then [0, -t] else [t, 0]
  }

  ghost function OperationNumbers(o: Operation): seq<nat> {
    match o
    case StoreMessage => [0, 0]
    case DeleteMessage => [1, 0]
    case UpdateMessageState => [2, 0]
    case CheckpointMark => [3, 0]
    case CommitMark => [4, 0]
    case OtherOperation(code) => [5, code]
  }

  ghost function StatusNumbers(s: Status): seq<nat> {
    match s
    case Pending => [0, 0]
    case Committed => [1, 0]
    case Aborted => [2, 0]
    case OtherStatus(code) => [3, code]
  }

  ghost function EntryNumbers(e: Entry): seq<nat> {
    TimeNumbers(e.timestamp) + OperationNumbers(e.operation) + StatusNumbers(e.status) +
    [e.sequence, e.messageId, e.recipient, e.checksum] + e.data
  }

  lemma TimeInjective(t: int, u: int)
    requires TimeNumbers(t) == TimeNumbers(u)
    ensures t == u
  {
    assert TimeNumbers(t)[0] == TimeNumbers(u)[0] && TimeNumbers(t)[1] == TimeNumbers(u)[1];
  }

  lemma CodesInjective(e: Entry, f: Entry)
    requires OperationNumbers(e.operation) == OperationNumbers(f.operation)
    requires StatusNumbers(e.status) == StatusNumbers(f.status)
    ensures e.operation == f.operation && e.status == f.status
  {
    assert OperationNumbers(e.operation)[0] == OperationNumbers(f.operation)[0];
    assert OperationNumbers(e.operation)[1] == OperationNumbers(f.operation)[1];
    assert StatusNumbers(e.status)[0] == StatusNumbers(f.status)[0];
    assert StatusNumbers(e.status)[1] == StatusNumbers(f.status)[1];
  }

  lemma EntryNumbersInjective(e: Entry, f: Entry)
    requires EntryNumbers(e) == EntryNumbers(f)
    ensures e == f
  {
    var a, b := EntryNumbers(e), EntryNumbers(f);
    assert a[..2] == TimeNumbers(e.timestamp) && b[..2] == TimeNumbers(f.timestamp);
    assert a[2..4] == OperationNumbers(e.operation) && b[2..4] == OperationNumbers(f.operation);
    assert a[4..6] == StatusNumbers(e.status) && b[4..6] == StatusNumbers(f.status);
    assert a[10..] == e.data && b[10..] == f.data;
    TimeInjective(e.timestamp, f.timestamp);
    CodesInjective(e, f);
    hide TimeNumbers, OperationNumbers, StatusNumbers;
    assert a[6] == e.sequence && a[7] == e.messageId && a[8] == e.recipient && a[9] == e.checksum;
    assert b[6] == f.sequence && b[7] == f.messageId && b[8] == f.recipient && b[9] == f.checksum;
  }

  ghost function EncodeEntry(e: Entry): seq<Byte> {
    Text(EntryNumbers(e))
  }

  ghost function DecodeEntry(b: seq<Byte>): Option<Entry> {
    if exists e :: EncodeEntry(e) == b then var e :| EncodeEntry(e) == b; Some(e) else None
  }

  lemma CodecCanBeValid(c: Codec)
    requires forall e :: c.marshal(e) == EncodeEntry(e)
    requires forall b :: c.unmarshal(b) == DecodeEntry(b)
    ensures c.Valid()
  {
    forall e, f, n: nat | n <= |EncodeEntry(e)| && EncodeEntry(e)[..n] == EncodeEntry(f)
      ensures e == f && n == |EncodeEntry(e)|
    {
      var b := EncodeEntry(e);
      assert b == EncodeEntry(f) + b[n..];
      TextDelimits(EntryNumbers(e), EntryNumbers(f), b[n..]);
      EntryNumbersInjective(e, f);
    }
    hide EncodeEntry;
    forall e ensures DecodeEntry(EncodeEntry(e)) == Some(e) {
      assert EncodeEntry(e)[..|EncodeEntry(e)|] == EncodeEntry(e);
    }
  }

  ghost function MessageNumbers(m: AsyncMessage): seq<nat> {
    TimeNumbers(m.timestamp) + [m.id, m.recipient, m.sender, m.nonce, m.messageType] + m.encryptedData
  }

  lemma MessageNumbersInjective(m: AsyncMessage, k: AsyncMessage)
    requires MessageNumbers(m) == MessageNumbers(k)
    ensures m == k
  {
    var a, b := MessageNumbers(m), MessageNumbers(k);
    assert a[..2] == TimeNumbers(m.timestamp) && b[..2] == TimeNumbers(k.timestamp);
    assert a[7..] == m.encryptedData && b[7..] == k.encryptedData;
    TimeInjective(m.timestamp, k.timestamp);
    assert a[2] == m.id && a[3] == m.recipient && a[4] == m.sender && a[5] == m.nonce && a[6] == m.messageType;
    assert b[2] == k.id && b[3] == k.recipient && b[4] == k.sender && b[5] == k.nonce && b[6] == k.messageType;
  }

  ghost function EncodeMessage(m: AsyncMessage): seq<Byte> {
    Text(MessageNumbers(m))
  }

  ghost function DecodeMessage(b: seq<Byte>): Option<AsyncMessage> {
    if exists m :: EncodeMessage(m) == b then var m :| EncodeMessage(m) == b; Some(m) else None
  }

  lemma SerializerCanBeValid(s: Serializer)
    requires forall m :: s.encode(m) == EncodeMessage(m)
    requires forall b :: s.decode(b) == DecodeMessage(b)
    ensures s.Valid()
  {
    forall m ensures EncodeMessage(m) != [] && DecodeMessage(EncodeMessage(m)) == Some(m) {
      forall k | EncodeMessage(k) == EncodeMessage(m) ensures k == m {
        assert EncodeMessage(m) == EncodeMessage(k) + [];
        TextDelimits(MessageNumbers(m), MessageNumbers(k), []);
        MessageNumbersInjective(m, k);
      }
    }
  }

  /** Some environment meets everything the crash-recovery theorems assume of it. */
  lemma EnvironmentExists() returns (env: CrashRecovery.Env)
    ensures env.Valid()
  {
    var codec := Codec((e: Entry) => EncodeEntry(e), (b: seq<Byte>) => DecodeEntry(b), (b: seq<Byte>) => 0);
    var serializer := Serializer((m: AsyncMessage) => EncodeMessage(m), (b: seq<Byte>) => DecodeMessage(b));
    CodecCanBeValid(codec);
    SerializerCanBeValid(serializer);
    env := CrashRecovery.Env(codec, serializer);
  }

  // ----- A code -----

  ghost function Repeated(d: seq<Erasure.Bytes>, total: nat): seq<Erasure.Bytes> {
    if d == [] then [] else seq(total, _ => d[0])
  }

  ghost function Recalled(raw: seq<Option<Erasure.Bytes>>): Option<seq<Erasure.Bytes>> {
    if i: nat :| i < |raw| && raw[i].Some? then Some(seq(|raw|, _ => raw[i].value)) else None
  }

  /** Repeating one row is a code in which any row determines the word. */
  lemma CodeExists(total: nat) returns (code: Erasure.Code)
    requires total >= 1
    ensures code.Valid() && code.k == 1 && code.total == total
  {
    code := Erasure.Code(1, total, (d: seq<Erasure.Bytes>) => Repeated(d, total),
                         (raw: seq<Option<Erasure.Bytes>>) => Recalled(raw));
  }
}
