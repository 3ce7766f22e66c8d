/** The write-ahead log: framed records in a byte file, and the recovery that reads them back. */
module Wal {
  import opened Common
  import BigEndian

  type MessageId = nat   // a 16-byte array; only equality is used
  type PublicKey = nat   // a 32-byte array; only equality is used

  type Uint64 = x: nat | x < U64

  datatype Operation =
    | StoreMessage | DeleteMessage | UpdateMessageState | CheckpointMark | CommitMark
    | OtherOperation(code: nat)

  datatype Status = Pending | Committed | Aborted | OtherStatus(code: nat)

  /** `data == []` stands for both nil and empty: the JSON form omits an empty field. */
  datatype Entry = Entry(
    sequence: Uint64,
    timestamp: int,
    operation: Operation,
    status: Status,
    messageId: MessageId,
    recipient: PublicKey,
    data: seq<Byte>,
    checksum: nat)

  /** Payloads above this length are refused by the reader (and not by the writer). */
  const MAX_PAYLOAD := 10 * 1024 * 1024

  /** The JSON encoder and decoder and the CRC, which are foreign code. */
  datatype Codec = Codec(
    marshal: Entry -> seq<Byte>,
    unmarshal: seq<Byte> -> Option<Entry>,
    crc: seq<Byte> -> nat)
  {
    /** What the log relies on: encoding round-trips, and no encoding cut short decodes. */
    ghost predicate Valid() {
      && (forall e :: unmarshal(marshal(e)) == Some(e))
      && (forall e, n | 0 <= n < |marshal(e)| :: unmarshal(marshal(e)[..n]) == None)
    }

    function Seal(e: Entry): Entry {
      e.(checksum := crc(marshal(e.(checksum := 0))))
    }

    predicate Sealed(e: Entry) {
      e == Seal(e)
    }

    predicate Fits(e: Entry) {
      |marshal(e)| <= MAX_PAYLOAD
    }
  }

  // ----- The byte format -----

  /** The length prefix is a uint32, so the length is reduced modulo 2^32. */
  function Frame(c: Codec, e: Entry): seq<Byte> {
    BigEndian.Put(|c.marshal(e)| % U32, 4) + c.marshal(e)
  }

  ghost function Frames(c: Codec, log: seq<Entry>): seq<Byte> {
    if log == [] then [] else Frame(c, log[0]) + Frames(c, log[1..])
  }

  /** One call of the record reader: the entry and the number of bytes it took, or nothing. */
  function ReadEntry(c: Codec, b: seq<Byte>): (r: Option<(Entry, nat)>)
    ensures r.Some? ==> 4 <= r.value.1 <= |b|
  {
    if |b| < 4 then None
    else
      var length := BigEndian.Get(b[..4]);
      if length > MAX_PAYLOAD || |b| < 4 + length then None
      else
        match c.unmarshal(b[4..4 + length])
        case None => None
        case Some(e) => if c.Sealed(e) then Some((e, 4 + length)) else None
  }

  /** Every record up to the first one that cannot be read. */
  ghost function ReadAll(c: Codec, b: seq<Byte>): seq<Entry>
    decreases |b|
  {
    match ReadEntry(c, b)
    case None => []
    case Some((e, n)) => [e] + ReadAll(c, b[n..])
  }

  ghost predicate AllSealed(c: Codec, log: seq<Entry>) {
    forall e :: e in log ==> c.Sealed(e)
  }

  ghost predicate AllFit(c: Codec, log: seq<Entry>) {
    forall e :: e in log ==> c.Fits(e)
  }

  /** A record is read back exactly when it is within the limit and carries the checksum of its own encoding with
      the checksum field cleared. */
  lemma ReadFrame(c: Codec, e: Entry, rest: seq<Byte>)
    requires c.Valid()
    ensures ReadEntry(c, Frame(c, e) + rest) ==
      if |c.marshal(e)| <= 10 * 1024 * 1024 && e.checksum == c.crc(c.marshal(e.(checksum := 0)))
      then Some((e, |Frame(c, e)|)) else None
  {
    hide BigEndian.Put, BigEndian.Get, BigEndian.Capacity;
    var p := c.marshal(e);
    var b := Frame(c, e) + rest;
    var length := |p| % U32;
    BigEndian.Widths();
    BigEndian.GetPut(length, 4);
    assert b[..4] == BigEndian.Put(length, 4);
    if length <= MAX_PAYLOAD && 4 + length <= |b| && length <= |p| {
      assert b[4..4 + length] == p[..length];
      if length == |p| { assert p[..length] == p; }
    }
  }

  lemma ReadTornFrame(c: Codec, e: Entry, k: nat)
    requires c.Valid() && k < |Frame(c, e)|
    ensures ReadEntry(c, Frame(c, e)[..k]) == None
  {
    hide BigEndian.Put, BigEndian.Get, BigEndian.Capacity;
    if k >= 4 {
      var p := c.marshal(e);
      var length := |p| % U32;
      BigEndian.Widths();
      BigEndian.GetPut(length, 4);
      var b := Frame(c, e)[..k];
      assert b[..4] == BigEndian.Put(length, 4);
      if 4 + length <= |b| { assert b[4..4 + length] == p[..length]; }
    }
  }

  /** How many whole frames lie before byte offset `k`. */
  ghost function WholeFrames(c: Codec, log: seq<Entry>, k: nat): (n: nat)
    ensures n <= |log|
  {
    if log == [] || k < |Frame(c, log[0])| then 0
    else 1 + WholeFrames(c, log[1..], k - |Frame(c, log[0])|)
  }

  /** The number of entries before the first one too large for the reader. */
  ghost function Readable(c: Codec, log: seq<Entry>): (n: nat)
    ensures n <= |log|
  {
    if log == [] || !c.Fits(log[0]) then 0 else 1 + Readable(c, log[1..])
  }

  /** The entries that can be read back from a file cut at byte `k`. */
  ghost function Surviving(c: Codec, log: seq<Entry>, k: nat): (n: nat)
    ensures n <= |log|
  {
    var whole, readable := WholeFrames(c, log, k), Readable(c, log);
    if whole < readable then whole else readable
  }

  /** Cutting the file anywhere and reading it back gives exactly the whole entries before the cut, up to
      the first oversized one. */
  lemma {:induction false} CutLogReadsPrefix(c: Codec, log: seq<Entry>, k: nat)
    requires c.Valid() && AllSealed(c, log)
    requires k <= |Frames(c, log)|
    ensures ReadAll(c, Frames(c, log)[..k]) == log[..Surviving(c, log, k)]
  {
    hide ReadEntry, Frame;
    if log != [] {
      assert c.Sealed(log[0]);
      var f := Frame(c, log[0]);
      var cut := Frames(c, log)[..k];
      if k < |f| {
        assert cut == f[..k];
        ReadTornFrame(c, log[0], k);
      } else {
        assert cut == f + Frames(c, log[1..])[..k - |f|];
        assert cut[|f|..] == Frames(c, log[1..])[..k - |f|];
        ReadFrame(c, log[0], Frames(c, log[1..])[..k - |f|]);
        CutLogReadsPrefix(c, log[1..], k - |f|);
      }
    }
  }

  /** An uncut file reads back up to the first oversized record, and no further. */
  lemma {:induction false} LogReadsBack(c: Codec, log: seq<Entry>)
    requires c.Valid() && AllSealed(c, log)
    ensures ReadAll(c, Frames(c, log)) == log[..Readable(c, log)]
    ensures ReadAll(c, Frames(c, log)) == log <==> AllFit(c, log)
    ensures Readable(c, log) == |log| <==> AllFit(c, log)
  {
    hide ReadEntry, Frame;
    if log != [] {
      assert c.Sealed(log[0]);
      var rest := Frames(c, log[1..]);
      ReadFrame(c, log[0], rest);
      assert Frames(c, log)[|Frame(c, log[0])|..] == rest;
      LogReadsBack(c, log[1..]);
      assert log == [log[0]] + log[1..];
    }
  }

  lemma {:induction false} FramesSnoc(c: Codec, log: seq<Entry>, e: Entry)
    ensures Frames(c, log + [e]) == Frames(c, log) + Frame(c, e)
  {
    if log == [] {
      assert log + [e] == [e];
    } else {
      assert (log + [e])[1..] == log[1..] + [e];
      FramesSnoc(c, log[1..], e);
    }
  }

  // ----- What recovery must return -----

  ghost function CommittedSequences(log: seq<Entry>): set<Uint64> {
    set e | e in log && e.status == Committed :: e.sequence
  }

  /** The sequence number in the last checkpoint record, 0 if there is none. */
  ghost function LastCheckpoint(log: seq<Entry>): Uint64 {
    if log == [] then 0
    else
      var e := log[|log| - 1];
      if e.operation == CheckpointMark && e.status == Committed then e.sequence
      else LastCheckpoint(log[..|log| - 1])
  }

  ghost function IsUncommitted(committed: set<Uint64>, checkpoint: Uint64): Entry -> bool {
    (e: Entry) => e.status == Pending && e.sequence !in committed && e.sequence > checkpoint
  }

  /** The plain in-order filter of the log: the reference for recovery. */
  ghost function Uncommitted(log: seq<Entry>): seq<Entry> {
    Filter(IsUncommitted(CommittedSequences(log), LastCheckpoint(log)), log)
  }

  ghost predicate Increasing(s: seq<Entry>) {
    forall i, j | 0 <= i < j < |s| :: s[i].sequence < s[j].sequence
  }

  ghost function IsPending(): Entry -> bool {
    (e: Entry) => e.status == Pending
  }

  /** Pending entries carry strictly increasing numbers, none above `top`. */
  ghost predicate Ordered(log: seq<Entry>, top: nat) {
    && Increasing(Filter(IsPending(), log))
    && forall e :: e in log && e.status == Pending ==> e.sequence <= top
  }

  lemma {:induction false} FilterIncreasing(p: Entry -> bool, s: seq<Entry>)
    requires Increasing(s)
    ensures Increasing(Filter(p, s))
  {
    if s != [] {
      var t := s[..|s| - 1];
      FilterIncreasing(p, t);
      FilterMembers(p, t);
      var f := Filter(p, t);
      forall i | 0 <= i < |f| ensures f[i].sequence < s[|s| - 1].sequence {
        assert f[i] in t;
      }
    }
  }

  lemma UncommittedIncreasing(log: seq<Entry>, top: nat)
    requires Ordered(log, top)
    ensures Increasing(Uncommitted(log))
  {
    var p := IsUncommitted(CommittedSequences(log), LastCheckpoint(log));
    FilterTwice(p, IsPending(), p, log);
    FilterIncreasing(p, Filter(IsPending(), log));
  }

  lemma LastIsMaximum(a: seq<Entry>, e: Entry)
    requires Increasing(a) && a != []
    ensures e in a[..|a| - 1] <==> e in a && e.sequence < a[|a| - 1].sequence
  {
    if e in a && e.sequence < a[|a| - 1].sequence {
      var i :| 0 <= i < |a| && a[i] == e;
      assert e == a[..|a| - 1][i];
    }
  }

  /** Strictly increasing sequences with the same elements are the same sequence. */
  lemma {:induction false} IncreasingUnique(a: seq<Entry>, b: seq<Entry>)
    requires Increasing(a) && Increasing(b)
    requires forall e :: e in a <==> e in b
    ensures a == b
  {
    if b != [] { assert b[0] in b; }
    if a != [] {
      assert a[|a| - 1] in b;
      var x, y := a[|a| - 1], b[|b| - 1];
      assert y in a;
      assert x.sequence <= y.sequence && y.sequence <= x.sequence;
      assert x == y by {
        var i :| 0 <= i < |a| && a[i] == y;
      }
      var c, d := a[..|a| - 1], b[..|b| - 1];
      forall e ensures e in c <==> e in d {
        LastIsMaximum(a, e);
        LastIsMaximum(b, e);
      }
      IncreasingUnique(c, d);
      assert a == c + [x] && b == d + [y];
    }
  }

  // ----- The tracking maps that recovery builds -----

  datatype Tracking = Tracking(entries: map<Uint64, Entry>, committed: set<Uint64>, checkpoint: Uint64)

  function Categorize(t: Tracking, e: Entry): Tracking {
    if e.operation == CheckpointMark && e.status == Committed then
      t.(checkpoint := e.sequence, committed := t.committed + {e.sequence})
    else if e.status == Committed then
      t.(committed := t.committed + {e.sequence})
    else if e.status == Pending then
      t.(entries := t.entries[e.sequence := e])
    else t
  }

  ghost function Track(log: seq<Entry>): Tracking {
    if log == [] then Tracking(map[], {}, 0)
    else Categorize(Track(log[..|log| - 1]), log[|log| - 1])
  }

  /** Whatever was read, entries are filed under their own numbers; a repeated number keeps the last. */
  lemma {:induction false} TrackKeys(log: seq<Entry>)
    ensures forall k :: k in Track(log).entries ==> Track(log).entries[k].sequence == k
  {
    if log != [] { TrackKeys(log[..|log| - 1]); }
  }

  /** Under increasing numbers the map loses nothing: it holds exactly the pending entries. */
  lemma {:induction false} TrackExact(log: seq<Entry>, top: nat)
    requires Ordered(log, top)
    ensures Track(log).committed == CommittedSequences(log)
    ensures Track(log).checkpoint == LastCheckpoint(log)
    ensures forall k :: k in Track(log).entries ==> Track(log).entries[k].sequence == k
    ensures forall e: Entry :: e.status == Pending ==>
      (e in log <==> e.sequence in Track(log).entries && Track(log).entries[e.sequence] == e)
    ensures forall k :: k in Track(log).entries ==> Track(log).entries[k].status == Pending
  {
    if log != [] {
      var t, x := log[..|log| - 1], log[|log| - 1];
      assert log == t + [x];
      FilterSnoc(IsPending(), t, x);
      var f := Filter(IsPending(), t);
      assert Increasing(f) by {
        var g := Filter(IsPending(), log);
        assert forall i | 0 <= i < |f| :: f[i] == g[i];
      }
      TrackExact(t, top);
      if x.status == Pending {
        forall e | e in t && e.status == Pending ensures e.sequence < x.sequence {
          FilterMember(IsPending(), t, e);
          var i :| 0 <= i < |f| && f[i] == e;
          var g := Filter(IsPending(), log);
          assert g[i] == e && g[|f|] == x;
        }
      }
    }
  }

  /** Whatever order the map is walked in, sorting the survivors gives the in-order filter. */
  lemma SortedSurvivorsAreUncommitted(log: seq<Entry>, top: nat, r: seq<Entry>)
    requires Ordered(log, top)
    requires Increasing(r)
    requires forall e :: e in r <==> Survives(Track(log), e)
    ensures r == Uncommitted(log)
  {
    TrackExact(log, top);
    UncommittedIncreasing(log, top);
    FilterMembers(IsUncommitted(CommittedSequences(log), LastCheckpoint(log)), log);
    IncreasingUnique(r, Uncommitted(log));
  }

  // ----- Every run of the log, as a state machine over whole entries -----

  datatype LogState = LogState(log: seq<Entry>, sequence: Uint64)

  datatype LogOp =
    | Append(operation: Operation, messageId: MessageId, recipient: PublicKey, data: seq<Byte>, at: int)
    | CommitOf(sequence: Uint64, at: int)
    | CheckpointNow(at: int)
    | Reopen

  ghost function MaxSequence(log: seq<Entry>): Uint64 {
    if log == [] then 0
    else
      var m, e := MaxSequence(log[..|log| - 1]), log[|log| - 1];
      if e.sequence > m then e.sequence else m
  }

  function PendingEntry(c: Codec, sequence: Uint64, op: Operation, id: MessageId, recipient: PublicKey,
                        data: seq<Byte>, at: int): Entry {
    c.Seal(Entry(sequence, at, op, Pending, id, recipient, data, 0))
  }

  function MarkEntry(c: Codec, sequence: Uint64, op: Operation, at: int): Entry {
    c.Seal(Entry(sequence, at, op, Committed, 0, 0, [], 0))
  }

  /** The counter is a uint64: incrementing it wraps around. */
  function Next(sequence: Uint64): Uint64 {
    (sequence + 1) % U64
  }

  /** Reopening reads the file: the counter resumes at the largest number that can be read back. */
  ghost function LogStep(c: Codec, s: LogState, op: LogOp): LogState {
    match op
    case Append(o, id, recipient, data, at) =>
      LogState(s.log + [PendingEntry(c, Next(s.sequence), o, id, recipient, data, at)], Next(s.sequence))
    case CommitOf(n, at) => s.(log := s.log + [MarkEntry(c, n, CommitMark, at)])
    case CheckpointNow(at) => s.(log := s.log + [MarkEntry(c, s.sequence, CheckpointMark, at)])
    case Reopen => s.(sequence := MaxSequence(ReadAll(c, Frames(c, s.log))))
  }

  ghost function LogRun(c: Codec, ops: seq<LogOp>): LogState {
    if ops == [] then LogState([], 0)
    else LogStep(c, LogRun(c, ops[..|ops| - 1]), ops[|ops| - 1])
  }

  /** The largest number handed out in a run; a reopening may lower the counter, but not this. */
  ghost function Issued(c: Codec, ops: seq<LogOp>): Uint64 {
    if ops == [] then 0
    else
      var before, now := Issued(c, ops[..|ops| - 1]), LogRun(c, ops).sequence;
      if now > before then now else before
  }

  /** Only sequence numbers that were handed out are committed. */
  ghost predicate CommitsIssued(c: Codec, ops: seq<LogOp>) {
    ops == [] ||
    (var before, op := ops[..|ops| - 1], ops[|ops| - 1];
     && CommitsIssued(c, before)
     && (op.CommitOf? ==> op.sequence <= Issued(c, before)))
  }

  /** What can be read back is in order and at most at the counter. While every record can be read, the
      counter is the largest number in the log and the largest handed out. */
  ghost predicate LogInvariant(c: Codec, s: LogState, issued: nat) {
    var readable := s.log[..Readable(c, s.log)];
    && AllSealed(c, s.log) && Ordered(readable, s.sequence)
    && MaxSequence(readable) <= s.sequence <= issued
    && (AllFit(c, s.log) ==> MaxSequence(readable) == issued)
  }

  lemma {:induction false} MaxSequenceBounds(log: seq<Entry>)
    ensures forall e :: e in log ==> e.sequence <= MaxSequence(log)
  {
    if log != [] {
      MaxSequenceBounds(log[..|log| - 1]);
      assert log == log[..|log| - 1] + [log[|log| - 1]];
    }
  }

  /** Appending an entry: a new pending number must be above every earlier one. */
  lemma OrderedSnoc(log: seq<Entry>, top: nat, e: Entry, top': nat)
    requires Ordered(log, top) && top <= top'
    requires e.status == Pending ==> top < e.sequence <= top'
    ensures Ordered(log + [e], top')
  {
    FilterSnoc(IsPending(), log, e);
    var f := Filter(IsPending(), log);
    forall i | 0 <= i < |f| ensures f[i].sequence <= top {
      assert f[i] in f;
      FilterMember(IsPending(), log, f[i]);
    }
  }

  lemma MaxSequenceSnoc(log: seq<Entry>, e: Entry)
    ensures MaxSequence(log + [e]) == if e.sequence > MaxSequence(log) then e.sequence else MaxSequence(log)
  {
    assert (log + [e])[..|log|] == log;
  }

  /** Appending a record: what could be read before stays readable, and grows only if all of it was. */
  lemma {:induction false} ReadableSnoc(c: Codec, log: seq<Entry>, e: Entry)
    ensures Readable(c, log + [e]) == Readable(c, log) + (if Readable(c, log) == |log| && c.Fits(e) then 1 else 0)
    ensures AllFit(c, log + [e]) <==> AllFit(c, log) && c.Fits(e)
    ensures Readable(c, log) == |log| <==> AllFit(c, log)
  {
    assert forall x :: x in log + [e] <==> x in log || x == e;
    if log == [] {
      assert log + [e] == [e];
    } else {
      assert (log + [e])[1..] == log[1..] + [e];
      ReadableSnoc(c, log[1..], e);
      assert forall x :: x in log <==> x == log[0] || x in log[1..];
    }
  }

  lemma AppendKeeps(c: Codec, s: LogState, issued: nat, e: Entry, sequence: Uint64)
    requires LogInvariant(c, s, issued) && c.Sealed(e) && s.sequence <= sequence
    requires if e.status == Pending then e.sequence == sequence == s.sequence + 1 else sequence == s.sequence
    requires AllFit(c, s.log) ==> e.sequence <= sequence
    ensures LogInvariant(c, LogState(s.log + [e], sequence), if sequence > issued then sequence else issued)
  {
    hide Ordered, MaxSequence, Readable, AllFit;
    var n := Readable(c, s.log);
    ReadableSnoc(c, s.log, e);
    if n == |s.log| && c.Fits(e) {
      assert s.log[..n] == s.log && (s.log + [e])[..n + 1] == s.log + [e];
      MaxSequenceSnoc(s.log, e);
      OrderedSnoc(s.log, s.sequence, e, sequence);
    } else {
      assert (s.log + [e])[..n] == s.log[..n];
      OrderedLater(s.log[..n], s.sequence, sequence);
    }
  }

  lemma OrderedLater(log: seq<Entry>, top: nat, top': nat)
    requires Ordered(log, top) && top <= top'
    ensures Ordered(log, top')
  {
  }

  /** Every step keeps the readable part in order, oversized records included. Reopening changes nothing
      while every record can be read. */
  lemma LogStepKeeps(c: Codec, s: LogState, issued: nat, op: LogOp)
    requires c.Valid() && LogInvariant(c, s, issued)
    requires op.Append? ==> s.sequence < U64 - 1
    requires op.CommitOf? ==> op.sequence <= issued
    ensures
      var s' := LogStep(c, s, op);
      LogInvariant(c, s', if s'.sequence > issued then s'.sequence else issued)
    ensures op.Reopen? && AllFit(c, s.log) ==> LogStep(c, s, op) == s
  {
    var s' := LogStep(c, s, op);
    if op.Reopen? {
      LogReadsBack(c, s.log);
      ReopenKeeps(c, s, issued);
    } else {
      var e := s'.log[|s.log|];
      assert s'.log == s.log + [e];
      AppendKeeps(c, s, issued, e, s'.sequence);
    }
  }

  lemma ReopenKeeps(c: Codec, s: LogState, issued: nat)
    requires LogInvariant(c, s, issued)
    ensures LogInvariant(c, s.(sequence := MaxSequence(s.log[..Readable(c, s.log)])), issued)
  {
    MaxSequenceBounds(s.log[..Readable(c, s.log)]);
  }

  /** Over every run of appends, commits of issued numbers, checkpoints and reopenings. */
  lemma {:induction false} LogRunKeeps(c: Codec, ops: seq<LogOp>)
    requires c.Valid() && CommitsIssued(c, ops) && |ops| < U64
    ensures LogInvariant(c, LogRun(c, ops), Issued(c, ops)) && LogRun(c, ops).sequence <= |ops|
  {
    if ops != [] {
      var before, op := ops[..|ops| - 1], ops[|ops| - 1];
      LogRunKeeps(c, before);
      LogStepKeeps(c, LogRun(c, before), Issued(c, before), op);
      hide LogInvariant, CommitsIssued, ReadAll, Frames;
      SequenceGrows(c, LogRun(c, before), op, |before|);
    } else {
      LogEmpty(c);
    }
  }

  lemma LogEmpty(c: Codec)
    ensures LogInvariant(c, LogState([], 0), 0)
  {
  }

  lemma SequenceGrows(c: Codec, s: LogState, op: LogOp, n: nat)
    requires c.Valid() && AllSealed(c, s.log) && MaxSequence(s.log[..Readable(c, s.log)]) <= s.sequence <= n
    ensures LogStep(c, s, op).sequence <= n + 1
  {
    LogReadsBack(c, s.log);
  }

  /** For every run, whatever it logged: any sorted listing of the map entries that survive reading the file
      back is the in-order filter of the readable part, which is the whole log while every record fits. */
  lemma RecoveryIsInOrderFilter(c: Codec, ops: seq<LogOp>, r: seq<Entry>)
    requires c.Valid() && CommitsIssued(c, ops) && |ops| < U64
    requires Increasing(r)
    requires forall e :: e in r <==> Survives(Track(ReadAll(c, Frames(c, LogRun(c, ops).log))), e)
    ensures
      var log := LogRun(c, ops).log;
      && r == Uncommitted(log[..Readable(c, log)])
      && (AllFit(c, log) ==> r == Uncommitted(log))
  {
    LogRunKeeps(c, ops);
    var s := LogRun(c, ops);
    LogReadsBack(c, s.log);
    SortedSurvivorsAreUncommitted(s.log[..Readable(c, s.log)], s.sequence, r);
    if AllFit(c, s.log) { assert s.log[..|s.log|] == s.log; }
    hide Uncommitted, LogRun, Track, ReadAll, Frames;
  }

  /** A checkpoint saves no state, yet recovery skips everything logged before it: right after a
      checkpoint there is nothing left to recover. */
  lemma CheckpointForgets(c: Codec, s: LogState, at: int)
    requires Ordered(s.log, s.sequence)
    ensures Uncommitted(LogStep(c, s, CheckpointNow(at)).log) == []
  {
    var e := MarkEntry(c, s.sequence, CheckpointMark, at);
    var log := s.log + [e];
    assert LastCheckpoint(log) == s.sequence;
    FilterNone(IsUncommitted(CommittedSequences(log), s.sequence), log);
  }

  // ----- What recovery returns, said of the operations -----

  ghost function NumberIsNot(n: Uint64): Entry -> bool {
    (e: Entry) => e.sequence != n
  }

  /** The entries a run has appended and neither committed nor put behind a checkpoint since, in order. */
  ghost function Outstanding(c: Codec, ops: seq<LogOp>): seq<Entry> {
    if ops == [] then []
    else StillOutstanding(c, Outstanding(c, ops[..|ops| - 1]), ops[|ops| - 1], LogRun(c, ops).sequence)
  }

  /** The same after one more operation; an append draws number `n`. */
  ghost function StillOutstanding(c: Codec, before: seq<Entry>, op: LogOp, n: Uint64): seq<Entry> {
    match op
    case Append(o, id, recipient, data, at) => before + [PendingEntry(c, n, o, id, recipient, data, at)]
    case CommitOf(k, _) => Filter(NumberIsNot(k), before)
    case CheckpointNow(_) => []
    case Reopen => before
  }

  lemma {:induction false} CheckpointBounded(log: seq<Entry>)
    ensures LastCheckpoint(log) <= MaxSequence(log)
  {
    if log != [] { CheckpointBounded(log[..|log| - 1]); }
  }

  lemma MarkSetsSnoc(log: seq<Entry>, e: Entry)
    ensures CommittedSequences(log + [e]) ==
      CommittedSequences(log) + (if e.status == Committed then {e.sequence} else {})
    ensures LastCheckpoint(log + [e]) ==
      if e.operation == CheckpointMark && e.status == Committed then e.sequence else LastCheckpoint(log)
  {
    assert forall x :: x in log + [e] <==> x in log || x == e;
    assert (log + [e])[..|log|] == log;
  }

  /** A new number is outstanding at once. */
  lemma AppendOutstanding(log: seq<Entry>, e: Entry)
    requires e.status == Pending && e.sequence > MaxSequence(log)
    ensures Uncommitted(log + [e]) == Uncommitted(log) + [e]
  {
    hide Filter, MaxSequence, LastCheckpoint;
    MarkSetsSnoc(log, e);
    MaxSequenceBounds(log);
    CheckpointBounded(log);
    assert CommittedSequences(log + [e]) == CommittedSequences(log);
    FilterSnoc(IsUncommitted(CommittedSequences(log), LastCheckpoint(log)), log, e);
  }

  /** A commit takes out the entries with its number, and nothing else. */
  lemma CommitTakesOut(log: seq<Entry>, e: Entry)
    requires e.status == Committed && e.operation != CheckpointMark
    ensures Uncommitted(log + [e]) == Filter(NumberIsNot(e.sequence), Uncommitted(log))
  {
    hide Filter, LastCheckpoint, CommittedSequences;
    MarkSetsSnoc(log, e);
    var was := IsUncommitted(CommittedSequences(log), LastCheckpoint(log));
    var now := IsUncommitted(CommittedSequences(log + [e]), LastCheckpoint(log));
    FilterSnoc(now, log, e);
    FilterTwice(NumberIsNot(e.sequence), was, now, log);
  }

  /** For every run whose records the reader takes, the in-order filter of the log is what the run left outstanding. */
  lemma {:induction false} UncommittedIsOutstanding(c: Codec, ops: seq<LogOp>)
    requires c.Valid() && CommitsIssued(c, ops) && |ops| < U64 && AllFit(c, LogRun(c, ops).log)
    ensures Uncommitted(LogRun(c, ops).log) == Outstanding(c, ops)
  {
    if ops != [] {
      hide Uncommitted, StillOutstanding, LogInvariant, ReadAll, Frames, Issued;
      var before, op := ops[..|ops| - 1], ops[|ops| - 1];
      var s := LogRun(c, before);
      assert forall e :: e in s.log ==> e in LogRun(c, ops).log;
      UncommittedIsOutstanding(c, before);
      LogRunKeeps(c, before);
      hide AllFit, CommitsIssued, LogStep;
      UncommittedNext(c, s, Issued(c, before), op);
    } else {
      NothingUncommitted();
    }
  }

  lemma UncommittedNext(c: Codec, s: LogState, issued: nat, op: LogOp)
    requires LogInvariant(c, s, issued) && AllFit(c, s.log) && s.sequence < U64 - 1
    ensures Uncommitted(LogStep(c, s, op).log) ==
      StillOutstanding(c, Uncommitted(s.log), op, LogStep(c, s, op).sequence)
  {
    hide Uncommitted, LogInvariant, Ordered, MaxSequence, ReadAll, Frames, AllFit, Filter;
    CounterIsMaximum(c, s, issued);
    match op
    case Append(o, id, recipient, data, at) =>
      AppendOutstanding(s.log, PendingEntry(c, Next(s.sequence), o, id, recipient, data, at));
    case CommitOf(n, at) => CommitTakesOut(s.log, MarkEntry(c, n, CommitMark, at));
    case CheckpointNow(at) => CheckpointForgets(c, s, at);
    case Reopen =>
  }

  lemma NothingUncommitted()
    ensures Uncommitted([]) == []
  {
  }

  lemma CounterIsMaximum(c: Codec, s: LogState, issued: nat)
    requires LogInvariant(c, s, issued) && AllFit(c, s.log)
    ensures MaxSequence(s.log) == s.sequence && Ordered(s.log, s.sequence)
  {
    AllReadable(c, s.log);
    assert s.log[..|s.log|] == s.log;
  }

  lemma {:induction false} AllReadable(c: Codec, log: seq<Entry>)
    requires AllFit(c, log)
    ensures Readable(c, log) == |log|
  {
    if log != [] { AllReadable(c, log[1..]); }
  }

  /** Recovery returns exactly what the run left outstanding: each appended entry, in order, unless its number was
      committed or a checkpoint came after it. */
  lemma RecoveryReturnsOutstanding(c: Codec, ops: seq<LogOp>, r: seq<Entry>)
    requires c.Valid() && CommitsIssued(c, ops) && |ops| < U64 && AllFit(c, LogRun(c, ops).log)
    requires Increasing(r)
    requires forall e :: e in r <==> Survives(Track(ReadAll(c, Frames(c, LogRun(c, ops).log))), e)
    ensures r == Outstanding(c, ops)
  {
    hide Outstanding, Uncommitted, LogRun, Track, ReadAll, Frames, Survives;
    RecoveryIsInOrderFilter(c, ops, r);
    UncommittedIsOutstanding(c, ops);
  }

  // ----- The log object -----

  lemma {:induction false} ReadAllSealed(c: Codec, b: seq<Byte>)
    ensures AllSealed(c, ReadAll(c, b))
    decreases |b|
  {
    var r := ReadEntry(c, b);
    if r.Some? { ReadAllSealed(c, b[r.value.1..]); }
  }

  /** One turn of a reading loop that has consumed `done` and stands at byte `pos`. */
  lemma ReadAllNext(c: Codec, file: seq<Byte>, pos: nat, done: seq<Entry>)
    requires pos <= |file| && ReadEntry(c, file[pos..]).Some?
    requires ReadAll(c, file) == done + ReadAll(c, file[pos..])
    ensures
      var (e, n) := ReadEntry(c, file[pos..]).value;
      && pos + n <= |file|
      && ReadAll(c, file) == done + [e] + ReadAll(c, file[pos + n..])
      && Track(done + [e]) == Categorize(Track(done), e)
      && MaxSequence(done + [e]) == (if e.sequence > MaxSequence(done) then e.sequence else MaxSequence(done))
  {
    var (e, n) := ReadEntry(c, file[pos..]).value;
    assert file[pos..][n..] == file[pos + n..];
    assert (done + [e])[..|done|] == done;
  }

  datatype WalError = LogClosed

  class WriteAheadLog {
    const codec: Codec
    var file: seq<Byte>
    var sequence: Uint64
    var entriesCount: nat
    var lastCheckpoint: int
    var closed: bool
    /** The entries the file holds. */
    ghost var log: seq<Entry>

    ghost function State(): LogState
      reads this
    {
      LogState(log, sequence)
    }

    ghost predicate Valid()
      reads this
    {
      && codec.Valid() && AllSealed(codec, log)
      && file == Frames(codec, log)
      && Ordered(log, sequence)
    }

    /** Enough to recover: the readable part of the file is in order (its tail may be torn). */
    ghost predicate Open()
      reads this
    {
      codec.Valid() && Ordered(ReadAll(codec, file), sequence)
    }

    /** Opening a file: the counter resumes at the largest number that can be read. */
    constructor (codec: Codec, file: seq<Byte>, now: int)
      requires codec.Valid()
      ensures this.codec == codec && this.file == file && !closed
      ensures log == ReadAll(codec, file)
      ensures sequence == MaxSequence(log)
      ensures entriesCount == |log|
      ensures Increasing(Filter(IsPending(), log)) ==> Open()
      ensures file == Frames(codec, log) && Increasing(Filter(IsPending(), log)) ==> Valid()
    {
      this.codec := codec;
      this.file := file;
      lastCheckpoint := now;
      closed := false;
      log := ReadAll(codec, file);
      var maxSeq, count := ScanForMaxSequence(codec, file);
      sequence := maxSeq;
      entriesCount := count;
      MaxSequenceBounds(ReadAll(codec, file));
      ReadAllSealed(codec, file);
    }

    static method ScanForMaxSequence(codec: Codec, file: seq<Byte>) returns (maxSeq: Uint64, count: nat)
      ensures maxSeq == MaxSequence(ReadAll(codec, file)) && count == |ReadAll(codec, file)|
    {
      maxSeq, count := 0, 0;
      assert MaxSequence([]) == 0;
      hide ReadEntry, MaxSequence;
      var pos := 0;
      var next := ReadEntry(codec, file);
      ghost var done: seq<Entry> := [];
      assert file[0..] == file;
      while next.Some?
        invariant 0 <= pos <= |file|
        invariant next == ReadEntry(codec, file[pos..])
        invariant ReadAll(codec, file) == done + ReadAll(codec, file[pos..])
        invariant maxSeq == MaxSequence(done) && count == |done|
        decreases |file| - pos
      {
        var (e, n) := next.value;
        ReadAllNext(codec, file, pos, done);
        if e.sequence > maxSeq { maxSeq := e.sequence; }
        count := count + 1;
        done := done + [e];
        pos := pos + n;
        next := ReadEntry(codec, file[pos..]);
      }
      assert done == ReadAll(codec, file);
    }

    /** The counter has reached `e`, and a pending `e` has a number above every earlier one. */
    ghost predicate Numbers(e: Entry, top: nat)
      reads this`sequence
    {
      top <= sequence && (e.status == Pending ==> top < e.sequence <= sequence)
    }

    /** Appends one sealed entry; a file in good order stays so when the entry's number is new. */
    method WriteEntry(e: Entry, ghost top: nat)
      requires codec.Valid() && codec.Sealed(e)
      modifies this`file, this`log
      ensures log == old(log) + [e] && file == old(file) + Frame(codec, e)
      ensures old(file == Frames(codec, log) && AllSealed(codec, log)) ==>
        file == Frames(codec, log) && AllSealed(codec, log)
      ensures old(file == Frames(codec, log) && AllSealed(codec, log) && Ordered(log, top)) && Numbers(e, top) ==>
        Valid()
    {
      FramesSnoc(codec, log, e);
      if Ordered(log, top) && Numbers(e, top) { OrderedSnoc(log, top, e, sequence); }
      file := file + Frame(codec, e);
      log := log + [e];
    }

    method LogEntry(op: Operation, id: MessageId, recipient: PublicKey, data: seq<Byte>, now: int)
      returns (r: Result<Uint64, WalError>)
      requires Valid()
      modifies this`file, this`log, this`sequence, this`entriesCount
      ensures old(closed) ==> r == Err(LogClosed) && State() == old(State()) && file == old(file)
      ensures !old(closed) ==>
        && r == Ok(sequence)
        && State() == LogStep(codec, old(State()), Append(op, id, recipient, data, now))
      ensures entriesCount == old(entriesCount) + if closed then 0 else 1
      ensures file == Frames(codec, log) && AllSealed(codec, log)
      ensures old(sequence) < U64 - 1 ==> Valid()
    {
      hide Ordered, Frames, AllSealed;
      if closed { return Err(LogClosed); }
      ghost var top := sequence;
      sequence := Next(sequence);
      WriteEntry(PendingEntry(codec, sequence, op, id, recipient, data, now), top);
      entriesCount := entriesCount + 1;
      r := Ok(sequence);
    }

    method Commit(n: Uint64, now: int) returns (r: Result<(), WalError>)
      requires Valid()
      modifies this`file, this`log
      ensures Valid()
      ensures closed ==> r == Err(LogClosed) && State() == old(State())
      ensures !closed ==> r == Ok(()) && State() == LogStep(codec, old(State()), CommitOf(n, now))
    {
      hide Ordered, Frames, AllSealed;
      if closed { return Err(LogClosed); }
      WriteEntry(MarkEntry(codec, n, CommitMark, now), sequence);
      r := Ok(());
    }

    /** A marker only: no state is saved and no record is dropped. */
    method Checkpoint(now: int) returns (r: Result<(), WalError>)
      requires codec.Valid()
      modifies this`file, this`log, this`entriesCount, this`lastCheckpoint
      ensures closed ==> r == Err(LogClosed) && unchanged(this)
      ensures !closed ==>
        && r == Ok(()) && entriesCount == 0 && lastCheckpoint == now
        && file == old(file) + Frame(codec, MarkEntry(codec, sequence, CheckpointMark, now))
        && State() == LogStep(codec, old(State()), CheckpointNow(now))
      ensures old(Valid()) ==> Valid()
    {
      hide Ordered, Frames, AllSealed;
      if closed { return Err(LogClosed); }
      WriteEntry(MarkEntry(codec, sequence, CheckpointMark, now), sequence);
      lastCheckpoint := now;
      entriesCount := 0;
      r := Ok(());
    }

    /** Reads the file into the tracking maps. */
    method ReadAllEntries() returns (t: Tracking)
      ensures t == Track(ReadAll(codec, file))
    {
      t := Tracking(map[], {}, 0);
      assert Track([]) == t;
      hide ReadEntry, Track, Categorize;
      var pos := 0;
      var next := ReadEntry(codec, file);
      ghost var done: seq<Entry> := [];
      assert file[0..] == file;
      while next.Some?
        invariant 0 <= pos <= |file|
        invariant next == ReadEntry(codec, file[pos..])
        invariant ReadAll(codec, file) == done + ReadAll(codec, file[pos..])
        invariant t == Track(done)
        decreases |file| - pos
      {
        var (e, n) := next.value;
        ReadAllNext(codec, file, pos, done);
        t := Categorize(t, e);
        done := done + [e];
        pos := pos + n;
        next := ReadEntry(codec, file[pos..]);
      }
      assert done == ReadAll(codec, file);
    }

    /** The records to replay, from any file: the readable entries that survive, in increasing order. When the
        readable part is in order, that is its in-order filter. */
    method Recover() returns (r: Result<seq<Entry>, WalError>)
      ensures closed ==> r == Err(LogClosed)
      ensures !closed ==>
        && r.Ok? && Increasing(r.value)
        && (forall e :: e in r.value <==> Survives(Track(ReadAll(codec, file)), e))
        && (Open() ==> r.value == Uncommitted(ReadAll(codec, file)))
    {
      if closed { return Err(LogClosed); }
      hide Uncommitted;
      var t := ReadAllEntries();
      TrackKeys(ReadAll(codec, file));
      var survivors := FilterUncommitted(t);
      if Open() { SortedSurvivorsAreUncommitted(ReadAll(codec, file), sequence, survivors); }
      r := Ok(survivors);
    }

    /** A log in good order can be recovered from, up to its first oversized record. */
    lemma ValidIsOpen()
      requires Valid()
      ensures Open() && ReadAll(codec, file) == log[..Readable(codec, log)]
    {
      LogReadsBack(codec, log);
      OrderedPrefix(log, sequence, Readable(codec, log));
    }
  }

  lemma OrderedPrefix(log: seq<Entry>, top: nat, n: nat)
    requires Ordered(log, top) && n <= |log|
    ensures Ordered(log[..n], top)
  {
    assert log == log[..n] + log[n..];
    FilterAppend(IsPending(), log[..n], log[n..]);
    var f, g := Filter(IsPending(), log), Filter(IsPending(), log[..n]);
    assert forall i | 0 <= i < |g| :: f[i] == g[i];
  }

  /** Walks the map in any order, keeps what is neither committed nor checkpointed, and sorts. */
  method FilterUncommitted(t: Tracking) returns (r: seq<Entry>)
    requires forall k :: k in t.entries ==> t.entries[k].sequence == k
    ensures Increasing(r)
    ensures forall e :: e in r <==> Survives(t, e)
  {
    var kept: seq<Entry> := [];
    var keys := t.entries.Keys;
    while keys != {}
      invariant keys <= t.entries.Keys
      invariant forall e :: e in kept <==> Survives(t, e) && e.sequence !in keys
      invariant forall i, j | 0 <= i < j < |kept| :: kept[i].sequence != kept[j].sequence
      decreases |keys|
    {
      var k :| k in keys;
      keys := keys - {k};
      if k !in t.committed && k > t.checkpoint {
        assert forall e :: e in kept ==> e.sequence != k;
        kept := kept + [t.entries[k]];
      }
    }
    r := SortBySequence(kept);
  }

  predicate Survives(t: Tracking, e: Entry) {
    && e.sequence in t.entries && t.entries[e.sequence] == e
    && e.sequence !in t.committed && e.sequence > t.checkpoint
  }

  /** Sorts entries that carry distinct sequence numbers. */
  method SortBySequence(s: seq<Entry>) returns (r: seq<Entry>)
    requires forall i, j | 0 <= i < j < |s| :: s[i].sequence != s[j].sequence
    ensures Increasing(r)
    ensures forall e :: e in r <==> e in s
  {
    r := [];
    for n := 0 to |s|
      invariant Increasing(r)
      invariant forall e :: e in r <==> e in s[..n]
    {
      assert forall i | 0 <= i < |r| :: r[i] in s[..n];
      r := InsertBySequence(r, s[n]);
      assert s[..n + 1] == s[..n] + [s[n]];
    }
    assert s[..|s|] == s;
  }

  method InsertBySequence(s: seq<Entry>, x: Entry) returns (r: seq<Entry>)
    requires Increasing(s)
    requires forall i | 0 <= i < |s| :: s[i].sequence != x.sequence
    ensures Increasing(r)
    ensures forall e :: e in r <==> e in s || e == x
  {
    var k := 0;
    while k < |s| && s[k].sequence < x.sequence
      invariant 0 <= k <= |s|
      invariant forall i | 0 <= i < k :: s[i].sequence < x.sequence
    {
      k := k + 1;
    }
    InsertIncreasing(s, x, k);
    hide Increasing;
    r := s[..k] + [x] + s[k..];
  }

  lemma InsertIncreasing(s: seq<Entry>, x: Entry, k: nat)
    requires Increasing(s) && k <= |s| && forall i | 0 <= i < k :: s[i].sequence < x.sequence
    requires k < |s| ==> x.sequence < s[k].sequence
    ensures
      var r := s[..k] + [x] + s[k..];
      Increasing(r) && forall e :: e in r <==> e in s || e == x
  {
    InsertMembers(s, x, k);
    var r := s[..k] + [x] + s[k..];
    assert forall i | 0 <= i < |r| :: r[i] == if i < k then s[i] else if i == k then x else s[i - 1];
  }

  lemma InsertMembers(s: seq<Entry>, x: Entry, k: nat)
    requires k <= |s|
    ensures forall e :: e in s[..k] + [x] + s[k..] <==> e in s || e == x
  {
    assert s == s[..k] + s[k..];
  }
}
