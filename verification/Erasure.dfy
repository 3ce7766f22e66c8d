/** Erasure-coded storage: splitting, reassembly, and decoding over an assumed Reed-Solomon code. */
module Erasure {
  import opened Common

  type Bytes = seq<Byte>

  datatype ErasureError = EmptyData | NoShards | BadLength | InsufficientShards | CannotReconstruct

  // ----- Splitting -----

  /** The smallest size for which `k` shards hold `n` bytes. */
  function ShardSize(n: nat, k: nat): (size: nat)
    requires k >= 1
    ensures k * size >= n && (size > 0 ==> k * (size - 1) < n)
  {
    if n % k != 0 then n / k + 1 else n / k
  }

  /** Byte `c` of shard `r`: the bytes of the message row by row, then zeros. */
  function Cell(data: Bytes, size: nat, r: nat, c: nat): Byte {
    var at := r * size + c;
    if at < |data| then data[at] else 0
  }

  ghost predicate IsShard(data: Bytes, size: nat, r: nat, shard: Bytes) {
    |shard| == size && forall c | 0 <= c < size :: shard[c] == Cell(data, size, r, c)
  }

  /** The data shards of a message. */
  ghost predicate Splits(data: Bytes, size: nat, shards: seq<Bytes>) {
    forall r | 0 <= r < |shards| :: IsShard(data, size, r, shards[r])
  }

  function Concat(shards: seq<Bytes>): Bytes {
    if shards == [] then [] else Concat(shards[..|shards| - 1]) + shards[|shards| - 1]
  }

  lemma {:induction false} ConcatLength(shards: seq<Bytes>, size: nat)
    requires forall r | 0 <= r < |shards| :: |shards[r]| == size
    ensures |Concat(shards)| == |shards| * size
  {
    if shards != [] {
      var n := |shards| - 1;
      ConcatLength(shards[..n], size);
      assert |shards| * size == n * size + size;
    }
  }

  /** The shards, one after the other, are the message followed by zeros. */
  lemma {:induction false} ConcatIsMessage(data: Bytes, size: nat, shards: seq<Bytes>, i: nat)
    requires Splits(data, size, shards) && i < |shards| * size
    ensures |Concat(shards)| == |shards| * size
    ensures Concat(shards)[i] == if i < |data| then data[i] else 0
  {
    ConcatLength(shards, size);
    var n := |shards| - 1;
    ConcatLength(shards[..n], size);
    if i < n * size {
      ConcatIsMessage(data, size, shards[..n], i);
    } else {
      assert IsShard(data, size, n, shards[n]);
      assert Concat(shards)[i] == shards[n][i - n * size];
    }
  }

  /** No byte of the message is lost: enough shards, cut to its length, are the message. */
  lemma SplitKeepsMessage(data: Bytes, k: nat, shards: seq<Bytes>)
    requires k >= 1 && |shards| == k && Splits(data, ShardSize(|data|, k), shards)
    ensures Take(Concat(shards), |data|) == data
  {
    var size := ShardSize(|data|, k);
    ConcatLength(shards, size);
    forall i | 0 <= i < |data| ensures Concat(shards)[i] == data[i] {
      ConcatIsMessage(data, size, shards, i);
    }
    assert Take(Concat(shards), |data|) == Concat(shards)[..|data|] == data;
  }

  function Take(s: Bytes, n: nat): Bytes {
    if n < |s| then s[..n] else s
  }

  /** The rows after the first `n` bytes have been placed: data rows hold them, parity rows are zero. */
  ghost predicate Placed(data: Bytes, n: nat, size: nat, k: nat, rows: seq<Bytes>) {
    n <= |data| && forall r | 0 <= r < |rows| :: IsShard(if r < k then data[..n] else [], size, r, rows[r])
  }

  lemma CellAt(i: nat, size: nat, r: nat, c: nat)
    requires size >= 1 && c < size
    ensures r * size + c == i <==> r == i / size && c == i % size
  {
    if r < i / size { assert (r + 1) * size <= (i / size) * size; }
    if r > i / size { assert (i / size + 1) * size <= r * size; }
  }

  lemma PlaceOne(data: Bytes, i: nat, size: nat, k: nat, rows: seq<Bytes>)
    requires size >= 1 && k <= |rows| && i < |data| && Placed(data, i, size, k, rows)
    ensures
      var r := i / size;
      if r < k then |rows[r]| == size && Placed(data, i + 1, size, k, rows[r := rows[r][i % size := data[i]]])
      else Placed(data, i + 1, size, k, rows)
  {
    var at := i / size;
    assert at < k ==> IsShard(data[..i], size, at, rows[at]);
    var after := if at < k then rows[at := rows[at][i % size := data[i]]] else rows;
    forall r | 0 <= r < |rows|
      ensures IsShard(if r < k then data[..i + 1] else [], size, r, after[r])
    {
      assert IsShard(if r < k then data[..i] else [], size, r, rows[r]);
      forall c | 0 <= c < size
        ensures after[r][c] == Cell(if r < k then data[..i + 1] else [], size, r, c)
      {
        CellAt(i, size, r, c);
      }
    }
  }

  /** Bytes that would land beyond the data shards are skipped. */
  method SplitIntoShards(data: Bytes, size: nat, k: nat, total: nat) returns (rows: seq<Bytes>)
    requires size >= 1 && k <= total
    ensures |rows| == total && Splits(data, size, rows[..k])
    ensures forall r | k <= r < total :: rows[r] == Zeros(size)
  {
    rows := seq(total, _ => Zeros(size));
    assert Placed(data, 0, size, k, rows);
    for i := 0 to |data|
      invariant |rows| == total && Placed(data, i, size, k, rows)
    {
      PlaceOne(data, i, size, k, rows);
      hide Placed;
      if i / size < k {
        rows := rows[i / size := rows[i / size][i % size := data[i]]];
      }
    }
    AllPlaced(data, size, k, rows);
  }

  lemma AllPlaced(data: Bytes, size: nat, k: nat, rows: seq<Bytes>)
    requires Placed(data, |data|, size, k, rows) && k <= |rows|
    ensures Splits(data, size, rows[..k])
    ensures forall r | k <= r < |rows| :: rows[r] == Zeros(size)
  {
    assert data[..|data|] == data;
    forall r | k <= r < |rows| ensures rows[r] == Zeros(size) {
      assert IsShard([], size, r, rows[r]);
    }
  }

  // ----- Reassembly -----

  lemma {:induction false} ConcatPrefix(shards: seq<Bytes>, i: nat)
    requires i <= |shards|
    ensures Concat(shards[..i]) <= Concat(shards)
  {
    if i == |shards| {
      assert shards[..i] == shards;
    } else {
      ConcatPrefix(shards[..|shards| - 1], i);
      assert shards[..|shards| - 1][..i] == shards[..i];
    }
  }

  /** Stops as soon as the length is reached. */
  method ReassembleData(shards: seq<Bytes>, k: nat, originalLen: int) returns (result: Bytes)
    requires k <= |shards|
    ensures result == if originalLen <= 0 then [] else Take(Concat(shards[..k]), originalLen)
  {
    if originalLen <= 0 { return []; }
    result := [];
    var i := 0;
    while i < k && |result| < originalLen
      invariant 0 <= i <= k && result == Take(Concat(shards[..i]), originalLen)
    {
      assert shards[..i + 1][..i] == shards[..i];
      var toAppend := shards[i];
      var remaining := originalLen - |result|;
      if |toAppend| > remaining {
        toAppend := toAppend[..remaining];
      }
      result := result + toAppend;
      i := i + 1;
    }
    ConcatPrefix(shards[..k], i);
    assert shards[..k][..i] == shards[..i];
  }

  // ----- Decoding -----

  /** A missing data slice is `None`. */
  datatype EncodedShard = EncodedShard(index: int, data: Option<Bytes>)

  ghost predicate Even(rows: seq<Bytes>, size: nat) {
    size >= 1 && forall r | 0 <= r < |rows| :: |rows[r]| == size
  }

  /** The rows that are present are rows of `word`. */
  ghost predicate Agrees(raw: seq<Option<Bytes>>, word: seq<Bytes>) {
    |raw| == |word| && forall i | 0 <= i < |raw| :: raw[i].Some? ==> raw[i].value == word[i]
  }

  ghost function Present(raw: seq<Option<Bytes>>): set<int> {
    set i | 0 <= i < |raw| && raw[i].Some?
  }

  /** The Reed-Solomon library: a systematic code in which any `k` rows determine the word. */
  datatype Code = Code(
    k: nat,
    total: nat,
    encode: seq<Bytes> -> seq<Bytes>,
    reconstruct: seq<Option<Bytes>> -> Option<seq<Bytes>>)
  {
    ghost predicate Valid() {
      && 1 <= k <= total
      && (forall raw :: reconstruct(raw).Some? ==> |reconstruct(raw).value| == |raw|)
      && (forall d, size :: |d| == k && Even(d, size) ==>
            |encode(d)| == total && encode(d)[..k] == d && Even(encode(d), size))
      && (forall d, size, raw :: |d| == k && Even(d, size) && Agrees(raw, encode(d)) && |Present(raw)| >= k ==>
            reconstruct(raw) == Some(encode(d)))
    }
  }

  /** The first shard for each valid index is kept. The count goes up with every shard whose slot is still
      missing, which includes shards without data. */
  function Extract(shards: seq<Option<EncodedShard>>, total: nat): (r: (seq<Option<Bytes>>, nat))
    ensures |r.0| == total
  {
    if shards == [] then (seq(total, _ => None), 0)
    else
      var (raw, count) := Extract(shards[..|shards| - 1], total);
      var last := shards[|shards| - 1];
      if last.Some? && 0 <= last.value.index < total && raw[last.value.index].None?
      then (raw[last.value.index := last.value.data], count + 1)
      else (raw, count)
  }

  method ExtractRawShards(shards: seq<Option<EncodedShard>>, total: nat) returns (raw: seq<Option<Bytes>>, count: nat)
    ensures (raw, count) == Extract(shards, total)
  {
    raw, count := seq(total, _ => None), 0;
    for i := 0 to |shards|
      invariant (raw, count) == Extract(shards[..i], total)
    {
      assert shards[..i + 1][..i] == shards[..i];
      var shard := shards[i];
      if shard.Some? && 0 <= shard.value.index < |raw| {
        if raw[shard.value.index].None? {
          raw := raw[shard.value.index := shard.value.data];
          count := count + 1;
        }
      }
    }
    assert shards[..|shards|] == shards;
  }

  ghost function Indices(shards: seq<Option<EncodedShard>>, total: nat): set<int> {
    set s | s in shards && s.Some? && 0 <= s.value.index < total :: s.value.index
  }

  /** Every shard with a valid index is the row of `word` that it claims to be. */
  ghost predicate Genuine(shards: seq<Option<EncodedShard>>, word: seq<Bytes>) {
    forall s :: s in shards && s.Some? && 0 <= s.value.index < |word| ==> s.value.data == Some(word[s.value.index])
  }

  /** In any order and with any repeats, exactly the listed rows are found and counted once each. */
  lemma {:induction false} ExtractGenuine(shards: seq<Option<EncodedShard>>, word: seq<Bytes>)
    requires Genuine(shards, word)
    ensures
      var (raw, count) := Extract(shards, |word|);
      && Agrees(raw, word) && Present(raw) == Indices(shards, |word|) && count == |Present(raw)|
  {
    if shards != [] {
      var front, last := shards[..|shards| - 1], shards[|shards| - 1];
      assert forall s :: s in front ==> s in shards;
      assert last in shards;
      ExtractGenuine(front, word);
      var (before, _) := Extract(front, |word|);
      IndicesSnoc(front, last, |word|);
      assert shards == front + [last];
      if last.Some? && 0 <= last.value.index < |word| { SlotFilled(before, word, last.value.index); }
      hide Agrees, Present, Indices;
    }
  }

  lemma IndicesSnoc(front: seq<Option<EncodedShard>>, last: Option<EncodedShard>, total: nat)
    ensures Indices(front + [last], total) ==
      Indices(front, total) + (if last.Some? && 0 <= last.value.index < total then {last.value.index} else {})
  {
    assert forall s :: s in front + [last] <==> s in front || s == last;
  }

  lemma SlotFilled(raw: seq<Option<Bytes>>, word: seq<Bytes>, i: nat)
    requires Agrees(raw, word) && i < |word|
    ensures raw[i].None? ==> Agrees(raw[i := Some(word[i])], word) && i !in Present(raw)
    ensures raw[i].None? ==> Present(raw[i := Some(word[i])]) == Present(raw) + {i}
    ensures raw[i].Some? ==> Present(raw) + {i} == Present(raw)
  {
  }

  /** The shard is listed for slot `i` and carries data. */
  ghost predicate Fills(shard: Option<EncodedShard>, i: int) {
    shard.Some? && shard.value.index == i && shard.value.data.Some?
  }

  /** A slot holds data exactly when some listed shard fills it. */
  lemma {:induction false} SlotFilledIff(shards: seq<Option<EncodedShard>>, total: nat, i: nat)
    requires i < total
    ensures Extract(shards, total).0[i].Some? <==> exists s :: s in shards && Fills(s, i)
  {
    if shards != [] {
      var front, last := shards[..|shards| - 1], shards[|shards| - 1];
      assert forall s :: s in shards <==> s in front || s == last;
      SlotFilledIff(front, total, i);
      if Fills(last, i) { assert Extract(shards, total).0[i].Some?; }
    }
  }

  /** A filled slot holds the data of the first shard that fills it: repeats never replace it. */
  lemma {:induction false} SlotIsFirst(shards: seq<Option<EncodedShard>>, total: nat, i: nat) returns (p: nat)
    requires i < total && Extract(shards, total).0[i].Some?
    ensures p < |shards| && Fills(shards[p], i) && shards[p].value.data == Extract(shards, total).0[i]
    ensures forall q | 0 <= q < p :: !Fills(shards[q], i)
  {
    var front, last := shards[..|shards| - 1], shards[|shards| - 1];
    SlotFilledIff(front, total, i);
    if Extract(front, total).0[i].Some? {
      p := SlotIsFirst(front, total, i);
    } else {
      p := |shards| - 1;
      assert forall q | 0 <= q < p :: shards[q] == front[q] && front[q] in front;
    }
  }

  /** The shard names a valid slot but carries no data. */
  ghost predicate Blank(shard: Option<EncodedShard>, total: nat) {
    shard.Some? && 0 <= shard.value.index < total && shard.value.data.None?
  }

  /** Before every shard without data comes one with data for the same slot. */
  ghost predicate BlanksCovered(shards: seq<Option<EncodedShard>>, total: nat) {
    shards == [] ||
    (var front, last := shards[..|shards| - 1], shards[|shards| - 1];
     BlanksCovered(front, total) && (Blank(last, total) ==> exists s :: s in front && Fills(s, last.value.index)))
  }

  /** For every list, the count is at least the number of rows found, and it is exact if and only if every shard
      without data follows one with data for its slot. */
  lemma {:induction false} CountExactIffBlanksCovered(shards: seq<Option<EncodedShard>>, total: nat)
    ensures
      var (raw, count) := Extract(shards, total);
      && count >= |Present(raw)|
      && (count == |Present(raw)| <==> BlanksCovered(shards, total))
  {
    if shards == [] {
      assert Present(Extract(shards, total).0) == {};
    } else {
      var front, last := shards[..|shards| - 1], shards[|shards| - 1];
      CountExactIffBlanksCovered(front, total);
      var (before, _) := Extract(front, total);
      if last.Some? && 0 <= last.value.index < total {
        var i := last.value.index;
        SlotFilledIff(front, total, i);
        if before[i].None? { SlotSet(before, i, last.value.data); }
      }
      hide Present, Fills;
    }
  }

  lemma SlotSet(raw: seq<Option<Bytes>>, i: nat, data: Option<Bytes>)
    requires i < |raw| && raw[i].None?
    ensures |Present(raw[i := data])| == |Present(raw)| + (if data.Some? then 1 else 0)
  {
    if data.Some? {
      assert Present(raw[i := data]) == Present(raw) + {i};
    } else {
      assert raw[i := data] == raw;
    }
  }

  /** Shards that carry no data pass the count although nothing was received. */
  lemma {:induction false} EmptyShardsOvercount(total: nat, n: nat)
    requires total >= 1
    ensures Extract(seq(n, _ => Some(EncodedShard(0, None))), total) == (seq(total, _ => None), n)
  {
    if n > 0 {
      EmptyShardsOvercount(total, n - 1);
      var shards := seq(n, _ => Some(EncodedShard(0, None)));
      assert shards[..n - 1] == seq(n - 1, _ => Some(EncodedShard(0, None)));
      var none: seq<Option<Bytes>> := seq(total, _ => None);
      assert none[0 := None] == none;
    }
  }

  function Decoded(code: Code, shards: seq<Option<EncodedShard>>, originalLen: int): Result<Bytes, ErasureError>
    requires code.Valid()
  {
    if shards == [] then Err(NoShards)
    else if originalLen <= 0 then Err(BadLength)
    else
      var (raw, count) := Extract(shards, code.total);
      if count < code.k then Err(InsufficientShards)
      else
        var word := code.reconstruct(raw);
        if word.None? then Err(CannotReconstruct)
        else Ok(Take(Concat(word.value[..code.k]), originalLen))
  }

  method DecodeShards(code: Code, shards: seq<Option<EncodedShard>>, originalLen: int)
    returns (r: Result<Bytes, ErasureError>)
    requires code.Valid()
    ensures r == Decoded(code, shards, originalLen)
  {
    if |shards| == 0 { return Err(NoShards); }
    if originalLen <= 0 { return Err(BadLength); }
    var raw, count := ExtractRawShards(shards, code.total);
    if count < code.k { return Err(InsufficientShards); }
    var word := code.reconstruct(raw);
    if word.None? { return Err(CannotReconstruct); }
    var data := ReassembleData(word.value, code.k, originalLen);
    r := Ok(data);
  }

  /** `word` is the code word of `data`. */
  ghost predicate Encodes(code: Code, data: Bytes, word: seq<Bytes>) {
    && |word| == code.total && code.k <= |word| && code.k >= 1
    && Even(word[..code.k], ShardSize(|data|, code.k))
    && Splits(data, ShardSize(|data|, code.k), word[..code.k])
    && word == code.encode(word[..code.k])
  }

  /** Shard `i` of the result is row `i` of the message's code word. */
  method EncodeMessage(code: Code, data: Bytes)
    returns (r: Result<seq<EncodedShard>, ErasureError>, ghost word: seq<Bytes>)
    requires code.Valid()
    ensures data == [] ==> r == Err(EmptyData)
    ensures data != [] ==>
      && Encodes(code, data, word) && r.Ok? && |r.value| == code.total
      && forall i | 0 <= i < code.total :: r.value[i] == EncodedShard(i, Some(word[i]))
  {
    word := [];
    if |data| == 0 { return Err(EmptyData), []; }
    var size := ShardSize(|data|, code.k);
    var rows := SplitIntoShards(data, size, code.k, code.total);
    assert Even(rows[..code.k], size) by {
      assert forall r | 0 <= r < code.k :: IsShard(data, size, r, rows[..code.k][r]);
    }
    var encoded := code.encode(rows[..code.k]);
    word := encoded;
    r := Ok(seq(code.total, i requires 0 <= i < code.total => EncodedShard(i, Some(encoded[i]))));
  }

  /** Any genuine shards, in any order, with repeats, gaps and foreign indices, give back the message
      exactly when they cover at least `k` different rows; otherwise they are refused as too few. */
  lemma DecodeIffEnough(code: Code, data: Bytes, word: seq<Bytes>, shards: seq<Option<EncodedShard>>)
    requires code.Valid() && data != [] && Encodes(code, data, word) && Genuine(shards, word) && shards != []
    ensures Decoded(code, shards, |data|) ==
      if |Indices(shards, code.total)| >= code.k then Ok(data) else Err(InsufficientShards)
  {
    ExtractGenuine(shards, word);
    var (raw, count) := Extract(shards, code.total);
    if count >= code.k {
      Reconstructs(code, data, word, raw);
      SplitKeepsMessage(data, code.k, word[..code.k]);
    }
    hide Agrees, Present, Indices, Extract, Concat, Take, ShardSize, Splits, Even, Genuine;
  }

  /** The error is that of the first check that fails, and a shorter length gives that much of the message. */
  lemma DecodeOutcomes(code: Code, data: Bytes, word: seq<Bytes>, shards: seq<Option<EncodedShard>>, len: int)
    requires code.Valid() && data != [] && Encodes(code, data, word) && Genuine(shards, word)
    ensures Decoded(code, shards, len) == Err(NoShards) <==> shards == []
    ensures Decoded(code, shards, len) == Err(BadLength) <==> shards != [] && len < 1
    ensures shards != [] && 1 <= len <= |data| && |Indices(shards, code.total)| >= code.k ==>
      Decoded(code, shards, len) == Ok(data[..len])
  {
    if shards != [] && 1 <= len <= |data| && |Indices(shards, code.total)| >= code.k {
      ExtractGenuine(shards, word);
      Reconstructs(code, data, word, Extract(shards, code.total).0);
      SplitKeepsMessage(data, code.k, word[..code.k]);
      ShorterTake(Concat(word[..code.k]), data, len);
    }
    hide Agrees, Present, Indices, Extract, Concat, ShardSize, Splits, Even, Genuine;
  }

  lemma ShorterTake(s: Bytes, data: Bytes, len: nat)
    requires Take(s, |data|) == data && len <= |data|
    ensures Take(s, len) == data[..len]
  {
  }

  lemma Reconstructs(code: Code, data: Bytes, word: seq<Bytes>, raw: seq<Option<Bytes>>)
    requires code.Valid() && Encodes(code, data, word) && Agrees(raw, word) && |Present(raw)| >= code.k
    ensures code.reconstruct(raw) == Some(word)
  {
    hide Even, Agrees, Present, Splits, ShardSize;
    var d := word[..code.k];
    assert |d| == code.k && Even(d, ShardSize(|data|, code.k)) && Agrees(raw, code.encode(d));
  }
}
