/** Choosing storage nodes by XOR distance between 64-bit hashes. */
module NodeSelection {
  import opened Common
  import opened Bits

  type Key = k: seq<Byte> | |k| == 32 witness seq(32, _ => 0)
  type Address = string

  // ----- Hashing -----

  /** The first `n` bytes of the word that starts at `i`, put in place one by one. */
  function Word(pk: Key, i: nat, n: nat): nat
    requires i + n <= 32 && n <= 8
  {
    if n == 0 then 0 else Or(Word(pk, i, n - 1), ShiftLeft(pk[i + n - 1], (n - 1) * 8))
  }

  /** The exclusive or of the key's first `n` words. */
  function HashOf(pk: Key, n: nat): nat
    requires n <= 4
  {
    if n == 0 then 0 else Xor(HashOf(pk, n - 1), Word(pk, (n - 1) * 8, 8))
  }

  function NodeHash(pk: Key): nat {
    HashOf(pk, 4)
  }

  method CalculateNodeHash(pk: Key) returns (hash: nat)
    ensures hash == NodeHash(pk)
  {
    hide Word, Xor;
    hash := 0;
    var i := 0;
    ghost var words := 0;
    while i < |pk|
      invariant 0 <= words <= 4 && i == words * 8 && hash == HashOf(pk, words)
    {
      var chunk := ReadChunk(pk, i);
      hash := Xor(hash, chunk);
      i, words := i + 8, words + 1;
    }
  }

  method ReadChunk(pk: Key, i: nat) returns (chunk: nat)
    requires i + 8 <= 32
    ensures chunk == Word(pk, i, 8)
  {
    hide ShiftLeft, Or;
    chunk := 0;
    var j := 0;
    while j < 8 && i + j < |pk|
      invariant 0 <= j <= 8 && chunk == Word(pk, i, j)
    {
      chunk := Or(chunk, ShiftLeft(pk[i + j], j * 8));
      j := j + 1;
    }
  }

  /** Bytes as a number, least significant first. */
  function LittleEndian(b: seq<Byte>): nat {
    if b == [] then 0 else b[0] + 256 * LittleEndian(b[1..])
  }

  lemma {:induction false} LittleEndianSnoc(b: seq<Byte>, x: Byte)
    ensures LittleEndian(b + [x]) == LittleEndian(b) + ShiftLeft(x, |b| * 8)
    ensures LittleEndian(b) < Pow2(|b| * 8)
  {
    if b != [] {
      hide ShiftLeft;
      assert (b + [x])[1..] == b[1..] + [x];
      LittleEndianSnoc(b[1..], x);
      ShiftByByte(x, |b[1..]| * 8);
      PowIsShift(|b| * 8);
      PowIsShift(|b[1..]| * 8);
      ShiftByByte(1, |b[1..]| * 8);
    } else {
      assert b + [x] == [x];
    }
  }

  lemma {:induction false} PowIsShift(k: nat)
    ensures Pow2(k) == ShiftLeft(1, k)
  {
    if k > 0 { PowIsShift(k - 1); }
  }

  /** The loops read the words of a key little-endian. */
  lemma {:induction false} WordIsLittleEndian(pk: Key, i: nat, n: nat)
    requires i + n <= 32 && n <= 8
    ensures Word(pk, i, n) == LittleEndian(pk[i..i + n])
  {
    if n > 0 {
      hide Or, ShiftLeft, LittleEndian;
      WordIsLittleEndian(pk, i, n - 1);
      var front, x := pk[i..i + n - 1], pk[i + n - 1];
      LittleEndianSnoc(front, x);
      assert pk[i..i + n] == front + [x];
      OrSideBySide(Word(pk, i, n - 1), x, (n - 1) * 8);
    }
  }

  /** Bit `k` of the little-endian word `i` of a key. */
  predicate WordBit(pk: Key, i: nat, k: nat)
    requires i < 4
  {
    Bit(LittleEndian(pk[8 * i..8 * i + 8]), k)
  }

  /** Every bit of the hash is the parity of that bit in the key's four words. */
  lemma HashBits(pk: Key, k: nat)
    ensures Bit(NodeHash(pk), k) <==>
      ((WordBit(pk, 0, k) != WordBit(pk, 1, k)) != WordBit(pk, 2, k)) != WordBit(pk, 3, k)
  {
    hide Bit, Xor, Word, LittleEndian;
    FourWords(pk);
    WordIsLittleEndian(pk, 0, 8);
    WordIsLittleEndian(pk, 8, 8);
    WordIsLittleEndian(pk, 16, 8);
    WordIsLittleEndian(pk, 24, 8);
    var a, b, c, d := Word(pk, 0, 8), Word(pk, 8, 8), Word(pk, 16, 8), Word(pk, 24, 8);
    XorBit(0, a, k);
    XorBit(Xor(0, a), b, k);
    XorBit(Xor(Xor(0, a), b), c, k);
    XorBit(Xor(Xor(Xor(0, a), b), c), d, k);
    ZeroBits(k);
  }

  lemma {:induction false} ZeroBits(k: nat)
    ensures !Bit(0, k)
  {
    if k > 0 { ZeroBits(k - 1); }
  }

  lemma HashFits(pk: Key)
    ensures NodeHash(pk) < U64
  {
    hide Xor, Word, LittleEndian;
    FourWords(pk);
    var a, b, c, d := Word(pk, 0, 8), Word(pk, 8, 8), Word(pk, 16, 8), Word(pk, 24, 8);
    WordFits(pk, 0);
    WordFits(pk, 8);
    WordFits(pk, 16);
    WordFits(pk, 24);
    SixtyFourBits();
    XorFits(0, a, 64);
    XorFits(Xor(0, a), b, 64);
    XorFits(Xor(Xor(0, a), b), c, 64);
    XorFits(Xor(Xor(Xor(0, a), b), c), d, 64);
  }

  lemma WordFits(pk: Key, i: nat)
    requires i + 8 <= 32
    ensures Word(pk, i, 8) < Pow2(64)
  {
    WordIsLittleEndian(pk, i, 8);
    LittleEndianSnoc(pk[i..i + 8], 0);
  }

  lemma SixtyFourBits()
    ensures Pow2(64) == U64
  {
    hide ShiftLeft;
    PowIsShift(0); PowIsShift(64);
    assert ShiftLeft(1, 0) == 1;
    ShiftByByte(1, 0); ShiftByByte(1, 8); ShiftByByte(1, 16); ShiftByByte(1, 24);
    ShiftByByte(1, 32); ShiftByByte(1, 40); ShiftByByte(1, 48); ShiftByByte(1, 56);
  }

  lemma {:induction false} WordIsItsBytes(a: Key, i: nat, b: Key, j: nat, n: nat)
    requires i + 8 <= 32 && j + 8 <= 32 && n <= 8 && a[i..i + 8] == b[j..j + 8]
    ensures Word(a, i, n) == Word(b, j, n)
  {
    if n > 0 {
      hide ShiftLeft, Or;
      WordIsItsBytes(a, i, b, j, n - 1);
      assert a[i..i + 8][n - 1] == b[j..j + 8][n - 1];
    }
  }

  /** Keys that differ only in the order of their first two words have the same hash. */
  lemma SwappedWordsCollide(pk: Key)
    ensures NodeHash(pk[8..16] + pk[..8] + pk[16..]) == NodeHash(pk)
  {
    var swapped := pk[8..16] + pk[..8] + pk[16..];
    WordIsItsBytes(swapped, 0, pk, 8, 8);
    WordIsItsBytes(swapped, 8, pk, 0, 8);
    WordIsItsBytes(swapped, 16, pk, 16, 8);
    WordIsItsBytes(swapped, 24, pk, 24, 8);
    FourWords(swapped);
    FourWords(pk);
    XorSwaps(Word(pk, 0, 8), Word(pk, 8, 8));
    hide HashOf, Word, Xor;
  }

  lemma FourWords(pk: Key)
    ensures NodeHash(pk) == Xor(Xor(Xor(Xor(0, Word(pk, 0, 8)), Word(pk, 8, 8)), Word(pk, 16, 8)), Word(pk, 24, 8))
  {
    hide Word, Xor;
    assert HashOf(pk, 0) == 0;
    assert HashOf(pk, 1) == Xor(HashOf(pk, 0), Word(pk, 0, 8));
    assert HashOf(pk, 2) == Xor(HashOf(pk, 1), Word(pk, 8, 8));
    assert HashOf(pk, 3) == Xor(HashOf(pk, 2), Word(pk, 16, 8));
    assert HashOf(pk, 4) == Xor(HashOf(pk, 3), Word(pk, 24, 8));
  }

  lemma XorSwaps(a: nat, b: nat)
    ensures Xor(Xor(0, a), b) == Xor(Xor(0, b), a)
  {
    hide Xor;
    XorAssociates(0, a, b);
    XorAssociates(0, b, a);
    XorCommutes(a, b);
  }

  // ----- Selections -----

  function DistanceTo(target: Key, k: Key): nat {
    Xor(NodeHash(target), NodeHash(k))
  }

  predicate NoFarther(target: Key, a: Key, b: Key) {
    DistanceTo(target, a) <= DistanceTo(target, b)
  }

  lemma NoFartherOrders(target: Key, a: Key, b: Key, c: Key)
    ensures NoFarther(target, a, b) || NoFarther(target, b, a)
    ensures NoFarther(target, a, b) && NoFarther(target, b, c) ==> NoFarther(target, a, c)
  {
    hide DistanceTo;
  }

  lemma TieIffSameHash(target: Key, a: Key, b: Key)
    ensures NoFarther(target, a, b) && NoFarther(target, b, a) <==> NodeHash(a) == NodeHash(b)
  {
    hide NodeHash, Xor;
    XorInjective(NodeHash(target), NodeHash(a), NodeHash(b));
  }

  /** A node is at distance 0 exactly when it hashes like the target. */
  lemma ZeroDistanceIff(target: Key, k: Key)
    ensures DistanceTo(target, k) == 0 <==> NodeHash(k) == NodeHash(target)
  {
    hide NodeHash, Xor;
    XorZeroIff(NodeHash(target), NodeHash(k));
  }

  /** Of two nodes that hash differently, the nearer is the one that agrees with the target in the highest bit in
      which their hashes differ. */
  lemma NearerIff(target: Key, a: Key, b: Key, k: nat)
    requires TopDifference(NodeHash(a), NodeHash(b), k)
    ensures NoFarther(target, a, b) <==> Bit(NodeHash(a), k) == Bit(NodeHash(target), k)
  {
    hide NodeHash, Xor, Bit;
    var t, x, y := NodeHash(target), NodeHash(a), NodeHash(b);
    assert TopDifference(y, x, k);
    NearerIffAgrees(t, x, y, k);
    NearerIffAgrees(t, y, x, k);
  }

  function Limit(n: int, known: nat): nat {
    if n < 0 then 0 else if n < known then n else known
  }

  ghost predicate Distinct(keys: seq<Key>) {
    forall i, j | 0 <= i < j < |keys| :: keys[i] != keys[j]
  }

  ghost predicate Ascending(target: Key, keys: seq<Key>) {
    forall i, j | 0 <= i < j < |keys| :: NoFarther(target, keys[i], keys[j])
  }

  /** As many known nodes as allowed, nearest first, none farther than a node left out. */
  ghost predicate Nearest(nodes: map<Key, Address>, target: Key, n: int, chosen: seq<Key>) {
    && |chosen| == Limit(n, |nodes|)
    && (forall k :: k in chosen ==> k in nodes)
    && Distinct(chosen) && Ascending(target, chosen)
    && (forall k, i :: k in nodes && k !in chosen && 0 <= i < |chosen| ==> NoFarther(target, chosen[i], k))
  }

  function Addresses(nodes: map<Key, Address>, chosen: seq<Key>): (r: seq<Address>)
    requires forall k :: k in chosen ==> k in nodes
    ensures |r| == |chosen| && forall i | 0 <= i < |r| :: r[i] == nodes[chosen[i]]
  {
    if chosen == [] then [] else Addresses(nodes, chosen[..|chosen| - 1]) + [nodes[chosen[|chosen| - 1]]]
  }

  /** Nodes that hash alike live at the same address. */
  ghost predicate TiesShareAddress(nodes: map<Key, Address>) {
    forall a, b :: a in nodes && b in nodes && NodeHash(a) == NodeHash(b) ==> nodes[a] == nodes[b]
  }

  function SetOf(keys: seq<Key>): set<Key> {
    set k | k in keys
  }

  lemma {:induction false} SetOfSize(keys: seq<Key>)
    ensures |SetOf(keys)| <= |keys|
    ensures Distinct(keys) ==> |SetOf(keys)| == |keys|
  {
    if keys != [] {
      var front, last := keys[..|keys| - 1], keys[|keys| - 1];
      SetOfSize(front);
      assert SetOf(keys) == SetOf(front) + {last};
    }
  }

  /** Of two selections of the same size, neither has a farther node at any rank. */
  lemma SameRanks(nodes: map<Key, Address>, target: Key, n: int, c: seq<Key>, d: seq<Key>, i: nat)
    requires Nearest(nodes, target, n, c) && Nearest(nodes, target, n, d) && i < |c|
    ensures NoFarther(target, c[i], d[i])
  {
    if !NoFarther(target, c[i], d[i]) {
      forall k | k in d[..i + 1] ensures k in c[..i] {
        CloserIsEarlier(nodes, target, n, c, d, i, k);
      }
      assert SetOf(d[..i + 1]) <= SetOf(c[..i]);
      SetOfSize(d[..i + 1]);
      SetOfSize(c[..i]);
      SubsetSize(SetOf(d[..i + 1]), SetOf(c[..i]));
    }
  }

  lemma CloserIsEarlier(nodes: map<Key, Address>, target: Key, n: int, c: seq<Key>, d: seq<Key>, i: nat, k: Key)
    requires Nearest(nodes, target, n, c) && Nearest(nodes, target, n, d) && i < |c|
    requires !NoFarther(target, c[i], d[i]) && k in d[..i + 1]
    ensures k in c[..i]
  {
    hide NoFarther, Distinct;
    var j :| 0 <= j <= i && d[j] == k;
    NoFartherOrders(target, c[i], k, d[i]);
    assert j < i ==> NoFarther(target, k, d[i]);
    NoFartherOrders(target, k, k, k);
    assert !NoFarther(target, c[i], k);
    if k in c {
      var p :| 0 <= p < |c| && c[p] == k;
      assert p < i;
      assert c[..i][p] == k;
    }
  }

  lemma SubsetSize(a: set<Key>, b: set<Key>)
    requires a <= b
    ensures |a| <= |b|
  {
    assert b == a + (b - a);
  }

  /** The selected addresses are determined when nodes that hash alike share their address. */
  lemma SelectionDetermined(nodes: map<Key, Address>, target: Key, n: int, c: seq<Key>, d: seq<Key>)
    requires TiesShareAddress(nodes) && Nearest(nodes, target, n, c) && Nearest(nodes, target, n, d)
    ensures Addresses(nodes, c) == Addresses(nodes, d)
  {
    forall i | 0 <= i < |c| ensures nodes[c[i]] == nodes[d[i]] {
      SameRanks(nodes, target, n, c, d, i);
      SameRanks(nodes, target, n, d, c, i);
      TieIffSameHash(target, c[i], d[i]);
      assert c[i] in c && d[i] in d;
    }
  }

  lemma ShorterSelection(nodes: map<Key, Address>, target: Key, n: int, m: int, d: seq<Key>)
    requires n <= m && Nearest(nodes, target, m, d)
    ensures Limit(n, |nodes|) <= |d| && Nearest(nodes, target, n, d[..Limit(n, |nodes|)])
  {
    hide NoFarther;
    var c := d[..Limit(n, |nodes|)];
    forall k, i | k in nodes && k !in c && 0 <= i < |c| ensures NoFarther(target, c[i], k) {
      assert k in d ==> k in d[|c|..] by { assert d == c + d[|c|..]; }
      if k in d {
        var j :| |c| <= j < |d| && d[j] == k;
      }
    }
  }

  /** The nodes chosen for a smaller count are the first ones chosen for a larger count. */
  lemma SmallerSelectionIsPrefix(nodes: map<Key, Address>, target: Key, n: int, m: int, c: seq<Key>, d: seq<Key>)
    requires n <= m && TiesShareAddress(nodes) && Nearest(nodes, target, n, c) && Nearest(nodes, target, m, d)
    ensures Addresses(nodes, c) <= Addresses(nodes, d)
  {
    hide Nearest, TiesShareAddress;
    ShorterSelection(nodes, target, n, m, d);
    assert Nearest(nodes, target, n, d[..Limit(n, |nodes|)]);
    SelectionDetermined(nodes, target, n, c, d[..Limit(n, |nodes|)]);
  }

  /** What the choice means for the hashes: where a chosen node and one left out first differ, the chosen one agrees
      with the target. */
  lemma ChosenAgreesFirst(nodes: map<Key, Address>, target: Key, n: int, chosen: seq<Key>, i: nat, k: Key, bit: nat)
    requires Nearest(nodes, target, n, chosen) && i < |chosen| && k in nodes && k !in chosen
    requires TopDifference(NodeHash(chosen[i]), NodeHash(k), bit)
    ensures Bit(NodeHash(chosen[i]), bit) == Bit(NodeHash(target), bit)
  {
    hide NodeHash, NoFarther, Bit, Distinct, Ascending;
    NearerIff(target, chosen[i], k, bit);
  }

  /** A known node that hashes like the target comes first. */
  lemma ExactHashFirst(nodes: map<Key, Address>, target: Key, n: int, chosen: seq<Key>, k: Key)
    requires Nearest(nodes, target, n, chosen) && n > 0 && k in nodes && NodeHash(k) == NodeHash(target)
    ensures chosen != [] && NodeHash(chosen[0]) == NodeHash(target)
  {
    hide NodeHash, DistanceTo, Distinct;
    assert nodes.Keys != {} && |nodes| == |nodes.Keys|;
    ZeroDistanceIff(target, k);
    ZeroDistanceIff(target, chosen[0]);
    if k in chosen {
      var j :| 0 <= j < |chosen| && chosen[j] == k;
    }
  }

  // ----- When the choice is independent of iteration order -----

  /** Every set of keys can be listed nearest first. */
  lemma {:induction false} ListAscending(target: Key, keys: set<Key>) returns (list: seq<Key>)
    ensures Distinct(list) && Ascending(target, list) && |list| == |keys| && SetOf(list) == keys
    decreases |keys|
  {
    hide NoFarther;
    if keys == {} {
      list := [];
    } else {
      var k :| k in keys;
      var rest := ListAscending(target, keys - {k});
      var i := Rank(target, rest, k);
      list := rest[..i] + [k] + rest[i..];
      InsertAscending(target, rest, k, i);
      assert rest == rest[..i] + rest[i..];
      assert SetOf(list) == SetOf(rest) + {k};
    }
  }

  /** Where `k` belongs in an ascending list. */
  lemma {:induction false} Rank(target: Key, list: seq<Key>, k: Key) returns (i: nat)
    requires Ascending(target, list)
    ensures i <= |list|
    ensures forall j | 0 <= j < i :: NoFarther(target, list[j], k)
    ensures forall j | i <= j < |list| :: NoFarther(target, k, list[j])
  {
    hide NoFarther;
    if list == [] {
      i := 0;
    } else {
      var n := |list| - 1;
      NoFartherOrders(target, list[n], k, k);
      if NoFarther(target, list[n], k) {
        i := |list|;
        forall j | 0 <= j < n ensures NoFarther(target, list[j], k) { NoFartherOrders(target, list[j], list[n], k); }
      } else {
        i := Rank(target, list[..n], k);
      }
    }
  }

  lemma InsertAscending(target: Key, list: seq<Key>, k: Key, i: nat)
    requires Distinct(list) && Ascending(target, list) && k !in list && i <= |list|
    requires forall j | 0 <= j < i :: NoFarther(target, list[j], k)
    requires forall j | i <= j < |list| :: NoFarther(target, k, list[j])
    ensures Distinct(list[..i] + [k] + list[i..]) && Ascending(target, list[..i] + [k] + list[i..])
  {
    hide NoFarther;
    var r := list[..i] + [k] + list[i..];
    assert forall j | 0 <= j < |r| :: r[j] == if j < i then list[j] else if j == i then k else list[j - 1];
  }

  lemma ListIsNearest(nodes: map<Key, Address>, target: Key, list: seq<Key>)
    requires Distinct(list) && Ascending(target, list) && |list| == |nodes| && SetOf(list) == nodes.Keys
    ensures Nearest(nodes, target, |nodes|, list)
  {
    hide NoFarther, Distinct, Ascending;
    assert forall k :: k in list <==> k in SetOf(list);
  }

  lemma SwapTied(target: Key, list: seq<Key>, i: nat, j: nat)
    requires Distinct(list) && Ascending(target, list) && i < j < |list| && NodeHash(list[i]) == NodeHash(list[j])
    ensures
      var swapped := list[i := list[j]][j := list[i]];
      Distinct(swapped) && Ascending(target, swapped) && SetOf(swapped) == SetOf(list)
  {
    var s := list[i := list[j]][j := list[i]];
    forall a, b | 0 <= a < b < |s| ensures NoFarther(target, s[a], s[b]) {
      TiedStays(target, list, i, j, a, b);
    }
    forall k | k in list ensures k in s {
      var p :| 0 <= p < |list| && list[p] == k;
      assert s[if p == i then j else if p == j then i else p] == k;
    }
    assert forall k :: k in s ==> k in list;
  }

  lemma TiedStays(target: Key, list: seq<Key>, i: nat, j: nat, a: nat, b: nat)
    requires Ascending(target, list) && i < j < |list| && NodeHash(list[i]) == NodeHash(list[j]) && a < b < |list|
    ensures
      var s := list[i := list[j]][j := list[i]];
      NoFarther(target, s[a], s[b])
  {
    hide NodeHash, Xor;
  }

  /** The chosen addresses never depend on the iteration order, or on how ties are sorted, exactly when
      nodes that hash alike share their address. */
  lemma OrderIndependentIff(nodes: map<Key, Address>, target: Key)
    ensures TiesShareAddress(nodes) <==>
      forall n, c, d :: Nearest(nodes, target, n, c) && Nearest(nodes, target, n, d) ==>
        Addresses(nodes, c) == Addresses(nodes, d)
  {
    if TiesShareAddress(nodes) {
      forall n, c, d | Nearest(nodes, target, n, c) && Nearest(nodes, target, n, d)
        ensures Addresses(nodes, c) == Addresses(nodes, d)
      {
        SelectionDetermined(nodes, target, n, c, d);
      }
    } else {
      var n, c, d := TieGivesTwoChoices(nodes, target);
    }
  }

  lemma TieGivesTwoChoices(nodes: map<Key, Address>, target: Key) returns (n: int, c: seq<Key>, d: seq<Key>)
    requires !TiesShareAddress(nodes)
    ensures Nearest(nodes, target, n, c) && Nearest(nodes, target, n, d) && Addresses(nodes, c) != Addresses(nodes, d)
  {
    hide NodeHash, NoFarther;
    var a, b :| a in nodes && b in nodes && NodeHash(a) == NodeHash(b) && nodes[a] != nodes[b];
    hide Ascending, Distinct;
    var list := ListAscending(target, nodes.Keys);
    var i, j := PlacesOf(list, a, b);
    n, c, d := |nodes|, list, list[i := list[j]][j := list[i]];
    SwapTied(target, list, i, j);
    ListIsNearest(nodes, target, c);
    ListIsNearest(nodes, target, d);
    assert Addresses(nodes, c)[i] != Addresses(nodes, d)[i];
  }

  lemma PlacesOf(list: seq<Key>, a: Key, b: Key) returns (i: nat, j: nat)
    requires a in SetOf(list) && b in SetOf(list) && a != b
    ensures i < j < |list| && ((list[i] == a && list[j] == b) || (list[i] == b && list[j] == a))
  {
    i :| i < |list| && list[i] == a;
    j :| j < |list| && list[j] == b;
    if j < i { i, j := j, i; }
  }

  // ----- The search -----

  datatype Candidate = Candidate(key: Key, addr: Address, distance: nat)

  function KeysOf(cs: seq<Candidate>): (keys: seq<Key>)
    ensures |keys| == |cs| && forall i | 0 <= i < |cs| :: keys[i] == cs[i].key
  {
    seq(|cs|, i requires 0 <= i < |cs| => cs[i].key)
  }

  /** Each candidate is a known node at its distance, and no node is listed twice. */
  ghost predicate Describes(nodes: map<Key, Address>, target: Key, cs: seq<Candidate>) {
    && (forall x :: x in cs ==> x.key in nodes && x.addr == nodes[x.key] && x.distance == DistanceTo(target, x.key))
    && (forall i, j | 0 <= i < j < |cs| :: cs[i] != cs[j])
  }

  ghost predicate Sorted(cs: seq<Candidate>) {
    forall i, j | 0 <= i < j < |cs| :: cs[i].distance <= cs[j].distance
  }

  lemma CountTwice(cs: seq<Candidate>, i: nat, j: nat)
    requires i < j < |cs| && cs[i] == cs[j]
    ensures multiset(cs)[cs[i]] >= 2
  {
    assert cs == cs[..j] + [cs[j]] + cs[j + 1..];
    assert cs[..j][i] == cs[i];
    assert cs[i] in multiset(cs[..j]);
  }

  lemma {:induction false} CountOnce(cs: seq<Candidate>, x: Candidate)
    requires forall i, j | 0 <= i < j < |cs| :: cs[i] != cs[j]
    ensures multiset(cs)[x] <= 1
  {
    if cs != [] {
      var n := |cs| - 1;
      CountOnce(cs[..n], x);
      assert cs == cs[..n] + [cs[n]];
      if x == cs[n] { assert x !in multiset(cs[..n]); }
    }
  }

  lemma RearrangedDescribes(nodes: map<Key, Address>, target: Key, cs: seq<Candidate>, sorted: seq<Candidate>)
    requires Describes(nodes, target, cs) && multiset(cs) == multiset(sorted)
    ensures Describes(nodes, target, sorted) && |sorted| == |cs|
  {
    assert |multiset(cs)| == |multiset(sorted)|;
    assert forall x :: x in sorted ==> x in multiset(cs);
    forall i, j | 0 <= i < j < |sorted| ensures sorted[i] != sorted[j] {
      if sorted[i] == sorted[j] {
        CountTwice(sorted, i, j);
        CountOnce(cs, sorted[i]);
      }
    }
  }

  /** Goes over the known nodes in whatever order the map yields them. */
  method CollectCandidateNodes(nodes: map<Key, Address>, target: Key) returns (cs: seq<Candidate>)
    ensures Describes(nodes, target, cs) && |cs| == |nodes|
  {
    hide NodeHash, Xor;
    cs := [];
    var targetHash := CalculateNodeHash(target);
    var todo := nodes.Keys;
    while todo != {}
      invariant todo <= nodes.Keys && |cs| + |todo| == |nodes.Keys|
      invariant Describes(nodes, target, cs) && forall x :: x in cs ==> x.key !in todo
    {
      var pk :| pk in todo;
      var nodeHash := CalculateNodeHash(pk);
      cs := cs + [Candidate(pk, nodes[pk], Xor(targetHash, nodeHash))];
      todo := todo - {pk};
    }
  }

  /** Some order by distance; nothing is promised about ties. */
  method SortCandidatesByDistance(cs: seq<Candidate>) returns (sorted: seq<Candidate>)
    ensures Sorted(sorted) && multiset(sorted) == multiset(cs)
  {
    sorted := [];
    for i := 0 to |cs|
      invariant Sorted(sorted) && multiset(sorted) == multiset(cs[..i])
    {
      assert cs[..i + 1] == cs[..i] + [cs[i]];
      sorted := InsertByDistance(sorted, cs[i]);
    }
    assert cs[..|cs|] == cs;
  }

  method InsertByDistance(sorted: seq<Candidate>, x: Candidate) returns (r: seq<Candidate>)
    requires Sorted(sorted)
    ensures Sorted(r) && multiset(r) == multiset(sorted) + multiset{x}
  {
    var i := |sorted|;
    while i > 0 && x.distance < sorted[i - 1].distance
      invariant 0 <= i <= |sorted| && forall j | i <= j < |sorted| :: x.distance < sorted[j].distance
    {
      i := i - 1;
    }
    InsertSorted(sorted, x, i);
    assert sorted == sorted[..i] + sorted[i..];
    hide Sorted;
    r := sorted[..i] + [x] + sorted[i..];
  }

  lemma InsertSorted(sorted: seq<Candidate>, x: Candidate, i: nat)
    requires Sorted(sorted) && i <= |sorted| && (i > 0 ==> sorted[i - 1].distance <= x.distance)
    requires forall j | i <= j < |sorted| :: x.distance <= sorted[j].distance
    ensures Sorted(sorted[..i] + [x] + sorted[i..])
  {
    var r := sorted[..i] + [x] + sorted[i..];
    assert forall j | 0 <= j < |r| :: r[j] == if j < i then sorted[j] else if j == i then x else sorted[j - 1];
  }

  method SelectClosestNodes(cs: seq<Candidate>, maxNodes: int) returns (nodes: seq<Address>)
    ensures |nodes| == Limit(maxNodes, |cs|) && forall i | 0 <= i < |nodes| :: nodes[i] == cs[i].addr
  {
    nodes := [];
    for i := 0 to |cs|
      invariant |nodes| == i <= Limit(maxNodes, |cs|) && forall j | 0 <= j < i :: nodes[j] == cs[j].addr
    {
      if i >= maxNodes { break; }
      nodes := nodes + [cs[i].addr];
    }
  }

  /** The addresses of some nearest nodes. */
  ghost predicate Selects(nodes: map<Key, Address>, target: Key, n: int, found: seq<Address>) {
    exists chosen :: Nearest(nodes, target, n, chosen) && found == Addresses(nodes, chosen)
  }

  method FindStorageNodes(nodes: map<Key, Address>, target: Key, maxNodes: int) returns (found: seq<Address>)
    ensures Selects(nodes, target, maxNodes, found)
    ensures if maxNodes <= 0 then found == [] else |found| <= maxNodes && (|found| < maxNodes ==> |found| == |nodes|)
  {
    var cs := CollectCandidateNodes(nodes, target);
    var sorted := SortCandidatesByDistance(cs);
    RearrangedDescribes(nodes, target, cs, sorted);
    found := SelectClosestNodes(sorted, maxNodes);
    ghost var chosen := KeysOf(sorted)[..|found|];
    SortedIsNearest(nodes, target, sorted);
    ShorterSelection(nodes, target, maxNodes, if maxNodes < |nodes| then |nodes| else maxNodes, KeysOf(sorted));
    hide Nearest, Describes, Sorted;
    assert chosen == KeysOf(sorted)[..Limit(maxNodes, |nodes|)];
    assert Nearest(nodes, target, maxNodes, chosen) && found == Addresses(nodes, chosen);
  }

  lemma SortedIsNearest(nodes: map<Key, Address>, target: Key, cs: seq<Candidate>)
    requires Describes(nodes, target, cs) && Sorted(cs) && |cs| == |nodes|
    ensures forall n: int | n >= |nodes| :: Nearest(nodes, target, n, KeysOf(cs))
    ensures forall i | 0 <= i < |cs| :: cs[i].key in nodes && cs[i].addr == nodes[cs[i].key]
  {
    hide DistanceTo;
    var keys := KeysOf(cs);
    assert forall i | 0 <= i < |cs| :: cs[i] in cs;
    SetOfSize(keys);
    SameSize(SetOf(keys), nodes.Keys);
  }

  lemma SameSize(a: set<Key>, b: set<Key>)
    requires a <= b && |a| == |b|
    ensures a == b
  {
    assert b == a + (b - a);
  }
}
