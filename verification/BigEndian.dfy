/** Fixed-width big-endian integers, as `encoding/binary` writes and reads them. */
module BigEndian {
  import opened Common

  /** 256 to the power `n`: the number of values `n` bytes can hold. */
  function Capacity(n: nat): (c: nat)
    ensures c > 0
  {
    if n == 0 then 1 else 256 * Capacity(n - 1)
  }

  /** The low `n` bytes of `v`, most significant first. */
  function Put(v: nat, n: nat): (b: seq<Byte>)
    ensures |b| == n
  {
    if n == 0 then [] else Put(v / 256, n - 1) + [v % 256]
  }

  function Get(b: seq<Byte>): (v: nat)
    ensures v < Capacity(|b|)
  {
    if b == [] then 0 else 256 * Get(b[..|b| - 1]) + b[|b| - 1]
  }

  /** Reading back what was written gives the value, for every value that fits the width. */
  lemma {:induction false} GetPut(v: nat, n: nat)
    requires v < Capacity(n)
    ensures Get(Put(v, n)) == v
  {
    if n > 0 {
      GetPut(v / 256, n - 1);
      assert Put(v, n)[..n - 1] == Put(v / 256, n - 1);
    }
  }

  lemma QuotientOfQuotient(v: nat, c: nat)
    requires c > 0
    ensures v / 256 / c == v / (256 * c)
  {
    var q, r := v / 256 / c, v / 256 % c;
    assert v / 256 == c * q + r;
    assert 256 * (c * q) == 256 * c * q;
    QuotientUnique(v, 256 * c, q, 256 * r + v % 256);
  }

  /** Byte `i` of a printed number is its digit to base 256, counted from the most significant. */
  lemma {:induction false} PutAt(v: nat, n: nat, i: nat)
    requires i < n
    ensures Put(v, n)[i] == v / Capacity(n - 1 - i) % 256
  {
    if i < n - 1 {
      PutAt(v / 256, n - 1, i);
      QuotientOfQuotient(v, Capacity(n - 2 - i));
    }
  }

  lemma GetLast(b: seq<Byte>)
    requires b != []
    ensures Get(b) == 256 * Get(b[..|b| - 1]) + b[|b| - 1]
  {
  }

  lemma GetEmpty()
    ensures Get([]) == 0 && Capacity(0) == 1
  {
  }

  lemma TimesCapacity(x: nat, n: nat)
    ensures x * Capacity(n + 1) == 256 * (x * Capacity(n))
  {
    assert Capacity(n + 1) == 256 * Capacity(n);
  }

  /** The first byte read counts most. */
  lemma {:induction false} GetFirst(b: seq<Byte>)
    requires b != []
    ensures Get(b) == b[0] * Capacity(|b| - 1) + Get(b[1..])
  {
    hide Get, Capacity;
    GetEmpty();
    if |b| == 1 {
      assert b[..0] == [] && b[1..] == [];
      GetLast(b);
    } else {
      var front, last, rest := b[..|b| - 1], b[|b| - 1], b[1..];
      GetFirst(front);
      assert front[1..] == rest[..|rest| - 1];
      GetLast(b);
      GetLast(rest);
      TimesCapacity(b[0], |b| - 2);
    }
  }

  lemma Widths()
    ensures Capacity(2) == U16 && Capacity(4) == U32 && Capacity(8) == U64
  {
    assert Capacity(2) == 256 * Capacity(1);
    assert Capacity(4) == 256 * Capacity(3) == 256 * (256 * Capacity(2));
    assert Capacity(6) == 256 * Capacity(5) == 256 * (256 * Capacity(4));
    assert Capacity(8) == 256 * Capacity(7) == 256 * (256 * Capacity(6));
  }
}
