/** Shared value types and the order-preserving filter that the models use as their reference. */
module Common {

  type Byte = x: int | 0 <= x < 256

  /** The longest message payload in bytes. */
  const MAX_MESSAGE_SIZE := 1372

  const U16 := 0x1_0000
  const U32 := 0x1_0000_0000
  const U64 := 0x1_0000_0000_0000_0000

  datatype Option<+T> = None | Some(value: T)

  datatype Result<+T, +E> = Ok(value: T) | Err(error: E)

  function Zeros(n: nat): (z: seq<Byte>)
    ensures |z| == n && forall i | 0 <= i < n :: z[i] == 0
  {
    if n == 0 then [] else Zeros(n - 1) + [0]
  }

  /** The elements of `s` that satisfy `p`, in the order they have in `s`. */
  ghost function Filter<T>(p: T -> bool, s: seq<T>): (r: seq<T>)
    ensures |r| <= |s|
  {
    if s == [] then []
    else Filter(p, s[..|s| - 1]) + (if p(s[|s| - 1]) then [s[|s| - 1]] else [])
  }

  lemma FilterSnoc<T>(p: T -> bool, s: seq<T>, x: T)
    ensures Filter(p, s + [x]) == Filter(p, s) + (if p(x) then [x] else [])
  {
    assert (s + [x])[..|s|] == s;
  }

  lemma {:induction false} FilterAppend<T>(p: T -> bool, a: seq<T>, b: seq<T>)
    ensures Filter(p, a + b) == Filter(p, a) + Filter(p, b)
  {
    if b == [] {
      assert a + b == a;
    } else {
      var c, x := b[..|b| - 1], b[|b| - 1];
      assert a + b == (a + c) + [x];
      FilterSnoc(p, a + c, x);
      FilterAppend(p, a, c);
    }
  }

  lemma {:induction false} FilterMember<T>(p: T -> bool, s: seq<T>, x: T)
    ensures x in Filter(p, s) <==> x in s && p(x)
  {
    if s != [] {
      var t, y := s[..|s| - 1], s[|s| - 1];
      FilterMember(p, t, x);
      assert s == t + [y];
    }
  }

  lemma FilterMembers<T(!new)>(p: T -> bool, s: seq<T>)
    ensures forall x :: x in Filter(p, s) <==> x in s && p(x)
  {
    forall x ensures x in Filter(p, s) <==> x in s && p(x) { FilterMember(p, s, x); }
  }

  /** Predicates that agree on the elements of `s` select the same subsequence. */
  lemma {:induction false} FilterCong<T>(p: T -> bool, q: T -> bool, s: seq<T>)
    requires forall x :: x in s ==> p(x) == q(x)
    ensures Filter(p, s) == Filter(q, s)
  {
    if s != [] {
      assert forall x :: x in s[..|s| - 1] ==> x in s;
      FilterCong(p, q, s[..|s| - 1]);
    }
  }

  lemma {:induction false} FilterAll<T>(p: T -> bool, s: seq<T>)
    requires forall x :: x in s ==> p(x)
    ensures Filter(p, s) == s
  {
    if s != [] {
      hide *;
      var t, x := s[..|s| - 1], s[|s| - 1];
      assert s == t + [x];
      FilterAll(p, t);
      FilterSnoc(p, t, x);
    }
  }

  lemma {:induction false} FilterNone<T>(p: T -> bool, s: seq<T>)
    requires forall x :: x in s ==> !p(x)
    ensures Filter(p, s) == []
  {
    if s != [] {
      assert forall x :: x in s[..|s| - 1] ==> x in s;
      FilterNone(p, s[..|s| - 1]);
    }
  }

  /** Filtering twice is filtering by the conjunction `r`. */
  lemma {:induction false} FilterTwice<T>(p: T -> bool, q: T -> bool, r: T -> bool, s: seq<T>)
    requires forall x :: x in s ==> r(x) == (p(x) && q(x))
    ensures Filter(p, Filter(q, s)) == Filter(r, s)
  {
    if s != [] {
      var t, x := s[..|s| - 1], s[|s| - 1];
      assert forall y :: y in t ==> y in s;
      FilterTwice(p, q, r, t);
      if q(x) { FilterSnoc(p, Filter(q, t), x); } else { assert Filter(q, s) == Filter(q, t); }
    }
  }

  /** Two filters may be applied in either order. */
  lemma FilterCommutes<T>(p: T -> bool, q: T -> bool, s: seq<T>)
    ensures Filter(p, Filter(q, s)) == Filter(q, Filter(p, s))
  {
    var r := x => p(x) && q(x);
    FilterTwice(p, q, r, s);
    FilterTwice(q, p, r, s);
  }

  lemma AddToEither<T>(a: seq<T>, b: seq<T>, t: seq<T>, x: T)
    requires multiset(a) + multiset(b) == multiset(t)
    ensures multiset(a + [x]) + multiset(b) == multiset(t + [x]) == multiset(a) + multiset(b + [x])
  {
  }

  /** A predicate and its complement together count every element once. */
  lemma {:induction false} FilterSplit<T>(p: T -> bool, q: T -> bool, s: seq<T>)
    requires forall x :: x in s ==> p(x) != q(x)
    ensures multiset(Filter(p, s)) + multiset(Filter(q, s)) == multiset(s)
    ensures |Filter(p, s)| + |Filter(q, s)| == |s|
  {
    if s != [] {
      hide *;
      var t, x := s[..|s| - 1], s[|s| - 1];
      assert s == t + [x];
      FilterSplit(p, q, t);
      AddToEither(Filter(p, t), Filter(q, t), t, x);
      FilterSnoc(p, t, x);
      FilterSnoc(q, t, x);
      if p(x) {
        assert Filter(p, s) == Filter(p, t) + [x] && Filter(q, s) == Filter(q, t);
      } else {
        assert Filter(p, s) == Filter(p, t) && Filter(q, s) == Filter(q, t) + [x];
      }
    }
  }

  // ----- Quotients -----

  lemma MulAtLeast(d: int, k: int)
    requires 0 < d && 1 <= k
    ensures d <= d * k
  {
  }

  lemma QuotientUnique(a: int, d: int, q: int, r: int)
    requires 0 <= r < d && a == d * q + r
    ensures a / d == q
  {
    var p := a / d;
    assert a == d * p + a % d;
    if q > p {
      MulAtLeast(d, q - p);
    } else if p > q {
      MulAtLeast(d, p - q);
    }
  }
}
