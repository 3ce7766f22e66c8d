/** Indexes as groupings: what a list looks like when its elements are filed under a key. */
module Grouping {
  import opened Common

  lemma SameMap<K, V>(a: map<K, V>, b: map<K, V>)
    requires forall k :: k in a.Keys <==> k in b.Keys
    requires forall k :: k in a.Keys && k in b.Keys ==> a[k] == b[k]
    ensures a == b
  {
    assert a.Keys == b.Keys;
  }

  function Get<K(==), T>(g: map<K, seq<T>>, k: K): seq<T> {
    if k in g then g[k] else []
  }

  ghost function HasKey<K, T>(key: T -> K, k: K): T -> bool {
    (x: T) => key(x) == k
  }

  /** Every key that occurs, with its elements in list order; no key has an empty list. */
  ghost function Group<K, T>(key: T -> K, q: seq<T>): map<K, seq<T>> {
    map k | k in (set x | x in q :: key(x)) :: Filter(HasKey(key, k), q)
  }

  lemma GroupGet<K, T>(key: T -> K, q: seq<T>, k: K)
    ensures Get(Group(key, q), k) == Filter(HasKey(key, k), q)
    ensures k in Group(key, q) <==> Filter(HasKey(key, k), q) != []
  {
    var f := Filter(HasKey(key, k), q);
    if k in Group(key, q) {
      var x :| x in q && key(x) == k;
      FilterMember(HasKey(key, k), q, x);
      assert x in f;
    } else {
      FilterNone(HasKey(key, k), q);
    }
  }

  /** Filing one more element appends it to the list of its key. */
  lemma GroupSnoc<K, T>(key: T -> K, q: seq<T>, x: T)
    ensures Group(key, q + [x]) == Group(key, q)[key(x) := Get(Group(key, q), key(x)) + [x]]
  {
    hide Filter;
    var g, g' := Group(key, q), Group(key, q + [x]);
    var want := g[key(x) := Get(g, key(x)) + [x]];
    assert g'.Keys == want.Keys;
    forall k | k in g' ensures g'[k] == want[k] {
      FilterSnoc(HasKey(key, k), q, x);
      GroupGet(key, q, k);
    }
    assert g' == want;
  }

  /** Dropping elements that all have key `k` changes only the list of `k`, and drops it when empty. */
  lemma GroupDrop<K, T>(key: T -> K, keep: T -> bool, q: seq<T>, k: K)
    requires forall x :: x in q && key(x) != k ==> keep(x)
    ensures
      var g, left := Group(key, q), Filter(keep, Get(Group(key, q), k));
      Group(key, Filter(keep, q)) == if left == [] then g - {k} else g[k := left]
  {
    var g, g' := Group(key, q), Group(key, Filter(keep, q));
    var left := Filter(keep, Get(g, k));
    var want := if left == [] then g - {k} else g[k := left];
    hide Filter, Group;
    forall j
      ensures j in g'.Keys <==> j in want.Keys
      ensures j in g'.Keys && j in want.Keys ==> g'[j] == want[j]
    {
      GroupGet(key, Filter(keep, q), j);
      GroupGet(key, q, j);
      FilterCommutes(HasKey(key, j), keep, q);
      if j != k {
        var f := Filter(HasKey(key, j), q);
        forall x | x in f ensures keep(x) { FilterMember(HasKey(key, j), q, x); }
        FilterAll(keep, f);
      }
    }
    SameMap(g', want);
  }

  // ----- Two-level indexes -----

  ghost function Nested<J, K, T>(outer: T -> J, inner: T -> K, q: seq<T>): map<J, map<K, seq<T>>> {
    map j | j in (set x | x in q :: outer(x)) :: Group(inner, Filter(HasKey(outer, j), q))
  }

  function GetInner<J(==), K, T>(g: map<J, map<K, seq<T>>>, j: J): map<K, seq<T>> {
    if j in g then g[j] else map[]
  }

  lemma NestedGet<J, K, T>(outer: T -> J, inner: T -> K, q: seq<T>, j: J)
    ensures GetInner(Nested(outer, inner, q), j) == Group(inner, Filter(HasKey(outer, j), q))
    ensures j in Nested(outer, inner, q) <==> GetInner(Nested(outer, inner, q), j) != map[]
  {
    var f := Filter(HasKey(outer, j), q);
    if j in Nested(outer, inner, q) {
      var x :| x in q && outer(x) == j;
      FilterMember(HasKey(outer, j), q, x);
      assert inner(x) in Group(inner, f);
    } else {
      FilterNone(HasKey(outer, j), q);
    }
  }

  lemma NestedSnoc<J, K, T>(outer: T -> J, inner: T -> K, q: seq<T>, x: T)
    ensures
      var n := Nested(outer, inner, q);
      var g := GetInner(n, outer(x));
      Nested(outer, inner, q + [x]) == n[outer(x) := g[inner(x) := Get(g, inner(x)) + [x]]]
  {
    hide Filter, Group;
    var n, n' := Nested(outer, inner, q), Nested(outer, inner, q + [x]);
    var g := GetInner(n, outer(x));
    var want := n[outer(x) := g[inner(x) := Get(g, inner(x)) + [x]]];
    assert n'.Keys == want.Keys;
    forall j | j in n' ensures n'[j] == want[j] {
      FilterSnoc(HasKey(outer, j), q, x);
      NestedGet(outer, inner, q, j);
      GroupSnoc(inner, Filter(HasKey(outer, j), q), x);
      assert j != outer(x) ==> Filter(HasKey(outer, j), q + [x]) == Filter(HasKey(outer, j), q);
    }
    assert n' == want;
  }

  ghost predicate NoEmptyInner<J, K, T>(a: map<J, map<K, seq<T>>>) {
    forall j :: j in a ==> a[j] != map[]
  }

  lemma NestedNoEmpty<J, K, T>(outer: T -> J, inner: T -> K, q: seq<T>)
    ensures NoEmptyInner(Nested(outer, inner, q))
  {
    forall j | j in Nested(outer, inner, q) ensures Nested(outer, inner, q)[j] != map[] {
      NestedGet(outer, inner, q, j);
    }
  }

  lemma NoEmptyUpdate<J, K, T>(a: map<J, map<K, seq<T>>>, j: J, g: map<K, seq<T>>)
    requires NoEmptyInner(a)
    ensures NoEmptyInner(a - {j})
    ensures g != map[] ==> NoEmptyInner(a[j := g])
  {
  }

  /** Indexes without empty inner maps are determined by their look-ups. */
  lemma SameNested<J, K, T>(a: map<J, map<K, seq<T>>>, b: map<J, map<K, seq<T>>>)
    requires NoEmptyInner(a) && NoEmptyInner(b)
    requires forall j :: GetInner(a, j) == GetInner(b, j)
    ensures a == b
  {
    forall j | j in a ensures j in b && a[j] == b[j] { assert GetInner(a, j) == GetInner(b, j); }
    forall j | j in b ensures j in a { assert GetInner(a, j) == GetInner(b, j); }
  }

  lemma NestedDropAt<J, K, T>(outer: T -> J, inner: T -> K, keep: T -> bool, q: seq<T>, j: J, i: J)
    requires forall x :: x in q && outer(x) != j ==> keep(x)
    ensures GetInner(Nested(outer, inner, Filter(keep, q)), i) ==
      if i == j then Group(inner, Filter(keep, Filter(HasKey(outer, j), q)))
      else GetInner(Nested(outer, inner, q), i)
    ensures i in Nested(outer, inner, Filter(keep, q)) <==>
      GetInner(Nested(outer, inner, Filter(keep, q)), i) != map[]
    ensures i in Nested(outer, inner, q) <==> GetInner(Nested(outer, inner, q), i) != map[]
  {
    hide Filter, Group, Nested;
    NestedGet(outer, inner, Filter(keep, q), i);
    NestedGet(outer, inner, q, i);
    FilterCommutes(HasKey(outer, i), keep, q);
    if i != j {
      var f := Filter(HasKey(outer, i), q);
      forall x | x in f ensures keep(x) { FilterMember(HasKey(outer, i), q, x); }
      FilterAll(keep, f);
    }
  }

  /** Dropping elements that all have outer key `j` changes only the inner index of `j`. */
  lemma NestedDrop<J, K, T>(outer: T -> J, inner: T -> K, keep: T -> bool, q: seq<T>, j: J)
    requires forall x :: x in q && outer(x) != j ==> keep(x)
    ensures
      var n, left := Nested(outer, inner, q), Group(inner, Filter(keep, Filter(HasKey(outer, j), q)));
      Nested(outer, inner, Filter(keep, q)) == if left == map[] then n - {j} else n[j := left]
  {
    var n, n' := Nested(outer, inner, q), Nested(outer, inner, Filter(keep, q));
    var left := Group(inner, Filter(keep, Filter(HasKey(outer, j), q)));
    hide Filter, Group, Nested;
    forall i
      ensures GetInner(n', i) == if i == j then left else GetInner(n, i)
    {
      NestedDropAt(outer, inner, keep, q, j, i);
    }
    NestedNoEmpty(outer, inner, q);
    NestedNoEmpty(outer, inner, Filter(keep, q));
    NoEmptyUpdate(n, j, left);
    SameNested(n', if left == map[] then n - {j} else n[j := left]);
  }

  // ----- Tables by unique identifier -----

  ghost predicate Unique<K, T>(id: T -> K, q: seq<T>) {
    forall i, j | 0 <= i < j < |q| :: id(q[i]) != id(q[j])
  }

  ghost function Table<K, T>(id: T -> K, q: seq<T>): map<K, T>
    requires Unique(id, q)
  {
    map x | x in q :: id(x) := x
  }

  ghost function IdNotIn<K, T>(id: T -> K, d: set<K>): T -> bool {
    (x: T) => id(x) !in d
  }

  lemma TableSnoc<K, T>(id: T -> K, q: seq<T>, x: T)
    requires Unique(id, q) && id(x) !in Table(id, q)
    ensures Unique(id, q + [x]) && Table(id, q + [x]) == Table(id, q)[id(x) := x]
  {
    forall i | 0 <= i < |q| ensures id(q[i]) != id(x) {
      assert q[i] in q;
    }
    assert forall y :: y in q + [x] <==> y in q || y == x;
  }

  lemma {:induction false} UniqueFilter<K, T>(id: T -> K, keep: T -> bool, q: seq<T>)
    requires Unique(id, q)
    ensures Unique(id, Filter(keep, q))
  {
    if q != [] {
      var t, x := q[..|q| - 1], q[|q| - 1];
      UniqueFilter(id, keep, t);
      var f := Filter(keep, t);
      forall i | 0 <= i < |f| ensures id(f[i]) != id(x) {
        FilterMember(keep, t, f[i]);
        var k :| 0 <= k < |t| && t[k] == f[i];
        assert q[k] == f[i];
      }
    }
  }

  lemma TableDrop<K, T(!new)>(id: T -> K, q: seq<T>, d: set<K>)
    requires Unique(id, q)
    ensures Unique(id, Filter(IdNotIn(id, d), q))
    ensures Table(id, Filter(IdNotIn(id, d), q)) == Table(id, q) - d
  {
    UniqueFilter(id, IdNotIn(id, d), q);
    FilterMembers(IdNotIn(id, d), q);
  }

  lemma {:induction false} TableSize<K, T>(id: T -> K, q: seq<T>)
    requires Unique(id, q)
    ensures |Table(id, q)| == |q|
  {
    if q != [] {
      var t, x := q[..|q| - 1], q[|q| - 1];
      assert q == t + [x];
      TableSize(id, t);
      assert id(x) !in Table(id, t);
      TableSnoc(id, t, x);
    }
  }

  /** The list without its first element with this identifier. */
  ghost function DropFirst<K, T>(id: T -> K, q: seq<T>, k: K): seq<T> {
    if q == [] then []
    else if id(q[0]) == k then q[1..]
    else [q[0]] + DropFirst(id, q[1..], k)
  }

  lemma {:induction false} DropFirstAt<K, T>(id: T -> K, q: seq<T>, k: K, i: nat)
    requires i <= |q| && (i < |q| ==> id(q[i]) == k) && forall j | 0 <= j < i :: id(q[j]) != k
    ensures DropFirst(id, q, k) == if i < |q| then q[..i] + q[i + 1..] else q
  {
    if i > 0 {
      DropFirstAt(id, q[1..], k, i - 1);
      assert q == [q[0]] + q[1..];
    }
  }

  /** Without repeats, dropping the first drops the only one. */
  lemma DropFirstUnique<K, T>(id: T -> K, q: seq<T>, k: K)
    requires Unique(id, q)
    ensures DropFirst(id, q, k) == Filter(IdNotIn(id, {k}), q)
  {
    hide Filter;
    if i: nat :| i < |q| && id(q[i]) == k {
      DropFirstAt(id, q, k, i);
      SpliceIsDrop(id, q, i);
    } else {
      DropFirstAt(id, q, k, |q|);
      FilterAll(IdNotIn(id, {k}), q);
    }
  }

  /** Removing the element at position `i` removes exactly the element with its identifier. */
  lemma {:induction false} SpliceIsDrop<K, T>(id: T -> K, q: seq<T>, i: nat)
    requires Unique(id, q) && i < |q|
    ensures q[..i] + q[i + 1..] == Filter(IdNotIn(id, {id(q[i])}), q)
  {
    var keep := IdNotIn(id, {id(q[i])});
    var t, x := q[..|q| - 1], q[|q| - 1];
    if i == |q| - 1 {
      assert q[..i] + q[i + 1..] == t;
      assert forall y :: y in t ==> keep(y);
      FilterAll(keep, t);
    } else {
      SpliceIsDrop(id, t, i);
      assert t[i] == q[i];
      assert q[..i] + q[i + 1..] == (t[..i] + t[i + 1..]) + [x];
    }
  }
}
