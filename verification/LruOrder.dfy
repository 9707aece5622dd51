/** Keys in order of last use, judged by the whole log of uses. */
module LruOrder {

  /** The position of a key's last use, or -1. */
  ghost function LastUse<K>(uses: seq<K>, k: K): (i: int)
    ensures -1 <= i < |uses| && (i >= 0 ==> uses[i] == k)
    ensures forall j :: i < j < |uses| ==> uses[j] != k
  {
    if uses == [] then -1
    else if uses[|uses| - 1] == k then |uses| - 1
    else LastUse(uses[..|uses| - 1], k)
  }

  ghost predicate ByLastUse<K>(order: seq<K>, uses: seq<K>) {
    && (forall i :: 0 <= i < |order| ==> LastUse(uses, order[i]) >= 0)
    && (forall i, j :: 0 <= i < j < |order| ==> LastUse(uses, order[i]) < LastUse(uses, order[j]))
  }

  ghost function Elems<K>(s: seq<K>): set<K> {
    set x | x in s
  }

  /** The keys used since the last use of `k`. */
  ghost function Since<K>(uses: seq<K>, k: K): set<K> {
    Elems(uses[LastUse(uses, k) + 1..])
  }

  /** The order without the keys outside `keys`. */
  function Kept<K(==)>(order: seq<K>, keys: set<K>): (r: seq<K>)
    ensures |r| <= |order|
  {
    if order == [] then []
    else Kept(order[..|order| - 1], keys) + if order[|order| - 1] in keys then [order[|order| - 1]] else []
  }

  ghost function MovedToEnd<K>(order: seq<K>, k: K): seq<K> {
    Kept(order, Elems(order) - {k}) + [k]
  }

  lemma LastUseGrows<K>(uses: seq<K>, k: K, x: K)
    ensures LastUse(uses + [x], k) == if x == k then |uses| else LastUse(uses, k)
  {
    assert (uses + [x])[..|uses|] == uses;
  }

  lemma {:induction false} KeptFacts<K>(order: seq<K>, keys: set<K>, uses: seq<K>)
    requires ByLastUse(order, uses)
    ensures ByLastUse(Kept(order, keys), uses)
    ensures forall x :: x in Kept(order, keys) <==> x in order && x in keys
  {
    hide LastUse;
    if order != [] {
      var front, last := order[..|order| - 1], order[|order| - 1];
      KeptFacts(front, keys, uses);
      assert order == front + [last];
      var r := Kept(front, keys);
      forall i | 0 <= i < |r| ensures LastUse(uses, r[i]) < LastUse(uses, last) {
        assert r[i] in r;
      }
    }
  }

  /** Using a key that is not in the order puts it at the end. */
  lemma UsedLast<K>(order: seq<K>, uses: seq<K>, k: K)
    requires ByLastUse(order, uses) && k !in order
    ensures ByLastUse(order + [k], uses + [k])
  {
    hide LastUse;
    forall i | 0 <= i < |order| ensures LastUse(uses + [k], order[i]) == LastUse(uses, order[i]) {
      assert order[i] in order;
      LastUseGrows(uses, order[i], k);
    }
    LastUseGrows(uses, k, k);
  }

  /** Moving a key to the end is what using it does to the order. */
  lemma MovedToEndKeepsOrder<K>(order: seq<K>, uses: seq<K>, k: K)
    requires ByLastUse(order, uses)
    ensures ByLastUse(MovedToEnd(order, k), uses + [k])
    ensures forall x :: x in MovedToEnd(order, k) <==> x in order || x == k
  {
    hide LastUse, ByLastUse;
    KeptFacts(order, Elems(order) - {k}, uses);
    UsedLast(Kept(order, Elems(order) - {k}), uses, k);
  }

  lemma DropFirst<K>(order: seq<K>, uses: seq<K>)
    requires ByLastUse(order, uses) && order != []
    ensures ByLastUse(order[1..], uses) && order[0] !in order[1..]
    ensures forall x :: x in order <==> x == order[0] || x in order[1..]
  {
    hide LastUse;
    assert order == [order[0]] + order[1..];
  }

  /** Every other key of the order was used after the first one. */
  lemma UsedSinceFirst<K>(order: seq<K>, uses: seq<K>)
    requires ByLastUse(order, uses) && order != []
    ensures forall x :: x in order[1..] ==> x in Since(uses, order[0])
  {
    forall x | x in order[1..] ensures x in Since(uses, order[0]) {
      var i :| 0 <= i < |order[1..]| && order[1..][i] == x;
      var j, first := LastUse(uses, x), LastUse(uses, order[0]);
      assert order[i + 1] == x && first < j;
      assert uses[first + 1..][j - first - 1] == x;
    }
  }

  lemma SinceGrows<K>(uses: seq<K>, k: K, x: K)
    ensures Since(uses + [x], k) == if x == k then {} else Since(uses, k) + {x}
  {
    LastUseGrows(uses, k, x);
    var later := uses[LastUse(uses, k) + 1..];
    if x != k {
      assert (uses + [x])[LastUse(uses, k) + 1..] == later + [x];
      ElemsGrow(later, x);
    } else {
      assert (uses + [x])[|uses| + 1..] == [];
    }
  }

  lemma ElemsGrow<K>(s: seq<K>, x: K)
    ensures Elems(s + [x]) == Elems(s) + {x}
  {
  }

  /** Cutting out the only occurrence of a key. */
  lemma CutOut<K>(order: seq<K>, uses: seq<K>, i: nat)
    requires ByLastUse(order, uses) && i < |order|
    ensures order[..i] + order[i + 1..] + [order[i]] == MovedToEnd(order, order[i])
  {
    hide LastUse, Kept;
    var keys, front, rest := Elems(order) - {order[i]}, order[..i], order[i + 1..];
    KeptSame(front, keys);
    KeptSame(rest, keys);
    OneKept(order[i], keys);
    KeptJoin(front, [order[i]], keys);
    KeptJoin(front + [order[i]], rest, keys);
    assert order == front + [order[i]] + rest;
  }

  lemma OneKept<K>(k: K, keys: set<K>)
    ensures Kept([k], keys) == if k in keys then [k] else []
  {
    assert [k][..0] == [];
  }

  lemma {:induction false} KeptSame<K>(order: seq<K>, keys: set<K>)
    requires forall x <- order :: x in keys
    ensures Kept(order, keys) == order
  {
    if order != [] {
      KeptSame(order[..|order| - 1], keys);
    }
  }

  lemma {:induction false} KeptJoin<K>(a: seq<K>, b: seq<K>, keys: set<K>)
    ensures Kept(a + b, keys) == Kept(a, keys) + Kept(b, keys)
  {
    if b == [] {
      assert a + b == a;
    } else {
      KeptJoin(a, b[..|b| - 1], keys);
      assert (a + b)[..|a + b| - 1] == a + b[..|b| - 1];
    }
  }
}
