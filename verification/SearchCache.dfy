/** The search-result cache: exact and similar hits, expiry, and least-recently-used eviction. */
module SearchCache {
  import opened Common
  import opened LruOrder
  import opened Trigrams

  datatype Entry<+R> = Entry(query: Bytes, trigrams: seq<int>, results: seq<R>, createdAt: int)

  /** The cache with the log of every use, a `Put` or a hit, that its order is judged by. */
  datatype Cache<+R> = Cache(entries: map<Bytes, Entry<R>>, order: seq<Bytes>, uses: seq<Bytes>)

  predicate Live<R>(e: Entry<R>, now: int, ttl: int) { now - e.createdAt < ttl }

  /** Similarity of two queries; a hit needs `THRESHOLD`. */
  ghost function Similarity(q: Bytes, k: Bytes): real { Jaccard(Packed(q), Packed(k)) }

  const THRESHOLD: real := 0.7

  ghost predicate Fits<R>(e: Entry<R>) {
    e.query != [] && Increasing(e.trigrams) && Members(e.trigrams) == Packed(e.query)
  }

  ghost predicate Agrees<R>(c: Cache<R>, maxEntries: int) {
    && ByLastUse(c.order, c.uses) && Elems(c.order) == c.entries.Keys && |c.entries| <= maxEntries
    && forall k <- c.entries :: Fits(c.entries[k]) && c.entries[k].query == k
  }

  // ---------------------------------------------------------------- what the operations do

  ghost function Swept<R>(c: Cache<R>, now: int, ttl: int): Cache<R> {
    var live := map k | k in c.entries && Live(c.entries[k], now, ttl) :: c.entries[k];
    c.(entries := live, order := Kept(c.order, live.Keys))
  }

  ghost function Trimmed<R>(c: Cache<R>, maxEntries: int): Cache<R> {
    if |c.entries| >= maxEntries && c.order != [] then c.(entries := c.entries - {c.order[0]}, order := c.order[1..]) else c
  }

  ghost function Used<R>(c: Cache<R>, k: Bytes): Cache<R> {
    c.(order := MovedToEnd(c.order, k), uses := c.uses + [k])
  }

  /** Room for an entry is only made when its key is new. */
  ghost function Stored<R>(c: Cache<R>, e: Entry<R>, maxEntries: int): Cache<R> {
    var t := if e.query in c.entries then c else Trimmed(c, maxEntries);
    Used(t.(entries := t.entries[e.query := e]), e.query)
  }

  lemma SweptAgrees<R>(c: Cache<R>, now: int, ttl: int, maxEntries: int)
    requires Agrees(c, maxEntries)
    ensures Agrees(Swept(c, now, ttl), maxEntries)
  {
    hide ByLastUse, Kept, Fits;
    var live := Swept(c, now, ttl).entries;
    KeptFacts(c.order, live.Keys, c.uses);
    SmallerMap(live, c.entries);
  }

  lemma SmallerMap<V>(m: map<Bytes, V>, n: map<Bytes, V>)
    requires m.Keys <= n.Keys
    ensures |m| <= |n|
  {
    assert n.Keys == m.Keys + (n.Keys - m.Keys);
    assert |m.Keys| == |m| && |n.Keys| == |n|;
  }

  lemma NothingOrdered<R>(c: Cache<R>)
    requires Elems(c.order) == c.entries.Keys
    ensures c.order == [] <==> |c.entries| == 0
  {
    if c.order != [] {
      assert c.order[0] in c.entries;
    }
    assert |c.entries.Keys| == |c.entries|;
  }

  lemma TrimmedAgrees<R>(c: Cache<R>, maxEntries: int)
    requires Agrees(c, maxEntries) && 0 < maxEntries
    ensures Agrees(Trimmed(c, maxEntries), maxEntries) && |Trimmed(c, maxEntries).entries| < maxEntries
  {
    hide ByLastUse, Fits;
    var t := Trimmed(c, maxEntries);
    if |c.entries| >= maxEntries {
      NothingOrdered(c);
      DropFirst(c.order, c.uses);
      assert t.entries.Keys == c.entries.Keys - {c.order[0]};
      assert c.order[0] in c.entries.Keys;
      assert |t.entries.Keys| == |t.entries| && |c.entries.Keys| == |c.entries|;
    }
  }

  lemma UsedAgrees<R>(c: Cache<R>, k: Bytes, maxEntries: int)
    requires Agrees(c, maxEntries) && k in c.entries
    ensures Agrees(Used(c, k), maxEntries)
  {
    hide ByLastUse, MovedToEnd, Fits;
    MovedToEndKeepsOrder(c.order, c.uses, k);
  }

  lemma StoredAgrees<R>(c: Cache<R>, e: Entry<R>, maxEntries: int)
    requires Agrees(c, maxEntries) && 0 < maxEntries && Fits(e)
    ensures Agrees(Stored(c, e, maxEntries), maxEntries)
  {
    hide ByLastUse, MovedToEnd, Fits, Trimmed;
    var t := if e.query in c.entries then c else Trimmed(c, maxEntries);
    if e.query !in c.entries {
      TrimmedAgrees(c, maxEntries);
    }
    MovedToEndKeepsOrder(t.order, t.uses, e.query);
    GrownSize(t.entries, e.query, e);
  }

  lemma EntryFits<R>(e: Entry<R>)
    requires e.query != [] && Increasing(e.trigrams) && Members(e.trigrams) == Packed(e.query)
    ensures Fits(e)
  {
  }

  /** Storing a key that is held: the entry is replaced and the key moves to the end. */
  lemma StoredAgain<R>(c: Cache<R>, e: Entry<R>, maxEntries: int)
    requires Agrees(c, maxEntries) && e.query in c.entries
    ensures ByLastUse(c.order, c.uses)
    ensures Stored(c, e, maxEntries) ==
            Cache(c.entries[e.query := e], MovedToEnd(c.order, e.query), c.uses + [e.query])
  {
    hide ByLastUse, MovedToEnd, Trimmed, Fits;
  }

  /** Storing a new key: room is made, and the key goes last. */
  lemma StoredAnew<R>(c: Cache<R>, e: Entry<R>, maxEntries: int)
    requires Agrees(c, maxEntries) && 0 < maxEntries && e.query !in c.entries
    ensures var t := Trimmed(c, maxEntries);
            Stored(c, e, maxEntries) == Cache(t.entries[e.query := e], t.order + [e.query], t.uses + [e.query])
  {
    hide ByLastUse, Fits;
    var t := Trimmed(c, maxEntries);
    assert e.query !in c.order;
    KeptSame(t.order, Elems(t.order) - {e.query});
  }

  lemma GrownSize<V>(m: map<Bytes, V>, k: Bytes, v: V)
    ensures m[k := v].Keys == m.Keys + {k}
    ensures |m[k := v]| == if k in m then |m| else |m| + 1
  {
    assert |m[k := v].Keys| == |m[k := v]| && |m.Keys| == |m|;
    if k in m {
      assert m[k := v].Keys == m.Keys;
    }
  }

  // ---------------------------------------------------------------- the class

  /** The i-th reading of the clock during one call. */
  type Readings = nat -> int

  ghost predicate Forward(at: Readings) {
    forall i: nat, j: nat :: i <= j ==> at(i) <= at(j)
  }

  class SearchCache<R> {
    var entries: map<Bytes, Entry<R>>
    var order: seq<Bytes>
    const maxEntries: int
    const ttl: int
    const normalize: string -> Bytes
    ghost var uses: seq<Bytes>

    ghost function Value(): Cache<R>
      reads this
    {
      Cache(entries, order, uses)
    }

    ghost predicate Valid()
      reads this
    {
      0 < maxEntries && 0 < ttl && Agrees(Value(), maxEntries)
    }

    constructor (maxEntries: int, ttl: int, normalize: string -> Bytes)
      ensures Valid() && entries == map[] && uses == []
      ensures this.maxEntries == (if maxEntries <= 0 then 50 else maxEntries)
      ensures this.ttl == (if ttl <= 0 then 300_000_000_000 else ttl) && this.normalize == normalize
    {
      this.maxEntries := if maxEntries <= 0 then 50 else maxEntries;
      this.ttl := if ttl <= 0 then 300_000_000_000 else ttl;
      this.normalize := normalize;
      entries, order, uses := map[], [], [];
    }

    /** A live entry of the query itself is the hit; otherwise the most similar live entry, if
        it is similar enough. Only the order changes. */
    method Get(query: string, at: Readings) returns (results: seq<R>, hit: bool, ghost key: Bytes)
      requires Valid() && Forward(at)
      modifies this`order, this`uses
      ensures Valid()
      ensures var q := normalize(query);
              && (hit ==> q != [] && key in entries && Live(entries[key], at(0), ttl) && results == entries[key].results)
              && Value() == (if hit then Used(old(Value()), key) else old(Value()))
              && (q != [] && q in entries && Live(entries[q], at(0), ttl) <==> hit && key == q)
              && (hit && key != q ==> Similarity(q, key) >= THRESHOLD)
              && (q != [] && !(hit && key == q) ==> forall k <- entries :: Live(entries[k], at(|entries|), ttl) ==>
                                                                             if hit then Similarity(q, k) <= Similarity(q, key) else Similarity(q, k) < THRESHOLD)
    {
      var q := normalize(query);
      results, hit, key := [], false, [];
      if q == [] {
        return;
      }
      if q in entries && at(0) - entries[q].createdAt < ttl {
        UsedAgrees(Value(), q, maxEntries);
        MoveToEnd(q);
        return entries[q].results, true, q;
      }
      var queryTrigrams := BuildTrigrams(q);
      var bestSim, best := BestMatch(q, queryTrigrams, at);
      if bestSim >= THRESHOLD && best.Some? {
        UsedAgrees(Value(), best.value, maxEntries);
        MoveToEnd(best.value);
        return entries[best.value].results, true, best.value;
      }
    }

    /** The loop over the entries, in whatever order the map yields them. */
    method BestMatch(q: Bytes, queryTrigrams: seq<int>, at: Readings) returns (bestSim: real, best: Option<Bytes>)
      requires Valid() && Forward(at) && Increasing(queryTrigrams) && Members(queryTrigrams) == Packed(q)
      requires q in entries ==> !Live(entries[q], at(0), ttl)
      ensures best.Some? ==> best.value in entries && Live(entries[best.value], at(0), ttl) && best.value != q
      ensures best.Some? ==> bestSim == Similarity(q, best.value)
      ensures best.None? ==> bestSim == 0.0
      ensures forall k <- entries :: Live(entries[k], at(|entries|), ttl) ==> Similarity(q, k) <= bestSim
    {
      hide ByLastUse, Elems, Members, Increasing, Packed, Jaccard;
      best, bestSim := None, 0.0;
      var rest, i := entries.Keys, 0;
      assert |entries.Keys| == |entries|;
      while rest != {}
        invariant rest <= entries.Keys && i + |rest| == |entries|
        invariant best.Some? ==> best.value in entries && Live(entries[best.value], at(0), ttl) && best.value != q
        invariant if best.Some? then bestSim == Similarity(q, best.value) else bestSim == 0.0
        invariant forall k <- entries.Keys - rest :: Live(entries[k], at(|entries|), ttl) ==> Similarity(q, k) <= bestSim
      {
        var k :| k in rest;
        rest := rest - {k};
        i := i + 1;
        assert at(0) <= at(i) <= at(|entries|);
        if at(i) - entries[k].createdAt >= ttl {
          continue;
        }
        assert Fits(entries[k]);
        var sim := JaccardSimilarity(queryTrigrams, entries[k].trigrams);
        if sim > bestSim {
          bestSim, best := sim, Some(k);
        }
      }
    }

    method Put(query: string, results: seq<R>, sweptAt: int, putAt: int)
      requires Valid() && sweptAt <= putAt
      modifies this`entries, this`order, this`uses
      ensures Valid()
      ensures var q := normalize(query);
              if q == [] then Value() == old(Value())
              else
                && q in entries && entries[q].results == results && entries[q].createdAt == putAt
                && Value() == Stored(Swept(old(Value()), sweptAt, ttl), entries[q], maxEntries)
    {
      hide Agrees, ByLastUse, Fits, Swept, Trimmed, Stored, MovedToEnd, Members, Packed, Increasing;
      var q := normalize(query);
      if q == [] {
        return;
      }
      EvictExpired(sweptAt);
      var trigrams := BuildTrigrams(q);
      var entry := Entry(q, trigrams, results, putAt);
      EntryFits(entry);
      ghost var swept := Value();
      StoredAgrees(swept, entry, maxEntries);
      if q in entries {
        StoredAgain(swept, entry, maxEntries);
        entries := entries[q := entry];
        MoveToEnd(q);
        return;
      }
      StoredAnew(swept, entry, maxEntries);
      MakeRoom();
      entries := entries[q := entry];
      order := order + [q];
      uses := uses + [q];
    }

    /** Evict the least recently used entry while there is no room. */
    method MakeRoom()
      requires Valid()
      modifies this`entries, this`order
      ensures Valid() && Value() == Trimmed(old(Value()), maxEntries)
    {
      hide Agrees, ByLastUse, Fits, Elems;
      ghost var was := Value();
      TrimmedAgrees(was, maxEntries);
      while |entries| >= maxEntries && |order| > 0
        invariant Value() == was || (Value() == Trimmed(was, maxEntries) && |entries| < maxEntries)
        decreases |order|
      {
        assert Value() == was;
        var oldest := order[0];
        order := order[1..];
        entries := entries - {oldest};
      }
    }

    method EvictExpired(now: int)
      requires Valid()
      modifies this`entries, this`order
      ensures Valid() && Value() == Swept(old(Value()), now, ttl)
    {
      hide Agrees, SweptEntries, Kept, ByLastUse;
      ghost var was := Value();
      SweptAgrees(was, now, ttl, maxEntries);
      SweepEnds(was, now, ttl, maxEntries);
      var newOrder: seq<Bytes> := [];
      for i := 0 to |order|
        invariant order == was.order && uses == was.uses
        invariant newOrder == Kept(order[..i], Swept(was, now, ttl).entries.Keys)
        invariant entries == SweptEntries(was, i, now, ttl)
      {
        SweepStep(was, i, now, ttl, maxEntries);
        var key := order[i];
        if key !in entries || now - entries[key].createdAt >= ttl {
          entries := entries - {key};
        } else {
          newOrder := newOrder + [key];
        }
      }
      order := newOrder;
    }

    method MoveToEnd(key: Bytes)
      requires ByLastUse(order, uses)
      modifies this`order, this`uses
      ensures order == MovedToEnd(old(order), key) && uses == old(uses) + [key]
    {
      uses := uses + [key];
      for i := 0 to |order|
        invariant order == old(order) && forall j :: 0 <= j < i ==> order[j] != key
      {
        if order[i] == key {
          CutOut(order, old(uses), i);
          order := order[..i] + order[i + 1..];
          order := order + [key];
          return;
        }
      }
      KeptSame(order, Elems(order) - {key});
      order := order + [key];
    }
  }

  /** The entries after the sweep has looked at the first `i` keys. */
  ghost function SweptEntries<R>(c: Cache<R>, i: nat, now: int, ttl: int): map<Bytes, Entry<R>>
    requires i <= |c.order|
  {
    map k | k in c.entries && (k in c.order[..i] ==> Live(c.entries[k], now, ttl)) :: c.entries[k]
  }

  lemma SweepEnds<R>(c: Cache<R>, now: int, ttl: int, maxEntries: int)
    requires Agrees(c, maxEntries)
    ensures SweptEntries(c, 0, now, ttl) == c.entries
    ensures SweptEntries(c, |c.order|, now, ttl) == Swept(c, now, ttl).entries
    ensures Kept(c.order[..0], Swept(c, now, ttl).entries.Keys) == []
    ensures Kept(c.order[..|c.order|], Swept(c, now, ttl).entries.Keys) == Swept(c, now, ttl).order
  {
    assert c.order[..|c.order|] == c.order;
    assert forall k :: k in c.entries ==> k in c.order;
  }

  lemma SweepStep<R>(c: Cache<R>, i: nat, now: int, ttl: int, maxEntries: int)
    requires Agrees(c, maxEntries) && i < |c.order|
    ensures var k := c.order[i]; var before, live := SweptEntries(c, i, now, ttl), Swept(c, now, ttl).entries.Keys;
                                 && k in before && before[k] == c.entries[k]
                                 && SweptEntries(c, i + 1, now, ttl) == (if Live(c.entries[k], now, ttl) then before else before - {k})
                                 && Kept(c.order[..i + 1], live) == Kept(c.order[..i], live) + if Live(c.entries[k], now, ttl) then [k] else []
  {
    hide ByLastUse, Fits;
    var k := c.order[i];
    assert k in Elems(c.order);
    Apart(c.order, c.uses, i);
    OneMoreKept(c.order, i, Swept(c, now, ttl).entries.Keys);
    assert c.order[..i + 1] == c.order[..i] + [k];
  }

  lemma OneMoreKept(order: seq<Bytes>, i: nat, keys: set<Bytes>)
    requires i < |order|
    ensures Kept(order[..i + 1], keys) == Kept(order[..i], keys) + if order[i] in keys then [order[i]] else []
  {
    assert order[..i + 1][..i] == order[..i];
    assert order[..i + 1] == order[..i] + [order[i]];
  }

  lemma Apart(order: seq<Bytes>, uses: seq<Bytes>, i: nat)
    requires ByLastUse(order, uses) && i < |order|
    ensures order[i] !in order[..i]
  {
    hide LastUse;
  }
}
