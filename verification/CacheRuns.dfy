/** Whole runs of the search cache: what is kept is decided by recency alone. */
module CacheRuns {
  import opened LruOrder
  import opened SearchCache
  import opened Trigrams

  /** `born`: when each query was last stored; `swept`: the last sweep for expired entries. */
  datatype State<+R> = State(cache: Cache<R>, born: map<Bytes, int>, swept: int)

  /** A `Put` with its two clock readings, or a `Get` that hits an entry. A `Get` that misses changes nothing. */
  datatype Action<+R> = Put(entry: Entry<R>, sweptAt: int) | Hit(key: Bytes)

  ghost predicate Possible<R>(s: State<R>, a: Action<R>) {
    match a
    case Put(e, at) => Fits(e) && s.swept <= at <= e.createdAt
    case Hit(k) => k in s.cache.entries
  }

  ghost function Step<R>(s: State<R>, a: Action<R>, ttl: int, maxEntries: int): State<R> {
    match a
    case Put(e, at) => State(Stored(Swept(s.cache, at, ttl), e, maxEntries), s.born[e.query := e.createdAt], at)
    case Hit(k) => s.(cache := Used(s.cache, k))
  }

  /** A run; an action that is not possible when its turn comes does nothing. */
  ghost function Run<R>(s: State<R>, actions: seq<Action<R>>, ttl: int, maxEntries: int): State<R>
    decreases |actions|
  {
    if actions == [] then s
    else Run(if Possible(s, actions[0]) then Step(s, actions[0], ttl, maxEntries) else s, actions[1..], ttl, maxEntries)
  }

  ghost predicate Expired<R>(s: State<R>, k: Bytes, ttl: int) {
    k in s.born && s.swept - s.born[k] >= ttl
  }

  /** An entry of this query is held; an absent one has expired or lost its place to `maxEntries` others. */
  ghost predicate PlaceExplained<R>(s: State<R>, k: Bytes, ttl: int, maxEntries: int) {
    k in s.cache.entries || Expired(s, k, ttl) || |Since(s.cache.uses, k)| >= maxEntries
  }

  /** Nobody used after a held entry has been evicted for want of room. */
  ghost predicate LaterOnesHeld<R>(s: State<R>, k: Bytes, ttl: int) {
    forall x <- Since(s.cache.uses, k) :: x in s.cache.entries || Expired(s, x, ttl)
  }

  ghost predicate HeldSince<R>(s: State<R>, k: Bytes, ttl: int) {
    k in s.born && k in s.cache.entries && s.born[k] == s.cache.entries[k].createdAt && !Expired(s, k, ttl)
  }

  ghost predicate Sound<R>(s: State<R>, ttl: int, maxEntries: int) {
    && Agrees(s.cache, maxEntries)
    && (forall k <- s.cache.uses :: k in s.born && PlaceExplained(s, k, ttl, maxEntries))
    && (forall k <- s.cache.entries :: HeldSince(s, k, ttl) && LaterOnesHeld(s, k, ttl))
  }

  lemma HeldIsUsed<R>(s: State<R>, k: Bytes, maxEntries: int)
    requires Agrees(s.cache, maxEntries) && k in s.cache.entries
    ensures k in s.cache.uses && k in s.cache.order
  {
    assert k in Elems(s.cache.order);
    var i :| 0 <= i < |s.cache.order| && s.cache.order[i] == k;
  }

  lemma HitKeepsSound<R>(s: State<R>, k: Bytes, ttl: int, maxEntries: int)
    requires Sound(s, ttl, maxEntries) && k in s.cache.entries
    ensures Sound(Step(s, Hit(k), ttl, maxEntries), ttl, maxEntries)
  {
    hide ByLastUse, Agrees, Since, MovedToEnd;
    var s' := Step(s, Hit(k), ttl, maxEntries);
    UsedAgrees(s.cache, k, maxEntries);
    HeldIsUsed(s, k, maxEntries);
    forall x ensures Since(s'.cache.uses, x) == if x == k then {} else Since(s.cache.uses, x) + {k} {
      SinceGrows(s.cache.uses, x, k);
    }
    forall x | x in s'.cache.uses ensures PlaceExplained(s', x, ttl, maxEntries) {
      if x != k {
        assert Since(s.cache.uses, x) <= Since(s'.cache.uses, x);
        MoreElements(Since(s.cache.uses, x), Since(s'.cache.uses, x));
      }
    }
    forall x | x in s'.cache.entries ensures HeldSince(s', x, ttl) && LaterOnesHeld(s', x, ttl) {
      assert HeldSince(s, x, ttl) && LaterOnesHeld(s, x, ttl);
    }
  }

  lemma MoreElements<T>(a: set<T>, b: set<T>)
    requires a <= b
    ensures |a| <= |b|
  {
    assert b == a + (b - a);
  }

  /** What is held after a `Put`: the new entry and every live one, less the least recently used if there is no room. */
  lemma StoredEntries<R>(c: Cache<R>, e: Entry<R>, maxEntries: int, k: Bytes)
    requires Agrees(c, maxEntries) && 0 < maxEntries && k != e.query
    ensures var c' := Stored(c, e, maxEntries);
            && e.query in c'.entries && c'.entries[e.query] == e && c'.uses == c.uses + [e.query]
            && (k in c'.entries ==> k in c.entries && c'.entries[k] == c.entries[k])
            && (k in c.entries && k !in c'.entries ==>
                  e.query !in c.entries && |c.entries| == maxEntries && c.order != [] && k == c.order[0])
  {
    hide ByLastUse, Fits, MovedToEnd;
  }

  /** The least recently used entry gives way only after `maxEntries` other queries were used. */
  lemma EvictedAfterMany<R>(c: Cache<R>, q: Bytes, maxEntries: int)
    requires Agrees(c, maxEntries) && |c.entries| == maxEntries && c.order != [] && q !in c.entries
    ensures |Since(c.uses + [q], c.order[0])| >= maxEntries
  {
    hide ByLastUse, Since, Fits;
    var k, rest := c.order[0], Elems(c.order[1..]);
    DropFirst(c.order, c.uses);
    UsedSinceFirst(c.order, c.uses);
    SinceGrows(c.uses, k, q);
    assert Elems(c.order) == rest + {k} && k !in rest;
    assert |c.entries.Keys| == |c.entries|;
    assert q !in Elems(c.order);
    assert |rest + {q}| == maxEntries;
    MoreElements(rest + {q}, Since(c.uses + [q], k));
  }

  lemma SweepKeepsSound<R>(s: State<R>, at: int, ttl: int, maxEntries: int)
    requires Sound(s, ttl, maxEntries) && s.swept <= at
    ensures Sound(State(Swept(s.cache, at, ttl), s.born, at), ttl, maxEntries)
  {
    hide ByLastUse, Agrees, Since, Kept;
    var s' := State(Swept(s.cache, at, ttl), s.born, at);
    SweptAgrees(s.cache, at, ttl, maxEntries);
    forall x | x in s'.cache.uses ensures PlaceExplained(s', x, ttl, maxEntries) {
      assert PlaceExplained(s, x, ttl, maxEntries);
      assert x in s.cache.entries ==> HeldSince(s, x, ttl);
    }
    forall x | x in s'.cache.entries ensures HeldSince(s', x, ttl) && LaterOnesHeld(s', x, ttl) {
      assert HeldSince(s, x, ttl) && LaterOnesHeld(s, x, ttl);
      forall y | y in Since(s.cache.uses, x) ensures y in s'.cache.entries || Expired(s', y, ttl) {
        assert y in s.cache.entries ==> HeldSince(s, y, ttl);
      }
    }
  }

  /** The rest of a `Put`, after its sweep. */
  lemma StoreKeepsSound<R>(s: State<R>, e: Entry<R>, ttl: int, maxEntries: int)
    requires Sound(s, ttl, maxEntries) && 0 < maxEntries && 0 < ttl && Fits(e) && s.swept <= e.createdAt
    ensures Sound(State(Stored(s.cache, e, maxEntries), s.born[e.query := e.createdAt], s.swept), ttl, maxEntries)
  {
    hide ByLastUse, Agrees, Since, Stored, Fits;
    var s' := State(Stored(s.cache, e, maxEntries), s.born[e.query := e.createdAt], s.swept);
    StoredAgrees(s.cache, e, maxEntries);
    forall k | k in s'.cache.uses ensures k in s'.born && PlaceExplained(s', k, ttl, maxEntries) {
      StoredExplained(s, e, ttl, maxEntries, k);
    }
    forall k | k in s'.cache.entries ensures HeldSince(s', k, ttl) && LaterOnesHeld(s', k, ttl) {
      StoredHeld(s, e, ttl, maxEntries, k);
    }
  }

  lemma StoredExplained<R>(s: State<R>, e: Entry<R>, ttl: int, maxEntries: int, k: Bytes)
    requires Sound(s, ttl, maxEntries) && 0 < maxEntries && 0 < ttl && k in Stored(s.cache, e, maxEntries).uses
    ensures var s' := State(Stored(s.cache, e, maxEntries), s.born[e.query := e.createdAt], s.swept);
            k in s'.born && PlaceExplained(s', k, ttl, maxEntries)
  {
    hide ByLastUse, Since, Stored, Fits, Elems;
    var other := if k == e.query then e.query + [0] else k;
    StoredEntries(s.cache, e, maxEntries, other);
    if k != e.query {
      var uses := s.cache.uses;
      assert k in uses && PlaceExplained(s, k, ttl, maxEntries);
      SinceGrows(uses, k, e.query);
      MoreElements(Since(uses, k), Since(uses + [e.query], k));
      if k in s.cache.entries && k !in Stored(s.cache, e, maxEntries).entries {
        EvictedAfterMany(s.cache, e.query, maxEntries);
      }
    }
  }

  lemma StoredHeld<R>(s: State<R>, e: Entry<R>, ttl: int, maxEntries: int, k: Bytes)
    requires Sound(s, ttl, maxEntries) && 0 < maxEntries && 0 < ttl && s.swept <= e.createdAt
    requires k in Stored(s.cache, e, maxEntries).entries
    ensures var s' := State(Stored(s.cache, e, maxEntries), s.born[e.query := e.createdAt], s.swept);
            HeldSince(s', k, ttl) && LaterOnesHeld(s', k, ttl)
  {
    hide ByLastUse, Since, Stored, Fits, Elems;
    var s' := State(Stored(s.cache, e, maxEntries), s.born[e.query := e.createdAt], s.swept);
    SinceGrows(s.cache.uses, k, e.query);
    StoredEntries(s.cache, e, maxEntries, if k == e.query then e.query + [0] else k);
    if k != e.query {
      assert HeldSince(s, k, ttl) && LaterOnesHeld(s, k, ttl);
      forall x | x in Since(s'.cache.uses, k) ensures x in s'.cache.entries || Expired(s', x, ttl) {
        if x != e.query {
          StoredEntries(s.cache, e, maxEntries, x);
          if x in s.cache.entries && x !in s'.cache.entries {
            LaterIsNotFirst(s.cache, k, x, maxEntries);
          }
        }
      }
    }
  }

  /** A key used after a held one is not the least recently used. */
  lemma LaterIsNotFirst<R>(c: Cache<R>, k: Bytes, x: Bytes, maxEntries: int)
    requires Agrees(c, maxEntries) && k in c.entries && x in Since(c.uses, k) && c.order != []
    ensures x != c.order[0]
  {
    assert k in Elems(c.order);
    var i :| 0 <= i < |c.order| && c.order[i] == k;
    var from := LastUse(c.uses, k) + 1;
    var j :| 0 <= j < |c.uses[from..]| && c.uses[from..][j] == x;
    assert c.uses[from + j] == x;
  }

  lemma StepKeepsSound<R>(s: State<R>, a: Action<R>, ttl: int, maxEntries: int)
    requires Sound(s, ttl, maxEntries) && Possible(s, a) && 0 < ttl && 0 < maxEntries
    ensures Sound(Step(s, a, ttl, maxEntries), ttl, maxEntries)
  {
    hide Sound;
    match a {
      case Put(e, at) =>
        SweepKeepsSound(s, at, ttl, maxEntries);
        StoreKeepsSound(State(Swept(s.cache, at, ttl), s.born, at), e, ttl, maxEntries);
      case Hit(k) => HitKeepsSound(s, k, ttl, maxEntries);
    }
  }

  lemma {:induction false} RunKeepsSound<R>(s: State<R>, actions: seq<Action<R>>, ttl: int, maxEntries: int)
    requires Sound(s, ttl, maxEntries) && 0 < ttl && 0 < maxEntries
    ensures Sound(Run(s, actions, ttl, maxEntries), ttl, maxEntries)
    decreases |actions|
  {
    hide Sound, Step;
    if actions != [] {
      if Possible(s, actions[0]) {
        StepKeepsSound(s, actions[0], ttl, maxEntries);
        RunKeepsSound(Step(s, actions[0], ttl, maxEntries), actions[1..], ttl, maxEntries);
      } else {
        RunKeepsSound(s, actions[1..], ttl, maxEntries);
      }
    }
  }

  ghost function Unexpired<R>(s: State<R>, keys: set<Bytes>, ttl: int): set<Bytes> {
    set k | k in keys && !Expired(s, k, ttl)
  }

  /** After any run from the empty cache: a stored query is held when it has not expired and
      fewer than `maxEntries` other queries were used since its own last use; and it is held
      only if it has not expired and fewer than `maxEntries` unexpired ones were. */
  lemma HeldByRecency<R>(actions: seq<Action<R>>, start: int, ttl: int, maxEntries: int, k: Bytes)
    requires 0 < ttl && 0 < maxEntries
    ensures var s := Run(State(Cache(map[], [], []), map[], start), actions, ttl, maxEntries);
            && Agrees(s.cache, maxEntries)
            && (k in s.cache.uses && !Expired(s, k, ttl) && |Since(s.cache.uses, k)| < maxEntries ==> k in s.cache.entries)
            && (k in s.cache.entries ==>
                  k in s.cache.uses && !Expired(s, k, ttl) && |Unexpired(s, Since(s.cache.uses, k), ttl)| < maxEntries)
  {
    hide ByLastUse, Run, Since, Fits;
    var empty: State<R> := State(Cache(map[], [], []), map[], start);
    NothingIsSound(empty, ttl, maxEntries);
    RunKeepsSound(empty, actions, ttl, maxEntries);
    var s := Run(empty, actions, ttl, maxEntries);
    if k in s.cache.entries {
      HeldIsUsed(s, k, maxEntries);
      assert HeldSince(s, k, ttl) && LaterOnesHeld(s, k, ttl);
      var later := Unexpired(s, Since(s.cache.uses, k), ttl);
      NotSinceItself(s.cache.uses, k);
      assert later + {k} <= s.cache.entries.Keys;
      MoreElements(later + {k}, s.cache.entries.Keys);
      assert |s.cache.entries.Keys| == |s.cache.entries|;
    }
    assert k in s.cache.uses ==> PlaceExplained(s, k, ttl, maxEntries);
  }

  lemma NothingIsSound<R>(s: State<R>, ttl: int, maxEntries: int)
    requires s.cache == Cache(map[], [], []) && 0 < maxEntries
    ensures Sound(s, ttl, maxEntries)
  {
  }

  lemma NotSinceItself(uses: seq<Bytes>, k: Bytes)
    ensures k !in Since(uses, k)
  {
    var from := LastUse(uses, k) + 1;
    assert forall j :: 0 <= j < |uses[from..]| ==> uses[from..][j] == uses[from + j];
  }

  // ---------------------------------------------------------------- what similarity means for hits

  /** A query too short for any trigram finds every other such query, and only those. */
  lemma ShortQueriesAlias(q: Bytes, k: Bytes)
    requires |q| < 3
    ensures Similarity(q, k) >= THRESHOLD <==> |k| < 3
  {
    assert Packed(q) == {};
    if |k| >= 3 {
      assert PackedAt(k, 0) in Packed(k);
      assert Packed(q) * Packed(k) == {};
      JaccardRange(Packed(q), Packed(k));
    } else {
      assert Packed(k) == {};
    }
  }

  /** Full similarity is having the same 3-byte windows, whatever their number and order. */
  lemma FullSimilarityIffSameWindows(q: Bytes, k: Bytes)
    ensures Similarity(q, k) == 1.0 <==> Windows(q) == Windows(k)
    ensures Similarity(q, k) == Similarity(k, q) && 0.0 <= Similarity(q, k) <= 1.0
  {
    JaccardRange(Packed(q), Packed(k));
    JaccardIsSymmetric(Packed(q), Packed(k));
    SamePackedIffSameWindows(q, k);
  }

  /** Three bytes packed. */
  function PackWindow(w: Bytes): int
    requires |w| == 3
  {
    Pack(w[0], w[1], w[2])
  }

  ghost predicate AllThree(ws: set<Bytes>) {
    forall w <- ws :: |w| == 3
  }

  ghost function PackAll(ws: set<Bytes>): set<int>
    requires AllThree(ws)
  {
    set w | w in ws :: PackWindow(w)
  }

  lemma PackWindowIsInjective(w: Bytes, v: Bytes)
    requires |w| == 3 && |v| == 3 && PackWindow(w) == PackWindow(v)
    ensures w == v
  {
    PackIsInjective(w[0], w[1], w[2], v[0], v[1], v[2]);
  }

  lemma {:induction false} PackAllSize(ws: set<Bytes>)
    requires AllThree(ws)
    ensures |PackAll(ws)| == |ws|
    decreases ws
  {
    hide PackWindow;
    if ws != {} {
      var w :| w in ws;
      PackAllSize(ws - {w});
      assert PackAll(ws) == PackAll(ws - {w}) + {PackWindow(w)};
      if PackWindow(w) in PackAll(ws - {w}) {
        var v :| v in ws - {w} && PackWindow(v) == PackWindow(w);
        PackWindowIsInjective(v, w);
        assert false;
      }
    }
  }

  lemma PackedIsPackAll(s: Bytes)
    ensures AllThree(Windows(s)) && Packed(s) == PackAll(Windows(s))
  {
    hide Pack;
    forall i | 0 <= i <= |s| - 3 ensures PackWindow(Window(s, i)) == PackedAt(s, i) && Window(s, i) in Windows(s) {
    }
    forall v | v in Packed(s) ensures v in PackAll(Windows(s)) {
      var i :| 0 <= i <= |s| - 3 && PackedAt(s, i) == v;
      assert PackWindow(Window(s, i)) == v;
    }
  }

  lemma PackAllMeets(a: set<Bytes>, b: set<Bytes>)
    requires AllThree(a) && AllThree(b)
    ensures AllThree(a * b) && AllThree(a + b)
    ensures PackAll(a * b) == PackAll(a) * PackAll(b) && PackAll(a + b) == PackAll(a) + PackAll(b)
  {
    hide PackWindow;
    forall v | v in PackAll(a) * PackAll(b) ensures v in PackAll(a * b) {
      var x :| x in a && PackWindow(x) == v;
      var y :| y in b && PackWindow(y) == v;
      PackWindowIsInjective(x, y);
      assert x in a * b;
    }
    forall v | v in PackAll(a + b) ensures v in PackAll(a) + PackAll(b) {
      var x :| x in a + b && PackWindow(x) == v;
      assert x in a || x in b;
    }
  }

  /** Two queries are similar enough for a hit if and only if at least seven in ten of the 3-byte windows of either
      occur in both; two queries without any are. */
  lemma SimilarIffSevenInTen(q: Bytes, k: Bytes)
    ensures Similarity(q, k) >= THRESHOLD <==> 10 * |Windows(q) * Windows(k)| >= 7 * |Windows(q) + Windows(k)|
  {
    hide Packed, Windows;
    PackedIsPackAll(q);
    PackedIsPackAll(k);
    PackAllMeets(Windows(q), Windows(k));
    PackAllSize(Windows(q) * Windows(k));
    PackAllSize(Windows(q) + Windows(k));
    var i, u := |Packed(q) * Packed(k)|, |Packed(q) + Packed(k)|;
    if u > 0 {
      SevenInTen(i, u);
    }
  }

  lemma SevenInTen(i: nat, u: nat)
    requires u > 0
    ensures i as real / u as real >= 0.7 <==> 10 * i >= 7 * u
  {
    var r, n, m: real := i as real / u as real, i as real, u as real;
    assert r * m == n;
    ScaleKeepsOrder(r, 0.7, m);
    assert n >= 0.7 * m <==> 10.0 * n >= 7.0 * m;
    assert (10 * i) as real == 10.0 * n && (7 * u) as real == 7.0 * m;
  }

  lemma ScaleKeepsOrder(r: real, c: real, m: real)
    requires m > 0.0
    ensures r >= c <==> r * m >= c * m
  {
    assert (r - c) * m == r * m - c * m;
    if r >= c {
      assert (r - c) * m >= 0.0;
    } else {
      assert (r - c) * m < 0.0;
    }
  }

  // ---------------------------------------------------------------- what is served

  /** The last entry put under each query. */
  ghost function Puts<R>(s: State<R>, actions: seq<Action<R>>, ttl: int, maxEntries: int, last: map<Bytes, Entry<R>>): map<Bytes, Entry<R>>
    decreases |actions|
  {
    if actions == [] then last
    else if !Possible(s, actions[0]) then Puts(s, actions[1..], ttl, maxEntries, last)
    else
      var last' := if actions[0].Put? then last[actions[0].entry.query := actions[0].entry] else last;
      Puts(Step(s, actions[0], ttl, maxEntries), actions[1..], ttl, maxEntries, last')
  }

  ghost predicate Serves<R>(c: Cache<R>, last: map<Bytes, Entry<R>>) {
    forall k <- c.entries :: k in last && c.entries[k] == last[k]
  }

  lemma StepServes<R>(s: State<R>, a: Action<R>, ttl: int, maxEntries: int, last: map<Bytes, Entry<R>>)
    requires Sound(s, ttl, maxEntries) && Possible(s, a) && 0 < ttl && 0 < maxEntries && Serves(s.cache, last)
    ensures Serves(Step(s, a, ttl, maxEntries).cache, if a.Put? then last[a.entry.query := a.entry] else last)
  {
    hide ByLastUse, Since, Fits, Stored, Kept, Elems;
    if a.Put? {
      var swept := Swept(s.cache, a.sweptAt, ttl);
      SweptAgrees(s.cache, a.sweptAt, ttl, maxEntries);
      forall k | k in Stored(swept, a.entry, maxEntries).entries && k != a.entry.query
        ensures k in s.cache.entries && Stored(swept, a.entry, maxEntries).entries[k] == s.cache.entries[k]
      {
        StoredEntries(swept, a.entry, maxEntries, k);
      }
      StoredEntries(swept, a.entry, maxEntries, a.entry.query + [0]);
    }
  }

  /** After any run, what is held for a query is what was last put under it. */
  lemma {:induction false} RunServesLastPut<R>(s: State<R>, actions: seq<Action<R>>, ttl: int, maxEntries: int, last: map<Bytes, Entry<R>>)
    requires Sound(s, ttl, maxEntries) && 0 < ttl && 0 < maxEntries && Serves(s.cache, last)
    ensures Serves(Run(s, actions, ttl, maxEntries).cache, Puts(s, actions, ttl, maxEntries, last))
    decreases |actions|
  {
    hide Sound, Step, Serves, Possible;
    if actions != [] {
      if Possible(s, actions[0]) {
        StepKeepsSound(s, actions[0], ttl, maxEntries);
        StepServes(s, actions[0], ttl, maxEntries, last);
        var last' := if actions[0].Put? then last[actions[0].entry.query := actions[0].entry] else last;
        RunServesLastPut(Step(s, actions[0], ttl, maxEntries), actions[1..], ttl, maxEntries, last');
      } else {
        RunServesLastPut(s, actions[1..], ttl, maxEntries, last);
      }
    }
  }
}
