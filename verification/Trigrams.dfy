/** Trigram fingerprints of a query and their Jaccard similarity. */
module Trigrams {

  type Byte = b: int | 0 <= b < 256

  type Bytes = seq<Byte>

  /** Three bytes in one word; the value of the shifts and ors, see `ShiftsAreSums`. */
  function Pack(x: Byte, y: Byte, z: Byte): int {
    x * 0x1_0000 + y * 0x100 + z
  }

  /** Or-ing bytes shifted apart adds them: no bits overlap and nothing leaves the word. */
  lemma ShiftsAreSums(x: bv8, y: bv8, z: bv8)
    ensures ((x as bv32) << 16) | ((y as bv32) << 8) | (z as bv32)
         == (x as bv32) * 0x1_0000 + (y as bv32) * 0x100 + (z as bv32) <= 0xFF_FFFF
  {
  }

  function Window(s: Bytes, i: nat): Bytes
    requires i + 3 <= |s|
  {
    s[i..i + 3]
  }

  /** The 3-byte windows of a string. */
  function Windows(s: Bytes): set<Bytes> {
    set i | 0 <= i <= |s| - 3 :: Window(s, i)
  }

  /** The windows, packed. */
  function Packed(s: Bytes): set<int> {
    set i | 0 <= i <= |s| - 3 :: PackedAt(s, i)
  }

  function PackedAt(s: Bytes, i: nat): int
    requires i + 3 <= |s|
  {
    Pack(s[i], s[i + 1], s[i + 2])
  }

  ghost predicate Sorted(s: seq<int>) {
    forall i, j :: 0 <= i < j < |s| ==> s[i] <= s[j]
  }

  ghost predicate Increasing(s: seq<int>) {
    forall i, j :: 0 <= i < j < |s| ==> s[i] < s[j]
  }

  function Members(s: seq<int>): set<int> {
    set v | v in s
  }

  // ---------------------------------------------------------------- building

  function Inserted(s: seq<int>, v: int): (t: seq<int>)
    ensures |t| == |s| + 1
  {
    if s == [] || s[|s| - 1] <= v then s + [v] else Inserted(s[..|s| - 1], v) + [s[|s| - 1]]
  }

  /** The values in ascending order. */
  function InOrder(s: seq<int>): (t: seq<int>)
    ensures |t| == |s|
  {
    if s == [] then [] else Inserted(InOrder(s[..|s| - 1]), s[|s| - 1])
  }

  lemma {:induction false} InsertedKeeps(s: seq<int>, v: int)
    ensures multiset(Inserted(s, v)) == multiset(s) + multiset{v}
  {
    if s != [] && s[|s| - 1] > v {
      InsertedKeeps(s[..|s| - 1], v);
      assert s == s[..|s| - 1] + [s[|s| - 1]];
    }
  }

  lemma {:induction false} InsertedIsSorted(s: seq<int>, v: int)
    requires Sorted(s)
    ensures Sorted(Inserted(s, v))
    ensures forall i :: 0 <= i <= |s| ==> Inserted(s, v)[i] <= v || Inserted(s, v)[i] <= s[|s| - 1]
  {
    if s != [] && s[|s| - 1] > v {
      InsertedIsSorted(s[..|s| - 1], v);
    }
  }

  lemma {:induction false} InOrderIsSorted(s: seq<int>)
    ensures Sorted(InOrder(s)) && multiset(InOrder(s)) == multiset(s)
  {
    if s != [] {
      InOrderIsSorted(s[..|s| - 1]);
      InsertedIsSorted(InOrder(s[..|s| - 1]), s[|s| - 1]);
      InsertedKeeps(InOrder(s[..|s| - 1]), s[|s| - 1]);
      assert s == s[..|s| - 1] + [s[|s| - 1]];
    }
  }

  /** Stands for the library's sort. */
  method Sort(a: array<int>)
    modifies a
    ensures Sorted(a[..]) && multiset(a[..]) == multiset(old(a[..]))
  {
    var sorted := InOrder(a[..]);
    InOrderIsSorted(a[..]);
    forall i | 0 <= i < a.Length {
      a[i] := sorted[i];
    }
    assert a[..] == sorted;
  }

  /** The values of a sorted run without its repetitions. */
  function Distinct(s: seq<int>): (d: seq<int>)
    ensures |d| <= |s| && (s != [] ==> d != [] && d[|d| - 1] == s[|s| - 1])
  {
    if |s| <= 1 then s
    else
      var front := s[..|s| - 1];
      if s[|s| - 1] != s[|s| - 2] then Distinct(front) + [s[|s| - 1]] else Distinct(front)
  }

  lemma {:induction false} DistinctIncreases(s: seq<int>)
    requires Sorted(s)
    ensures Increasing(Distinct(s))
  {
    if |s| > 1 {
      var front := s[..|s| - 1];
      DistinctIncreases(front);
      assert front[|front| - 1] == s[|s| - 2];
    }
  }

  lemma {:induction false} DistinctKeepsMembers(s: seq<int>)
    ensures Members(Distinct(s)) == Members(s)
  {
    if |s| > 1 {
      var front, last := s[..|s| - 1], s[|s| - 1];
      DistinctKeepsMembers(front);
      assert s == front + [last];
      assert Members(s) == Members(front) + {last};
      if last != s[|s| - 2] {
        assert Members(Distinct(front) + [last]) == Members(Distinct(front)) + {last};
      } else {
        assert front[|front| - 1] == last;
      }
    }
  }

  method BuildTrigrams(s: Bytes) returns (trigrams: seq<int>)
    ensures Increasing(trigrams) && Members(trigrams) == Packed(s)
  {
    if |s| < 3 {
      return [];
    }
    var a := new int[|s| - 2];
    for i := 0 to |s| - 2
      invariant forall k :: 0 <= k < i ==> a[k] == PackedAt(s, k)
    {
      a[i] := Pack(s[i], s[i + 1], s[i + 2]);
    }
    assert Members(a[..]) == Packed(s) by {
      forall i | 0 <= i <= |s| - 3 ensures PackedAt(s, i) in a[..] {
        assert a[..][i] == PackedAt(s, i);
      }
    }
    ghost var filled := a[..];
    Sort(a);
    SameMembers(filled, a[..]);
    ghost var sorted := a[..];
    var n := Compact(a);
    DistinctIncreases(sorted);
    DistinctKeepsMembers(sorted);
    trigrams := a[..n];
  }

  lemma SameMembers(s: seq<int>, t: seq<int>)
    requires multiset(s) == multiset(t)
    ensures Members(s) == Members(t)
  {
    forall v ensures v in s <==> v in t {
      assert v in s <==> v in multiset(s);
    }
  }

  /** Slide the first of each run of equal values to the front, in the same array. */
  method Compact(a: array<int>) returns (n: nat)
    requires a.Length > 0
    modifies a
    ensures n <= a.Length && a[..n] == Distinct(old(a[..]))
  {
    ghost var was := a[..];
    n := 1;
    assert was[..1] == [was[0]];
    for i := 1 to a.Length
      invariant 1 <= n <= i && a[..n] == Distinct(was[..i])
      invariant forall k :: i - 1 <= k < a.Length ==> a[k] == was[k]
    {
      assert was[..i + 1][..i] == was[..i];
      if a[i] != a[i - 1] {
        a[n] := a[i];
        n := n + 1;
      }
    }
    assert was[..a.Length] == was;
  }

  // ---------------------------------------------------------------- what the fingerprint means

  lemma PackIsInjective(x: Byte, y: Byte, z: Byte, x': Byte, y': Byte, z': Byte)
    requires Pack(x, y, z) == Pack(x', y', z')
    ensures x == x' && y == y' && z == z'
  {
  }

  /** Two strings have the same fingerprint exactly when they have the same 3-byte windows. */
  lemma SamePackedIffSameWindows(s: Bytes, t: Bytes)
    ensures Packed(s) == Packed(t) <==> Windows(s) == Windows(t)
  {
    if Packed(s) == Packed(t) {
      WindowsFollow(s, t);
      WindowsFollow(t, s);
    }
    if Windows(s) == Windows(t) {
      PackedFollow(s, t);
      PackedFollow(t, s);
    }
  }

  lemma WindowsFollow(s: Bytes, t: Bytes)
    requires Packed(s) <= Packed(t)
    ensures Windows(s) <= Windows(t)
  {
    hide Pack;
    forall i | 0 <= i <= |s| - 3 ensures Window(s, i) in Windows(t) {
      assert PackedAt(s, i) in Packed(s);
      var j :| 0 <= j <= |t| - 3 && PackedAt(t, j) == PackedAt(s, i);
      PackIsInjective(t[j], t[j + 1], t[j + 2], s[i], s[i + 1], s[i + 2]);
      assert Window(t, j) == [t[j], t[j + 1], t[j + 2]] == Window(s, i);
    }
  }

  lemma PackedFollow(s: Bytes, t: Bytes)
    requires Windows(s) <= Windows(t)
    ensures Packed(s) <= Packed(t)
  {
    hide Pack;
    forall i | 0 <= i <= |s| - 3 ensures PackedAt(s, i) in Packed(t) {
      assert Window(s, i) in Windows(s);
      var j :| 0 <= j <= |t| - 3 && Window(t, j) == Window(s, i);
      assert Window(t, j)[0] == Window(s, i)[0] && Window(t, j)[1] == Window(s, i)[1] && Window(t, j)[2] == Window(s, i)[2];
      assert PackedAt(t, j) == PackedAt(s, i);
    }
  }

  lemma NoMembers(s: seq<int>)
    ensures Members(s) == {} <==> s == []
  {
    if s != [] {
      assert s[0] in Members(s);
    }
  }

  /** An increasing sequence is determined by its members. */
  lemma {:induction false} IncreasingIsUnique(s: seq<int>, t: seq<int>)
    requires Increasing(s) && Increasing(t) && Members(s) == Members(t)
    ensures s == t
  {
    NoMembers(s);
    NoMembers(t);
    if s == [] {
      assert t == [];
    } else {
      assert s[0] in Members(s) && t[0] in Members(t);
      assert s[0] == t[0];
      assert Members(s[1..]) == Members(s) - {s[0]} by {
        assert s == [s[0]] + s[1..];
      }
      assert Members(t[1..]) == Members(t) - {t[0]} by {
        assert t == [t[0]] + t[1..];
      }
      IncreasingIsUnique(s[1..], t[1..]);
    }
  }

  // ---------------------------------------------------------------- similarity

  /** |A n B| / |A u B|, and 1 for two empty sets. */
  function Jaccard(a: set<int>, b: set<int>): real {
    if a + b == {} then 1.0 else |a * b| as real / |a + b| as real
  }

  lemma UnionSize(a: set<int>, b: set<int>)
    ensures |a + b| == |a| + |b| - |a * b|
  {
  }

  lemma {:induction false} MembersSize(s: seq<int>)
    requires Increasing(s)
    ensures |Members(s)| == |s|
  {
    if s != [] {
      MembersSize(s[1..]);
      assert s == [s[0]] + s[1..];
      assert Members(s) == Members(s[1..]) + {s[0]};
      assert s[0] !in s[1..];
    }
  }

  /** What the two prefixes passed by the merge have in common. */
  ghost function Common(a: seq<int>, b: seq<int>, i: nat, j: nat): set<int>
    requires i <= |a| && j <= |b|
  {
    Members(a[..i]) * Members(b[..j])
  }

  /** Everything passed on one side lies below what is left on the other. */
  ghost predicate Merged(a: seq<int>, b: seq<int>, i: nat, j: nat) {
    && i <= |a| && j <= |b|
    && (i < |a| ==> forall k :: 0 <= k < j ==> b[k] < a[i])
    && (j < |b| ==> forall k :: 0 <= k < i ==> a[k] < b[j])
  }

  lemma PassLeft(a: seq<int>, b: seq<int>, i: nat, j: nat)
    requires Increasing(a) && Merged(a, b, i, j) && i < |a| && j < |b| && a[i] < b[j]
    ensures Merged(a, b, i + 1, j) && Common(a, b, i + 1, j) == Common(a, b, i, j)
    ensures Common(b, a, j, i + 1) == Common(b, a, j, i)
  {
    TakeOne(a, i);
  }

  lemma PassBoth(a: seq<int>, b: seq<int>, i: nat, j: nat)
    requires Increasing(a) && Increasing(b) && Merged(a, b, i, j) && i < |a| && j < |b| && a[i] == b[j]
    ensures Merged(a, b, i + 1, j + 1) && |Common(a, b, i + 1, j + 1)| == |Common(a, b, i, j)| + 1
  {
    TakeOne(a, i);
    TakeOne(b, j);
    assert Common(a, b, i + 1, j + 1) == Common(a, b, i, j) + {a[i]};
  }

  lemma MergedFlips(a: seq<int>, b: seq<int>, i: nat, j: nat)
    requires Merged(a, b, i, j)
    ensures Merged(b, a, j, i) && Common(a, b, i, j) == Common(b, a, j, i)
  {
  }

  method JaccardSimilarity(a: seq<int>, b: seq<int>) returns (sim: real)
    requires Increasing(a) && Increasing(b)
    ensures sim == Jaccard(Members(a), Members(b))
  {
    hide Members, Increasing, Merged;
    if |a| == 0 && |b| == 0 {
      NoMembers(a);
      NoMembers(b);
      return 1.0;
    }
    var i, j := 0, 0;
    var intersection := 0;
    NothingMerged(a, b);
    while i < |a| && j < |b|
      invariant i <= |a| && j <= |b| && Merged(a, b, i, j) && intersection == |Common(a, b, i, j)|
    {
      if a[i] == b[j] {
        PassBoth(a, b, i, j);
        intersection := intersection + 1;
        i := i + 1;
        j := j + 1;
      } else if a[i] < b[j] {
        PassLeft(a, b, i, j);
        i := i + 1;
      } else {
        MergedFlips(a, b, i, j);
        PassLeft(b, a, j, i);
        MergedFlips(b, a, j + 1, i);
        j := j + 1;
      }
    }
    CommonIsDone(a, b, i, j);
    MembersSize(a);
    MembersSize(b);
    UnionSize(Members(a), Members(b));
    var union := |a| + |b| - intersection;
    NoMembers(a);
    NoMembers(b);
    assert Members(a) + Members(b) != {} by {
      assert Members(a) <= Members(a) + Members(b) && Members(b) <= Members(a) + Members(b);
    }
    sim := intersection as real / union as real;
  }

  lemma NothingMerged(a: seq<int>, b: seq<int>)
    ensures Merged(a, b, 0, 0) && Common(a, b, 0, 0) == {}
  {
  }

  lemma TakeOne(s: seq<int>, i: nat)
    requires i < |s| && Increasing(s)
    ensures Members(s[..i + 1]) == Members(s[..i]) + {s[i]} && s[i] !in Members(s[..i])
  {
    assert s[..i + 1] == s[..i] + [s[i]];
  }

  lemma CommonIsDone(a: seq<int>, b: seq<int>, i: nat, j: nat)
    requires Increasing(a) && Increasing(b) && Merged(a, b, i, j) && (i == |a| || j == |b|)
    ensures Common(a, b, i, j) == Members(a) * Members(b)
  {
    forall v | v in a && v in b ensures v in a[..i] && v in b[..j] {
      var k :| 0 <= k < |a| && a[k] == v;
      var l :| 0 <= l < |b| && b[l] == v;
      assert k < i && l < j;
      assert a[..i][k] == v && b[..j][l] == v;
    }
  }

  lemma JaccardIsSymmetric(a: set<int>, b: set<int>)
    ensures Jaccard(a, b) == Jaccard(b, a)
  {
    assert a * b == b * a && a + b == b + a;
  }

  /** Between 0 and 1; 1 for equal sets only, 0 for disjoint ones only. */
  lemma JaccardRange(a: set<int>, b: set<int>)
    ensures 0.0 <= Jaccard(a, b) <= 1.0
    ensures Jaccard(a, b) == 1.0 <==> a == b
    ensures Jaccard(a, b) == 0.0 <==> a * b == {} && a + b != {}
  {
    if a + b != {} {
      var i, u := |a * b|, |a + b|;
      SubsetSize(a * b, a + b);
      Fraction(i, u);
      if i == u {
        assert a * b == a + b;
        assert a <= a + b && b <= a + b;
      }
    } else {
      assert a <= a + b && b <= a + b;
    }
  }

  lemma Fraction(i: nat, u: nat)
    requires i <= u && 0 < u
    ensures 0.0 <= i as real / u as real <= 1.0
    ensures (i as real / u as real == 1.0 <==> i == u) && (i as real / u as real == 0.0 <==> i == 0)
  {
    var q := i as real / u as real;
    assert q * u as real == i as real;
  }

  lemma SubsetSize(a: set<int>, b: set<int>)
    requires a <= b
    ensures |a| <= |b| && (|a| == |b| ==> a == b)
  {
    assert b == a + (b - a) && a !! (b - a);
    assert |b| == |a| + |b - a|;
  }
}
