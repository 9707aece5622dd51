/** Code fences come out balanced: when every fence starts a line, each chunk but the last
    holds an even number of fences, and the last has the parity of the whole text. */
module FenceBalance {
  import opened Text
  import opened Splitter

  /** Every fence starts a line; in particular no run of backticks is longer than three. */
  ghost predicate LineFences(s: string) {
    forall i :: IsFence(s, i) ==> i == 0 || s[i - 1] == '\n'
  }

  // ---------------------------------------------------------------- the open-block scan

  /** The scan reports an open block exactly when it has seen an odd number of fences, and
      the fence it reports has an even number before it. */
  lemma {:induction false} UnclosedParity(s: string, i: nat, open: int)
    requires i <= |s| && open < i
    ensures var u, pending := Unclosed(s, i, open), (if open >= 0 then 1 else 0);
            && (u >= 0 <==> (Fences(s[i..]) + pending) % 2 == 1)
            && u <= |s|
            && (u >= i ==> (Fences(s[i..u]) + pending) % 2 == 0)
            && (0 <= u < i ==> u == open)
    decreases |s| - i
  {
    hide Fences;
    if |s| - i < 3 {
      TooShort(s[i..]);
    }
    if i + 3 <= |s| {
      if IsFence(s, i) {
        var open' := if open < 0 then i else -1;
        UnclosedParity(s, i + 3, open');
        StepOverFence(s, i, Unclosed(s, i + 3, open'));
      } else {
        UnclosedParity(s, i + 1, open);
        StepOverRune(s, i, Unclosed(s, i + 1, open));
      }
    }
  }

  lemma {:induction false} TooShort(s: string)
    requires |s| < 3
    ensures Fences(s) == 0
  {
  }

  lemma {:induction false} StepOverFence(s: string, i: nat, u: int)
    requires IsFence(s, i) && u <= |s|
    ensures Fences(s[i..]) == 1 + Fences(s[i + 3..])
    ensures u >= i + 3 ==> Fences(s[i..u]) == 1 + Fences(s[i + 3..u])
    ensures Fences(s[i..i]) == 0
  {
    assert s[i..][3..] == s[i + 3..] && IsFence(s[i..], 0);
    if u >= i + 3 {
      assert s[i..u][3..] == s[i + 3..u] && IsFence(s[i..u], 0);
    }
  }

  lemma {:induction false} StepOverRune(s: string, i: nat, u: int)
    requires i < |s| && !IsFence(s, i) && u <= |s|
    ensures Fences(s[i..]) == Fences(s[i + 1..])
    ensures u >= i + 1 ==> Fences(s[i..u]) == Fences(s[i + 1..u])
  {
    assert s[i..][1..] == s[i + 1..] && !IsFence(s[i..], 0);
    if u >= i + 1 {
      assert s[i..u][1..] == s[i + 1..u] && !IsFence(s[i..u], 0);
    }
  }

  // ---------------------------------------------------------------- cuts that miss fences

  lemma {:induction false} CleanAtNonTick(s: string, k: nat)
    requires k < |s| && s[k] != '`'
    ensures CleanCut(s, k)
  {
  }

  lemma {:induction false} CleanNaturalEnd(s: string, maxLen: nat)
    requires 10 <= maxLen < |s| && LineFences(s)
    ensures CleanCut(s, NaturalEnd(s, EffectiveLimit(maxLen)))
  {
    hide EffectiveLimit, CleanCut;
    NaturalEndFacts(s, maxLen);
    var end := EffectiveLimit(maxLen);
    var m := NaturalEnd(s, end);
    if s[m] != '`' {
      CleanAtNonTick(s, m);
    } else {
      NoNewlineBefore(s, end);
      CleanAtTick(s, m);
    }
  }

  /** A natural end that is no newline, space or tab is the limit, and no newline is near. */
  lemma NoNewlineBefore(s: string, end: nat)
    requires 0 < end < |s| && s[NaturalEnd(s, end)] == '`'
    ensures NaturalEnd(s, end) == end && forall j :: 0 < j < end && j + 200 >= end ==> s[j] != '\n'
  {
  }

  lemma CleanAtTick(s: string, k: nat)
    requires 5 <= k < |s| && LineFences(s) && forall j :: 0 < j < k && j + 200 >= k ==> s[j] != '\n'
    ensures CleanCut(s, k)
  {
  }

  /** With no closing fence in reach, nothing between the natural end and `maxLen - 2` is a fence. */
  lemma {:induction false} CleanBeyond(s: string, maxLen: nat, m: nat, k: nat)
    requires m <= k <= maxLen - 5 && maxLen <= |s| && CleanCut(s, m)
    requires var closing := NextFenceEnd(s, m); closing == -1 || closing > maxLen
    ensures CleanCut(s, k) && Fences(s[..k]) == Fences(s[..m])
  {
    var t := s[..k];
    forall i | m - 3 < i < m ensures !IsFence(t, i) {
      assert IsFence(t, i) ==> IsFence(s, i);
    }
    FencesAdd(t, m);
    assert t[..m] == s[..m];
    forall i ensures !IsFence(t[m..], i) {
      assert IsFence(t[m..], i) ==> IsFence(s, m + i);
    }
    NoFences(t[m..]);
  }

  lemma {:induction false} ClosingAddsOne(s: string, m: nat)
    requires LineFences(s) && CleanCut(s, m) && NextFenceEnd(s, m) != -1
    ensures var closing := NextFenceEnd(s, m);
            CleanCut(s, closing) && Fences(s[..closing]) == Fences(s[..m]) + 1
  {
    hide Fences;
    var closing := NextFenceEnd(s, m);
    var t := s[..closing];
    forall i | m - 3 < i < m ensures !IsFence(t, i) {
      assert IsFence(t, i) ==> IsFence(s, i);
    }
    FencesAdd(t, m);
    assert t[..m] == s[..m];
    var tail := t[m..];
    var at := closing - 3 - m;
    forall i | i < at ensures !IsFence(tail, i) {
      assert IsFence(tail, i) ==> IsFence(s, m + i);
    }
    FencesAdd(tail, at);
    forall i ensures !IsFence(tail[..at], i) {
      assert IsFence(tail[..at], i) ==> IsFence(tail, i);
    }
    NoFences(tail[..at]);
    assert IsFence(tail[at..], 0);
    OneFence(tail[at..]);
    NoFences(tail[at..][3..]);
  }

  // ---------------------------------------------------------------- one cut

  /** An ordinary cut takes an even number of fences, a re-opening one an odd number. */
  ghost predicate EvenCut(s: string, c: Cut)
    requires 0 <= c.k <= |s|
  {
    CleanCut(s, c.k) && Fences(s[..c.k]) % 2 == (if c.Plain? then 0 else 1)
  }

  lemma {:induction false} CutIsEven(s: string, maxLen: nat)
    requires 10 <= maxLen < |s| && LineFences(s)
    ensures var c := NextCut(s, maxLen); InRange(s, c) && EvenCut(s, c)
  {
    hide NaturalEnd, CutBlock, Unclosed, Fences, LineFences, CleanCut, EffectiveLimit, HeaderAt;
    CutBounds(s, maxLen);
    NaturalEndFacts(s, maxLen);
    CleanNaturalEnd(s, maxLen);
    var c := NextCut(s, maxLen);
    var m := NaturalEnd(s, EffectiveLimit(maxLen));
    var u := Unclosed(s[..m], 0, -1);
    UnclosedParity(s[..m], 0, -1);
    assert s[..m][0..] == s[..m];
    if u >= 0 {
      UnclosedFacts(s[..m], 0, -1);
      assert IsFence(s[..m], u) && IsFence(s, u);
      assert s[..m][0..u] == s[..u];
      var closing := NextFenceEnd(s, m);
      if closing > 0 && closing <= maxLen {
        ClosingAddsOne(s, m);
      } else {
        CutBlockIsEven(s, maxLen, m, u);
      }
    }
  }

  lemma {:induction false} CutBlockIsEven(s: string, maxLen: nat, m: int, u: nat)
    requires 10 <= maxLen < |s| && LineFences(s)
    requires m == NaturalEnd(s, EffectiveLimit(maxLen)) && 0 < m <= maxLen && CleanCut(s, m)
    requires IsFence(s, u) && u + 3 <= m && Fences(s[..u]) % 2 == 0 && Fences(s[..m]) % 2 == 1
    requires var closing := NextFenceEnd(s, m); closing == -1 || closing > maxLen
    ensures var c := CutBlock(s, maxLen, m, u); 0 <= c.k <= |s| && EvenCut(s, c)
  {
    BlockBounds(s, maxLen, m, u);
    var c := CutBlock(s, maxLen, m, u);
    if c.Reopen? {
      CleanBeyond(s, maxLen, m, c.k);
    } else {
      CutBeforeIsEven(s, maxLen, u);
    }
  }

  lemma {:induction false} CutBeforeIsEven(s: string, maxLen: nat, u: nat)
    requires IsFence(s, u) && LineFences(s) && Fences(s[..u]) % 2 == 0
    requires CutBeforeOrInside(s, maxLen, u).Plain?
    ensures var k := CutBeforeOrInside(s, maxLen, u).k; 0 <= k <= u && CleanCut(s, k) && Fences(s[..k]) % 2 == 0
  {
    var k := CutBeforeOrInside(s, maxLen, u).k;
    assert u > 0 && s[u - 1] == '\n';
    assert k == u - 1;
    CleanAtNonTick(s, k);
    var t := s[..u];
    CleanAtNonTick(t, k);
    FencesAdd(t, k);
    assert t[..k] == s[..k];
  }

  // ---------------------------------------------------------------- what is left

  lemma {:induction false} PlainRest(s: string, k: nat)
    requires k <= |s| && LineFences(s) && CleanCut(s, k)
    ensures var r := SkipFront(s[k..], IsBlank);
            LineFences(r) && Fences(s) == Fences(s[..k]) + Fences(r)
  {
    hide Fences, SkipFront, LineFences, CleanCut;
    FencesAdd(s, k);
    var t := s[k..];
    var r := SkipFront(t, IsBlank);
    var w := |t| - |r|;
    assert r == t[w..] == s[k + w..];
    CleanAfterBlanks(t, w);
    FencesAdd(t, w);
    forall i | 0 <= i < w ensures IsSpace(t[..w][i]) {
      assert IsBlank(t[i]);
    }
    NoFencesInSpace(t[..w]);
    LineFencesInSuffix(s, k + w);
  }

  lemma CleanAfterBlanks(t: string, w: nat)
    requires w <= |t| && forall i :: 0 <= i < w ==> IsBlank(t[i])
    ensures CleanCut(t, w)
  {
  }

  lemma LineFencesInSuffix(s: string, k: nat)
    requires k <= |s| && LineFences(s)
    ensures LineFences(s[k..])
  {
    forall i | IsFence(s[k..], i) ensures i == 0 || s[k..][i - 1] == '\n' {
      assert IsFence(s, k + i);
    }
  }

  lemma {:induction false} HeaderHasOneFence(s: string, u: nat)
    requires IsFence(s, u) && LineFences(s)
    ensures Fences(HeaderAt(s, u)) == 1
    ensures forall i :: IsFence(HeaderAt(s, u), i) ==> i == 0
  {
    hide HeaderAt, Fences, IsSpace;
    var h := HeaderAt(s, u);
    HeaderFacts(s, u);
    forall i | IsFence(h, i) ensures i == 0 {
      assert IsFence(s, u + i);
      assert s[u..u + |h|] == h;
    }
    forall i ensures !IsFence(h[3..], i) {
      assert IsFence(h[3..], i) ==> IsFence(h, i + 3);
    }
    NoFences(h[3..]);
    OneFence(h);
  }

  lemma {:induction false} OneFence(h: string)
    requires IsFence(h, 0)
    ensures Fences(h) == 1 + Fences(h[3..])
  {
  }

  lemma {:induction false} TrimKeepsFences(t: string)
    requires LineFences(t)
    ensures LineFences(TrimEnd(t, IsSpace)) && Fences(TrimEnd(t, IsSpace)) == Fences(t)
  {
    var r := TrimEnd(t, IsSpace);
    if |r| < |t| {
      assert IsSpace(t[|r|]);
      CleanAtNonTick(t, |r|);
      FencesAdd(t, |r|);
      NoFencesInSpace(t[|r|..]);
      assert t[..|r|] == r;
    } else {
      assert r == t;
    }
    forall i | IsFence(r, i) ensures i == 0 || r[i - 1] == '\n' {
      assert IsFence(t, i);
    }
  }

  lemma {:induction false} JoinLine(h: string, rest: string)
    requires forall i :: IsFence(h, i) ==> i == 0
    requires forall i :: IsFence(rest, i) ==> i == 0 || rest[i - 1] == '\n'
    ensures LineFences(h + "\n" + rest) && Fences(h + "\n" + rest) == Fences(h) + Fences(rest)
  {
    var t := h + "\n" + rest;
    var k := |h|;
    assert t[k] == '\n' && t[..k] == h && t[k + 1..] == rest;
    CleanAtNonTick(t, k);
    FencesAdd(t, k);
    assert t[k..][1..] == rest && !IsFence(t[k..], 0);
    forall i | IsFence(t, i) ensures i == 0 || t[i - 1] == '\n' {
      if i < k {
        assert IsFence(h, i);
      } else {
        assert IsFence(rest, i - k - 1);
      }
    }
  }

  lemma {:induction false} ReopenedRest(s: string, k: nat, u: nat)
    requires k <= |s| && LineFences(s) && CleanCut(s, k) && IsFence(s, u)
    ensures var r := TrimSpace(HeaderAt(s, u) + "\n" + s[k..]);
            LineFences(r) && Fences(s) + 1 == Fences(s[..k]) + Fences(r)
  {
    FencesAdd(s, k);
    HeaderFacts(s, u);
    HeaderHasOneFence(s, u);
    forall i | IsFence(s[k..], i) ensures i == 0 || s[k..][i - 1] == '\n' {
      assert IsFence(s, k + i);
    }
    var h := HeaderAt(s, u);
    JoinLine(h, s[k..]);
    var t := h + "\n" + s[k..];
    assert t[0] == '`';
    TrimKeepsFences(t);
  }

  lemma {:induction false} ClosedChunk(x: string)
    ensures Fences(TrimEnd(x, IsBlank) + CLOSING) == Fences(x) + 1
  {
    var r := TrimEnd(x, IsBlank);
    if |r| < |x| {
      assert IsBlank(x[|r|]);
      CleanAtNonTick(x, |r|);
      FencesAdd(x, |r|);
      NoFencesInSpace(x[|r|..]);
      assert x[..|r|] == r;
    } else {
      assert r == x;
    }
    var chunk := r + CLOSING;
    assert chunk[|r|] == '\n' && chunk[..|r|] == r && chunk[|r|..] == CLOSING;
    CleanAtNonTick(chunk, |r|);
    FencesAdd(chunk, |r|);
    assert CLOSING[1..] == FENCE && !IsFence(CLOSING, 0) && IsFence(FENCE, 0);
  }

  // ---------------------------------------------------------------- the theorem

  lemma {:induction false} RestParity(s: string, maxLen: nat, c: Cut)
    requires 1 <= c.k <= |s| && LineFences(s) && EvenCut(s, c)
    requires c.Reopen? ==> c.fence >= 0 && IsFence(s, c.fence)
    ensures LineFences(RestOf(s, c)) && Fences(ChunkOf(s, c)) % 2 == 0 && Fences(RestOf(s, c)) % 2 == Fences(s) % 2
  {
    hide HeaderAt, TrimSpace, TrimEnd, SkipFront, Fences, LineFences, CleanCut;
    if c.Plain? {
      PlainRest(s, c.k);
    } else {
      ReopenedRest(s, c.k, c.fence);
      ClosedChunk(s[..c.k]);
    }
  }

  /** Limits below 10 leave no room for the shortest header, and only suit texts without fences. */
  ghost predicate Roomy(s: string, maxLen: nat) {
    maxLen >= 10 || forall i :: !IsFence(s, i)
  }

  lemma {:induction false} RoomyCut(s: string, maxLen: nat)
    requires 1 <= maxLen < |s| && Roomy(s, maxLen) && LineFences(s)
    ensures var c := NextCut(s, maxLen);
            && InRange(s, c) && 1 <= c.k && EvenCut(s, c)
            && LineFences(RestOf(s, c)) && Roomy(RestOf(s, c), maxLen)
            && Fences(ChunkOf(s, c)) % 2 == 0 && Fences(RestOf(s, c)) % 2 == Fences(s) % 2
  {
    hide HeaderAt, NextCut, LineFences, Fences, EvenCut, ChunkOf, RestOf;
    CutBounds(s, maxLen);
    var c := NextCut(s, maxLen);
    if maxLen >= 10 {
      CutIsEven(s, maxLen);
    } else {
      NoFencesIsEven(s, c);
      NoFencesInRest(s, c);
    }
    RestParity(s, maxLen, c);
  }

  lemma NoFencesIsEven(s: string, c: Cut)
    requires InRange(s, c) && c.Plain? && forall i :: !IsFence(s, i)
    ensures EvenCut(s, c)
  {
    forall i ensures !IsFence(s[..c.k], i) {
      assert IsFence(s[..c.k], i) ==> IsFence(s, i);
    }
    NoFences(s[..c.k]);
  }

  lemma NoFencesInRest(s: string, c: Cut)
    requires InRange(s, c) && c.Plain? && forall i :: !IsFence(s, i)
    ensures forall i :: !IsFence(RestOf(s, c), i)
  {
    hide SkipFront;
    var r := RestOf(s, c);
    assert r == s[|s| - |r|..];
    forall i ensures !IsFence(r, i) {
      assert IsFence(r, i) ==> IsFence(s, |s| - |r| + i);
    }
  }

  lemma {:induction false} ChunksAreBalancedIn(s: string, n: nat, maxLen: nat)
    requires maxLen >= 1 && EndsIn(s, n, maxLen) && Ends(s, maxLen) && Roomy(s, maxLen) && LineFences(s)
    ensures var chunks := Split(s, maxLen);
            && (forall i :: 0 <= i < |chunks| - 1 ==> Fences(chunks[i]) % 2 == 0)
            && Fences(s) % 2 == (if chunks == [] then 0 else Fences(chunks[|chunks| - 1]) % 2)
    decreases n
  {
    hide HeaderAt, NextCut, LineFences, Fences, EvenCut, ChunkOf, RestOf, Split, EndsIn, Ends, Roomy;
    if |s| <= maxLen {
      NoFencesInSpace("");
      SplitShort(s, maxLen);
    } else {
      SplitUnfolds(s, n, maxLen);
      RoomyCut(s, maxLen);
      ChunksAreBalancedIn(RestOf(s, NextCut(s, maxLen)), n - 1, maxLen);
    }
  }

  /** Every chunk but the last is balanced, and the last is balanced exactly when the text is. */
  lemma ChunksAreBalanced(s: string, maxLen: nat)
    requires maxLen >= 1 && Ends(s, maxLen) && Roomy(s, maxLen) && LineFences(s)
    ensures var chunks := Split(s, maxLen);
            && (forall i :: 0 <= i < |chunks| - 1 ==> Fences(chunks[i]) % 2 == 0)
            && Fences(s) % 2 == (if chunks == [] then 0 else Fences(chunks[|chunks| - 1]) % 2)
  {
    hide Split, Fences, EndsIn;
    var n: nat :| EndsIn(s, n, maxLen);
    ChunksAreBalancedIn(s, n, maxLen);
  }

  /** Closing and re-opening blocks keeps the promise exactly when the text itself keeps it. */
  lemma {:induction false} BalancedIffSourceBalanced(s: string, maxLen: nat)
    requires maxLen >= 1 && Ends(s, maxLen) && Roomy(s, maxLen) && LineFences(s)
    ensures (forall chunk <- Split(s, maxLen) :: Fences(chunk) % 2 == 0) <==> Fences(s) % 2 == 0
  {
    hide Split, Fences, Ends, Roomy, LineFences;
    ChunksAreBalanced(s, maxLen);
    var chunks := Split(s, maxLen);
    if Fences(s) % 2 == 0 {
      forall chunk | chunk in chunks ensures Fences(chunk) % 2 == 0 {
        var i :| 0 <= i < |chunks| && chunks[i] == chunk;
      }
    } else {
      assert chunks[|chunks| - 1] in chunks;
    }
  }
}
