/** Exactly which texts the splitter comes to an end on. */
module Termination {
  import opened Text
  import opened Splitter
  import opened FenceBalance

  /** `t` begins with a code block that can neither be sent whole nor be re-opened with progress:
      it does not end within one message, and its header leaves no room. */
  ghost predicate CrampedBlock(t: string, maxLen: nat) {
    && |t| > maxLen && IsFence(t, 0) && |HeaderAt(t, 0)| > maxLen - 7
    && (NextFenceEnd(t, 3) == -1 || NextFenceEnd(t, 3) > maxLen)
  }

  /** Such a block is opened at `u`. */
  ghost predicate Cramped(s: string, u: nat, maxLen: nat) {
    u <= |s| && Fences(s[..u]) % 2 == 0 && CrampedBlock(s[u..], maxLen)
  }

  ghost predicate BlocksFit(s: string, maxLen: nat) {
    forall u: nat :: !Cramped(s, u, maxLen)
  }

  /** The text does not begin with a newline. */
  predicate StartsClean(s: string) { s == "" || s[0] != '\n' }

  /** The text does not end in white space. */
  predicate EndsClean(s: string) { s == "" || !IsSpace(s[|s| - 1]) }

  // ---------------------------------------------------------------- which block is open

  /** The block that is open at the end of `t` is opened by its last fence. */
  lemma {:induction false} UnclosedIsLast(t: string, i: nat, open: int)
    requires open < i
    ensures var u := Unclosed(t, i, open);
            && (u >= i ==> forall j :: u + 3 <= j ==> !IsFence(t, j))
            && (0 <= u < i ==> u == open && forall j :: i <= j ==> !IsFence(t, j))
    decreases |t| - i
  {
    if i + 3 <= |t| {
      if IsFence(t, i) {
        UnclosedIsLast(t, i + 3, if open < 0 then i else -1);
      } else {
        UnclosedIsLast(t, i + 1, open);
      }
    }
  }

  /** Fences do not overlap. */
  lemma FencesApart(s: string, i: int, j: int)
    requires LineFences(s) && IsFence(s, i) && IsFence(s, j) && i < j
    ensures i + 3 <= j
  {
  }

  lemma CleanAtFence(s: string, u: nat)
    requires LineFences(s) && IsFence(s, u)
    ensures CleanCut(s, u)
  {
  }

  /** No fence follows a cramped block's opening within its message. */
  lemma {:induction false} NextFenceIsFar(s: string, u: nat, maxLen: nat, j: nat)
    requires Cramped(s, u, maxLen) && u + 3 <= j && IsFence(s, j)
    ensures j + 3 > u + maxLen
  {
    hide HeaderAt;
    assert IsFence(s[u..], j - u);
  }

  lemma {:induction false} NextFenceFrom(s: string, m: nat, j: nat)
    requires m <= j && IsFence(s, j)
    ensures m + 3 <= NextFenceEnd(s, m) <= j + 3
  {
  }

  /** Where no fence lies between, the number of fences does not change. */
  lemma {:induction false} SameFences(s: string, m: nat, k: nat)
    requires m <= k <= |s| && CleanCut(s, m) && forall j :: m <= j < k ==> !IsFence(s, j)
    ensures Fences(s[..k]) == Fences(s[..m])
  {
    hide Fences;
    var t := s[..k];
    forall i | m - 3 < i < m ensures !IsFence(t, i) {
      assert IsFence(t, i) ==> IsFence(s, i);
    }
    FencesAdd(t, m);
    assert t[..m] == s[..m];
    forall i ensures !IsFence(t[m..], i) {
      assert IsFence(t[m..], i) ==> IsFence(s, m + i);
    }
    NoFences(t[m..]);
  }

  lemma {:induction false} OpeningCounts(s: string, u: nat, m: nat)
    requires LineFences(s) && IsFence(s, u) && u + 3 <= m <= |s|
    requires forall j :: u + 3 <= j && j + 3 <= m ==> !IsFence(s, j)
    ensures Fences(s[..m]) == Fences(s[..u]) + 1
  {
    hide Fences;
    var t := s[..m];
    LineFencesInPrefix(s, m);
    assert IsFence(t, u);
    CleanAtFence(t, u);
    FencesAdd(t, u);
    assert t[..u] == s[..u];
    OneFence(t[u..]);
    forall i ensures !IsFence(t[u..][3..], i) {
      assert IsFence(t[u..][3..], i) ==> IsFence(s, u + 3 + i);
    }
    NoFences(t[u..][3..]);
  }

  lemma LineFencesInPrefix(s: string, m: nat)
    requires m <= |s| && LineFences(s)
    ensures LineFences(s[..m])
  {
    forall i | IsFence(s[..m], i) ensures i == 0 || s[..m][i - 1] == '\n' {
      assert IsFence(s, i);
    }
  }

  /** What the splitter looks at: the natural end of the next chunk and the block open there. */
  ghost predicate Looks(s: string, maxLen: nat, m: nat, u0: int) {
    && 10 <= maxLen < |s| && LineFences(s)
    && m == NaturalEnd(s, EffectiveLimit(maxLen)) && 0 < m <= maxLen - 5 && CleanCut(s, m)
    && u0 == Unclosed(s[..m], 0, -1)
  }

  lemma {:induction false} LookAt(s: string, maxLen: nat) returns (m: nat, u0: int)
    requires 10 <= maxLen < |s| && LineFences(s)
    ensures Looks(s, maxLen, m, u0)
    ensures u0 >= 0 ==> IsFence(s, u0) && u0 + 3 <= m && Fences(s[..u0]) % 2 == 0
    ensures u0 >= 0 <==> Fences(s[..m]) % 2 == 1
    ensures u0 >= 0 ==> forall j :: u0 + 3 <= j && j + 3 <= m ==> !IsFence(s, j)
    ensures NextCut(s, maxLen) == if u0 < 0 then Plain(m)
                                  else var closing := NextFenceEnd(s, m);
                                       if 0 < closing <= maxLen then Plain(closing) else CutBlock(s, maxLen, m, u0)
  {
    hide Fences, CutBlock, NaturalEnd, EffectiveLimit;
    NaturalEndFacts(s, maxLen);
    CleanNaturalEnd(s, maxLen);
    m := NaturalEnd(s, EffectiveLimit(maxLen));
    u0 := Unclosed(s[..m], 0, -1);
    UnclosedParity(s[..m], 0, -1);
    UnclosedFacts(s[..m], 0, -1);
    UnclosedIsLast(s[..m], 0, -1);
    assert s[..m][0..] == s[..m];
    if u0 >= 0 {
      assert s[..m][0..u0] == s[..u0];
      forall j | u0 + 3 <= j && j + 3 <= m ensures !IsFence(s, j) {
        FenceInPrefix(s, m, j);
      }
    }
  }

  lemma FenceInPrefix(s: string, m: nat, j: nat)
    requires j + 3 <= m <= |s|
    ensures IsFence(s[..m], j) == IsFence(s, j)
  {
  }

  /** A cramped block that opens before the natural end is the one open there. */
  lemma {:induction false} CrampedIsOpen(s: string, u: nat, maxLen: nat, m: nat, u0: int)
    requires Looks(s, maxLen, m, u0) && Cramped(s, u, maxLen) && u + 3 <= m
    requires u0 >= 0 ==> IsFence(s, u0) && u0 + 3 <= m && forall j :: u0 + 3 <= j && j + 3 <= m ==> !IsFence(s, j)
    requires u0 >= 0 <==> Fences(s[..m]) % 2 == 1
    ensures u0 == u
  {
    hide HeaderAt, Fences, CrampedBlock, NaturalEnd, EffectiveLimit, Unclosed, LineFences;
    FenceOfCramped(s, u, maxLen);
    forall j | u + 3 <= j && j + 3 <= m ensures !IsFence(s, j) {
      if IsFence(s, j) {
        NextFenceIsFar(s, u, maxLen, j);
      }
    }
    OpeningCounts(s, u, m);
    if u0 < u {
      FencesApart(s, u0, u);
    } else if u0 > u {
      FencesApart(s, u, u0);
    }
  }

  lemma FenceOfCramped(s: string, u: nat, maxLen: nat)
    requires Cramped(s, u, maxLen)
    ensures IsFence(s, u) && HeaderAt(s, u) == HeaderAt(s[u..], 0) && |HeaderAt(s, u)| > maxLen - 7 && |s| - u > maxLen
  {
    hide HeaderAt;
    HeaderOfSuffix(s, u, 0);
  }

  // ---------------------------------------------------------------- a cramped block stays

  /** Where a cut before the open block may fall. */
  lemma {:induction false} BeforeIsBefore(s: string, maxLen: nat, u0: nat)
    requires IsFence(s, u0)
    ensures var c := CutBeforeOrInside(s, maxLen, u0); c.Plain? ==> 0 < c.k <= u0
  {
  }

  /** Only a block at the very start is cut inside as a last resort. */
  lemma {:induction false} LastResortIsAtStart(s: string, maxLen: nat, u0: nat)
    requires IsFence(s, u0) && LineFences(s) && StartsClean(s) && 10 <= maxLen < |s|
    ensures CutBeforeOrInside(s, maxLen, u0).Reopen? ==> u0 == 0 && CutBeforeOrInside(s, maxLen, u0) == Reopen(maxLen - 5, 0)
  {
  }

  /** A header without room is too long to be cut behind. */
  lemma {:induction false} LongHeaderIsNotPassed(s: string, maxLen: nat, m: nat, u0: nat)
    requires IsFence(s, u0) && |HeaderAt(s, u0)| > maxLen - 7 && m <= maxLen - 5
    ensures CutBlock(s, maxLen, m, u0) == CutBeforeOrInside(s, maxLen, u0)
  {
    hide HeaderAt, CutBeforeOrInside;
    HeaderFacts(s, u0);
  }

  /** Plain cuts fall before a cramped block; a re-opening one falls before it or re-opens it. */
  lemma {:induction false} CutSparesCramped(s: string, u: nat, maxLen: nat)
    requires 10 <= maxLen < |s| && LineFences(s) && StartsClean(s) && Cramped(s, u, maxLen)
    ensures var c := NextCut(s, maxLen);
            && (c.Plain? ==> c.k <= u)
            && (c.Reopen? ==> c.k <= u || (u == 0 && c == Reopen(maxLen - 5, 0)))
  {
    hide HeaderAt, Fences, NaturalEnd, EffectiveLimit, Unclosed, NextCut, Cramped, CutBlock, CutBeforeOrInside, LineFences;
    CutBounds(s, maxLen);
    var m, u0 := LookAt(s, maxLen);
    FenceOfCramped(s, u, maxLen);
    if u + 3 <= m {
      CrampedIsOpen(s, u, maxLen, m, u0);
      CrampedIsCut(s, u, maxLen, m);
    } else {
      CrampedIsAhead(s, u, maxLen, m, u0);
    }
  }

  lemma {:induction false} CrampedIsCut(s: string, u: nat, maxLen: nat, m: nat)
    requires Looks(s, maxLen, m, u) && StartsClean(s) && Cramped(s, u, maxLen) && u + 3 <= m && IsFence(s, u)
    ensures var closing := NextFenceEnd(s, m); closing == -1 || closing > maxLen
    ensures var c := CutBlock(s, maxLen, m, u);
            && (c.Plain? ==> c.k <= u)
            && (c.Reopen? ==> u == 0 && c == Reopen(maxLen - 5, 0))
  {
    hide HeaderAt, Fences, NaturalEnd, EffectiveLimit, Unclosed, CutBlock, CutBeforeOrInside, Cramped;
    FenceOfCramped(s, u, maxLen);
    var closing := NextFenceEnd(s, m);
    if closing != -1 {
      NextFenceIsFar(s, u, maxLen, closing - 3);
    }
    LongHeaderIsNotPassed(s, maxLen, m, u);
    BeforeIsBefore(s, maxLen, u);
    LastResortIsAtStart(s, maxLen, u);
  }

  lemma {:induction false} CrampedIsAhead(s: string, u: nat, maxLen: nat, m: nat, u0: int)
    requires Looks(s, maxLen, m, u0) && Cramped(s, u, maxLen) && u + 3 > m && IsFence(s, u)
    requires u0 >= 0 ==> IsFence(s, u0) && u0 + 3 <= m
    requires u0 >= 0 <==> Fences(s[..m]) % 2 == 1
    ensures m <= u
    ensures var closing := NextFenceEnd(s, m); u0 >= 0 && 0 < closing ==> closing <= u
    ensures u0 >= 0 ==>
              var c := CutBlock(s, maxLen, m, u0);
              c.Plain? || (0 < NextFenceEnd(s, m) <= maxLen) || c.k <= u
    ensures u0 >= 0 && CutBlock(s, maxLen, m, u0).Plain? ==> CutBlock(s, maxLen, m, u0).k <= u
  {
    hide HeaderAt, Fences, NaturalEnd, EffectiveLimit, Unclosed, CutBlock, Cramped;
    assert m <= u by {
      assert CleanCut(s, m);
    }
    if u0 >= 0 {
      var closing := NextFenceEnd(s, m);
      NextFenceFrom(s, m, u);
      if closing == u + 3 {
        SameFences(s, m, u);
        assert Fences(s[..u]) % 2 == 0 by { EvenBeforeCramped(s, u, maxLen); }
      } else {
        assert IsFence(s, closing - 3);
        FencesApart(s, closing - 3, u);
      }
      BlockBounds(s, maxLen, m, u0);
    }
  }

  lemma EvenBeforeCramped(s: string, u: nat, maxLen: nat)
    requires Cramped(s, u, maxLen)
    ensures u <= |s| && Fences(s[..u]) % 2 == 0
  {
  }

  /** A plain cut before it moves a cramped block forward. */
  lemma {:induction false} CrampedAfterPlain(s: string, u: nat, k: nat, maxLen: nat)
    requires k <= u && LineFences(s) && Cramped(s, u, maxLen) && CleanCut(s, k) && Fences(s[..k]) % 2 == 0
    ensures var r := SkipFront(s[k..], IsBlank); |s| - |r| <= u && Cramped(r, u - (|s| - |r|), maxLen)
  {
    hide HeaderAt, Fences, SkipFront, Cramped, LineFences, CleanCut, IsBlank, IsFence;
    FenceOfCramped(s, u, maxLen);
    FenceIsTick(s, u);
    EvenBeforeCramped(s, u, maxLen);
    TickIsNoBlank();
    SkipInPrefix(s, k, u);
    FencesBeforePlain(s, u, k);
    var r := SkipFront(s[k..], IsBlank);
    var at := |s| - |r|;
    assert r == s[at..];
    WindowSlices(s, k, at, u);
    CrampedMoves(s, u, r, u - at, maxLen);
  }

  lemma CrampedMoves(s: string, u: nat, r: string, v: nat, maxLen: nat)
    requires Cramped(s, u, maxLen) && u <= |s| && v <= |r| && r[v..] == s[u..] && Fences(r[..v]) % 2 == 0
    ensures Cramped(r, v, maxLen)
  {
    hide CrampedBlock, Fences;
  }

  lemma {:induction false} FencesBeforePlain(s: string, u: nat, k: nat)
    requires k <= u <= |s| && LineFences(s) && CleanCut(s, k) && Fences(s[..k]) % 2 == 0
    ensures Fences(SkipFront(s[..u][k..], IsBlank)) % 2 == Fences(s[..u]) % 2
  {
    hide Fences, SkipFront, LineFences, CleanCut;
    LineFencesInPrefix(s, u);
    CleanInPrefix(s, u, k);
    PlainRest(s[..u], k);
    assert s[..u][..k] == s[..k];
  }

  lemma TickIsNoBlank()
    ensures !IsBlank('`')
  {
  }

  lemma CleanInPrefix(s: string, u: nat, k: nat)
    requires k <= u <= |s| && CleanCut(s, k)
    ensures CleanCut(s[..u], k)
  {
    forall i | k - 3 < i < k ensures !IsFence(s[..u], i) {
      assert IsFence(s[..u], i) ==> IsFence(s, i);
    }
  }

  /** Skipping blanks before a rune that is none skips the same blanks. */
  lemma {:induction false} SkipInPrefix(s: string, k: nat, u: nat)
    requires k <= u < |s| && !IsBlank(s[u])
    ensures var at := |s| - |SkipFront(s[k..], IsBlank)|; k <= at <= u && SkipFront(s[..u][k..], IsBlank) == s[..u][at..]
  {
    hide SkipFront, IsBlank;
    SkipInWindow(s[k..], u - k);
    WindowSlices(s, k, |s| - |SkipFront(s[k..], IsBlank)|, u);
  }

  lemma WindowSlices(s: string, k: nat, at: nat, u: nat)
    requires k <= at <= u <= |s|
    ensures s[..u][k..] == s[k..][..u - k] && s[..u][at..] == s[k..][..u - k][at - k..]
    ensures s[at..][u - at..] == s[u..] && s[at..][..u - at] == s[..u][at..]
  {
  }

  lemma {:induction false} SkipInWindow(t: string, n: nat)
    requires n < |t| && !IsBlank(t[n])
    ensures var d := |t| - |SkipFront(t, IsBlank)|; d <= n && SkipFront(t[..n], IsBlank) == t[..n][d..]
  {
    hide SkipFront, IsBlank;
    var r := SkipFront(t, IsBlank);
    var d := |t| - |r|;
    assert d < |t| ==> r[0] == t[d];
    SkipsTo(t[..n], d, IsBlank);
  }

  /** Re-opening in front of a text. */
  function Reopened(h: string, t: string): string { h + "\n" + t }

  /** A header line. */
  ghost predicate IsHeader(h: string) {
    && IsFence(h, 0) && !IsSpace(h[|h| - 1])
    && (forall i :: 0 <= i < |h| ==> h[i] != '\n') && (forall i :: IsFence(h, i) ==> i == 0)
  }

  lemma HeaderIsHeader(s: string, u: nat)
    requires IsFence(s, u) && LineFences(s)
    ensures IsHeader(HeaderAt(s, u)) && Fences(HeaderAt(s, u)) == 1
  {
    hide HeaderAt, Fences;
    HeaderFacts(s, u);
    HeaderHasOneFence(s, u);
  }

  /** A text that ends in ink is re-opened as it is. */
  lemma {:induction false} RestOfReopen(s: string, k: nat, u0: nat)
    requires LineFences(s) && IsFence(s, u0) && k < |s| && EndsClean(s)
    ensures RestOf(s, Reopen(k, u0)) == Reopened(HeaderAt(s, u0), s[k..])
  {
    hide HeaderAt, IsSpace;
    HeaderIsHeader(s, u0);
    TrimsNothing(Reopened(HeaderAt(s, u0), s[k..]));
  }

  lemma TrimsNothing(t: string)
    requires t != "" && t[0] == '`' && !IsSpace(t[|t| - 1])
    ensures TrimSpace(t) == t
  {
  }

  /** A cramped block behind the cut keeps its place behind the re-opened header. */
  lemma {:induction false} CrampedAfterReopen(s: string, u: nat, k: nat, h: string, maxLen: nat)
    requires k <= u && LineFences(s) && Cramped(s, u, maxLen) && CleanCut(s, k) && Fences(s[..k]) % 2 == 1
    requires IsHeader(h) && Fences(h) == 1
    ensures Cramped(Reopened(h, s[k..]), |h| + 1 + u - k, maxLen)
  {
    hide HeaderAt, Fences, CrampedBlock, LineFences, CleanCut, IsHeader;
    FenceOfCramped(s, u, maxLen);
    var r, v := Reopened(h, s[k..]), |h| + 1 + u - k;
    assert r[v..] == s[u..];
    assert r[..v] == Reopened(h, s[k..u]);
    FencesOfReopened(h, s[k..u]) by {
      LineFencesInPrefix(s, u);
      LineFencesInSuffix(s[..u], k);
      assert s[..u][k..] == s[k..u];
    }
    CleanInPrefix(s, u, k);
    FencesAdd(s[..u], k);
    assert s[..u][..k] == s[..k] && s[..u][k..] == s[k..u];
  }

  lemma {:induction false} FencesOfReopened(h: string, t: string)
    requires IsHeader(h) && Fences(h) == 1 && LineFences(t)
    ensures Fences(Reopened(h, t)) == 1 + Fences(t) && LineFences(Reopened(h, t))
    ensures forall i :: i > 0 && IsFence(Reopened(h, t), i) ==> i > |h| && IsFence(t, i - |h| - 1)
  {
    hide Fences;
    JoinLine(h, t);
    var r := Reopened(h, t);
    forall i | i > 0 && IsFence(r, i) ensures i > |h| && IsFence(t, i - |h| - 1) {
      assert r[|h|] == '\n';
      assert i + 3 <= |h| ==> (IsFence(r, i) <==> IsFence(h, i));
    }
  }

  /** A cramped block at the start is put back cramped. */
  lemma {:induction false} CrampedAgain(s: string, maxLen: nat)
    requires 10 <= maxLen < |s| && LineFences(s) && Cramped(s, 0, maxLen) && IsFence(s, 0)
    ensures Cramped(Reopened(HeaderAt(s, 0), s[maxLen - 5..]), 0, maxLen)
  {
    hide HeaderAt, Fences, IsSpace, IsHeader;
    FenceOfCramped(s, 0, maxLen);
    assert s[0..] == s;
    HeaderIsHeader(s, 0);
    var h, t := HeaderAt(s, 0), s[maxLen - 5..];
    var r := Reopened(h, t);
    LineFencesInSuffix(s, maxLen - 5);
    FencesOfReopened(h, t);
    HeaderOfReopened(h, t);
    assert r[..0] == "" && r[0..] == r;
    NoFencesInSpace("");
    var c := NextFenceEnd(r, 3);
    if c != -1 {
      assert IsFence(t, c - 3 - |h| - 1);
      assert IsFence(s, c - 3 - |h| - 1 + maxLen - 5);
      NextFenceIsFar(s, 0, maxLen, c - 3 - |h| - 1 + maxLen - 5);
    }
  }

  lemma {:induction false} HeaderOfReopened(h: string, t: string)
    requires IsHeader(h)
    ensures IsFence(Reopened(h, t), 0) && HeaderAt(Reopened(h, t), 0) == h
  {
    hide IsSpace;
    var r := Reopened(h, t);
    FirstNewline(h, t);
    assert HeaderLine(r, 0) == r[0..|h|] == h;
    TickIsInk();
    TrimsNothing(h);
  }

  lemma TickIsInk()
    ensures !IsSpace('`')
  {
  }

  lemma FirstNewline(h: string, t: string)
    requires forall i :: 0 <= i < |h| ==> h[i] != '\n'
    ensures NewlineFrom(Reopened(h, t), 0) == |h|
  {
    var r := Reopened(h, t);
    assert r[|h|] == '\n' && forall i :: 0 <= i < |h| ==> r[i] == h[i];
  }

  /** A text with a cramped block, beginning and ending clean. */
  ghost predicate Stuck(s: string, maxLen: nat) {
    10 <= maxLen && LineFences(s) && StartsClean(s) && EndsClean(s) && !BlocksFit(s, maxLen)
  }

  /** Every cut leaves such a text behind. */
  lemma {:induction false} StuckStays(s: string, maxLen: nat)
    requires Stuck(s, maxLen)
    ensures |s| > maxLen
    ensures InRange(s, NextCut(s, maxLen)) ==> Stuck(RestOf(s, NextCut(s, maxLen)), maxLen)
  {
    hide HeaderAt, Fences, NextCut, Cramped, LineFences, RestOf, EvenCut, IsSpace;
    var u: nat :| Cramped(s, u, maxLen);
    FenceOfCramped(s, u, maxLen);
    var c := NextCut(s, maxLen);
    CutSparesCramped(s, u, maxLen);
    CutIsEven(s, maxLen);
    CutBounds(s, maxLen);
    RestParity(s, maxLen, c);
    if c.Plain? {
      StuckAfterPlain(s, u, c.k, maxLen);
    } else {
      StuckAfterReopen(s, u, c, maxLen);
    }
  }

  lemma {:induction false} StuckAfterPlain(s: string, u: nat, k: nat, maxLen: nat)
    requires k <= u && k <= |s| && LineFences(s) && EndsClean(s) && Cramped(s, u, maxLen) && EvenCut(s, Plain(k))
    ensures var r := RestOf(s, Plain(k)); StartsClean(r) && EndsClean(r) && !BlocksFit(r, maxLen)
  {
    hide Fences, Cramped, LineFences, SkipFront, CleanCut;
    CrampedAfterPlain(s, u, k, maxLen);
    var r := SkipFront(s[k..], IsBlank);
    assert r == s[|s| - |r|..];
    assert Cramped(r, u - (|s| - |r|), maxLen);
  }

  lemma {:induction false} StuckAfterReopen(s: string, u: nat, c: Cut, maxLen: nat)
    requires 10 <= maxLen < |s| && LineFences(s) && EndsClean(s) && Cramped(s, u, maxLen)
    requires InRange(s, c) && c.Reopen? && c.k < |s| && EvenCut(s, c)
    requires c.k <= u || (u == 0 && c == Reopen(maxLen - 5, 0))
    ensures var r := RestOf(s, c); StartsClean(r) && EndsClean(r) && !BlocksFit(r, maxLen)
  {
    hide HeaderAt, Fences, Cramped, LineFences, RestOf, CleanCut, IsSpace;
    var h := HeaderAt(s, c.fence);
    HeaderIsHeader(s, c.fence);
    RestOfReopen(s, c.k, c.fence);
    var r := Reopened(h, s[c.k..]);
    assert r[|r| - 1] == s[|s| - 1];
    if c.k <= u {
      CrampedAfterReopen(s, u, c.k, h, maxLen);
      assert Cramped(r, |h| + 1 + u - c.k, maxLen);
    } else {
      CrampedAgain(s, maxLen);
      assert Cramped(r, 0, maxLen);
    }
  }

  lemma {:induction false} StuckNeverEnds(s: string, n: nat, maxLen: nat)
    requires Stuck(s, maxLen) && maxLen >= 1
    ensures !EndsIn(s, n, maxLen)
    decreases n
  {
    hide Stuck, NextCut, RestOf;
    StuckStays(s, maxLen);
    if n > 0 && InRange(s, NextCut(s, maxLen)) {
      StuckNeverEnds(RestOf(s, NextCut(s, maxLen)), n - 1, maxLen);
    }
  }

  // ---------------------------------------------------------------- fitting blocks keep fitting

  /** The splitter re-opens only blocks whose header leaves room. */
  lemma {:induction false} ReopensOnlyFitting(s: string, maxLen: nat)
    requires 10 <= maxLen < |s| && LineFences(s) && StartsClean(s) && BlocksFit(s, maxLen)
    ensures var c := NextCut(s, maxLen); c.Reopen? ==> InRange(s, c) && |HeaderAt(s, c.fence)| <= maxLen - 7
  {
    hide HeaderAt, Fences, NaturalEnd, EffectiveLimit, Unclosed, NextCut, CutBlock, CutBeforeOrInside, LineFences;
    var m, u0 := LookAt(s, maxLen);
    CutBounds(s, maxLen);
    if u0 >= 0 {
      BlockBounds(s, maxLen, m, u0);
      if |HeaderAt(s, u0)| > maxLen - 7 {
        LongHeaderIsNotPassed(s, maxLen, m, u0);
        LastResortIsAtStart(s, maxLen, u0);
        if u0 == 0 {
          ClosedInReach(s, maxLen, m);
        }
      }
    }
  }

  lemma {:induction false} ClosedInReach(s: string, maxLen: nat, m: nat)
    requires 10 <= maxLen < |s| && LineFences(s) && BlocksFit(s, maxLen) && 3 <= m <= |s| && CleanCut(s, m)
    requires IsFence(s, 0) && |HeaderAt(s, 0)| > maxLen - 7 && forall j :: 3 <= j && j + 3 <= m ==> !IsFence(s, j)
    ensures 0 < NextFenceEnd(s, m) <= maxLen
  {
    hide HeaderAt, Fences, LineFences;
    NoFencesInSpace("");
    assert s[..0] == "" && s[0..] == s;
    assert !Cramped(s, 0, maxLen);
    var c := NextFenceEnd(s, 3);
    assert IsFence(s, c - 3) && c - 3 >= m;
    NextFenceFrom(s, m, c - 3);
  }

  lemma {:induction false} UncrampedPlain(s: string, k: nat, v: nat, maxLen: nat)
    requires k <= |s| && LineFences(s) && EvenCut(s, Plain(k)) && Cramped(SkipFront(s[k..], IsBlank), v, maxLen)
    ensures !BlocksFit(s, maxLen)
  {
    hide HeaderAt, Fences, SkipFront, Cramped, LineFences, CleanCut, IsBlank, BlocksFit, EvenCut, IsFence;
    PlainIsEven(s, k);
    var r := SkipFront(s[k..], IsBlank);
    var at := |s| - |r|;
    var u := at + v;
    FenceOfCramped(r, v, maxLen);
    EvenBeforeCramped(r, v, maxLen);
    assert r == s[at..];
    FenceIsTick(r, v);
    assert s[u] == r[v] == '`';
    TickIsNoBlank();
    SkipInPrefix(s, k, u);
    FencesBeforePlain(s, u, k);
    WindowSlices(s, k, at, u);
    CrampedThere(r, v, s, u, maxLen);
  }

  lemma PlainIsEven(s: string, k: nat)
    requires k <= |s| && EvenCut(s, Plain(k))
    ensures CleanCut(s, k) && Fences(s[..k]) % 2 == 0
  {
  }

  lemma FenceIsTick(s: string, v: nat)
    requires IsFence(s, v)
    ensures v < |s| && s[v] == '`'
  {
  }

  /** The same block, after an even number of fences, in another text. */
  lemma CrampedThere(r: string, v: nat, s: string, u: nat, maxLen: nat)
    requires Cramped(r, v, maxLen) && v <= |r| && u <= |s| && s[u..] == r[v..] && Fences(s[..u]) % 2 == 0
    ensures !BlocksFit(s, maxLen)
  {
    hide CrampedBlock, Fences;
    assert Cramped(s, u, maxLen);
  }

  /** Trailing white space makes no block fit. */
  lemma {:induction false} CrampedPrefix(p: string, q: string, maxLen: nat)
    requires q <= p && (forall i :: |q| <= i < |p| ==> IsSpace(p[i])) && CrampedBlock(q, maxLen)
    ensures CrampedBlock(p, maxLen)
  {
    hide HeaderAt, IsSpace;
    HeaderOfPrefix(p, q, 0);
    TickIsInk();
    var c := NextFenceEnd(p, 3);
    if c != -1 {
      assert p[c - 1] == '`';
      assert IsFence(q, c - 3);
      NextFenceFrom(q, 3, c - 3);
    }
  }

  lemma {:induction false} UncrampedReopen(s: string, k: nat, h: string, r: string, v: nat, maxLen: nat)
    requires k <= |s| && LineFences(s) && EvenCut(s, Reopen(k, 0)) && IsHeader(h) && Fences(h) == 1 && |h| <= maxLen - 7
    requires r == TrimSpace(Reopened(h, s[k..])) && Cramped(r, v, maxLen)
    ensures !BlocksFit(s, maxLen)
  {
    hide HeaderAt, Fences, CrampedBlock, LineFences, CleanCut, IsHeader, TrimSpace, IsSpace;
    var t := Reopened(h, s[k..]);
    TrimmedReopened(h, s[k..]);
    FenceOfCramped(r, v, maxLen);
    assert r == t[..|r|];
    if v == 0 {
      HeaderOfPrefix(t, r, 0);
      HeaderOfReopened(h, s[k..]);
    } else {
      LineFencesInSuffix(s, k);
      FencesOfReopened(h, s[k..]);
      assert IsFence(t, v);
      var u := k + v - |h| - 1;
      assert t[v..] == s[u..] && r[v..] <= s[u..];
      CrampedBlockOf(r, v, maxLen);
      CrampedPrefix(s[u..], r[v..], maxLen);
      assert r[..v] == Reopened(h, s[k..u]);
      ReopenedParity(s, k, u, h);
      assert Cramped(s, u, maxLen);
    }
  }

  lemma CrampedBlockOf(s: string, u: nat, maxLen: nat)
    requires Cramped(s, u, maxLen)
    ensures u <= |s| && CrampedBlock(s[u..], maxLen)
  {
  }

  lemma TrimmedReopened(h: string, t: string)
    requires IsHeader(h)
    ensures var r := TrimSpace(Reopened(h, t)); r <= Reopened(h, t) && forall i :: |r| <= i < |Reopened(h, t)| ==> IsSpace(Reopened(h, t)[i])
  {
    hide TrimEnd, SkipFront;
    TickIsInk();
    assert Reopened(h, t)[0] == '`';
  }

  lemma {:induction false} ReopenedParity(s: string, k: nat, u: nat, h: string)
    requires k <= u <= |s| && LineFences(s) && CleanCut(s, k) && IsHeader(h) && Fences(h) == 1
    ensures Fences(Reopened(h, s[k..u])) + Fences(s[..k]) == Fences(s[..u]) + 1
  {
    hide Fences, LineFences, CleanCut, IsHeader;
    LineFencesInPrefix(s, u);
    LineFencesInSuffix(s[..u], k);
    assert s[..u][k..] == s[k..u] && s[..u][..k] == s[..k];
    FencesOfReopened(h, s[k..u]);
    CleanInPrefix(s, u, k);
    FencesAdd(s[..u], k);
  }

  /** A text whose blocks fit, beginning clean. */
  ghost predicate Fitting(s: string, maxLen: nat) {
    10 <= maxLen && LineFences(s) && StartsClean(s) && BlocksFit(s, maxLen)
  }

  lemma {:induction false} FittingStays(s: string, maxLen: nat)
    requires Fitting(s, maxLen) && maxLen < |s|
    ensures var c := NextCut(s, maxLen);
            && InRange(s, c) && Fitting(RestOf(s, c), maxLen) && |RestOf(s, c)| < |s|
            && (c.Reopen? ==> |HeaderAt(s, c.fence)| <= maxLen - 7)
  {
    hide HeaderAt, Fences, NextCut, LineFences, EvenCut, BlocksFit;
    var c := NextCut(s, maxLen);
    CutBounds(s, maxLen);
    CutIsEven(s, maxLen);
    RestParity(s, maxLen, c);
    if c.Plain? {
      FittingAfterPlain(s, c.k, maxLen);
    } else {
      ReopensOnlyFitting(s, maxLen);
      ReopenedShrinks(s, c.k, c.fence);
      FittingAfterReopen(s, c, maxLen);
    }
  }

  lemma {:induction false} FittingAfterPlain(s: string, k: nat, maxLen: nat)
    requires 1 <= k <= |s| && LineFences(s) && BlocksFit(s, maxLen) && EvenCut(s, Plain(k))
    ensures var r := RestOf(s, Plain(k)); |r| < |s| && StartsClean(r) && BlocksFit(r, maxLen)
  {
    hide Fences, LineFences, SkipFront, EvenCut, Cramped;
    var r := SkipFront(s[k..], IsBlank);
    forall v: nat ensures !Cramped(r, v, maxLen) {
      if Cramped(r, v, maxLen) {
        UncrampedPlain(s, k, v, maxLen);
      }
    }
  }

  lemma {:induction false} FittingAfterReopen(s: string, c: Cut, maxLen: nat)
    requires InRange(s, c) && c.Reopen? && LineFences(s) && BlocksFit(s, maxLen) && EvenCut(s, c)
    requires |HeaderAt(s, c.fence)| <= maxLen - 7
    ensures var r := RestOf(s, c); StartsClean(r) && BlocksFit(r, maxLen)
  {
    hide HeaderAt, Fences, LineFences, TrimSpace, Cramped, IsHeader;
    var h := HeaderAt(s, c.fence);
    HeaderIsHeader(s, c.fence);
    var r := RestOf(s, c);
    TrimmedReopened(h, s[c.k..]);
    assert StartsClean(r) by {
      assert IsFence(h, 0) by { HeaderFacts(s, c.fence); }
      assert Reopened(h, s[c.k..])[0] == '`';
    }
    forall v: nat ensures !Cramped(r, v, maxLen) {
      if Cramped(r, v, maxLen) {
        UncrampedReopen(s, c.k, h, r, v, maxLen);
      }
    }
  }

  lemma {:induction false} FittingEnds(s: string, maxLen: nat)
    requires Fitting(s, maxLen) && maxLen >= 1
    ensures EndsIn(s, |s|, maxLen)
    decreases |s|
  {
    hide Fitting, NextCut, RestOf, EndsIn;
    if |s| > maxLen {
      FittingStays(s, maxLen);
      var rest := RestOf(s, NextCut(s, maxLen));
      FittingEnds(rest, maxLen);
      MoreTurns(rest, |rest|, |s| - 1, maxLen);
      EndsBefore(s, |s| - 1, maxLen);
    } else {
      EndsShort(s, |s|, maxLen);
    }
  }

  // ---------------------------------------------------------------- the exact condition

  /** A text whose fences start lines, that does not begin with a newline or end in white space, is
      split to an end if and only if each of its blocks ends within one message of its opening or
      has a header that leaves room. */
  lemma EndsIffBlocksFit(s: string, maxLen: nat)
    requires maxLen >= 10 && LineFences(s) && StartsClean(s) && EndsClean(s)
    ensures Ends(s, maxLen) <==> BlocksFit(s, maxLen)
  {
    hide NextCut, BlocksFit, EndsIn, LineFences;
    if BlocksFit(s, maxLen) {
      FittingEnds(s, maxLen);
    } else {
      forall n: nat ensures !EndsIn(s, n, maxLen) {
        StuckNeverEnds(s, n, maxLen);
      }
    }
  }

  /** When the later blocks fit, the first one decides. */
  lemma FirstBlockDecides(s: string, maxLen: nat)
    requires maxLen >= 10 && LineFences(s) && StartsClean(s) && EndsClean(s)
    requires IsFence(s, 0) && forall u: nat :: u > 0 ==> !Cramped(s, u, maxLen)
    ensures Ends(s, maxLen) <==>
            || |s| <= maxLen
            || 0 < NextFenceEnd(s, 3) <= maxLen
            || |HeaderAt(s, 0)| <= maxLen - 7
  {
    hide HeaderAt, Fences, LineFences, Ends;
    EndsIffBlocksFit(s, maxLen);
    NoFencesInSpace("");
    assert s[..0] == "" && s[0..] == s;
    assert BlocksFit(s, maxLen) <==> !Cramped(s, 0, maxLen);
  }

  /** Every header fits, or, with line-start fences, every block does: the premise under which no
      cut re-opens a header without room. */
  ghost predicate Orderly(s: string, maxLen: nat) {
    HeadersFit(s, maxLen) || Fitting(s, maxLen)
  }

  lemma {:induction false} OrderlyCut(s: string, maxLen: nat)
    requires 1 <= maxLen < |s| && Orderly(s, maxLen)
    ensures var c := NextCut(s, maxLen);
            && InRange(s, c) && 1 <= c.k && Orderly(RestOf(s, c), maxLen) && |RestOf(s, c)| < |s|
            && (c.Reopen? ==> |HeaderAt(s, c.fence)| <= maxLen - 7 && c.fence + 3 <= c.k && |HeaderAt(s, c.fence)| + 2 <= c.k)
  {
    hide HeaderAt, NextCut, Fitting, RestOf;
    CutBounds(s, maxLen);
    if HeadersFit(s, maxLen) {
      CutFacts(s, maxLen);
      CutShrinks(s, maxLen);
    } else {
      FittingLimit(s, maxLen);
      FittingStays(s, maxLen);
    }
  }

  lemma FittingLimit(s: string, maxLen: nat)
    requires Fitting(s, maxLen)
    ensures maxLen >= 10
  {
  }

  lemma OrderlyEnds(s: string, maxLen: nat)
    requires maxLen >= 1 && Orderly(s, maxLen)
    ensures EndsIn(s, |s|, maxLen) && Ends(s, maxLen)
  {
    hide HeadersFit, Fitting, EndsIn;
    if HeadersFit(s, maxLen) {
      FittingHeadersEnd(s, maxLen);
    } else {
      FittingEnds(s, maxLen);
    }
  }
}
