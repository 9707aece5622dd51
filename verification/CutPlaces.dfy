/** Where the splitter cuts, told by the runes around the cut. */
module CutPlaces {
  import opened Common
  import opened Text
  import opened Splitter
  import opened SplitterLaws

  /** The split point aimed at, in numbers: half of a small limit, 50 less than a middling one, nine
      tenths of a large one. */
  function Limit(maxLen: nat): nat {
    if maxLen < 100 then maxLen - maxLen / 2 else if maxLen < 500 then maxLen - 50 else maxLen - maxLen / 10
  }

  /** No newline from `lo` up to `hi`; the very first rune does not count. */
  predicate NoNewline(s: string, lo: int, hi: int)
    requires hi <= |s|
  {
    forall i :: 0 < i && lo <= i < hi ==> s[i] != '\n'
  }

  predicate NoGap(s: string, lo: int, hi: int)
    requires hi <= |s|
  {
    forall i :: 0 < i && lo <= i < hi ==> s[i] != ' ' && s[i] != '\t'
  }

  /** The last newline of the 200 runes before `hi`. */
  predicate AtNewline(s: string, k: int, hi: int)
    requires hi <= |s|
  {
    0 < k < hi && hi - 200 <= k && s[k] == '\n' && NoNewline(s, k + 1, hi)
  }

  /** The last space or tab of the 100 runes before `hi`, without a newline in the 200 before it. */
  predicate AtGap(s: string, k: int, hi: int)
    requires hi <= |s|
  {
    0 < k < hi && hi - 100 <= k && (s[k] == ' ' || s[k] == '\t') && NoGap(s, k + 1, hi) && NoNewline(s, hi - 200, hi)
  }

  predicate NoneNear(s: string, hi: int)
    requires hi <= |s|
  {
    NoGap(s, hi - 100, hi) && NoNewline(s, hi - 200, hi)
  }

  /** A newline if there is one, else a gap, else the limit itself. */
  predicate Place(s: string, k: int, limit: int)
    requires limit <= |s|
  {
    AtNewline(s, k, limit) || AtGap(s, k, limit) || (k == limit && NoneNear(s, limit))
  }

  /** There is only one such place. */
  lemma PlaceIsUnique(s: string, k: int, k': int, limit: int)
    requires limit <= |s| && Place(s, k, limit) && Place(s, k', limit)
    ensures k == k'
  {
  }

  lemma LimitIs(maxLen: nat)
    requires maxLen >= 1
    ensures EffectiveLimit(maxLen) == Limit(maxLen) && 1 <= Limit(maxLen) <= maxLen
  {
  }

  lemma {:induction false} LastNewlineIs(s: string, hi: int)
    requires hi <= |s|
    ensures var k := LastIn(s, hi, 200, IsNewline);
            && (k > 0 ==> AtNewline(s, k, hi)) && (k <= 0 ==> NoNewline(s, hi - 200, hi))
  {
  }

  lemma {:induction false} LastGapIs(s: string, hi: int)
    requires hi <= |s|
    ensures var k := LastIn(s, hi, 100, IsGap);
            && (k > 0 ==> 0 < k < hi && hi - 100 <= k && (s[k] == ' ' || s[k] == '\t') && NoGap(s, k + 1, hi))
            && (k <= 0 ==> NoGap(s, hi - 100, hi))
  {
  }

  lemma NaturalEndIsPlace(s: string, end: nat)
    requires end <= |s|
    ensures Place(s, NaturalEnd(s, end), end)
  {
    hide LastIn;
    LastNewlineIs(s, end);
    LastGapIs(s, end);
  }

  // ---------------------------------------------------------------- every kind of cut

  /** Where the line of the fence at `u` ends; just after the fence when no newline follows. */
  predicate LineEnds(s: string, u: nat, end: int)
    requires IsFence(s, u)
  {
    if u <= end < |s| && s[end] == '\n' then forall i :: u <= i < end ==> s[i] != '\n'
    else end == u + 3 && forall i :: u <= i < |s| ==> s[i] != '\n'
  }

  lemma LineEndsAt(s: string, u: nat)
    requires IsFence(s, u)
    ensures LineEnds(s, u, HeaderEnd(s, u))
  {
    hide HeaderAt;
    if NewlineFrom(s, u) == -1 {
      BareHeader(s, u);
    }
  }

  lemma BareHeader(s: string, u: nat)
    requires IsFence(s, u) && NewlineFrom(s, u) == -1
    ensures HeaderAt(s, u) == s[u..u + 3] && HeaderEnd(s, u) == u + 3
  {
    hide HeaderAt;
    HeaderFacts(s, u);
    assert |HeaderLine(s, u)| == 3;
  }

  /** The block ends within one message: `e` is just after the first fence at or after `m`. */
  predicate ClosesAt(s: string, m: nat, e: int, maxLen: nat) {
    m + 3 <= e <= maxLen && IsFence(s, e - 3) && forall i :: m <= i < e - 3 ==> !IsFence(s, i)
  }

  predicate NeverCloses(s: string, m: nat, maxLen: nat) {
    forall i :: m <= i && i + 3 <= maxLen ==> !IsFence(s, i)
  }

  /** Inside the block, at the last newline past its header in reach, else five runes short of the limit. */
  predicate InsideBlock(s: string, u: nat, end: int, k: int, maxLen: nat)
    requires maxLen <= |s|
  {
    || (end < k && AtNewline(s, k, maxLen - 5))
    || (k == maxLen - 5 && forall i :: end < i && 0 < i && maxLen - 205 <= i < maxLen - 5 ==> s[i] != '\n')
  }

  /** Before the block that opens at `u`: at the last newline or gap in reach of it, else just before it
      unless that is too near the start. */
  predicate BeforeBlock(s: string, u: nat, k: int)
    requires u <= |s|
  {
    AtNewline(s, k, u) || AtGap(s, k, u) || (k == u && u > 20 && NoneNear(s, u))
  }

  /** What is cut at natural end `m`, with the block of the fence at `u` open there, or none. */
  ghost predicate CutIs(s: string, maxLen: nat, m: nat, u: int, c: Cut)
    requires maxLen <= |s| && (u >= 0 ==> IsFence(s, u))
  {
    if u < 0 then c == Plain(m)
    else
      || (exists e :: ClosesAt(s, m, e, maxLen) && c == Plain(e))
      || (NeverCloses(s, m, maxLen) && exists end :: LineEnds(s, u, end) && BlockCutIs(s, maxLen, m, u, end, c))
  }

  predicate BlockCutIs(s: string, maxLen: nat, m: nat, u: nat, end: int, c: Cut)
    requires maxLen <= |s| && IsFence(s, u)
  {
    if m > end + 20 then c.Reopen? && c.fence == u && InsideBlock(s, u, end, c.k, maxLen)
    else if c.Plain? then BeforeBlock(s, u, c.k)
    else c == Reopen(maxLen - 5, u) && u <= 20 && NoneNear(s, u)
  }

  lemma BlockCutFalls(s: string, maxLen: nat, m: nat, u: nat)
    requires 1 <= maxLen < |s| && IsFence(s, u)
    ensures BlockCutIs(s, maxLen, m, u, HeaderEnd(s, u), CutBlock(s, maxLen, m, u))
  {
    hide LastIn, HeaderEnd, NoNewline, NoGap;
    LastNewlineIs(s, maxLen - 5);
    LastNewlineIs(s, u);
    LastGapIs(s, u);
    if m > HeaderEnd(s, u) + 20 {
      InsideIs(s, maxLen, m, u);
    }
  }

  lemma InsideIs(s: string, maxLen: nat, m: nat, u: nat)
    requires 1 <= maxLen < |s| && IsFence(s, u) && m > HeaderEnd(s, u) + 20
    ensures var c := CutBlock(s, maxLen, m, u);
            c.Reopen? && c.fence == u && InsideBlock(s, u, HeaderEnd(s, u), c.k, maxLen)
  {
    hide HeaderEnd, LastIn;
    LineEndsAt(s, u);
    var better := LastIn(s, maxLen - 5, 200, IsNewline);
    LastNewlineIs(s, maxLen - 5);
    assert HeaderEnd(s, u) >= 0;
  }

  /** Any cut of any text: a natural place, the end of the open block, inside it, or before it. */
  lemma WhereCutsFall(s: string, maxLen: nat) returns (m: nat)
    requires 1 <= maxLen < |s|
    ensures Place(s, m, Limit(maxLen)) && m <= maxLen
    ensures var u := Unclosed(s[..m], 0, -1);
            (u >= 0 ==> IsFence(s, u)) && CutIs(s, maxLen, m, u, NextCut(s, maxLen))
  {
    hide Place, NaturalEnd, EffectiveLimit, HeaderEnd, CutBlock, BlockCutIs, Unclosed;
    LimitIs(maxLen);
    NaturalEndFacts(s, maxLen);
    NaturalEndIsPlace(s, EffectiveLimit(maxLen));
    m := NaturalEnd(s, EffectiveLimit(maxLen));
    var u := Unclosed(s[..m], 0, -1);
    UnclosedFacts(s[..m], 0, -1);
    if u >= 0 {
      assert IsFence(s[..m], u) && IsFence(s, u);
      var closing := NextFenceEnd(s, m);
      if 0 < closing <= maxLen {
        assert ClosesAt(s, m, closing, maxLen);
      } else {
        assert NeverCloses(s, m, maxLen);
        LineEndsAt(s, u);
        BlockCutFalls(s, maxLen, m, u);
      }
    }
  }

  // ---------------------------------------------------------------- what a re-opening cut sends and leaves

  /** `r` is `t` without the white space at its end. */
  ghost predicate Trimmed(r: string, t: string) {
    && r <= t && (r == "" || !IsSpace(r[|r| - 1]))
    && forall i :: |r| <= i < |t| ==> IsSpace(t[i])
  }

  /** The chunk is the text up to the cut, without blanks at its end, and a fence on a line of its own. What is left
      begins with the whole line of the block's fence, trimmed, and goes on, on the next line, where the text was cut. */
  lemma WhatReopeningSends(s: string, k: nat, u: nat)
    requires k <= |s| && IsFence(s, u)
    ensures var r := ChunkOf(s, Reopen(k, u));
            && |r| >= 4 && r[|r| - 4..] == "\n```" && r[..|r| - 4] <= s[..k]
            && (|r| > 4 ==> !IsBlank(r[|r| - 5])) && forall i :: |r| - 4 <= i < k ==> IsBlank(s[i])
    ensures HeaderEnd(s, u) <= |s| && LineEnds(s, u, HeaderEnd(s, u)) && Trimmed(HeaderAt(s, u), s[u..HeaderEnd(s, u)])
    ensures Trimmed(RestOf(s, Reopen(k, u)), HeaderAt(s, u) + "\n" + s[k..])
  {
    hide HeaderAt, HeaderEnd, LineEnds, TrimSpace, Trimmed, ChunkOf;
    ClosedChunkIs(s, k, u);
    LineEndsAt(s, u);
    HeaderIsTrimmed(s, u);
    HeaderFacts(s, u);
    TickIsInk();
    var t := HeaderAt(s, u) + "\n" + s[k..];
    assert t[0] == HeaderAt(s, u)[0];
    SpaceTrimmed(t);
  }

  lemma ClosedChunkIs(s: string, k: nat, u: nat)
    requires k <= |s| && IsFence(s, u)
    ensures var r := ChunkOf(s, Reopen(k, u));
            && |r| >= 4 && r[|r| - 4..] == "\n```" && r[..|r| - 4] <= s[..k]
            && (|r| > 4 ==> !IsBlank(r[|r| - 5])) && forall i :: |r| - 4 <= i < k ==> IsBlank(s[i])
  {
    hide TrimEnd, IsBlank;
    var x := s[..k];
    var r := TrimEnd(x, IsBlank);
    assert ChunkOf(s, Reopen(k, u)) == r + "\n```";
    assert forall i :: |r| <= i < k ==> s[i] == x[i];
  }

  lemma SpaceTrimmed(t: string)
    requires t != "" && !IsSpace(t[0])
    ensures Trimmed(TrimSpace(t), t)
  {
    hide IsSpace;
    assert TrimSpace(t) == TrimEnd(t, IsSpace);
  }

  lemma HeaderIsTrimmed(s: string, u: nat)
    requires IsFence(s, u)
    ensures HeaderEnd(s, u) <= |s| && Trimmed(HeaderAt(s, u), s[u..HeaderEnd(s, u)])
  {
    hide IsSpace, TrimSpace, TrimEnd;
    HeaderFacts(s, u);
    TickIsInk();
    var line := HeaderLine(s, u);
    assert line[0] == s[u];
    SpaceTrimmed(line);
    LineEndsAt(s, u);
    if NewlineFrom(s, u) == -1 {
      BareHeader(s, u);
    }
  }

  // ---------------------------------------------------------------- all chunks of a text without fences

  /** The blanks from `k` on end at `j`. */
  predicate BlanksTo(s: string, k: nat, j: nat) {
    && k <= j <= |s|
    && (forall i :: k <= i < j ==> s[i] == ' ' || s[i] == '\t' || s[i] == '\n' || s[i] == '\r')
    && (j < |s| ==> s[j] != ' ' && s[j] != '\t' && s[j] != '\n' && s[j] != '\r')
  }

  /** Each chunk is the text up to the natural place, and the next begins after the blanks there. */
  ghost predicate CutWell(s: string, chunks: seq<string>, maxLen: nat)
    requires maxLen >= 1
    decreases |s|
  {
    if |s| <= maxLen then chunks == if s == "" then [] else [s]
    else
      && chunks != [] && chunks[0] <= s && 0 < |chunks[0]|
      && Limit(maxLen) <= |s| && Place(s, |chunks[0]|, Limit(maxLen))
      && exists j: nat :: BlanksTo(s, |chunks[0]|, j) && CutWell(s[j..], chunks[1..], maxLen)
  }

  lemma SkipIsBlanks(s: string, k: nat) returns (j: nat)
    requires k <= |s|
    ensures BlanksTo(s, k, j) && SkipFront(s[k..], IsBlank) == s[j..]
  {
    hide SkipFront;
    var r := SkipFront(s[k..], IsBlank);
    j := |s| - |r|;
    assert r == s[j..];
    assert forall i :: k <= i < j ==> s[i] == s[k..][i - k];
  }

  lemma {:induction false} FenceFreeIsCutWell(s: string, maxLen: nat)
    requires maxLen >= 1 && FenceFree(s)
    ensures Ends(s, maxLen) && CutWell(s, Split(s, maxLen), maxLen)
    decreases |s|
  {
    hide Split, EndsIn, Ends, NextCut, RestOf, Place, BlanksTo, FenceFree;
    FenceFreeEnds(s, maxLen);
    if |s| <= maxLen {
      SplitShort(s, maxLen);
    } else {
      SplitUnfolds(s, |s|, maxLen);
      var m := WhereCutsFall(s, maxLen);
      LimitIs(maxLen);
      PlaceIsForward(s, m, maxLen);
      NothingOpen(s, m);
      var c := NextCut(s, maxLen);
      assert c == Plain(m);
      var j := SkipIsBlanks(s, m);
      RestIs(s, m);
      BlanksForward(s, m, j);
      FenceFreeSuffix(s, j);
      FenceFreeIsCutWell(s[j..], maxLen);
      var chunks := Split(s, maxLen);
      assert chunks[0] == s[..m] && chunks[1..] == Split(s[j..], maxLen);
    }
  }

  lemma PlaceIsForward(s: string, m: nat, maxLen: nat)
    requires 1 <= maxLen < |s| && 1 <= Limit(maxLen) <= maxLen && Place(s, m, Limit(maxLen))
    ensures 0 < m <= |s|
  {
  }

  lemma BlanksForward(s: string, k: nat, j: nat)
    requires BlanksTo(s, k, j)
    ensures k <= j <= |s|
  {
  }

  lemma RestIs(s: string, m: nat)
    requires m <= |s|
    ensures RestOf(s, Plain(m)) == SkipFront(s[m..], IsBlank) && ChunkOf(s, Plain(m)) == s[..m]
  {
  }

  lemma FenceFreeSuffix(s: string, j: nat)
    requires FenceFree(s) && j <= |s|
    ensures FenceFree(s[j..])
  {
    forall i ensures !IsFence(s[j..], i) {
      assert IsFence(s[j..], i) ==> IsFence(s, j + i);
    }
  }

  lemma NothingOpen(s: string, m: nat)
    requires m <= |s| && FenceFree(s)
    ensures Unclosed(s[..m], 0, -1) < 0
  {
    hide Unclosed;
    UnclosedFacts(s[..m], 0, -1);
    var u := Unclosed(s[..m], 0, -1);
    if u >= 0 {
      assert IsFence(s[..m], u) && IsFence(s, u);
      NoFenceAt(s, u);
    }
  }

  lemma NoFenceAt(s: string, u: int)
    requires FenceFree(s)
    ensures !IsFence(s, u)
  {
  }

  // ---------------------------------------------------------------- words

  /** Wherever `w` runes stand in a row there is a blank among them. */
  ghost predicate BlankEvery(s: string, w: nat) {
    forall i: nat :: i + w <= |s| ==> BlankAmong(s, i, w)
  }

  predicate BlankAmong(s: string, i: nat, w: nat)
    requires i + w <= |s|
  {
    exists j :: i <= j < i + w && (s[j] == ' ' || s[j] == '\t' || s[j] == '\n')
  }

  /** Every cut falls on a blank. */
  ghost predicate WordsWhole(s: string, chunks: seq<string>, maxLen: nat)
    decreases |s|
  {
    |s| > maxLen ==>
      && chunks != [] && 0 < |chunks[0]| < |s|
      && (s[|chunks[0]|] == ' ' || s[|chunks[0]|] == '\t' || s[|chunks[0]|] == '\n')
      && exists j: nat :: BlanksTo(s, |chunks[0]|, j) && WordsWhole(s[j..], chunks[1..], maxLen)
  }

  /** No word is cut unless it leaves no blank within reach: within 100 runes of the split point, and
      within one message. */
  lemma WordsStayWhole(s: string, maxLen: nat)
    requires maxLen >= 2 && FenceFree(s) && BlankEvery(s, Min(100, Limit(maxLen) - 1))
    ensures Ends(s, maxLen) && WordsWhole(s, Split(s, maxLen), maxLen)
  {
    FenceFreeIsCutWell(s, maxLen);
    WellCutKeepsWords(s, Split(s, maxLen), maxLen);
  }

  lemma {:induction false} WellCutKeepsWords(s: string, chunks: seq<string>, maxLen: nat)
    requires maxLen >= 2 && CutWell(s, chunks, maxLen) && BlankEvery(s, Min(100, Limit(maxLen) - 1))
    ensures WordsWhole(s, chunks, maxLen)
    decreases |s|
  {
    hide BlankEvery, Place, Limit;
    LimitIs(maxLen);
    if |s| > maxLen {
      var k := |chunks[0]|;
      PlaceOnBlank(s, k, maxLen);
      var j: nat :| BlanksTo(s, k, j) && CutWell(s[j..], chunks[1..], maxLen);
      BlanksForward(s, k, j);
      BlankEverySuffix(s, j, Min(100, Limit(maxLen) - 1));
      WellCutKeepsWords(s[j..], chunks[1..], maxLen);
    }
  }

  lemma PlaceOnBlank(s: string, k: nat, maxLen: nat)
    requires 2 <= maxLen < |s| && Limit(maxLen) <= |s| && Place(s, k, Limit(maxLen))
    requires BlankEvery(s, Min(100, Limit(maxLen) - 1))
    ensures k < |s| && (s[k] == ' ' || s[k] == '\t' || s[k] == '\n')
  {
    LimitIs(maxLen);
    var limit := Limit(maxLen);
    var w := Min(100, limit - 1);
    assert k == limit ==> !BlankAmong(s, limit - w, w);
  }

  lemma BlankEverySuffix(s: string, j: nat, w: nat)
    requires j <= |s| && BlankEvery(s, w)
    ensures BlankEvery(s[j..], w)
  {
    forall i: nat | i + w <= |s| - j ensures BlankAmong(s[j..], i, w) {
      assert BlankAmong(s, j + i, w);
      var q :| j + i <= q < j + i + w && (s[q] == ' ' || s[q] == '\t' || s[q] == '\n');
      assert s[j..][q - j] == s[q];
    }
  }
}
