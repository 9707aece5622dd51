/** What the message splitter does to the text it still has to send, one cut at a time.
    Positions are relative to the remaining text; the buffer with its moving `start`
    is the business of `SplitMessage`. */
module Splitter {
  import opened Common
  import opened Text

  /** One cut of the remaining text. `Plain(k)` sends the first `k` runes.
      `Reopen(k, fence)` sends the first `k` runes, closes the code block whose fence is
      at `fence`, and puts that block's header line in front of what is left. */
  datatype Cut = Plain(k: int) | Reopen(k: int, fence: int)

  /** The split point aimed at: `maxLen` minus the room kept for a closing fence. */
  function EffectiveLimit(maxLen: nat): nat {
    var buffer := Min(Max(maxLen / 10, 50), maxLen / 2);
    Max(maxLen - buffer, maxLen / 2)
  }

  /** The last index in `[lo, hi)` whose rune satisfies `p`, or -1. */
  function LastBetween(s: string, lo: int, hi: int, p: char -> bool): (r: int)
    requires 0 <= lo && hi <= |s|
    ensures r == -1 ==> forall i :: lo <= i < hi ==> !p(s[i])
    ensures r != -1 ==> lo <= r < hi && p(s[r]) && forall i :: r < i < hi ==> !p(s[i])
    decreases hi - lo
  {
    if hi <= lo then -1 else if p(s[hi - 1]) then hi - 1 else LastBetween(s, lo, hi - 1, p)
  }

  /** The last matching index among the last `window` runes before `end`, or -1. */
  function LastIn(s: string, end: int, window: nat, p: char -> bool): int
    requires end <= |s|
  {
    LastBetween(s, Max(end - window, 0), end, p)
  }

  /** The first newline at or after `from`, or -1. */
  function NewlineFrom(s: string, from: nat): (r: int)
    ensures r == -1 ==> forall i :: from <= i < |s| ==> s[i] != '\n'
    ensures r != -1 ==> from <= r < |s| && s[r] == '\n' && forall i :: from <= i < r ==> s[i] != '\n'
    decreases |s| - from
  {
    if from >= |s| then -1 else if s[from] == '\n' then from else NewlineFrom(s, from + 1)
  }

  /** The fence that is still open at the end of `s`, or -1; `open` is the one open at `i`. */
  function Unclosed(s: string, i: nat, open: int): int
    decreases |s| - i
  {
    if i + 3 > |s| then open
    else if IsFence(s, i) then Unclosed(s, i + 3, if open < 0 then i else -1)
    else Unclosed(s, i + 1, open)
  }

  /** The index just after the first fence at or after `from`, or -1. */
  function NextFenceEnd(s: string, from: nat): (r: int)
    ensures r == -1 ==> forall i :: from <= i ==> !IsFence(s, i)
    ensures r != -1 ==> from + 3 <= r <= |s| && IsFence(s, r - 3) && forall i :: from <= i < r - 3 ==> !IsFence(s, i)
    decreases |s| - from
  {
    if from + 3 > |s| then -1 else if IsFence(s, from) then from + 3 else NextFenceEnd(s, from + 1)
  }

  /** The line of the fence at `u`, up to its newline; the bare fence when no newline follows. */
  function HeaderLine(s: string, u: nat): (r: string)
    requires IsFence(s, u)
    ensures 3 <= |r| && u + |r| <= |s| && r == s[u..u + |r|]
    ensures forall i :: 0 <= i < |r| ==> r[i] != '\n'
  {
    var h := NewlineFrom(s, u);
    if h == -1 then s[u..u + 3] else s[u..h]
  }

  /** The header that re-opens the block of the fence at `u`. */
  function HeaderAt(s: string, u: nat): string
    requires IsFence(s, u)
  {
    TrimSpace(HeaderLine(s, u))
  }

  function HeaderEnd(s: string, u: nat): int
    requires IsFence(s, u)
  {
    var h := NewlineFrom(s, u);
    if h == -1 then u + |HeaderAt(s, u)| else h
  }

  /** Where an ordinary chunk would end: a newline, else a gap, else the limit itself. */
  function NaturalEnd(s: string, end: nat): int
    requires end <= |s|
  {
    var newline := LastIn(s, end, 200, IsNewline);
    if newline > 0 then newline
    else
      var gap := LastIn(s, end, 100, IsGap);
      if gap > 0 then gap else end
  }

  function CutBeforeOrInside(s: string, maxLen: nat, u: nat): Cut
    requires IsFence(s, u)
  {
    var newline := LastIn(s, u, 200, IsNewline);
    var before := if newline > 0 then newline else LastIn(s, u, 100, IsGap);
    if before > 0 then Plain(before)
    else if u > 20 then Plain(u)
    else Reopen(Min(maxLen - 5, |s|), u)
  }

  /** The cut when the block opened at `u` cannot be sent whole. */
  function CutBlock(s: string, maxLen: nat, m: int, u: nat): Cut
    requires IsFence(s, u)
  {
    var headerEnd := HeaderEnd(s, u);
    if m > headerEnd + 20 then
      var inner := Min(maxLen - 5, |s|);
      var better := LastIn(s, inner, 200, IsNewline);
      Reopen(if better > headerEnd then better else inner, u)
    else
      CutBeforeOrInside(s, maxLen, u)
  }

  /** The cut for a text too long for one message. */
  function NextCut(s: string, maxLen: nat): Cut
    requires 1 <= maxLen < |s|
  {
    NaturalEndFacts(s, maxLen);
    var m := NaturalEnd(s, EffectiveLimit(maxLen));
    var u := Unclosed(s[..m], 0, -1);
    if u < 0 then Plain(m)
    else
      UnclosedFacts(s[..m], 0, -1);
      assert IsFence(s, u);
      var closing := NextFenceEnd(s, m);
      if closing > 0 && closing <= maxLen then Plain(closing) else CutBlock(s, maxLen, m, u)
  }

  /** Every fence header, trimmed, leaves room for a newline and progress. */
  ghost predicate HeadersFit(s: string, maxLen: nat) {
    forall u: nat :: IsFence(s, u) ==> |HeaderAt(s, u)| <= maxLen - 7
  }

  function ChunkOf(s: string, c: Cut): string
    requires 0 <= c.k <= |s|
  {
    match c
    case Plain(k) => s[..k]
    case Reopen(k, _) => TrimEnd(s[..k], IsBlank) + CLOSING
  }

  function RestOf(s: string, c: Cut): string
    requires 0 <= c.k <= |s|
    requires c.Reopen? ==> c.fence >= 0 && IsFence(s, c.fence)
  {
    match c
    case Plain(k) => SkipFront(s[k..], IsBlank)
    case Reopen(k, u) => TrimSpace(HeaderAt(s, u) + "\n" + s[k..])
  }

  /** The cut falls inside the text. */
  predicate InRange(s: string, c: Cut) {
    0 <= c.k <= |s| && (c.Reopen? ==> c.fence >= 0 && IsFence(s, c.fence))
  }

  /** At most `n` cuts, each inside what is left, use the text up. */
  ghost predicate EndsIn(s: string, n: nat, maxLen: nat)
    requires maxLen >= 1
    decreases n
  {
    |s| <= maxLen ||
    (n > 0 && InRange(s, NextCut(s, maxLen)) && EndsIn(RestOf(s, NextCut(s, maxLen)), n - 1, maxLen))
  }

  /** The splitter comes to an end. */
  ghost predicate Ends(s: string, maxLen: nat)
    requires maxLen >= 1
  {
    exists n: nat :: EndsIn(s, n, maxLen)
  }

  lemma {:induction false} EndsUnfolds(s: string, n: nat, maxLen: nat)
    requires 1 <= maxLen < |s| && EndsIn(s, n, maxLen)
    ensures InRange(s, NextCut(s, maxLen))
    ensures n > 0 && EndsIn(RestOf(s, NextCut(s, maxLen)), n - 1, maxLen)
  {
    hide NextCut, RestOf, InRange;
  }

  ghost function SplitIn(s: string, n: nat, maxLen: nat): seq<string>
    requires maxLen >= 1 && EndsIn(s, n, maxLen)
    decreases n
  {
    hide NextCut, RestOf, ChunkOf, EndsIn;
    if s == "" then []
    else if |s| <= maxLen then [s]
    else
      EndsUnfolds(s, n, maxLen);
      var c := NextCut(s, maxLen);
      [ChunkOf(s, c)] + SplitIn(RestOf(s, c), n - 1, maxLen)
  }

  /** The messages `s` is sent as. */
  ghost function Split(s: string, maxLen: nat): seq<string>
    requires maxLen >= 1 && Ends(s, maxLen)
  {
    var n: nat :| EndsIn(s, n, maxLen);
    SplitIn(s, n, maxLen)
  }

  lemma {:induction false} SameSplit(s: string, n: nat, n': nat, maxLen: nat)
    requires maxLen >= 1 && EndsIn(s, n, maxLen) && EndsIn(s, n', maxLen)
    ensures SplitIn(s, n, maxLen) == SplitIn(s, n', maxLen)
    decreases n
  {
    hide NextCut, RestOf, ChunkOf;
    if |s| > maxLen {
      SameSplit(RestOf(s, NextCut(s, maxLen)), n - 1, n' - 1, maxLen);
    }
  }

  lemma SplitIs(s: string, n: nat, maxLen: nat)
    requires maxLen >= 1 && EndsIn(s, n, maxLen)
    ensures Ends(s, maxLen) && Split(s, maxLen) == SplitIn(s, n, maxLen)
  {
    hide SplitIn, NextCut, RestOf;
    var m: nat :| EndsIn(s, m, maxLen) && Split(s, maxLen) == SplitIn(s, m, maxLen);
    SameSplit(s, m, n, maxLen);
  }

  lemma SplitShort(s: string, maxLen: nat)
    requires |s| <= maxLen && 1 <= maxLen
    ensures Ends(s, maxLen) && Split(s, maxLen) == if s == "" then [] else [s]
  {
    assert EndsIn(s, 0, maxLen);
    SplitIs(s, 0, maxLen);
  }

  /** One cut, and the rest on its own. */
  lemma SplitUnfolds(s: string, n: nat, maxLen: nat)
    requires 1 <= maxLen < |s| && EndsIn(s, n, maxLen)
    ensures var c := NextCut(s, maxLen);
            && InRange(s, c) && n > 0 && EndsIn(RestOf(s, c), n - 1, maxLen)
            && Ends(s, maxLen) && Ends(RestOf(s, c), maxLen)
            && Split(s, maxLen) == [ChunkOf(s, c)] + Split(RestOf(s, c), maxLen)
  {
    hide NextCut, RestOf, ChunkOf;
    SplitIs(s, n, maxLen);
    SplitIs(RestOf(s, NextCut(s, maxLen)), n - 1, maxLen);
  }

  /** From the rest back to the whole. */
  lemma EndsBefore(s: string, n: nat, maxLen: nat)
    requires 1 <= maxLen < |s| && InRange(s, NextCut(s, maxLen)) && EndsIn(RestOf(s, NextCut(s, maxLen)), n, maxLen)
    ensures EndsIn(s, n + 1, maxLen)
  {
    hide NextCut, RestOf;
  }

  // ---------------------------------------------------------------- facts about one cut

  lemma {:induction false} NaturalEndFacts(s: string, maxLen: nat)
    requires 1 <= maxLen < |s|
    ensures 1 <= EffectiveLimit(maxLen) <= maxLen
    ensures maxLen >= 10 ==> 5 <= EffectiveLimit(maxLen) <= maxLen - 5
    ensures 0 < NaturalEnd(s, EffectiveLimit(maxLen)) <= EffectiveLimit(maxLen)
  {
  }

  lemma {:induction false} UnclosedFacts(s: string, i: nat, open: int)
    requires open < 0 || (open + 3 <= i && IsFence(s, open))
    ensures var u := Unclosed(s, i, open); u < 0 || IsFence(s, u)
    decreases |s| - i
  {
    if i + 3 <= |s| {
      if IsFence(s, i) {
        UnclosedFacts(s, i + 3, if open < 0 then i else -1);
      } else {
        UnclosedFacts(s, i + 1, open);
      }
    }
  }

  /** A header starts with its fence, stays on its line, and ends in ink. */
  lemma {:induction false} HeaderFacts(s: string, u: nat)
    requires IsFence(s, u)
    ensures var h := HeaderAt(s, u);
            && 3 <= |h| <= |HeaderLine(s, u)| && u + |h| <= HeaderEnd(s, u) <= |s| && h == s[u..u + |h|]
            && IsFence(h, 0) && !IsSpace(h[|h| - 1])
            && (forall i :: 0 <= i < |h| ==> h[i] != '\n')
  {
    hide HeaderLine, TrimSpace, IsSpace;
    var line := HeaderLine(s, u);
    assert line[0] == s[u] && line[1] == s[u + 1] && line[2] == s[u + 2];
    TrimmedFence(line);
  }

  /** Trimming a line that starts with a fence leaves the fence. */
  lemma {:induction false} TrimmedFence(line: string)
    requires IsFence(line, 0)
    ensures var h := TrimSpace(line);
            3 <= |h| <= |line| && h == line[..|h|] && IsFence(h, 0) && !IsSpace(h[|h| - 1])
  {
    hide TrimEnd, TrimSpace;
    assert !IsSpace(line[0]) && !IsSpace(line[2]);
    assert TrimSpace(line) == TrimEnd(line, IsSpace);
  }

  /** Room, and progress where a header leaves room: what any cut takes, and how much of it is re-sent. */
  lemma {:induction false} CutBounds(s: string, maxLen: nat)
    requires 1 <= maxLen < |s|
    ensures var c := NextCut(s, maxLen);
            match c
            case Plain(k) => 1 <= k <= maxLen
            case Reopen(k, u) =>
              && 0 <= u && IsFence(s, u) && k <= maxLen - 5
              && (maxLen >= 10 ==> u + 3 <= k)
              && (|HeaderAt(s, u)| <= maxLen - 7 ==> |HeaderAt(s, u)| + 2 <= k)
  {
    hide HeaderAt;
    NaturalEndFacts(s, maxLen);
    var m := NaturalEnd(s, EffectiveLimit(maxLen));
    var u := Unclosed(s[..m], 0, -1);
    UnclosedFacts(s[..m], 0, -1);
    if u >= 0 {
      assert IsFence(s[..m], u) && IsFence(s, u);
      BlockBounds(s, maxLen, m, u);
    }
  }

  lemma {:induction false} BlockBounds(s: string, maxLen: nat, m: int, u: nat)
    requires 1 <= maxLen < |s|
    requires m == NaturalEnd(s, EffectiveLimit(maxLen)) && IsFence(s, u) && u + 3 <= m
    ensures var c := CutBlock(s, maxLen, m, u);
            match c
            case Plain(k) => 1 <= k <= u
            case Reopen(k, v) =>
              && v == u && k <= maxLen - 5 && (maxLen >= 10 ==> m <= k)
              && (|HeaderAt(s, u)| <= maxLen - 7 ==> |HeaderAt(s, u)| + 2 <= k)
  {
    hide HeaderAt, NaturalEnd, EffectiveLimit, HeaderEnd;
    NaturalEndFacts(s, maxLen);
    HeaderFacts(s, u);
    if maxLen >= 10 && m > HeaderEnd(s, u) + 20 {
      BetterEndIsFar(s, maxLen, HeaderEnd(s, u));
    }
  }

  /** Progress and room of every cut when all headers fit. */
  lemma {:induction false} CutFacts(s: string, maxLen: nat)
    requires 1 <= maxLen < |s| && HeadersFit(s, maxLen)
    ensures var c := NextCut(s, maxLen);
            match c
            case Plain(k) => 1 <= k <= maxLen
            case Reopen(k, u) =>
              0 <= u && IsFence(s, u) && u + 3 <= k && |HeaderAt(s, u)| + 2 <= k <= maxLen - 5
  {
    hide HeaderAt, NextCut;
    CutBounds(s, maxLen);
    var c := NextCut(s, maxLen);
    if c.Reopen? {
      HeaderFacts(s, c.fence);
    }
  }

  /** The second newline search never finds less than the first cut had already passed. */
  lemma {:induction false} BetterEndIsFar(s: string, maxLen: nat, headerEnd: int)
    requires 10 <= maxLen < |s| && headerEnd >= 0
    requires NaturalEnd(s, EffectiveLimit(maxLen)) > headerEnd + 20
    ensures var better := LastIn(s, Min(maxLen - 5, |s|), 200, IsNewline);
            better > headerEnd ==> better >= NaturalEnd(s, EffectiveLimit(maxLen))
  {
    NaturalEndFacts(s, maxLen);
    var end := EffectiveLimit(maxLen);
    var better := LastIn(s, maxLen - 5, 200, IsNewline);
    var first := LastIn(s, end, 200, IsNewline);
    if headerEnd < better < end {
      assert first >= better;
    }
    if first > 0 && better > headerEnd {
      assert better >= first || first < maxLen - 5 - 200;
    }
  }

  // ---------------------------------------------------------------- headers of what is left

  lemma {:induction false} NewlineOfSuffix(s: string, k: nat, from: nat)
    requires k <= |s|
    ensures NewlineFrom(s, k + from) == (var n := NewlineFrom(s[k..], from); if n == -1 then -1 else k + n)
    decreases |s| - from
  {
    if k + from < |s| && s[k + from] != '\n' {
      NewlineOfSuffix(s, k, from + 1);
    }
  }

  /** The search for a closing fence sees the same from a text as from the end of it. */
  lemma {:induction false} FenceEndOfSuffix(s: string, k: nat, from: nat)
    requires k <= |s|
    ensures NextFenceEnd(s, k + from) == (var r := NextFenceEnd(s[k..], from); if r == -1 then -1 else k + r)
    decreases |s| - from
  {
    if k + from + 3 <= |s| && !IsFence(s, k + from) {
      assert !IsFence(s[k..], from);
      FenceEndOfSuffix(s, k, from + 1);
    }
  }

  lemma {:induction false} NewlineOfPrefix(s: string, t: string, from: nat)
    requires t <= s
    ensures var n := NewlineFrom(t, from); n != -1 ==> NewlineFrom(s, from) == n
    decreases |t| - from
  {
    if from < |t| && t[from] != '\n' {
      NewlineOfPrefix(s, t, from + 1);
    }
  }

  /** A fence of a suffix has the header it had before. */
  lemma {:induction false} HeaderOfSuffix(s: string, k: nat, u: nat)
    requires k <= |s| && IsFence(s[k..], u)
    ensures IsFence(s, k + u) && HeaderAt(s[k..], u) == HeaderAt(s, k + u)
  {
    NewlineOfSuffix(s, k, u);
    assert HeaderLine(s[k..], u) == HeaderLine(s, k + u);
  }

  lemma {:induction false} FitSuffix(s: string, k: nat, maxLen: nat)
    requires k <= |s| && HeadersFit(s, maxLen)
    ensures HeadersFit(s[k..], maxLen)
  {
    forall u: nat | IsFence(s[k..], u) ensures |HeaderAt(s[k..], u)| <= maxLen - 7 {
      HeaderOfSuffix(s, k, u);
    }
  }

  lemma {:induction false} HeaderOfPrefix(s: string, t: string, u: nat)
    requires t <= s && IsFence(t, u)
    ensures IsFence(s, u) && |HeaderAt(t, u)| <= |HeaderAt(s, u)|
  {
    NewlineOfPrefix(s, t, u);
    if NewlineFrom(t, u) == -1 {
      HeaderFacts(s, u);
      HeaderFacts(t, u);
      assert |HeaderLine(t, u)| == 3;
    } else {
      assert HeaderLine(t, u) == HeaderLine(s, u);
    }
  }

  lemma {:induction false} FitPrefix(s: string, t: string, maxLen: nat)
    requires t <= s && HeadersFit(s, maxLen)
    ensures HeadersFit(t, maxLen)
  {
    forall u: nat | IsFence(t, u) ensures |HeaderAt(t, u)| <= maxLen - 7 {
      HeaderOfPrefix(s, t, u);
    }
  }

  lemma {:induction false} HeaderStopsAtNewline(t: string, u: nat, h: nat)
    requires IsFence(t, u) && u <= h < |t| && t[h] == '\n'
    ensures |HeaderAt(t, u)| <= h
  {
    var n := NewlineFrom(t, u);
    assert n != -1 && n <= h;
    HeaderFacts(t, u);
  }

  lemma {:induction false} FitTail(t: string, k: nat, u: nat, maxLen: nat)
    requires k <= u && IsFence(t, u) && HeadersFit(t[k..], maxLen)
    ensures |HeaderAt(t, u)| <= maxLen - 7
  {
    hide HeaderAt;
    var v: nat := u - k;
    assert k + v == u;
    assert IsFence(t[k..], v);
    HeaderOfSuffix(t, k, v);
  }

  /** A first line that fits in front of a text whose headers fit. */
  lemma {:induction false} FitFirstLine(t: string, h: nat, maxLen: nat)
    requires h < |t| && t[h] == '\n' && h <= maxLen - 7 && HeadersFit(t[h + 1..], maxLen)
    ensures HeadersFit(t, maxLen)
  {
    forall u: nat | IsFence(t, u) ensures |HeaderAt(t, u)| <= maxLen - 7 {
      if u <= h {
        HeaderStopsAtNewline(t, u, h);
      } else {
        FitTail(t, h + 1, u, maxLen);
      }
    }
  }

  lemma {:induction false} RestFits(s: string, maxLen: nat, c: Cut)
    requires HeadersFit(s, maxLen) && 1 <= c.k <= |s|
    requires c.Reopen? ==> c.fence >= 0 && IsFence(s, c.fence) && |HeaderAt(s, c.fence)| + 2 <= c.k
    ensures HeadersFit(RestOf(s, c), maxLen) && |RestOf(s, c)| < |s|
  {
    hide HeaderAt, HeadersFit, TrimSpace, SkipFront, IsSpace, IsBlank;
    FitSuffix(s, c.k, maxLen);
    if c.Plain? {
      var t := s[c.k..];
      var r := SkipFront(t, IsBlank);
      FitSuffix(t, |t| - |r|, maxLen);
    } else {
      ReopenedFits(s, c.k, c.fence, maxLen);
    }
  }

  /** A header with room for it puts back less than was taken. */
  lemma {:induction false} ReopenedShrinks(s: string, k: nat, u: nat)
    requires IsFence(s, u) && |HeaderAt(s, u)| + 2 <= k <= |s|
    ensures |RestOf(s, Reopen(k, u))| < |s|
  {
    hide HeaderAt;
    HeaderFacts(s, u);
    assert (HeaderAt(s, u) + "\n" + s[k..])[0] == '`';
  }

  lemma {:induction false} ReopenedFits(s: string, k: nat, u: nat, maxLen: nat)
    requires HeadersFit(s, maxLen) && IsFence(s, u) && |HeaderAt(s, u)| + 2 <= k <= |s|
    ensures var r := TrimSpace(HeaderAt(s, u) + "\n" + s[k..]); HeadersFit(r, maxLen) && |r| < |s|
  {
    hide HeaderAt, TrimSpace;
    FitSuffix(s, k, maxLen);
    var header := HeaderAt(s, u);
    HeaderFacts(s, u);
    var t := header + "\n" + s[k..];
    assert t[|header| + 1..] == s[k..];
    FitFirstLine(t, |header|, maxLen);
    assert t[0] == '`';
    FitPrefix(t, TrimSpace(t), maxLen);
  }

  lemma {:induction false} CutShrinks(s: string, maxLen: nat)
    requires 1 <= maxLen < |s| && HeadersFit(s, maxLen)
    ensures var c := NextCut(s, maxLen); InRange(s, c) && HeadersFit(RestOf(s, c), maxLen) && |RestOf(s, c)| < |s|
  {
    hide NextCut, HeadersFit, RestOf, HeaderAt;
    CutFacts(s, maxLen);
    RestFits(s, maxLen, NextCut(s, maxLen));
  }

  lemma EndsShort(s: string, n: nat, maxLen: nat)
    requires |s| <= maxLen && 1 <= maxLen
    ensures EndsIn(s, n, maxLen)
  {
  }

  lemma EndsSome(s: string, n: nat, maxLen: nat)
    requires 1 <= maxLen && EndsIn(s, n, maxLen)
    ensures Ends(s, maxLen)
  {
  }

  /** When every header fits there are fewer cuts than runes. */
  lemma {:induction false} FittingHeadersEnd(s: string, maxLen: nat)
    requires maxLen >= 1 && HeadersFit(s, maxLen)
    ensures EndsIn(s, |s|, maxLen) && Ends(s, maxLen)
    decreases |s|
  {
    hide NextCut, HeadersFit, RestOf, EndsIn, Ends;
    if |s| > maxLen {
      CutShrinks(s, maxLen);
      var rest := RestOf(s, NextCut(s, maxLen));
      FittingHeadersEnd(rest, maxLen);
      MoreTurns(rest, |rest|, |s| - 1, maxLen);
      EndsBefore(s, |s| - 1, maxLen);
    } else {
      EndsShort(s, |s|, maxLen);
    }
    EndsSome(s, |s|, maxLen);
  }

  lemma {:induction false} MoreTurns(s: string, n: nat, n': nat, maxLen: nat)
    requires maxLen >= 1 && EndsIn(s, n, maxLen) && n <= n'
    ensures EndsIn(s, n', maxLen)
    decreases n
  {
    hide NextCut, RestOf;
    if |s| > maxLen {
      MoreTurns(RestOf(s, NextCut(s, maxLen)), n - 1, n' - 1, maxLen);
    }
  }
}
