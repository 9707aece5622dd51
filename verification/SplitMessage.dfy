/** `SplitMessage` as it runs: one buffer of runes, a moving `start`, index-scanning searches,
    and a buffer rebuilt with an injected header whenever a block is cut. */
module SplitMessage {
  import opened Common
  import opened Text
  import opened Splitter

  method FindLastUnclosedCodeBlockInRange(runes: string, start: int, end: int) returns (r: int)
    requires 0 <= start <= end <= |runes|
    ensures var u := Unclosed(runes[start..end], 0, -1); r == if u < 0 then -1 else start + u
  {
    ghost var t := runes[start..end];
    var inCodeBlock, lastOpenIdx := false, -1;
    var i := start;
    while i < end
      invariant start <= i && (i <= end || i <= end + 2)
      invariant lastOpenIdx >= start || (lastOpenIdx == -1 && !inCodeBlock)
      invariant Unclosed(t, i - start, if inCodeBlock then lastOpenIdx - start else -1) == Unclosed(t, 0, -1)
      decreases end - i
    {
      if i + 2 < end && runes[i] == '`' && runes[i + 1] == '`' && runes[i + 2] == '`' {
        assert IsFence(t, i - start);
        if !inCodeBlock {
          lastOpenIdx := i;
        }
        inCodeBlock := !inCodeBlock;
        i := i + 2;
      } else {
        assert !IsFence(t, i - start);
      }
      i := i + 1;
    }
    r := if inCodeBlock then lastOpenIdx else -1;
  }

  method FindNextClosingCodeBlockInRange(runes: string, startIdx: int, end: int) returns (r: int)
    requires 0 <= startIdx && end <= |runes|
    ensures r == if startIdx >= end then -1 else NextFenceEnd(runes[..end], startIdx)
  {
    var i := startIdx;
    while i < end
      invariant startIdx <= i
      invariant startIdx < end ==> NextFenceEnd(runes[..end], i) == NextFenceEnd(runes[..end], startIdx)
    {
      if i + 2 < end && runes[i] == '`' && runes[i + 1] == '`' && runes[i + 2] == '`' {
        return i + 3;
      }
      i := i + 1;
    }
    return -1;
  }

  method FindNewlineFrom(runes: string, from: int) returns (r: int)
    requires 0 <= from
    ensures r == NewlineFrom(runes, from)
  {
    var i := from;
    while i < |runes|
      invariant from <= i && NewlineFrom(runes, i) == NewlineFrom(runes, from)
    {
      if runes[i] == '\n' {
        return i;
      }
      i := i + 1;
    }
    return -1;
  }

  /** The two backward searches: `start - 1` means not found. */
  method FindLastNewlineInRange(runes: string, start: int, end: int, searchWindow: nat) returns (r: int)
    requires 0 <= start <= |runes| && end <= |runes|
    ensures r == start + LastIn(runes[start..], end - start, searchWindow, IsNewline)
  {
    var searchStart := Max(end - searchWindow, start);
    var i := end - 1;
    while i >= searchStart
      invariant i < |runes|
      invariant LastIn(runes[start..], end - start, searchWindow, IsNewline)
             == LastBetween(runes[start..], searchStart - start, i + 1 - start, IsNewline)
    {
      if runes[i] == '\n' {
        return i;
      }
      i := i - 1;
    }
    return start - 1;
  }

  method FindLastSpaceInRange(runes: string, start: int, end: int, searchWindow: nat) returns (r: int)
    requires 0 <= start <= |runes| && end <= |runes|
    ensures r == start + LastIn(runes[start..], end - start, searchWindow, IsGap)
  {
    var searchStart := Max(end - searchWindow, start);
    var i := end - 1;
    while i >= searchStart
      invariant i < |runes|
      invariant LastIn(runes[start..], end - start, searchWindow, IsGap)
             == LastBetween(runes[start..], searchStart - start, i + 1 - start, IsGap)
    {
      if runes[i] == ' ' || runes[i] == '\t' {
        return i;
      }
      i := i - 1;
    }
    return start - 1;
  }

  lemma {:induction false} HeaderEndOfSuffix(s: string, k: nat, u: nat)
    requires k <= |s| && IsFence(s, k + u)
    ensures IsFence(s[k..], u)
    ensures HeaderAt(s[k..], u) == HeaderAt(s, k + u) && k + HeaderEnd(s[k..], u) == HeaderEnd(s, k + u)
  {
    hide HeaderAt;
    assert IsFence(s[k..], u);
    HeaderOfSuffix(s, k, u);
    NewlineOfSuffix(s, k, u);
  }

  /** The header to re-open an open block with, and where its line ends. */
  method FindHeader(runes: string, unclosedIdx: nat) returns (header: string, headerEndIdx: int)
    requires IsFence(runes, unclosedIdx)
    ensures header == HeaderAt(runes, unclosedIdx) && headerEndIdx == HeaderEnd(runes, unclosedIdx)
  {
    var headerEnd := FindNewlineFrom(runes, unclosedIdx);
    if headerEnd == -1 {
      header := TrimSpace(runes[unclosedIdx..unclosedIdx + 3]);
    } else {
      header := TrimSpace(runes[unclosedIdx..headerEnd]);
    }
    headerEndIdx := unclosedIdx + |header|;
    if headerEnd != -1 {
      headerEndIdx := headerEnd;
    }
  }

  /** Cut `runes[start..]`, whose natural end is `msgEnd` and whose open block starts at
      `unclosedIdx`, when that block cannot be sent whole. */
  method CutOpenBlock(runes: string, start: nat, maxLen: nat, msgEnd: int, unclosedIdx: nat)
    returns (reopen: bool, end: int, header: string)
    requires start <= unclosedIdx && start + maxLen < |runes|
    requires IsFence(runes, unclosedIdx) && IsFence(runes[start..], unclosedIdx - start)
    ensures var c := CutBlock(runes[start..], maxLen, msgEnd - start, unclosedIdx - start);
            reopen == c.Reopen? && end == start + c.k
    ensures header == HeaderAt(runes[start..], unclosedIdx - start)
  {
    hide HeaderAt, HeaderEnd, LastBetween;
    HeaderEndOfSuffix(runes, start, unclosedIdx - start);
    var headerEndIdx;
    header, headerEndIdx := FindHeader(runes, unclosedIdx);
    if msgEnd > headerEndIdx + 20 {
      var innerLimit := Min(start + maxLen - 5, |runes|);
      var betterEnd := FindLastNewlineInRange(runes, start, innerLimit, 200);
      end := if betterEnd > headerEndIdx then betterEnd else innerLimit;
      return true, end, header;
    }
    var newEnd := FindLastNewlineInRange(runes, start, unclosedIdx, 200);
    if newEnd <= start {
      newEnd := FindLastSpaceInRange(runes, start, unclosedIdx, 100);
    }
    if newEnd > start {
      return false, newEnd, header;
    }
    if unclosedIdx - start > 20 {
      return false, unclosedIdx, header;
    }
    return true, Min(start + maxLen - 5, |runes|), header;
  }

  /** A newline, else a gap, else the limit. */
  method FindNaturalEnd(runes: string, start: nat, maxLen: nat, effectiveLimit: nat) returns (msgEnd: int)
    requires start + maxLen < |runes| && 1 <= maxLen && effectiveLimit == EffectiveLimit(maxLen)
    ensures msgEnd == start + NaturalEnd(runes[start..], effectiveLimit)
    ensures start < msgEnd <= start + maxLen
  {
    NaturalEndFacts(runes[start..], maxLen);
    var end := start + effectiveLimit;
    msgEnd := FindLastNewlineInRange(runes, start, end, 200);
    if msgEnd <= start {
      msgEnd := FindLastSpaceInRange(runes, start, end, 100);
    }
    if msgEnd <= start {
      msgEnd := end;
    }
  }

  /** Where the next chunk of `runes[start..]` ends, and whether its block has to be re-opened. */
  method FindCut(runes: string, start: nat, maxLen: nat, effectiveLimit: nat)
    returns (reopen: bool, msgEnd: int, header: string)
    requires start + maxLen < |runes| && 1 <= maxLen && effectiveLimit == EffectiveLimit(maxLen)
    ensures var c := NextCut(runes[start..], maxLen);
            && reopen == c.Reopen? && msgEnd == start + c.k
            && (reopen ==> c.fence >= 0 && IsFence(runes[start..], c.fence) && header == HeaderAt(runes[start..], c.fence))
  {
    hide HeaderAt, CutBlock, Unclosed, NaturalEnd, EffectiveLimit, NextFenceEnd;
    ghost var s := runes[start..];
    msgEnd := FindNaturalEnd(runes, start, maxLen, effectiveLimit);
    ghost var m := msgEnd - start;
    assert runes[start..msgEnd] == s[..m];

    var unclosedIdx := FindLastUnclosedCodeBlockInRange(runes, start, msgEnd);
    reopen, header := false, "";
    if unclosedIdx >= 0 {
      ghost var u := unclosedIdx - start;
      UnclosedFacts(s[..m], 0, -1);
      assert IsFence(s[..m], u) && IsFence(s, u) && IsFence(runes, unclosedIdx);
      if |runes| > msgEnd {
        var closingIdx := FindNextClosingCodeBlockInRange(runes, msgEnd, |runes|);
        ClosingOfRest(runes, start, m);
        if closingIdx > 0 && closingIdx - start <= maxLen {
          msgEnd := closingIdx;
        } else {
          CutBlockFence(s, maxLen, m, u);
          reopen, msgEnd, header := CutOpenBlock(runes, start, maxLen, msgEnd, unclosedIdx);
        }
      }
    }
  }

  /** The search from a position of the buffer is the one in what is left. */
  lemma ClosingOfRest(runes: string, start: nat, m: nat)
    requires start <= |runes|
    ensures NextFenceEnd(runes[..|runes|], start + m) == (var r := NextFenceEnd(runes[start..], m); if r == -1 then -1 else start + r)
  {
    assert runes[..|runes|] == runes;
    FenceEndOfSuffix(runes, start, m);
  }

  lemma {:induction false} CutBlockFence(s: string, maxLen: nat, m: int, u: nat)
    requires IsFence(s, u)
    ensures var c := CutBlock(s, maxLen, m, u); c.Reopen? ==> c.fence == u
  {
  }

  lemma PlainIsForward(s: string, maxLen: nat)
    requires 1 <= maxLen < |s|
    ensures NextCut(s, maxLen).Plain? ==> NextCut(s, maxLen).k >= 1
  {
    hide NextCut;
    CutBounds(s, maxLen);
  }

  /** What a cut sends and leaves, kind by kind. */
  lemma CutSends(s: string, c: Cut)
    requires InRange(s, c)
    ensures c.Plain? ==> ChunkOf(s, c) == s[..c.k] && RestOf(s, c) == SkipFront(s[c.k..], IsBlank)
    ensures c.Reopen? ==> ChunkOf(s, c) == TrimEnd(s[..c.k], IsBlank) + "\n```"
    ensures c.Reopen? ==> RestOf(s, c) == TrimSpace(HeaderAt(s, c.fence) + "\n" + s[c.k..])
  {
    hide HeaderAt, TrimSpace, TrimEnd, SkipFront;
  }

  /** One turn of the loop: the chunk to send, and the buffer and start to go on with. */
  method SendOne(runes: string, start: nat, maxLen: nat, effectiveLimit: nat)
    returns (chunk: string, runes': string, start': nat)
    requires start + maxLen < |runes| && 1 <= maxLen && effectiveLimit == EffectiveLimit(maxLen)
    requires InRange(runes[start..], NextCut(runes[start..], maxLen))
    ensures start' <= |runes'|
    ensures var c := NextCut(runes[start..], maxLen);
            chunk == ChunkOf(runes[start..], c) && runes'[start'..] == RestOf(runes[start..], c)
  {
    hide HeaderAt, NextCut, TrimSpace, TrimEnd, SkipFront, IsBlank, EffectiveLimit, ChunkOf, RestOf;
    var reopen, msgEnd, header := FindCut(runes, start, maxLen, effectiveLimit);
    ghost var s, k := runes[start..], msgEnd - start;
    PlainIsForward(s, maxLen);
    CutSends(s, NextCut(s, maxLen));
    assert runes[start..msgEnd] == s[..k] && runes[msgEnd..] == s[k..];
    if reopen {
      chunk := TrimEnd(runes[start..msgEnd], IsBlank) + "\n```";
      // The buffer is rebuilt: the header goes back in front of what is left.
      runes' := TrimSpace(header + "\n" + runes[msgEnd..]);
      start' := 0;
      assert runes'[0..] == runes';
    } else {
      if msgEnd <= start {
        msgEnd := start + effectiveLimit;
      }
      chunk := runes[start..msgEnd];
      runes' := runes;
      start' := SkipBlanks(runes, msgEnd);
    }
  }

  method SplitMessage(content: string, maxLen: int) returns (messages: seq<string>)
    requires maxLen > 0 ==> Ends(content, maxLen)
    ensures maxLen > 0 ==> messages == Split(content, maxLen)
    ensures maxLen <= 0 ==> messages == if content == "" then [] else [content]
  {
    hide HeaderAt, NextCut, ChunkOf, RestOf, IsFence, Split, EndsIn;
    if maxLen <= 0 {
      return if content == "" then [] else [content];
    }
    var runes := content;
    messages := [];
    var codeBlockBuffer := Max(maxLen / 10, 50);
    if codeBlockBuffer > maxLen / 2 {
      codeBlockBuffer := maxLen / 2;
    }
    var start := 0;
    assert runes[start..] == content;
    ghost var cuts: nat :| EndsIn(content, cuts, maxLen);
    while start < |runes|
      invariant 0 <= start <= |runes|
      invariant EndsIn(runes[start..], cuts, maxLen) && Ends(runes[start..], maxLen)
      invariant messages + Split(runes[start..], maxLen) == Split(content, maxLen)
      decreases cuts
    {
      ghost var s := runes[start..];
      if |runes| - start <= maxLen {
        SplitShort(s, maxLen);
        messages := messages + [runes[start..]];
        start := |runes|;
        SplitShort(runes[start..], maxLen);
        assert messages + [] == messages;
        break;
      }
      SplitUnfolds(s, cuts, maxLen);
      var effectiveLimit := Max(maxLen - codeBlockBuffer, maxLen / 2);
      var chunk;
      chunk, runes, start := SendOne(runes, start, maxLen, effectiveLimit);
      cuts := cuts - 1;
      assert messages + ([chunk] + Split(runes[start..], maxLen)) == messages + [chunk] + Split(runes[start..], maxLen);
      messages := messages + [chunk];
    }
    SplitShort(runes[start..], maxLen);
    assert runes[start..] == "";
    assert messages + [] == messages;
  }

  /** Advance past the white space in front of the next chunk. */
  method SkipBlanks(runes: string, from: nat) returns (start: nat)
    requires from <= |runes|
    ensures from <= start <= |runes| && runes[start..] == SkipFront(runes[from..], IsBlank)
  {
    hide IsBlank, SkipFront;
    start := from;
    while start < |runes| && IsBlank(runes[start])
      invariant from <= start <= |runes|
      invariant SkipFront(runes[start..], IsBlank) == SkipFront(runes[from..], IsBlank)
    {
      SkipOne(runes[start..]);
      assert runes[start..][1..] == runes[start + 1..];
      start := start + 1;
    }
    SkipNone(runes[start..]);
  }

  lemma {:induction false} SkipOne(s: string)
    requires s != "" && IsBlank(s[0])
    ensures SkipFront(s, IsBlank) == SkipFront(s[1..], IsBlank)
  {
  }

  lemma {:induction false} SkipNone(s: string)
    requires s == "" || !IsBlank(s[0])
    ensures SkipFront(s, IsBlank) == s
  {
  }
}
