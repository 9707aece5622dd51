/** What the history filter guarantees a provider, and what it leaves alone. */
module SanitizerLaws {
  import opened Messages
  import opened Sanitizer

  // ---------------------------------------------------------------- what providers demand

  /** The call `c` of message `i` has a result in the unbroken run of tool messages after it. */
  ghost predicate HasResult(ms: seq<Message>, i: nat, c: ToolCall) {
    exists j :: i < j < |ms| && ms[j].toolCallID == c.id && forall k :: i < k <= j ==> IsTool(ms[k])
  }

  ghost predicate CallsAnswered(ms: seq<Message>) {
    forall i: nat, c :: i < |ms| && IsCall(ms[i]) && c in ms[i].toolCalls ==> HasResult(ms, i, c)
  }

  /** Tool messages occur only in blocks that a tool-call message opens. */
  ghost predicate ToolsInBlocks(ms: seq<Message>) {
    forall i :: 0 <= i < |ms| && IsTool(ms[i]) ==> i > 0 && (IsTool(ms[i - 1]) || IsCall(ms[i - 1]))
  }

  ghost predicate CallsFollow(ms: seq<Message>) {
    forall i :: 0 <= i < |ms| && IsCall(ms[i]) ==> i > 0 && (ms[i - 1].role == User || ms[i - 1].role == Tool)
  }

  ghost predicate NoSystem(ms: seq<Message>) {
    forall i :: 0 <= i < |ms| ==> ms[i].role != System
  }

  ghost predicate ProviderReady(ms: seq<Message>) {
    NoSystem(ms) && ToolsInBlocks(ms) && CallsFollow(ms) && CallsAnswered(ms)
  }

  // ---------------------------------------------------------------- the first pass, from the front

  /** The first pass as a left-to-right machine: `mayCall` says a tool call may come next,
      `inBlock` that a tool result may. */
  function Kept(h: seq<Message>, mayCall: bool, inBlock: bool): seq<Message> {
    if h == [] then []
    else if !Fits(h[0], mayCall, inBlock) then Kept(h[1..], mayCall, inBlock)
    else [h[0]] + Kept(h[1..], OpensTurn(h[0]), OpensBlock(h[0]))
  }

  predicate Fits(m: Message, mayCall: bool, inBlock: bool) {
    m.role != System && (IsTool(m) ==> inBlock) && (IsCall(m) ==> mayCall)
  }

  predicate OpensTurn(m: Message) { m.role == User || m.role == Tool }

  predicate OpensBlock(m: Message) { IsTool(m) || IsCall(m) }

  lemma {:induction false} AdmitAllIsKept(acc: seq<Message>, h: seq<Message>)
    ensures AdmitAll(acc, h) == acc + Kept(h, CallMayFollow(acc), InToolBlock(acc))
    decreases |h|
  {
    if h != [] {
      var acc' := Admit(acc, h[0]);
      AdmitAllIsKept(acc', h[1..]);
      if Admits(acc, h[0]) {
        assert acc'[..|acc|] == acc;
        var rest := Kept(h[1..], CallMayFollow(acc'), InToolBlock(acc'));
        assert acc + [h[0]] + rest == acc + ([h[0]] + rest);
      }
    }
  }

  lemma SanitizedIsKept(h: seq<Message>)
    ensures Sanitized(h) == DropUnanswered(Kept(h, false, false))
  {
    AdmitAllIsKept([], h);
    assert [] + Kept(h, false, false) == Kept(h, false, false);
  }

  /** Everything in `s` fits where it stands. */
  ghost predicate Staged(s: seq<Message>, mayCall: bool, inBlock: bool) {
    s != [] ==> Fits(s[0], mayCall, inBlock) && Staged(s[1..], OpensTurn(s[0]), OpensBlock(s[0]))
  }

  lemma {:induction false} KeptIsStaged(h: seq<Message>, mayCall: bool, inBlock: bool)
    ensures Staged(Kept(h, mayCall, inBlock), mayCall, inBlock)
  {
    if h != [] {
      if Fits(h[0], mayCall, inBlock) {
        KeptIsStaged(h[1..], OpensTurn(h[0]), OpensBlock(h[0]));
      } else {
        KeptIsStaged(h[1..], mayCall, inBlock);
      }
    }
  }

  lemma {:induction false} StagedIsKept(s: seq<Message>, mayCall: bool, inBlock: bool)
    requires Staged(s, mayCall, inBlock)
    ensures Kept(s, mayCall, inBlock) == s
  {
    if s != [] {
      StagedIsKept(s[1..], OpensTurn(s[0]), OpensBlock(s[0]));
    }
  }

  lemma {:induction false} StagedRelaxes(s: seq<Message>, mayCall: bool, inBlock: bool, mayCall': bool, inBlock': bool)
    requires Staged(s, mayCall, inBlock) && (mayCall ==> mayCall')
    requires inBlock ==> inBlock' || s == [] || !IsTool(s[0])
    ensures Staged(s, mayCall', inBlock')
  {
  }

  lemma {:induction false} StagedAfterRun(s: seq<Message>, mayCall: bool, inBlock: bool)
    requires Staged(s, mayCall, inBlock)
    ensures Staged(s[ToolRun(s)..], mayCall || ToolRun(s) > 0, true)
  {
    if ToolRun(s) == 0 {
      assert s[0..] == s;
      StagedRelaxes(s, mayCall, inBlock, mayCall, true);
    } else {
      StagedAfterRun(s[1..], true, true);
      assert s[1..][ToolRun(s[1..])..] == s[ToolRun(s)..];
    }
  }

  // ---------------------------------------------------------------- the second pass

  lemma FallenIsCall(s: seq<Message>)
    requires s != [] && !Stands(s)
    ensures IsCall(s[0])
  {
  }

  /** Dropping whole blocks leaves the leading run of tool messages as it was. */
  lemma {:induction false} DropKeepsRun(s: seq<Message>)
    ensures var d, n := DropUnanswered(s), ToolRun(s);
            ToolRun(d) == n && d[..n] == s[..n]
    decreases |s|
  {
    hide ToolRun, Stands, PastBlock;
    if s == [] {
      assert DropUnanswered(s) == s;
    } else if !Stands(s) {
      FallenIsCall(s);
      PastBlockHasNoRun(s);
      DropKeepsRun(PastBlock(s));
    } else {
      DropKeepsRun(s[1..]);
      RunOfCons(s[0], DropUnanswered(s[1..]));
      RunOfCons(s[0], s[1..]);
      assert [s[0]] + s[1..] == s;
    }
  }

  lemma {:induction false} PastBlockHasNoRun(s: seq<Message>)
    requires s != []
    ensures ToolRun(PastBlock(s)) == 0
    ensures IsCall(s[0]) ==> ToolRun(s) == 0
  {
  }

  lemma {:induction false} RunOfCons(m: Message, s: seq<Message>)
    ensures ToolRun([m] + s) == if IsTool(m) then 1 + ToolRun(s) else 0
  {
    assert ([m] + s)[1..] == s;
  }

  lemma {:induction false} DropKeepsStaged(s: seq<Message>, mayCall: bool, inBlock: bool)
    requires Staged(s, mayCall, inBlock)
    ensures Staged(DropUnanswered(s), mayCall, inBlock)
    decreases |s|
  {
    hide AnsweredBy, ToolRun, Stands;
    if s != [] {
      var rest := s[1..];
      var n := ToolRun(rest);
      if !Stands(s) {
        FallenIsCall(s);
        StagedAfterRun(rest, OpensTurn(s[0]), OpensBlock(s[0]));
        StagedRelaxes(rest[n..], n > 0, true, true, inBlock);
        DropKeepsStaged(rest[n..], true, inBlock);
      } else {
        DropKeepsStaged(rest, OpensTurn(s[0]), OpensBlock(s[0]));
        var d := DropUnanswered(rest);
        assert ([s[0]] + d)[1..] == d;
      }
    }
  }

  /** Every tool-call message of `s` is answered by the run right after it. */
  ghost predicate Settled(s: seq<Message>) {
    s != [] ==> Stands(s) && Settled(s[1..])
  }

  lemma {:induction false} StillStands(s: seq<Message>)
    requires s != [] && Stands(s)
    ensures Stands([s[0]] + DropUnanswered(s[1..]))
  {
    hide ToolRun, DropUnanswered, AnsweredBy;
    DropKeepsRun(s[1..]);
    var d := DropUnanswered(s[1..]);
    assert ([s[0]] + d)[1..] == d;
  }

  lemma {:induction false} DropSettles(s: seq<Message>)
    ensures Settled(DropUnanswered(s))
    decreases |s|
  {
    hide AnsweredBy, ToolRun, Stands;
    if s != [] {
      var rest := s[1..];
      var n := ToolRun(rest);
      if !Stands(s) {
        FallenIsCall(s);
        DropSettles(rest[n..]);
      } else {
        DropSettles(rest);
        var d := DropUnanswered(rest);
        assert ([s[0]] + d)[1..] == d;
        StillStands(s);
      }
    }
  }

  lemma {:induction false} SettledIsKept(s: seq<Message>)
    requires Settled(s)
    ensures DropUnanswered(s) == s
  {
    if s != [] {
      SettledIsKept(s[1..]);
    }
  }

  // ---------------------------------------------------------------- by position

  ghost predicate FitsAt(s: seq<Message>, i: nat, mayCall: bool, inBlock: bool)
    requires i < |s|
  {
    if i == 0 then Fits(s[0], mayCall, inBlock) else Fits(s[i], OpensTurn(s[i - 1]), OpensBlock(s[i - 1]))
  }

  lemma {:induction false} StagedByPosition(s: seq<Message>, mayCall: bool, inBlock: bool)
    ensures Staged(s, mayCall, inBlock) <==> forall i: nat :: i < |s| ==> FitsAt(s, i, mayCall, inBlock)
  {
    if s != [] {
      var t, mayCall', inBlock' := s[1..], OpensTurn(s[0]), OpensBlock(s[0]);
      StagedByPosition(t, mayCall', inBlock');
      forall i: nat | 0 < i < |s| ensures FitsAt(s, i, mayCall, inBlock) <==> FitsAt(t, i - 1, mayCall', inBlock') {
        assert i > 1 ==> s[i - 1] == t[i - 2];
      }
      if forall i: nat :: i < |s| ==> FitsAt(s, i, mayCall, inBlock) {
        assert FitsAt(s, 0, mayCall, inBlock);
        forall i: nat | i < |t| ensures FitsAt(t, i, mayCall', inBlock') {
          assert FitsAt(s, i + 1, mayCall, inBlock);
        }
      }
    }
  }

  lemma {:induction false} RunAnswers(ms: seq<Message>, i: nat, c: ToolCall)
    requires i < |ms|
    ensures var t := ms[i + 1..]; HasResult(ms, i, c) <==> exists r <- t[..ToolRun(t)] :: r.toolCallID == c.id
  {
    hide ToolRun;
    if HasResult(ms, i, c) {
      ResultIsInRun(ms, i, c);
    }
    var t := ms[i + 1..];
    if exists r <- t[..ToolRun(t)] :: r.toolCallID == c.id {
      RunHasResult(ms, i, c);
    }
  }

  lemma {:induction false} ResultIsInRun(ms: seq<Message>, i: nat, c: ToolCall)
    requires i < |ms| && HasResult(ms, i, c)
    ensures var t := ms[i + 1..]; exists r <- t[..ToolRun(t)] :: r.toolCallID == c.id
  {
    hide ToolRun;
    var t := ms[i + 1..];
    var n := ToolRun(t);
    var j :| i < j < |ms| && ms[j].toolCallID == c.id && forall k :: i < k <= j ==> IsTool(ms[k]);
    assert j - i - 1 < n by {
      assert n < |t| ==> t[n] == ms[i + 1 + n];
    }
    assert t[..n][j - i - 1] == ms[j];
  }

  lemma {:induction false} RunHasResult(ms: seq<Message>, i: nat, c: ToolCall)
    requires i < |ms|
    requires var t := ms[i + 1..]; exists r <- t[..ToolRun(t)] :: r.toolCallID == c.id
    ensures HasResult(ms, i, c)
  {
    hide ToolRun;
    var t := ms[i + 1..];
    var n := ToolRun(t);
    var r :| r in t[..n] && r.toolCallID == c.id;
    var k :| 0 <= k < n && t[..n][k] == r;
    assert ms[i + 1 + k] == r;
    assert forall q :: i < q <= i + 1 + k ==> ms[q] == t[q - i - 1];
  }

  lemma {:induction false} SettledByPosition(s: seq<Message>)
    ensures Settled(s) <==> forall i: nat :: i < |s| ==> Stands(s[i..])
  {
    hide Stands;
    if s != [] {
      var t := s[1..];
      SettledByPosition(t);
      assert s[0..] == s;
      forall i: nat | i < |t| ensures t[i..] == s[i + 1..] {
      }
      if forall i: nat :: i < |s| ==> Stands(s[i..]) {
        forall i: nat | i < |t| ensures Stands(t[i..]) {
          assert Stands(s[i + 1..]);
        }
      }
      if Settled(s) {
        forall i: nat | i < |s| ensures Stands(s[i..]) {
          if i > 0 { assert s[i..] == t[i - 1..]; }
        }
      }
    }
  }

  lemma {:induction false} StandsAt(s: seq<Message>, i: nat)
    requires i < |s|
    ensures Stands(s[i..]) <==> (IsCall(s[i]) ==> forall c <- s[i].toolCalls :: HasResult(s, i, c))
  {
    hide ToolRun, HasResult;
    var u := s[i..];
    assert u[0] == s[i] && u[1..] == s[i + 1..];
    forall c | c in s[i].toolCalls
      ensures HasResult(s, i, c) <==> exists r <- BlockAfter(u) :: r.toolCallID == c.id
    {
      RunAnswers(s, i, c);
    }
  }

  lemma {:induction false} SettledIsAnswered(s: seq<Message>)
    ensures Settled(s) <==> CallsAnswered(s)
  {
    hide Stands, HasResult;
    SettledByPosition(s);
    forall i: nat | i < |s|
      ensures Stands(s[i..]) <==> (IsCall(s[i]) ==> forall c <- s[i].toolCalls :: HasResult(s, i, c))
    {
      StandsAt(s, i);
    }
  }

  lemma {:induction false} ReadyIsStagedAndSettled(s: seq<Message>)
    ensures ProviderReady(s) <==> Staged(s, false, false) && Settled(s)
  {
    SettledIsAnswered(s);
    StagedByPosition(s, false, false);
    if NoSystem(s) && ToolsInBlocks(s) && CallsFollow(s) {
      assert forall i: nat :: i < |s| ==> FitsAt(s, i, false, false);
    }
    if Staged(s, false, false) {
      forall i: nat | i < |s|
        ensures s[i].role != System && (IsTool(s[i]) ==> i > 0 && OpensBlock(s[i - 1]))
        ensures (IsCall(s[i]) ==> i > 0 && OpensTurn(s[i - 1]))
      {
        assert FitsAt(s, i, false, false);
      }
    }
  }

  // ---------------------------------------------------------------- the promises

  /** Whatever the history (truncated, compressed, cut by a crash), the result is acceptable. */
  lemma SanitizedIsReady(h: seq<Message>)
    ensures ProviderReady(Sanitized(h))
  {
    SanitizedIsKept(h);
    KeptIsStaged(h, false, false);
    DropKeepsStaged(Kept(h, false, false), false, false);
    DropSettles(Kept(h, false, false));
    ReadyIsStagedAndSettled(Sanitized(h));
  }

  /** The filter leaves a history alone exactly when it was acceptable already. */
  lemma FixedPointIffReady(h: seq<Message>)
    ensures Sanitized(h) == h <==> ProviderReady(h)
  {
    SanitizedIsReady(h);
    if ProviderReady(h) {
      ReadyIsStagedAndSettled(h);
      SanitizedIsKept(h);
      StagedIsKept(h, false, false);
      SettledIsKept(h);
    }
  }

  lemma SanitizingTwiceChangesNothing(h: seq<Message>)
    ensures Sanitized(Sanitized(h)) == Sanitized(h)
  {
    SanitizedIsReady(h);
    FixedPointIffReady(Sanitized(h));
  }

  /** `a` is `b` with some messages left out. */
  ghost predicate Subsequence(a: seq<Message>, b: seq<Message>)
    decreases |b|
  {
    if b == [] then a == []
    else (a != [] && a[0] == b[0] && Subsequence(a[1..], b[1..])) || Subsequence(a, b[1..])
  }

  lemma {:induction false} SubsequenceTrans(a: seq<Message>, b: seq<Message>, c: seq<Message>)
    requires Subsequence(a, b) && Subsequence(b, c)
    ensures Subsequence(a, c)
    decreases |c|
  {
    if c != [] {
      if Subsequence(b, c[1..]) {
        SubsequenceTrans(a, b, c[1..]);
      } else if Subsequence(a, b[1..]) {
        SubsequenceTrans(a, b[1..], c[1..]);
      } else {
        SubsequenceTrans(a[1..], b[1..], c[1..]);
      }
    }
  }

  lemma {:induction false} KeptIsSubsequence(h: seq<Message>, mayCall: bool, inBlock: bool)
    ensures Subsequence(Kept(h, mayCall, inBlock), h)
  {
    if h != [] {
      if Fits(h[0], mayCall, inBlock) {
        KeptIsSubsequence(h[1..], OpensTurn(h[0]), OpensBlock(h[0]));
      } else {
        KeptIsSubsequence(h[1..], mayCall, inBlock);
      }
    }
  }

  lemma {:induction false} SkipIsSubsequence(a: seq<Message>, s: seq<Message>, n: nat)
    requires n <= |s| && Subsequence(a, s[n..])
    ensures Subsequence(a, s)
  {
    if n == 0 {
      assert s[0..] == s;
    } else {
      assert s[1..][n - 1..] == s[n..];
      SkipIsSubsequence(a, s[1..], n - 1);
    }
  }

  lemma {:induction false} DropIsSubsequence(s: seq<Message>)
    ensures Subsequence(DropUnanswered(s), s)
    decreases |s|
  {
    hide AnsweredBy, ToolRun, Stands;
    if s != [] {
      var rest := s[1..];
      var n := ToolRun(rest);
      if !Stands(s) {
        FallenIsCall(s);
        DropIsSubsequence(rest[n..]);
        SkipIsSubsequence(DropUnanswered(s), rest, n);
      } else {
        DropIsSubsequence(rest);
        assert DropUnanswered(s)[1..] == DropUnanswered(rest);
      }
    }
  }

  /** The messages no filter may touch, in order. */
  function Talk(s: seq<Message>): seq<Message> {
    if s == [] then [] else (if IsKept(s[0]) then [s[0]] else []) + Talk(s[1..])
  }

  lemma {:induction false} KeptKeepsTalk(h: seq<Message>, mayCall: bool, inBlock: bool)
    ensures Talk(Kept(h, mayCall, inBlock)) == Talk(h)
  {
    if h != [] {
      if Fits(h[0], mayCall, inBlock) {
        var k := Kept(h[1..], OpensTurn(h[0]), OpensBlock(h[0]));
        KeptKeepsTalk(h[1..], OpensTurn(h[0]), OpensBlock(h[0]));
        assert ([h[0]] + k)[1..] == k;
      } else {
        KeptKeepsTalk(h[1..], mayCall, inBlock);
      }
    }
  }

  lemma {:induction false} RunHasNoTalk(s: seq<Message>)
    ensures Talk(s) == Talk(s[ToolRun(s)..])
  {
    if ToolRun(s) == 0 {
      assert s[0..] == s;
    } else {
      RunHasNoTalk(s[1..]);
      assert s[1..][ToolRun(s[1..])..] == s[ToolRun(s)..];
    }
  }

  lemma {:induction false} DropKeepsTalk(s: seq<Message>)
    ensures Talk(DropUnanswered(s)) == Talk(s)
    decreases |s|
  {
    hide AnsweredBy, ToolRun, Stands;
    if s != [] {
      var rest := s[1..];
      if !Stands(s) {
        FallenIsCall(s);
        DropKeepsTalk(PastBlock(s));
        RunHasNoTalk(rest);
        TalkOfCall(s);
      } else {
        DropKeepsTalk(rest);
        TalkOfCons(s[0], DropUnanswered(rest));
        TalkOfCons(s[0], rest);
        assert s == [s[0]] + rest;
      }
    }
  }

  lemma TalkOfCall(s: seq<Message>)
    requires s != [] && IsCall(s[0])
    ensures Talk(s) == Talk(s[1..])
  {
  }

  lemma TalkOfCons(m: Message, s: seq<Message>)
    ensures Talk([m] + s) == (if IsKept(m) then [m] else []) + Talk(s)
  {
    assert ([m] + s)[1..] == s;
  }

  /** Nothing is invented or reordered, and every user and plain assistant message survives. */
  lemma SanitizedOnlyDropsToolTraffic(h: seq<Message>)
    ensures Subsequence(Sanitized(h), h) && Talk(Sanitized(h)) == Talk(h)
  {
    SanitizedIsKept(h);
    var k := Kept(h, false, false);
    KeptIsSubsequence(h, false, false);
    DropIsSubsequence(k);
    SubsequenceTrans(Sanitized(h), k, h);
    KeptKeepsTalk(h, false, false);
    DropKeepsTalk(k);
  }

  // ---------------------------------------------------------------- user messages are cut points

  lemma {:induction false} KeptAtUser(h: seq<Message>, u: Message, t: seq<Message>, mayCall: bool, inBlock: bool)
    requires u.role == User
    ensures Kept(h + [u] + t, mayCall, inBlock) == Kept(h, mayCall, inBlock) + [u] + Kept(t, true, false)
  {
    var whole := h + [u] + t;
    if h == [] {
      assert whole[1..] == t;
    } else {
      assert whole[1..] == h[1..] + [u] + t;
      if Fits(h[0], mayCall, inBlock) {
        KeptAtUser(h[1..], u, t, OpensTurn(h[0]), OpensBlock(h[0]));
      } else {
        KeptAtUser(h[1..], u, t, mayCall, inBlock);
      }
    }
  }

  lemma {:induction false} RunStopsAt(a: seq<Message>, u: Message, b: seq<Message>)
    requires !IsTool(u)
    ensures ToolRun(a + [u] + b) == ToolRun(a)
  {
    if a != [] {
      assert (a + [u] + b)[1..] == a[1..] + [u] + b;
      RunStopsAt(a[1..], u, b);
    }
  }

  lemma {:induction false} StandsAtUser(a: seq<Message>, u: Message, b: seq<Message>)
    requires a != [] && IsKept(u)
    ensures var whole := a + [u] + b; Stands(whole) == Stands(a) && PastBlock(whole) == PastBlock(a) + [u] + b
  {
    hide ToolRun, AnsweredBy;
    var whole := a + [u] + b;
    assert whole[1..] == a[1..] + [u] + b;
    RunStopsAt(a[1..], u, b);
    assert BlockAfter(whole) == BlockAfter(a);
    assert PastBlock(whole) == PastBlock(a) + [u] + b;
  }

  lemma {:induction false} DropAtUser(a: seq<Message>, u: Message, b: seq<Message>)
    requires IsKept(u)
    ensures DropUnanswered(a + [u] + b) == DropUnanswered(a) + [u] + DropUnanswered(b)
    decreases |a|
  {
    hide Stands, PastBlock;
    var whole := a + [u] + b;
    if a == [] {
      assert whole[1..] == b && whole[0] == u;
      assert Stands(whole) by { PlainStands(whole); }
    } else {
      StandsAtUser(a, u, b);
      assert whole[1..] == a[1..] + [u] + b;
      if Stands(a) {
        DropAtUser(a[1..], u, b);
      } else {
        DropAtUser(PastBlock(a), u, b);
      }
    }
  }

  lemma PlainStands(s: seq<Message>)
    requires s != [] && !IsCall(s[0])
    ensures Stands(s)
  {
  }

  /** History before a user message and history from it on are filtered independently. */
  lemma UserIsACutPoint(h: seq<Message>, u: Message, t: seq<Message>)
    requires u.role == User
    ensures Sanitized(h + [u] + t) == Sanitized(h) + Sanitized([u] + t)
  {
    hide Sanitized, Kept, DropUnanswered;
    SanitizedIsKept(h);
    SanitizedIsKept(h + [u] + t);
    KeptAtUser(h, u, t, false, false);
    DropAtUser(Kept(h, false, false), u, Kept(t, true, false));
    SanitizedIsKept([u] + t);
    KeptAtUser([], u, t, false, false);
    DropAtUser([], u, Kept(t, true, false));
    assert [] + [u] + t == [u] + t;
    assert Kept([], false, false) == [] && DropUnanswered([]) == [] by { EmptyStays(); }
  }

  lemma EmptyStays()
    ensures Kept([], false, false) == [] && DropUnanswered([]) == []
  {
  }
}
