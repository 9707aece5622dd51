/** Exactly which messages of a history the filter keeps, told by their positions in it. */
module Survivors {
  import opened Messages
  import opened Sanitizer
  import opened SanitizerLaws
  import opened Turns

  // ---------------------------------------------------------------- which messages stay

  /** The first pass lets in no system message, a tool call only directly after a user message or a
      tool result, and a tool result only directly after a tool call or another result: after what
      it let in last, that is. */
  predicate Admitted(h: seq<Message>, i: nat)
    requires i < |h|
    decreases i, 1
  {
    var p := LastAdmitted(h, i);
    && h[i].role != System
    && (IsTool(h[i]) ==> p >= 0 && (IsTool(h[p]) || IsCall(h[p])))
    && (IsCall(h[i]) ==> p >= 0 && (h[p].role == User || IsTool(h[p])))
  }

  /** The last message before `i` that was let in, or -1. */
  function LastAdmitted(h: seq<Message>, i: nat): (p: int)
    requires i <= |h|
    ensures -1 <= p < i
    decreases i, 0
  {
    if i == 0 then -1 else if Admitted(h, i - 1) then i - 1 else LastAdmitted(h, i - 1)
  }

  /** The last message before `i` that was let in and is no tool result, or -1. */
  function Opener(h: seq<Message>, i: nat): (o: int)
    requires i <= |h|
    ensures -1 <= o < i && (o >= 0 ==> !IsTool(h[o]))
  {
    if i == 0 then -1 else if Admitted(h, i - 1) && !IsTool(h[i - 1]) then i - 1 else Opener(h, i - 1)
  }

  /** Among what was let in, an unbroken run of tool results leads from message `i` to a result for `c`. */
  ghost predicate Replied(h: seq<Message>, i: nat, c: ToolCall)
    requires i < |h|
  {
    exists j :: i < j < |h| && ReplyAt(h, i, c, j)
  }

  ghost predicate ReplyAt(h: seq<Message>, i: nat, c: ToolCall, j: nat)
    requires i < j < |h|
  {
    Admitted(h, j) && h[j].toolCallID == c.id && forall k :: i < k <= j && Admitted(h, k) ==> IsTool(h[k])
  }

  ghost predicate AllReplied(h: seq<Message>, i: nat)
    requires i < |h|
  {
    forall c <- h[i].toolCalls :: Replied(h, i, c)
  }

  /** What was let in stays, except tool calls with an id that is not replied to, and their results. */
  ghost predicate Stays(h: seq<Message>, i: nat)
    requires i < |h|
  {
    && Admitted(h, i)
    && (IsCall(h[i]) ==> AllReplied(h, i))
    && (IsTool(h[i]) ==> Opener(h, i) >= 0 && AllReplied(h, Opener(h, i)))
  }

  /** The messages from `i` on that stay, in order. */
  ghost function Staying(h: seq<Message>, i: nat): seq<Message>
    requires i <= |h|
    decreases |h| - i
  {
    if i == |h| then [] else (if Stays(h, i) then [h[i]] else []) + Staying(h, i + 1)
  }

  // ---------------------------------------------------------------- the first pass

  function AdmittedFrom(h: seq<Message>, i: nat): seq<Message>
    requires i <= |h|
    decreases |h| - i
  {
    if i == |h| then [] else (if Admitted(h, i) then [h[i]] else []) + AdmittedFrom(h, i + 1)
  }

  lemma {:induction false} KeptIsAdmitted(h: seq<Message>, i: nat)
    requires i <= |h|
    ensures var p := LastAdmitted(h, i);
            Kept(h[i..], p >= 0 && OpensTurn(h[p]), p >= 0 && OpensBlock(h[p])) == AdmittedFrom(h, i)
    decreases |h| - i
  {
    if i < |h| {
      assert h[i..][0] == h[i] && h[i..][1..] == h[i + 1..];
      KeptIsAdmitted(h, i + 1);
    }
  }

  // ---------------------------------------------------------------- the second pass

  /** A tool result that was let in belongs to a tool call. */
  lemma {:induction false} OpenerIsCall(h: seq<Message>, i: nat)
    requires i <= |h| && LastAdmitted(h, i) >= 0 && OpensBlock(h[LastAdmitted(h, i)])
    ensures Opener(h, i) >= 0 && IsCall(h[Opener(h, i)])
  {
    if Admitted(h, i - 1) {
      if IsTool(h[i - 1]) {
        OpenerIsCall(h, i - 1);
      }
    } else {
      OpenerIsCall(h, i - 1);
    }
  }

  ghost predicate RepliedFrom(h: seq<Message>, from: nat, c: ToolCall, i: nat)
    requires from < i
  {
    exists j :: i <= j < |h| && ReplyAt(h, from, c, j)
  }

  /** The run of tool results that what was let in from `i` on begins with. */
  lemma {:induction false} RunHas(h: seq<Message>, from: nat, i: nat, c: ToolCall)
    requires from < i <= |h| && forall k :: from < k < i && Admitted(h, k) ==> IsTool(h[k])
    ensures var s := AdmittedFrom(h, i);
            (exists t <- s[..ToolRun(s)] :: t.toolCallID == c.id) <==> RepliedFrom(h, from, c, i)
    decreases |h| - i
  {
    hide Admitted, RepliedFrom;
    if i < |h| {
      ReplyHereOrLater(h, from, c, i);
      if Admitted(h, i) && !IsTool(h[i]) {
        RunOfCons(h[i], AdmittedFrom(h, i + 1));
        RunEnds(h, from, c, i);
      } else {
        RunHas(h, from, i + 1, c);
        if Admitted(h, i) {
          RunHasOneMore(h, i, c);
        } else {
          assert AdmittedFrom(h, i) == AdmittedFrom(h, i + 1);
        }
      }
    } else {
      NoReplyLater(h, from, c);
    }
  }

  lemma ReplyHereOrLater(h: seq<Message>, from: nat, c: ToolCall, i: nat)
    requires from < i < |h| && forall k :: from < k < i && Admitted(h, k) ==> IsTool(h[k])
    ensures RepliedFrom(h, from, c, i) <==>
            (Admitted(h, i) && IsTool(h[i]) && h[i].toolCallID == c.id) || RepliedFrom(h, from, c, i + 1)
  {
    hide Admitted;
    assert ReplyAt(h, from, c, i) <==> Admitted(h, i) && IsTool(h[i]) && h[i].toolCallID == c.id;
  }

  lemma RunEnds(h: seq<Message>, from: nat, c: ToolCall, i: nat)
    requires from < i < |h| && Admitted(h, i) && !IsTool(h[i])
    ensures !RepliedFrom(h, from, c, i)
  {
    hide Admitted;
  }

  lemma NoReplyLater(h: seq<Message>, from: nat, c: ToolCall)
    requires from < |h|
    ensures !RepliedFrom(h, from, c, |h|)
  {
  }

  lemma RunHasOneMore(h: seq<Message>, i: nat, c: ToolCall)
    requires i < |h| && Admitted(h, i) && IsTool(h[i])
    ensures var s, rest := AdmittedFrom(h, i), AdmittedFrom(h, i + 1);
            (exists t <- s[..ToolRun(s)] :: t.toolCallID == c.id) <==>
            h[i].toolCallID == c.id || exists t <- rest[..ToolRun(rest)] :: t.toolCallID == c.id
  {
    hide Admitted, ToolRun;
    var s, rest := AdmittedFrom(h, i), AdmittedFrom(h, i + 1);
    RunOfCons(h[i], rest);
    assert s == [h[i]] + rest;
    assert s[..ToolRun(s)] == [h[i]] + rest[..ToolRun(rest)];
    assert forall t :: t in [h[i]] + rest[..ToolRun(rest)] <==> t == h[i] || t in rest[..ToolRun(rest)];
  }

  lemma StandsIffReplied(h: seq<Message>, i: nat)
    requires i < |h| && Admitted(h, i)
    ensures Stands(AdmittedFrom(h, i)) <==> (IsCall(h[i]) ==> AllReplied(h, i))
  {
    hide Admitted, ToolRun, ReplyAt;
    var s, rest := AdmittedFrom(h, i), AdmittedFrom(h, i + 1);
    assert s[1..] == rest;
    forall c | c in h[i].toolCalls
      ensures (exists t <- BlockAfter(s) :: t.toolCallID == c.id) <==> Replied(h, i, c)
    {
      RunHas(h, i, i + 1, c);
      assert Replied(h, i, c) <==> RepliedFrom(h, i, c, i + 1);
    }
  }

  /** Position `i` lies in the block of a tool call that was dropped. */
  ghost predicate InDropped(h: seq<Message>, i: nat)
    requires i <= |h|
  {
    Opener(h, i) >= 0 && IsCall(h[Opener(h, i)]) && !AllReplied(h, Opener(h, i))
  }

  /** What the second pass makes of what was let in from `i` on, past the rest of a dropped block. */
  ghost function Passed(h: seq<Message>, i: nat): seq<Message>
    requires i <= |h|
  {
    var s := AdmittedFrom(h, i);
    if InDropped(h, i) then DropUnanswered(s[ToolRun(s)..]) else DropUnanswered(s)
  }

  lemma {:induction false} DropIsStaying(h: seq<Message>, i: nat)
    requires i <= |h|
    ensures Staying(h, i) == Passed(h, i)
    decreases |h| - i
  {
    hide Admitted, Passed, Stays;
    if i == |h| {
      PassedAtEnd(h);
    } else {
      DropIsStaying(h, i + 1);
      if !Admitted(h, i) {
        PassedOut(h, i);
      } else if IsTool(h[i]) {
        PassedTool(h, i);
      } else {
        PassedOther(h, i);
      }
    }
  }

  lemma PassedAtEnd(h: seq<Message>)
    ensures Passed(h, |h|) == []
  {
    hide InDropped, ToolRun, DropUnanswered;
    EmptyStays();
    var s := AdmittedFrom(h, |h|);
    assert s[ToolRun(s)..] == [];
  }

  lemma PassedOut(h: seq<Message>, i: nat)
    requires i < |h| && !Admitted(h, i)
    ensures Passed(h, i) == Passed(h, i + 1) && !Stays(h, i)
  {
    hide Admitted, ToolRun, AllReplied, DropUnanswered;
    assert AdmittedFrom(h, i) == AdmittedFrom(h, i + 1);
  }

  lemma AdmittedNext(h: seq<Message>, i: nat)
    requires i < |h| && Admitted(h, i)
    ensures var s, rest := AdmittedFrom(h, i), AdmittedFrom(h, i + 1);
            s != [] && s[0] == h[i] && s[1..] == rest && ToolRun(s) == if IsTool(h[i]) then 1 + ToolRun(rest) else 0
  {
    hide Admitted, ToolRun;
    var s, rest := AdmittedFrom(h, i), AdmittedFrom(h, i + 1);
    assert s == [h[i]] + rest;
    RunOfCons(h[i], rest);
  }

  lemma PassedTool(h: seq<Message>, i: nat)
    requires i < |h| && Admitted(h, i) && IsTool(h[i])
    ensures Passed(h, i) == (if Stays(h, i) then [h[i]] else []) + Passed(h, i + 1)
  {
    hide Admitted, ToolRun, DropUnanswered, InDropped, Stays, AdmittedFrom, Stands;
    var s, rest := AdmittedFrom(h, i), AdmittedFrom(h, i + 1);
    AdmittedNext(h, i);
    ToolStays(h, i);
    if InDropped(h, i) {
      assert s[ToolRun(s)..] == rest[ToolRun(rest)..];
    } else {
      DropStep(s);
      PlainStands(s);
    }
  }

  lemma PassedOther(h: seq<Message>, i: nat)
    requires i < |h| && Admitted(h, i) && !IsTool(h[i])
    ensures Passed(h, i) == (if Stays(h, i) then [h[i]] else []) + Passed(h, i + 1)
  {
    hide Admitted, ToolRun, DropUnanswered, AdmittedFrom, Stands, AllReplied;
    var s, rest := AdmittedFrom(h, i), AdmittedFrom(h, i + 1);
    AdmittedNext(h, i);
    StandsIffReplied(h, i);
    DropStep(s);
    assert s[ToolRun(s)..] == s;
    assert PastBlock(s) == rest[ToolRun(rest)..];
    OpenerIsHere(h, i);
  }

  lemma OpenerIsHere(h: seq<Message>, i: nat)
    requires i < |h| && Admitted(h, i) && !IsTool(h[i])
    ensures Opener(h, i + 1) == i
  {
  }

  lemma ToolStays(h: seq<Message>, i: nat)
    requires i < |h| && Admitted(h, i) && IsTool(h[i])
    ensures Stays(h, i) <==> !InDropped(h, i)
    ensures InDropped(h, i + 1) == InDropped(h, i) && !IsCall(h[i])
  {
    OpenerIsCall(h, i);
  }

  // ---------------------------------------------------------------- the promises

  /** The filter keeps exactly the messages that stay, in order. */
  lemma SanitizedIsExactly(h: seq<Message>)
    ensures Sanitized(h) == Staying(h, 0)
  {
    hide Sanitized, Kept, DropUnanswered, Admitted;
    SanitizedIsKept(h);
    KeptIsAdmitted(h, 0);
    assert h[0..] == h;
    DropIsStaying(h, 0);
  }

  /** What comes later does not change what the first pass lets in. */
  lemma {:induction false} AdmittedInPrefix(h: seq<Message>, t: seq<Message>, i: nat)
    requires i <= |h|
    ensures LastAdmitted(h + t, i) == LastAdmitted(h, i)
    ensures i < |h| ==> (Admitted(h + t, i) <==> Admitted(h, i))
  {
    if i > 0 {
      AdmittedInPrefix(h, t, i - 1);
    }
  }

  /** A complete round stays whole wherever the first pass lets its call in: after a history whose last
      admitted message is a user message or a tool result, and whatever comes after. */
  lemma {:induction false} RoundStays(h: seq<Message>, r: seq<Message>, t: seq<Message>)
    requires IsRound(r) && LastAdmitted(h, |h|) >= 0 && OpensTurn(h[LastAdmitted(h, |h|)])
    ensures forall i :: |h| <= i < |h| + |r| ==> Stays(h + r + t, i)
    ensures Staying(h + r + t, |h|) == r + Staying(h + r + t, |h| + |r|)
  {
    hide Staying;
    var s := h + r + t;
    assert s == h + (r + t);
    AdmittedInPrefix(h, r + t, |h|);
    CallIsNotTool(r[0]);
    assert s[|h|] == r[0] && Admitted(s, |h|);
    forall i | |h| <= i < |h| + |r| ensures Admitted(s, i) && (i > |h| ==> IsTool(s[i])) && Opener(s, i + 1) == |h| {
      RoundAdmitted(s, |h|, r, i);
    }
    forall c | c in r[0].toolCalls ensures Replied(s, |h|, c) {
      var j :| 0 < j < |r| && r[j].toolCallID == c.id;
      assert s[|h| + j] == r[j];
      assert ReplyAt(s, |h|, c, |h| + j);
    }
    assert forall i :: 0 <= i < |r| ==> s[|h| + i] == r[i];
    StayingOfRun(s, |h|, r, 0);
    assert r[0..] == r;
  }

  lemma {:induction false} RoundAdmitted(s: seq<Message>, at: nat, r: seq<Message>, i: nat)
    requires IsRound(r) && at + |r| <= |s| && s[at..at + |r|] == r && at <= i < at + |r|
    requires Admitted(s, at) && !IsTool(s[at])
    ensures Admitted(s, i) && (i > at ==> IsTool(s[i])) && Opener(s, i + 1) == at
  {
    assert s[i] == s[at..at + |r|][i - at];
    if i > at {
      RoundAdmitted(s, at, r, i - 1);
      assert s[i - 1] == s[at..at + |r|][i - 1 - at];
    }
  }

  lemma {:induction false} StayingOfRun(s: seq<Message>, at: nat, r: seq<Message>, k: nat)
    requires k <= |r| && at + |r| <= |s| && (forall i :: 0 <= i < |r| ==> s[at + i] == r[i])
    requires forall i :: at <= i < at + |r| ==> Stays(s, i)
    ensures Staying(s, at + k) == r[k..] + Staying(s, at + |r|)
    decreases |r| - k
  {
    hide Stays, Staying;
    var rest := Staying(s, at + |r|);
    if k < |r| {
      StayingOfRun(s, at, r, k + 1);
      StaysNext(s, at + k);
      assert r[k..] == [r[k]] + r[k + 1..];
      assert [r[k]] + (r[k + 1..] + rest) == [r[k]] + r[k + 1..] + rest;
    } else {
      assert r[k..] == [] && [] + rest == rest;
    }
  }

  lemma StaysNext(s: seq<Message>, i: nat)
    requires i < |s| && Stays(s, i)
    ensures Staying(s, i) == [s[i]] + Staying(s, i + 1)
  {
    hide Stays;
  }

  /** So the filter keeps the round as it is, in its place. */
  lemma RoundSurvives(h: seq<Message>, r: seq<Message>, t: seq<Message>)
    requires IsRound(r) && LastAdmitted(h, |h|) >= 0 && OpensTurn(h[LastAdmitted(h, |h|)])
    ensures exists front, back :: Sanitized(h + r + t) == front + r + back
  {
    hide Sanitized, Staying, Stays, IsRound, LastAdmitted;
    var s := h + r + t;
    SanitizedIsExactly(s);
    RoundStays(h, r, t);
    var front := StayingSplits(s, |h|);
    assert Sanitized(s) == front + r + Staying(s, |h| + |r|);
  }

  lemma {:induction false} StayingSplits(s: seq<Message>, n: nat) returns (front: seq<Message>)
    requires n <= |s|
    ensures Staying(s, 0) == front + Staying(s, n)
  {
    hide Stays;
    if n == 0 {
      front := [];
    } else {
      var before := StayingSplits(s, n - 1);
      front := before + if Stays(s, n - 1) then [s[n - 1]] else [];
    }
  }
}
