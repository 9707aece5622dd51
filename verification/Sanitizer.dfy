/** The filter between stored history and a provider request, as two folds over the history. */
module Sanitizer {
  import opened Messages

  // ---------------------------------------------------------------- first pass

  /** Is the end of `acc` a tool-call message, possibly followed by tool results? */
  predicate InToolBlock(acc: seq<Message>) {
    if acc == [] then false
    else if IsTool(acc[|acc| - 1]) then InToolBlock(acc[..|acc| - 1])
    else IsCall(acc[|acc| - 1])
  }

  /** Does a tool-call message fit after `acc`? */
  predicate CallMayFollow(acc: seq<Message>) {
    acc != [] && (acc[|acc| - 1].role == User || acc[|acc| - 1].role == Tool)
  }

  predicate Admits(acc: seq<Message>, m: Message) {
    match m.role
    case System => false
    case Tool => InToolBlock(acc)
    case _ => IsCall(m) ==> CallMayFollow(acc)
  }

  function Admit(acc: seq<Message>, m: Message): seq<Message> {
    if Admits(acc, m) then acc + [m] else acc
  }

  /** What the first pass makes of `h` when it has already produced `acc`. */
  function AdmitAll(acc: seq<Message>, h: seq<Message>): seq<Message>
    decreases |h|
  {
    if h == [] then acc else AdmitAll(Admit(acc, h[0]), h[1..])
  }

  // ---------------------------------------------------------------- second pass

  /** The number of tool messages `s` starts with. */
  function ToolRun(s: seq<Message>): (n: nat)
    ensures n <= |s| && (forall i :: 0 <= i < n ==> IsTool(s[i])) && (n < |s| ==> !IsTool(s[n]))
  {
    if s != [] && IsTool(s[0]) then 1 + ToolRun(s[1..]) else 0
  }

  /** Every call of `m` has a result among the tool messages `block`. */
  predicate AnsweredBy(m: Message, block: seq<Message>) {
    forall c <- m.toolCalls :: exists t <- block :: t.toolCallID == c.id
  }

  /** The run of tool messages right after the first message, and what follows that run. */
  function BlockAfter(s: seq<Message>): seq<Message>
    requires s != []
  {
    s[1..][..ToolRun(s[1..])]
  }

  function PastBlock(s: seq<Message>): (r: seq<Message>)
    requires s != []
    ensures |r| < |s|
  {
    s[1..][ToolRun(s[1..])..]
  }

  /** May the first message stay? */
  predicate Stands(s: seq<Message>)
    requires s != []
  {
    IsCall(s[0]) ==> AnsweredBy(s[0], BlockAfter(s))
  }

  /** Drop each tool-call message that is not fully answered by the block after it, with that block. */
  function DropUnanswered(s: seq<Message>): seq<Message>
    decreases |s|
  {
    if s == [] then []
    else if !Stands(s) then DropUnanswered(PastBlock(s))
    else [s[0]] + DropUnanswered(s[1..])
  }

  function Sanitized(h: seq<Message>): seq<Message> {
    DropUnanswered(AdmitAll([], h))
  }

  // ---------------------------------------------------------------- the loops

  method FirstPass(history: seq<Message>) returns (sanitized: seq<Message>)
    ensures sanitized == AdmitAll([], history)
  {
    sanitized := [];
    for n := 0 to |history|
      invariant AdmitAll(sanitized, history[n..]) == AdmitAll([], history)
    {
      var msg := history[n];
      assert history[n..][0] == msg && history[n..][1..] == history[n + 1..];
      match msg.role {
        case System =>
        case Tool =>
          // Walk back over tool messages to the nearest other message.
          var foundAssistant := false;
          var i := |sanitized| - 1;
          assert sanitized[..|sanitized|] == sanitized;
          while i >= 0
            invariant -1 <= i < |sanitized| && !foundAssistant
            invariant InToolBlock(sanitized) == InToolBlock(sanitized[..i + 1])
          {
            ghost var front := sanitized[..i + 1];
            assert front[..|front| - 1] == sanitized[..i];
            if sanitized[i].role == Tool {
              i := i - 1;
              continue;
            }
            if sanitized[i].role == Assistant && |sanitized[i].toolCalls| > 0 {
              foundAssistant := true;
            }
            break;
          }
          assert foundAssistant == InToolBlock(sanitized);
          if foundAssistant {
            sanitized := sanitized + [msg];
          }
        case Assistant =>
          if |msg.toolCalls| > 0 {
            if |sanitized| == 0 {
              continue;
            }
            var prev := sanitized[|sanitized| - 1];
            if prev.role != User && prev.role != Tool {
              continue;
            }
          }
          sanitized := sanitized + [msg];
        case _ =>
          sanitized := sanitized + [msg];
      }
    }
  }

  method ExpectedIDs(calls: seq<ToolCall>) returns (expected: map<string, bool>)
    ensures expected.Keys == (set c | c in calls :: c.id) && forall id <- expected :: !expected[id]
  {
    expected := map[];
    for k := 0 to |calls|
      invariant expected.Keys == set c | c in calls[..k] :: c.id
      invariant forall id <- expected :: !expected[id]
    {
      assert calls[..k + 1] == calls[..k] + [calls[k]];
      expected := expected[calls[k].id := false];
    }
    assert calls[..|calls|] == calls;
  }

  method AllTrue(expected: map<string, bool>) returns (allFound: bool)
    ensures allFound <==> forall id <- expected :: expected[id]
  {
    var ids := expected.Keys;
    while ids != {}
      invariant ids <= expected.Keys && forall id <- expected.Keys - ids :: expected[id]
      decreases ids
    {
      var toolCallID :| toolCallID in ids;
      if !expected[toolCallID] {
        return false;
      }
      ids := ids - {toolCallID};
    }
    return true;
  }

  /** The ids a tool-call message waits for are all found in the run of tool messages after it. */
  method CheckAnswers(sanitized: seq<Message>, i: nat) returns (allFound: bool, toolMsgCount: nat)
    requires i < |sanitized| && IsCall(sanitized[i])
    ensures toolMsgCount == ToolRun(sanitized[i + 1..])
    ensures allFound == AnsweredBy(sanitized[i], sanitized[i + 1..][..toolMsgCount])
  {
    hide ToolRun;
    var msg := sanitized[i];
    var expected := ExpectedIDs(msg.toolCalls);
    ghost var tail := sanitized[i + 1..];
    toolMsgCount := 0;
    var j := i + 1;
    while j < |sanitized|
      invariant i + 1 <= j <= |sanitized| && toolMsgCount == j - (i + 1)
      invariant forall k :: 0 <= k < toolMsgCount ==> IsTool(tail[k])
      invariant expected.Keys == set c | c in msg.toolCalls :: c.id
      invariant forall id <- expected :: expected[id] <==> exists t <- tail[..toolMsgCount] :: t.toolCallID == id
    {
      if sanitized[j].role != Tool {
        break;
      }
      assert tail[..toolMsgCount + 1] == tail[..toolMsgCount] + [sanitized[j]];
      toolMsgCount := toolMsgCount + 1;
      if sanitized[j].toolCallID in expected {
        expected := expected[sanitized[j].toolCallID := true];
      }
      j := j + 1;
    }
    RunIs(tail, toolMsgCount);
    allFound := AllTrue(expected);
    if allFound {
      forall c | c in msg.toolCalls ensures exists t <- tail[..toolMsgCount] :: t.toolCallID == c.id {
        assert c.id in expected;
      }
    }
  }

  lemma {:induction false} RunIs(s: seq<Message>, n: nat)
    requires n <= |s| && (forall i :: 0 <= i < n ==> IsTool(s[i])) && (n < |s| ==> !IsTool(s[n]))
    ensures ToolRun(s) == n
  {
    var r := ToolRun(s);
    assert r >= n;
    assert r <= n;
  }

  method SanitizeHistoryForProvider(history: seq<Message>) returns (final: seq<Message>)
    ensures final == Sanitized(history)
  {
    NothingToDrop();
    hide AnsweredBy, ToolRun, DropUnanswered, AdmitAll;
    if |history| == 0 {
      return history;
    }
    var sanitized := FirstPass(history);
    final := [];
    var i := 0;
    assert sanitized[0..] == sanitized;
    while i < |sanitized|
      invariant 0 <= i <= |sanitized|
      invariant final + DropUnanswered(sanitized[i..]) == DropUnanswered(sanitized)
    {
      var msg := sanitized[i];
      ghost var rest := sanitized[i..];
      DropStep(rest);
      assert rest[1..] == sanitized[i + 1..];
      if msg.role == Assistant && |msg.toolCalls| > 0 {
        var allFound, toolMsgCount := CheckAnswers(sanitized, i);
        if !allFound {
          assert PastBlock(rest) == sanitized[i + 1 + toolMsgCount..];
          i := i + toolMsgCount + 1;
          continue;
        }
      }
      assert final + ([msg] + DropUnanswered(rest[1..])) == final + [msg] + DropUnanswered(rest[1..]);
      final := final + [msg];
      i := i + 1;
    }
    assert sanitized[i..] == [] && final + [] == final;
  }

  lemma NothingToDrop()
    ensures AdmitAll([], []) == [] && DropUnanswered([]) == []
  {
  }

  lemma {:induction false} DropStep(s: seq<Message>)
    requires s != []
    ensures DropUnanswered(s) == if Stands(s) then [s[0]] + DropUnanswered(s[1..]) else DropUnanswered(PastBlock(s))
  {
  }
}
