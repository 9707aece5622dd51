/** What goes between the agent and a provider in one turn: messages, requests, tool rounds,
    emergency compression, and the shapes that requests keep. */
module Turns {
  import opened Messages
  import opened Sanitizer
  import opened SanitizerLaws

  /** What the provider answers: a response (with or without tool calls) or a classified error. */
  datatype Reply =
    | Response(content: string, reasoning: string, toolCalls: seq<ToolCall>)
    | TimeoutError
    | ContextError
    | OtherError

  datatype ToolResult = ToolResult(forLLM: string, error: string, stopOnError: bool)

  /** The world around a turn. Calls are numbered; `order(n, k)` is the order in which the `k`
      tools of reply `n` happen to finish. */
  datatype World = World(
    llm: (nat, seq<Message>) -> Reply,
    tool: (nat, nat) -> ToolResult,
    order: (nat, nat) -> seq<nat>,
    systemPrompt: (nat, string) -> string,
    resolveMedia: seq<string> -> seq<string>)

  /** A list handed to the provider, with the history stored at that moment. */
  datatype Request = Request(messages: seq<Message>, stored: seq<Message>)

  datatype Outcome = Failed | Done(content: string)

  const STOPPED: string := "Task stopped due to a fatal error. Please check the error message and try again with corrected parameters."

  // ---------------------------------------------------------------- what is promised

  /** One system message, first; then no other; every tool-call message answered at once by a
      tool block; tool messages only in such blocks. */
  ghost predicate Acceptable(ms: seq<Message>) {
    && ms != [] && ms[0].role == System
    && NoSystem(ms[1..]) && ToolsInBlocks(ms[1..]) && CallsAnswered(ms[1..])
  }

  /** Messages without their attachments, which go to the provider but are not stored. */
  function Bare(ms: seq<Message>): seq<Message> {
    seq(|ms|, i requires 0 <= i < |ms| => ms[i].(media := []))
  }

  /** The same messages, with their attachments if `exact`. */
  ghost predicate Alike(a: seq<Message>, b: seq<Message>, exact: bool) {
    if exact then a == b else Bare(a) == Bare(b)
  }

  /** The request is the system message followed by the filtered history. */
  ghost predicate Mirrors(r: Request, exact: bool) {
    r.messages != [] && Alike(r.messages[1..], Sanitized(r.stored), exact)
  }

  ghost predicate NoMedia(ms: seq<Message>) {
    forall m <- ms :: m.media == []
  }

  /** The filter adds no attachments. */
  lemma SanitizedNoMedia(h: seq<Message>)
    requires NoMedia(h)
    ensures NoMedia(Sanitized(h))
  {
    hide Sanitized;
    SanitizedOnlyDropsToolTraffic(h);
    SubsequenceNoMedia(Sanitized(h), h);
  }

  lemma {:induction false} SubsequenceNoMedia(a: seq<Message>, b: seq<Message>)
    requires Subsequence(a, b) && NoMedia(b)
    ensures NoMedia(a)
    decreases |b|
  {
    if a != [] {
      if a[0] == b[0] && Subsequence(a[1..], b[1..]) {
        SubsequenceNoMedia(a[1..], b[1..]);
        assert a == [a[0]] + a[1..];
      } else {
        SubsequenceNoMedia(a, b[1..]);
      }
    }
  }

  lemma BareConcat(a: seq<Message>, b: seq<Message>)
    ensures Bare(a + b) == Bare(a) + Bare(b)
  {
  }

  /** A tool-call message and results that answer it. */
  ghost predicate IsRound(r: seq<Message>) {
    && r != [] && IsCall(r[0])
    && (forall i :: 0 < i < |r| ==> IsTool(r[i]))
    && (forall c <- r[0].toolCalls :: exists i :: 0 < i < |r| && r[i].toolCallID == c.id)
  }

  /** A complete round may follow anything. */
  lemma {:induction false} RoundKeepsShape(ms: seq<Message>, r: seq<Message>)
    requires NoSystem(ms) && ToolsInBlocks(ms) && CallsAnswered(ms) && IsRound(r)
    ensures NoSystem(ms + r) && ToolsInBlocks(ms + r) && CallsAnswered(ms + r)
  {
    hide IsCall;
    var whole := ms + r;
    assert NoSystem(whole) by { CallIsNotTool(r[0]); }
    assert ToolsInBlocks(whole) by { CallIsNotTool(r[0]); }
    forall i: nat, c | i < |whole| && IsCall(whole[i]) && c in whole[i].toolCalls
      ensures HasResult(whole, i, c)
    {
      if i < |ms| {
        assert HasResult(ms, i, c);
        var j :| i < j < |ms| && ms[j].toolCallID == c.id && forall k :: i < k <= j ==> IsTool(ms[k]);
        assert whole[j] == ms[j] && forall k :: i < k <= j ==> whole[k] == ms[k];
      } else {
        assert i == |ms| by {
          assert i > |ms| ==> whole[i] == r[i - |ms|];
          CallIsNotTool(whole[i]);
        }
        var j :| 0 < j < |r| && r[j].toolCallID == c.id;
        assert whole[|ms| + j] == r[j];
        assert forall k :: i < k <= |ms| + j ==> whole[k] == r[k - |ms|];
      }
    }
  }

  lemma CallIsNotTool(m: Message)
    ensures IsCall(m) ==> !IsTool(m) && m.role != System
  {
  }

  /** After a user message or a tool result, a complete round is one the filter keeps. */
  lemma {:induction false} RoundKeepsReady(ms: seq<Message>, r: seq<Message>)
    requires ProviderReady(ms) && IsRound(r) && ms != [] && OpensTurn(ms[|ms| - 1])
    ensures ProviderReady(ms + r) && OpensTurn((ms + r)[|ms + r| - 1])
  {
    RoundKeepsShape(ms, r);
    assert |r| > 1 by { assert r[0].toolCalls[0] in r[0].toolCalls; }
  }

  lemma {:induction false} UserKeepsShape(ms: seq<Message>, u: Message)
    requires NoSystem(ms) && ToolsInBlocks(ms) && CallsAnswered(ms) && IsKept(u)
    ensures NoSystem(ms + [u]) && ToolsInBlocks(ms + [u]) && CallsAnswered(ms + [u])
  {
    var whole := ms + [u];
    forall i: nat, c | i < |whole| && IsCall(whole[i]) && c in whole[i].toolCalls
      ensures HasResult(whole, i, c)
    {
      assert HasResult(ms, i, c);
      var j :| i < j < |ms| && ms[j].toolCallID == c.id && forall k :: i < k <= j ==> IsTool(ms[k]);
      assert whole[j] == ms[j] && forall k :: i < k <= j ==> whole[k] == ms[k];
    }
  }

  /** Attachments are no part of the shape. */
  lemma {:induction false} MediaKeepsShape(ms: seq<Message>, ms': seq<Message>)
    requires Bare(ms) == Bare(ms') && NoSystem(ms) && ToolsInBlocks(ms) && CallsAnswered(ms)
    ensures NoSystem(ms') && ToolsInBlocks(ms') && CallsAnswered(ms')
  {
    assert |Bare(ms)| == |ms| && |Bare(ms')| == |ms'|;
    forall i | 0 <= i < |ms| ensures ms'[i].(media := []) == ms[i].(media := []) {
      assert Bare(ms)[i] == Bare(ms')[i];
    }
    forall i: nat, c | i < |ms'| && IsCall(ms'[i]) && c in ms'[i].toolCalls
      ensures HasResult(ms', i, c)
    {
      assert HasResult(ms, i, c);
    }
  }

  // ---------------------------------------------------------------- emergency compression

  function Digits(n: nat): string {
    (if n < 10 then "" else Digits(n / 10)) + [('0' as int + n % 10) as char]
  }

  function CompressionNote(dropped: nat): string {
    "\n\n[System Note: Emergency compression dropped " + Digits(dropped) + " oldest messages due to context limit]"
  }

  /** Drop the older half of everything between the first and the last message. */
  function Compressed(h: seq<Message>): seq<Message> {
    if |h| <= 4 then h
    else
      var conversation := h[1..|h| - 1];
      var mid := |conversation| / 2;
      [h[0].(content := h[0].content + CompressionNote(mid))] + conversation[mid..] + [h[|h| - 1]]
  }

  /** Compression shortens any history it touches, and what follows the first message is the
      end of what followed it before. */
  lemma {:induction false} CompressionKeepsTheEnd(h: seq<Message>)
    requires |h| > 4
    ensures var c := Compressed(h); |c| < |h| && |c| == |h| - (|h| - 2) / 2 && c[1..] == h[|h| - |c| + 1..]
    ensures var c := Compressed(h); h[0].content <= c[0].content && c[0] == h[0].(content := c[0].content)
  {
    hide CompressionNote;
    var mid, c := (|h| - 2) / 2, Compressed(h);
    var tail := h[1 + mid..];
    assert h[1..|h| - 1][mid..] + [h[|h| - 1]] == tail;
    assert c == [h[0].(content := h[0].content + CompressionNote(mid))] + tail;
    assert |c| == 1 + |tail| && c[1..] == tail;
  }

  /** Compression keeps the message that triggered it, and a user message there stays in the
      filtered request. */
  lemma CompressionKeepsTrigger(h: seq<Message>, u: Message)
    requires u.role == User
    ensures var c := Compressed(h + [u]); c[|c| - 1] == u && Sanitized(c) == Sanitized(c[..|c| - 1]) + [u]
  {
    hide Sanitized, CompressionNote;
    var c := Compressed(h + [u]);
    var front := c[..|c| - 1];
    assert c[|c| - 1] == u by {
      if |h + [u]| > 4 {
        CompressionKeepsTheEnd(h + [u]);
        assert c[1..][|c| - 2] == u;
      }
    }
    assert c == front + [u] + [];
    UserIsACutPoint(front, u, []);
    assert ProviderReady([u]);
    FixedPointIffReady([u]);
    assert [u] + [] == [u];
  }
  // ---------------------------------------------------------------- tool rounds

  /** The indices `0..n` in some order. */
  predicate Complete(order: seq<nat>, n: nat) {
    (forall k :: 0 <= k < |order| ==> order[k] < n) && forall i: nat :: i < n ==> i in order
  }

  function CallMessage(reply: Reply): Message
    requires reply.Response?
  {
    Message(Assistant, reply.content, [], reply.reasoning, reply.toolCalls, "")
  }

  /** The results of the first `k` calls of reply `n`, in call order. */
  function Results(w: World, n: nat, calls: seq<ToolCall>, k: nat): seq<Message>
    requires k <= |calls|
  {
    seq(k, i requires 0 <= i < k => Message(Tool, ForLLM(w.tool(n, i)), [], "", [], calls[i].id))
  }

  /** What one tool-calling reply adds to the conversation. */
  function RoundOf(w: World, n: nat, reply: Reply): seq<Message>
    requires reply.Response?
  {
    [CallMessage(reply)] + Results(w, n, reply.toolCalls, |reply.toolCalls|)
  }

  /** Whatever the tools return, and in whatever order, the reply is answered in full. */
  lemma {:induction false} RoundIsRound(w: World, n: nat, reply: Reply)
    requires reply.Response? && reply.toolCalls != []
    ensures IsRound(RoundOf(w, n, reply))
  {
    var r := RoundOf(w, n, reply);
    forall c | c in reply.toolCalls ensures exists i :: 0 < i < |r| && r[i].toolCallID == c.id {
      var k :| 0 <= k < |reply.toolCalls| && reply.toolCalls[k] == c;
      assert r[k + 1].toolCallID == c.id;
    }
  }

  /** The round, message by message: the reply as it came, then the results in call order, each with
      what its own tool returned, or its error when that is empty. */
  lemma RoundInOrder(w: World, n: nat, reply: Reply)
    requires reply.Response?
    ensures var r, calls := RoundOf(w, n, reply), reply.toolCalls;
            && |r| == 1 + |calls| && r[0] == Message(Assistant, reply.content, [], reply.reasoning, calls, "")
            && forall i :: 0 <= i < |calls| ==>
                             r[1..][i] == Message(Tool, if w.tool(n, i).forLLM == "" then w.tool(n, i).error else w.tool(n, i).forLLM,
                                                  [], "", [], calls[i].id)
  {
    hide Results, ForLLM;
    var r, calls := RoundOf(w, n, reply), reply.toolCalls;
    ResultsSize(w, n, calls);
    assert r[1..] == Results(w, n, calls, |calls|);
    forall i | 0 <= i < |calls|
      ensures r[1..][i] == Message(Tool, if w.tool(n, i).forLLM == "" then w.tool(n, i).error else w.tool(n, i).forLLM, [], "", [], calls[i].id)
    {
      ResultAt(w, n, calls, i);
    }
  }

  lemma ResultAt(w: World, n: nat, calls: seq<ToolCall>, i: nat)
    requires i < |calls|
    ensures var rs := Results(w, n, calls, |calls|);
            |rs| == |calls| &&
            rs[i] == Message(Tool, if w.tool(n, i).forLLM == "" then w.tool(n, i).error else w.tool(n, i).forLLM, [], "", [], calls[i].id)
  {
  }

  lemma ResultsSize(w: World, n: nat, calls: seq<ToolCall>)
    ensures |Results(w, n, calls, |calls|)| == |calls|
  {
  }

  function ForLLM(r: ToolResult): string {
    if r.forLLM == "" && r.error != "" then r.error else r.forLLM
  }
  // ---------------------------------------------------------------- request and history in step

  ghost predicate InStep(msgs: seq<Message>, stored: seq<Message>, base: seq<Message>, u: Message,
                         rounds: seq<Message>, exact: bool) {
    && u.role == User
    && stored == base + [u] + rounds
    && msgs != [] && Alike(msgs[1..], Sanitized(base) + [u] + rounds, exact)
    && ProviderReady([u] + rounds) && OpensTurn(([u] + rounds)[|rounds|])
  }

  /** The stored history grew by the user message and complete rounds only. */
  ghost predicate Extends(stored: seq<Message>, base: seq<Message>, u: Message) {
    exists rounds :: stored == base + [u] + rounds && ProviderReady([u] + rounds)
  }

  /** What a turn leaves in the session: user message, complete rounds, and the answer if there is one. */
  ghost predicate TurnStored(before: seq<Message>, userMessage: string, outcome: Outcome, after: seq<Message>) {
    match outcome
    case Failed => Extends(after, before, Plain(User, userMessage))
    case Done(content) =>
      && after != [] && after[|after| - 1] == Plain(Assistant, content)
      && Extends(after[..|after| - 1], before, Plain(User, userMessage))
  }

  lemma {:induction false} StartsInStep(msgs: seq<Message>, tail: seq<Message>, base: seq<Message>, u: Message,
                                        media: seq<string>, exact: bool)
    requires u.role == User && u.media == [] && msgs != [] && Bare(msgs[1..]) == Bare(tail)
    requires tail == Sanitized(base) + [u.(media := media)] && (exact ==> media == [] && msgs[1..] == tail)
    ensures InStep(msgs, base + [u], base, u, [], exact)
  {
    hide Sanitized;
    BareConcat(Sanitized(base), [u.(media := media)]);
    BareConcat(Sanitized(base), [u]);
    assert Bare([u.(media := media)]) == Bare([u]);
    assert Sanitized(base) + [u] + [] == Sanitized(base) + [u];
    assert base + [u] + [] == base + [u];
    assert [u] + [] == [u] && ProviderReady([u]);
  }

  lemma {:induction false} InStepExtends(msgs: seq<Message>, stored: seq<Message>, base: seq<Message>, u: Message,
                                         rounds: seq<Message>, exact: bool)
    requires InStep(msgs, stored, base, u, rounds, exact)
    ensures Extends(stored, base, u)
  {
  }

  lemma {:induction false} RoundKeepsAcceptable(msgs: seq<Message>, round: seq<Message>)
    requires Acceptable(msgs) && IsRound(round)
    ensures Acceptable(msgs + round)
  {
    hide IsRound;
    RoundKeepsShape(msgs[1..], round);
    assert (msgs + round)[1..] == msgs[1..] + round;
  }

  lemma PlainTurnNoMedia(messages: seq<Message>, clean: seq<Message>, u: Message)
    requires messages != [] && messages[1..] == clean + [u] && NoMedia(clean) && u.media == []
    ensures NoMedia(messages[1..])
  {
    assert forall m :: m in clean + [u] ==> m in clean || m == u;
  }

  lemma InStepMirrors(msgs: seq<Message>, stored: seq<Message>, base: seq<Message>, u: Message, rounds: seq<Message>,
                      exact: bool)
    requires InStep(msgs, stored, base, u, rounds, exact)
    ensures Mirrors(Request(msgs, stored), exact)
  {
    hide Sanitized, ProviderReady;
    UserIsACutPoint(base, u, rounds);
    FixedPointIffReady([u] + rounds);
    assert Sanitized(base) + [u] + rounds == Sanitized(base) + ([u] + rounds);
    assert base + [u] + rounds == stored;
  }

  lemma InStepRound(msgs: seq<Message>, stored: seq<Message>, base: seq<Message>, u: Message, rounds: seq<Message>,
                    round: seq<Message>, exact: bool)
    requires InStep(msgs, stored, base, u, rounds, exact) && IsRound(round)
    ensures InStep(msgs + round, stored + round, base, u, rounds + round, exact)
  {
    hide Sanitized, ProviderReady, IsRound;
    RoundKeepsReady([u] + rounds, round);
    assert [u] + rounds + round == [u] + (rounds + round);
    assert (msgs + round)[1..] == msgs[1..] + round;
    BareConcat(msgs[1..], round);
    BareConcat(Sanitized(base) + [u] + rounds, round);
    assert Sanitized(base) + [u] + rounds + round == Sanitized(base) + [u] + (rounds + round);
    assert base + [u] + rounds + round == base + [u] + (rounds + round);
  }
}
