/** One agent turn: the message list handed to the provider and the history kept in the
    session, through provider replies, parallel tool calls, retries and emergency compression. */
module AgentLoop {
  import opened Messages
  import opened Sanitizer
  import opened SanitizerLaws
  import opened TurnLog
  import opened Turns
  import Text

  class AgentSession {
    var stored: seq<Message>
    var summary: string
    /** Every list given to the provider so far. */
    var sent: seq<Request>

    constructor (stored: seq<Message>, summary: string)
      ensures this.stored == stored && this.summary == summary && sent == []
    {
      this.stored, this.summary, sent := stored, summary, [];
    }

    /** `BuildMessages`: one system message, the filtered history, the current user message. */
    method BuildMessages(w: World, history: seq<Message>, summary: string, currentMessage: string, media: seq<string>)
      returns (messages: seq<Message>)
      ensures messages != [] && messages[0] == Plain(System, w.systemPrompt(|sent|, summary))
      ensures messages[1..] == Sanitized(history)
                               + (if Text.TrimSpace(currentMessage) == "" then [] else [Plain(User, currentMessage).(media := media)])
      ensures Acceptable(messages)
    {
      hide Sanitized, NoSystem, ToolsInBlocks, CallsAnswered, CallsFollow, Text.TrimSpace;
      SanitizedIsReady(history);
      var clean := SanitizeHistoryForProvider(history);
      messages := [Plain(System, w.systemPrompt(|sent|, summary))];
      messages := messages + clean;
      assert messages[1..] == clean;
      if Text.TrimSpace(currentMessage) != "" {
        var msg := Plain(User, currentMessage);
        if |media| > 0 {
          msg := msg.(media := media);
        }
        UserKeepsShape(clean, msg);
        messages := messages + [msg];
        assert messages[1..] == clean + [msg];
      }
    }

    /** `forceCompression` on the stored history. */
    method ForceCompression()
      modifies this`stored
      ensures stored == Compressed(old(stored))
    {
      hide CompressionNote;
      var history := stored;
      if |history| <= 4 {
        return;
      }
      var conversation := history[1..|history| - 1];
      var mid := |conversation| / 2;
      var keptConversation := conversation[mid..];
      var enhanced := history[0].(content := history[0].content + CompressionNote(mid));
      var newHistory := [enhanced];
      newHistory := newHistory + keptConversation;
      newHistory := newHistory + [history[|history| - 1]];
      stored := newHistory;
    }

    /** Run the tools of reply `n`; they finish in any order but fill their own slots. */
    method RunTools(w: World, n: nat, calls: seq<ToolCall>) returns (results: seq<ToolResult>)
      requires Complete(w.order(n, |calls|), |calls|)
      ensures |results| == |calls| && forall i :: 0 <= i < |calls| ==> results[i] == w.tool(n, i)
    {
      var agentResults := new ToolResult[|calls|](_ => ToolResult("", "", false));
      var order := w.order(n, |calls|);
      for k := 0 to |order|
        invariant forall q :: 0 <= q < k ==> agentResults[order[q]] == w.tool(n, order[q])
      {
        agentResults[order[k]] := w.tool(n, order[k]);
      }
      forall i | 0 <= i < |calls| ensures agentResults[i] == w.tool(n, i) {
        assert i in order;
      }
      results := agentResults[..];
    }

    /** The requests sent since there were `n` of them are all acceptable. */
    ghost predicate SentWell(n: nat)
      reads this`sent
    {
      n <= |sent| && forall i :: n <= i < |sent| ==> Acceptable(sent[i].messages)
    }

    /** Every request since then mirrored the history stored at its time. */
    ghost predicate SentMirrors(n: nat, exact: bool)
      reads this`sent
    {
      forall i :: n <= i < |sent| ==> Mirrors(sent[i], exact)
    }

    /** The retry loop around one provider call, in a turn that began with request `n`. */
    method CallWithRetries(w: World, messages: seq<Message>, ghost n: nat)
      returns (reply: Reply, messages': seq<Message>)
      requires n <= |sent| && Ready(w, sent, n, summary, Request(messages, stored)) && Errors(w, sent, n) == 0
      modifies this`sent, this`stored
      ensures old(sent) < sent && Log(w, sent, n, summary) && reply == w.llm(|sent| - 1, sent[|sent| - 1].messages)
      ensures sent[|old(sent)|] == Request(messages, old(stored)) && sent[|sent| - 1] == Request(messages', stored)
      ensures !reply.Response? ==> reply.OtherError? || Errors(w, sent, n) == 3
      ensures Responses(w, sent, n) == Responses(w, old(sent), n) + if reply.Response? then 1 else 0
    {
      hide Compressed, Sanitized, Text.TrimSpace, Log, MayFollow, Ready, Errors, Responses;
      var maxRetries := 2;
      messages' := messages;
      reply := OtherError;
      var retry := 0;
      while retry <= maxRetries
        invariant 0 <= retry <= maxRetries
        invariant if retry == 0 then sent == old(sent) && messages' == messages && stored == old(stored)
                  else old(sent) < sent && sent[|old(sent)|] == Request(messages, old(stored))
        invariant Ready(w, sent, n, summary, Request(messages', stored)) && Errors(w, sent, n) == retry
        invariant Responses(w, sent, n) == Responses(w, old(sent), n)
      {
        LogGrows(w, sent, n, summary, Request(messages', stored));
        reply := CallLLM(w, messages');
        if reply.Response? {
          break;
        }
        if reply.TimeoutError? && retry < maxRetries {
          TriesAgain(w, sent, n, summary);
          retry := retry + 1;
          continue;
        }
        if reply.ContextError? && retry < maxRetries {
          ForceCompression();
          messages' := BuildMessages(w, stored, summary, "", []);
          BlankIsBlank();
          assert messages' == [messages'[0]] + messages'[1..] && Sanitized(stored) + [] == Sanitized(stored);
          TriesCompressed(w, sent, n, summary, Request(messages', stored));
          retry := retry + 1;
          continue;
        }
        break;
      }
    }

    /** One call: the list goes to the provider as it is. */
    method CallLLM(w: World, messages: seq<Message>) returns (reply: Reply)
      modifies this`sent
      ensures sent == old(sent) + [Request(messages, stored)]
      ensures reply == w.llm(|old(sent)|, messages)
    {
      reply := w.llm(|sent|, messages);
      sent := sent + [Request(messages, stored)];
    }

    /** Append an assistant tool-call message and its results, in call order, to the request
        list and to the stored history alike. */
    method RunRound(w: World, reply: Reply, messages: seq<Message>) returns (messages': seq<Message>, shouldStop: bool)
      requires reply.Response? && reply.toolCalls != []
      requires Complete(w.order(|sent|, |reply.toolCalls|), |reply.toolCalls|)
      modifies this`stored
      ensures messages' == messages + RoundOf(w, |sent|, reply)
      ensures stored == old(stored) + RoundOf(w, |sent|, reply)
      ensures shouldStop <==> StopAsked(w, |sent|, reply.toolCalls)
    {
      hide Complete;
      var assistantMsg := CallMessage(reply);
      messages' := messages + [assistantMsg];
      stored := stored + [assistantMsg];
      var agentResults := RunTools(w, |sent|, reply.toolCalls);
      shouldStop := false;
      for i := 0 to |agentResults|
        invariant messages' == messages + ([assistantMsg] + Results(w, |sent|, reply.toolCalls, i))
        invariant stored == old(stored) + ([assistantMsg] + Results(w, |sent|, reply.toolCalls, i))
        invariant shouldStop <==> exists k: nat :: k < i && w.tool(|sent|, k).stopOnError
      {
        if agentResults[i].stopOnError {
          shouldStop := true;
        }
        var contentForLLM := agentResults[i].forLLM;
        if contentForLLM == "" && agentResults[i].error != "" {
          contentForLLM := agentResults[i].error;
        }
        var toolResultMsg := Message(Tool, contentForLLM, [], "", [], reply.toolCalls[i].id);
        assert Results(w, |sent|, reply.toolCalls, i + 1) == Results(w, |sent|, reply.toolCalls, i) + [toolResultMsg];
        messages' := messages' + [toolResultMsg];
        stored := stored + [toolResultMsg];
      }
    }

    /** `runLLMIteration`. */
    method RunLLMIteration(w: World, maxIterations: nat, messages: seq<Message>) returns (outcome: Outcome)
      requires forall n, k :: Complete(w.order(n, k), k)
      modifies this`sent, this`stored
      ensures old(sent) <= sent && Log(w, sent, |old(sent)|, summary)
      ensures |sent| > |old(sent)| <==> maxIterations > 0
      ensures maxIterations > 0 ==> sent[|old(sent)|] == Request(messages, old(stored))
      ensures maxIterations > 0 ==> Concludes(w, sent, |old(sent)|, maxIterations, stored, outcome)
      ensures maxIterations == 0 ==> outcome == Done("") && stored == old(stored)
    {
      hide Complete, RoundOf, Log, MayFollow, Ready, Errors, Responses, StopAsked, Concludes;
      var iteration := 0;
      var finalContent := "";
      var msgs := messages;
      ghost var n := |sent|;
      LogStarts(w, sent, summary, Request(messages, stored));
      while iteration < maxIterations
        invariant iteration <= maxIterations && finalContent == "" && old(sent) <= sent
        invariant Log(w, sent, n, summary) && Ready(w, sent, n, summary, Request(msgs, stored))
        invariant Errors(w, sent, n) == 0 && Responses(w, sent, n) == iteration
        invariant if iteration == 0 then sent == old(sent) && msgs == messages && stored == old(stored)
                  else |sent| > n && sent[n] == Request(messages, old(stored)) && Concludes(w, sent, n, iteration, stored, Done(""))
      {
        iteration := iteration + 1;
        var reply;
        reply, msgs := CallWithRetries(w, msgs, n);
        if !reply.Response? {
          EndsInError(w, sent, n, maxIterations);
          return Failed;
        }
        if |reply.toolCalls| == 0 {
          finalContent := reply.content;
          if finalContent == "" && reply.reasoning != "" {
            finalContent := reply.reasoning;
          }
          EndsInAnswer(w, sent, n, maxIterations);
          break;
        }
        var shouldStop;
        msgs, shouldStop := RunRound(w, reply, msgs);
        EndsInRound(w, sent, n, iteration, maxIterations, stored);
        if shouldStop {
          finalContent := STOPPED;
          break;
        }
        GoesOn(w, sent, n, summary, msgs, stored);
        ErrorsReset(w, sent, n);
      }
      outcome := Done(finalContent);
    }

    /** `runAgentLoop`: build the request, save the user message, iterate, save the answer. */
    method RunAgentLoop(w: World, maxIterations: nat, userMessage: string, media: seq<string>, noHistory: bool,
                        defaultResponse: string)
      returns (outcome: Outcome)
      requires forall n, k :: Complete(w.order(n, k), k)
      modifies this`sent, this`stored
      ensures old(sent) <= sent && Log(w, sent, |old(sent)|, summary)
      ensures |sent| > |old(sent)| <==> maxIterations > 0
      ensures maxIterations > 0 ==>
                sent[|old(sent)|] == Request(
                  FirstMessages(w, |old(sent)|, if noHistory then "" else summary, if noHistory then [] else old(stored), userMessage, media),
                  old(stored) + [Plain(User, userMessage)])
      ensures maxIterations > 0 ==> Concluded(w, sent, |old(sent)|, maxIterations, defaultResponse, stored, outcome)
      ensures maxIterations == 0 ==>
                outcome == Done(defaultResponse)
                && stored == old(stored) + [Plain(User, userMessage)] + [Plain(Assistant, defaultResponse)]
      ensures SentWell(|old(sent)|)
      ensures !Squeezed(w, sent, |old(sent)|) && !noHistory && Text.TrimSpace(userMessage) != "" ==>
                && SentMirrors(|old(sent)|, media == [] && NoMedia(old(stored)))
                && TurnStored(old(stored), userMessage, outcome, stored)
    {
      hide Acceptable, Mirrors, Complete, Sanitized, Text.TrimSpace, Extends, NoMedia, Log, Concludes, FirstMessages, Squeezed;
      var history: seq<Message>, summ := [], "";
      if !noHistory {
        history, summ := stored, summary;
      }
      var messages := BuildMessages(w, history, summ, userMessage, media);
      var resolved := ResolveMedia(w, messages);
      assert messages == [messages[0]] + messages[1..];
      FirstBuilt(w, |sent|, summ, history, userMessage, media, messages);
      stored := stored + [Plain(User, userMessage)];
      outcome := RunLLMIteration(w, maxIterations, resolved);
      ghost var left, kept := stored, outcome;
      if outcome.Done? {
        var finalContent := outcome.content;
        if finalContent == "" {
          finalContent := defaultResponse;
        }
        outcome := Done(finalContent);
        stored := stored + [Plain(Assistant, finalContent)];
        assert stored[..|stored| - 1] == left;
      }
      if maxIterations > 0 {
        FirstAcceptable(w, |old(sent)|, summ, history, userMessage, media);
        AllAcceptable(w, sent, |old(sent)|, summary);
      }
      if !Squeezed(w, sent, |old(sent)|) && !noHistory && Text.TrimSpace(userMessage) != "" {
        FirstInStep(w, |old(sent)|, summ, history, userMessage, media);
        TurnKeeps(w, sent, |old(sent)|, summary, history, Plain(User, userMessage), media == [] && NoMedia(history),
                  FirstMessages(w, |old(sent)|, summ, history, userMessage, media), maxIterations, left, kept);
      }
    }

    /** Attachments resolved in place; nothing else changes. */
    method ResolveMedia(w: World, messages: seq<Message>) returns (result: seq<Message>)
      requires Acceptable(messages)
      ensures Acceptable(result) && Bare(result[1..]) == Bare(messages[1..])
      ensures NoMedia(messages[1..]) ==> result[1..] == messages[1..]
      ensures result == Resolved(w, messages)
    {
      result := messages;
      for i := 0 to |messages|
        invariant |result| == |messages| && Bare(result) == Bare(messages)
        invariant forall k :: 0 <= k < |messages| && messages[k].media == [] ==> result[k] == messages[k]
        invariant forall k :: 0 <= k < i ==> result[k] == Resolved(w, messages)[k]
        invariant forall k :: i <= k < |messages| ==> result[k] == messages[k]
      {
        var m := result[i];
        if |m.media| != 0 {
          ghost var bare := Bare(result);
          result := result[i := m.(media := w.resolveMedia(m.media))];
          assert Bare(result) == bare;
        }
      }
      assert Bare(result)[1..] == Bare(messages)[1..];
      assert Bare(result)[1..] == Bare(result[1..]) && Bare(messages)[1..] == Bare(messages[1..]);
      assert Bare(result)[0] == Bare(messages)[0];
      MediaKeepsShape(messages[1..], result[1..]);
      if NoMedia(messages[1..]) {
        assert forall k :: 0 <= k < |messages| - 1 ==> messages[1..][k] in messages[1..];
        assert forall k :: 0 <= k < |messages| - 1 ==> result[1..][k] == messages[1..][k];
      }
    }
  }

  lemma BlankIsBlank()
    ensures Text.TrimSpace("") == ""
  {
  }
}
