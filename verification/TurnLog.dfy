/** One turn as the log of its requests: which request follows which, how the turn ends, and
    what every request of such a log keeps. */
module TurnLog {
  import opened Messages
  import opened Sanitizer
  import opened SanitizerLaws
  import opened Turns
  import Text

  // ---------------------------------------------------------------- the log of one turn

  /** The answer of reply `i`. */
  function ReplyOf(w: World, sent: seq<Request>): Reply
    requires sent != []
  {
    w.llm(|sent| - 1, sent[|sent| - 1].messages)
  }

  /** How many errors in a row end the log of a turn that began with request `n`. */
  function Errors(w: World, sent: seq<Request>, n: nat): nat {
    if |sent| <= n || ReplyOf(w, sent).Response? then 0 else 1 + Errors(w, sent[..|sent| - 1], n)
  }

  /** How many requests of the turn were answered. */
  function Responses(w: World, sent: seq<Request>, n: nat): nat {
    if |sent| <= n then 0 else Responses(w, sent[..|sent| - 1], n) + if ReplyOf(w, sent).Response? then 1 else 0
  }

  predicate StopAsked(w: World, k: nat, calls: seq<ToolCall>) {
    exists i: nat :: i < |calls| && w.tool(k, i).stopOnError
  }

  /** The request that an earlier one and its reply call for: another round after tool calls, the
      same again after a timeout, a compressed one after a context error; no more than three tries. */
  ghost predicate MayFollow(w: World, sent: seq<Request>, n: nat, summary: string, r: Request)
    requires sent != []
  {
    var k, last := |sent|, sent[|sent| - 1];
    match ReplyOf(w, sent)
    case Response(_, _, calls) =>
      && calls != [] && !StopAsked(w, k, calls)
      && r == Request(last.messages + RoundOf(w, k, ReplyOf(w, sent)), last.stored + RoundOf(w, k, ReplyOf(w, sent)))
    case TimeoutError => Errors(w, sent, n) < 3 && r == last
    case ContextError =>
      && Errors(w, sent, n) < 3 && r.stored == Compressed(last.stored)
      && r.messages == [Plain(System, w.systemPrompt(k, summary))] + Sanitized(r.stored)
    case OtherError => false
  }

  /** Every request since `n` is the one its predecessor calls for. */
  ghost predicate Log(w: World, sent: seq<Request>, n: nat, summary: string) {
    |sent| > n + 1 ==>
      && Log(w, sent[..|sent| - 1], n, summary)
      && MayFollow(w, sent[..|sent| - 1], n, summary, sent[|sent| - 1])
  }

  /** `r` may be sent next. */
  ghost predicate Ready(w: World, sent: seq<Request>, n: nat, summary: string, r: Request) {
    Log(w, sent, n, summary) && (|sent| > n ==> MayFollow(w, sent, n, summary, r))
  }

  /** The user's message as the request carries it: nothing when it is blank. */
  function UserPart(userMessage: string, media: seq<string>): seq<Message> {
    if Text.TrimSpace(userMessage) == "" then [] else [Plain(User, userMessage).(media := media)]
  }

  /** The messages with their attachments resolved. */
  function Resolved(w: World, ms: seq<Message>): seq<Message> {
    seq(|ms|, i requires 0 <= i < |ms| => if ms[i].media == [] then ms[i] else ms[i].(media := w.resolveMedia(ms[i].media)))
  }

  /** How a whole turn ends: as its requests do, with the default for an empty answer, which is stored. */
  ghost predicate Concluded(w: World, sent: seq<Request>, n: nat, maxIterations: nat, defaultResponse: string,
                            stored: seq<Message>, outcome: Outcome)
    requires |sent| > n
  {
    match outcome
    case Failed => Concludes(w, sent, n, maxIterations, stored, Failed)
    case Done(text) =>
      && stored != [] && stored[|stored| - 1] == Plain(Assistant, text)
      && exists content :: text == (if content == "" then defaultResponse else content)
                           && Concludes(w, sent, n, maxIterations, stored[..|stored| - 1], Done(content))
  }

  /** The text of a reply without tool calls. */
  function Answer(reply: Reply): string
    requires reply.Response?
  {
    if reply.content != "" then reply.content else reply.reasoning
  }

  /** How the turn ends: with an error that is not tried again, with the answer, with a tool that
      asked to stop, or with the last of `maxIterations` rounds. */
  ghost predicate Concludes(w: World, sent: seq<Request>, n: nat, maxIterations: nat, stored: seq<Message>, outcome: Outcome)
    requires |sent| > n
  {
    var k, last, reply := |sent|, sent[|sent| - 1], ReplyOf(w, sent);
    Responses(w, sent, n) <= maxIterations &&
    if !reply.Response? then
      outcome == Failed && stored == last.stored && (reply.OtherError? || Errors(w, sent, n) == 3)
    else if reply.toolCalls == [] then
      outcome == Done(Answer(reply)) && stored == last.stored
    else
      && stored == last.stored + RoundOf(w, k, reply)
      && if StopAsked(w, k, reply.toolCalls) then outcome == Done(STOPPED)
         else outcome == Done("") && Responses(w, sent, n) == maxIterations
  }

  lemma LogGrows(w: World, sent: seq<Request>, n: nat, summary: string, r: Request)
    requires n <= |sent| && Ready(w, sent, n, summary, r)
    ensures var s, reply := sent + [r], w.llm(|sent|, r.messages);
            && Log(w, s, n, summary) && ReplyOf(w, s) == reply
            && Errors(w, s, n) == (if reply.Response? then 0 else Errors(w, sent, n) + 1)
            && Responses(w, s, n) == Responses(w, sent, n) + (if reply.Response? then 1 else 0)
  {
    hide MayFollow;
    var s := sent + [r];
    assert s[..|s| - 1] == sent;
  }

  lemma LogStarts(w: World, sent: seq<Request>, summary: string, r: Request)
    ensures Log(w, sent, |sent|, summary) && Ready(w, sent, |sent|, summary, r)
    ensures Errors(w, sent, |sent|) == 0 && Responses(w, sent, |sent|) == 0
  {
  }

  lemma ErrorsReset(w: World, sent: seq<Request>, n: nat)
    requires |sent| > n && ReplyOf(w, sent).Response?
    ensures Errors(w, sent, n) == 0
  {
  }

  lemma EndsInError(w: World, sent: seq<Request>, n: nat, maxIterations: nat)
    requires |sent| > n && Responses(w, sent, n) <= maxIterations
    requires var reply := ReplyOf(w, sent); !reply.Response? && (reply.OtherError? || Errors(w, sent, n) == 3)
    ensures Concludes(w, sent, n, maxIterations, sent[|sent| - 1].stored, Failed)
  {
    hide Responses;
  }

  lemma EndsInAnswer(w: World, sent: seq<Request>, n: nat, maxIterations: nat)
    requires |sent| > n && Responses(w, sent, n) <= maxIterations
    requires ReplyOf(w, sent).Response? && ReplyOf(w, sent).toolCalls == []
    ensures Concludes(w, sent, n, maxIterations, sent[|sent| - 1].stored, Done(Answer(ReplyOf(w, sent))))
  {
    hide Responses;
  }

  lemma EndsInRound(w: World, sent: seq<Request>, n: nat, iteration: nat, maxIterations: nat, stored: seq<Message>)
    requires |sent| > n && ReplyOf(w, sent).Response? && ReplyOf(w, sent).toolCalls != []
    requires stored == sent[|sent| - 1].stored + RoundOf(w, |sent|, ReplyOf(w, sent))
    requires Responses(w, sent, n) == iteration <= maxIterations
    ensures if StopAsked(w, |sent|, ReplyOf(w, sent).toolCalls)
            then Concludes(w, sent, n, maxIterations, stored, Done(STOPPED))
            else Concludes(w, sent, n, iteration, stored, Done(""))
  {
    hide RoundOf, StopAsked, Responses;
  }

  /** After a timeout the same request may be sent again. */
  lemma TriesAgain(w: World, sent: seq<Request>, n: nat, summary: string)
    requires |sent| > n && Log(w, sent, n, summary) && ReplyOf(w, sent).TimeoutError? && Errors(w, sent, n) < 3
    ensures Ready(w, sent, n, summary, sent[|sent| - 1])
  {
  }

  /** After a context error the rebuilt request may be sent. */
  lemma TriesCompressed(w: World, sent: seq<Request>, n: nat, summary: string, r: Request)
    requires |sent| > n && Log(w, sent, n, summary) && ReplyOf(w, sent).ContextError? && Errors(w, sent, n) < 3
    requires r.stored == Compressed(sent[|sent| - 1].stored)
    requires r.messages == [Plain(System, w.systemPrompt(|sent|, summary))] + Sanitized(r.stored)
    ensures Ready(w, sent, n, summary, r)
  {
    hide Compressed, Sanitized;
  }

  /** After a round of tools the grown request may be sent. */
  lemma GoesOn(w: World, sent: seq<Request>, n: nat, summary: string, messages: seq<Message>, stored: seq<Message>)
    requires |sent| > n && Log(w, sent, n, summary) && ReplyOf(w, sent).Response?
    requires var reply := ReplyOf(w, sent); reply.toolCalls != [] && !StopAsked(w, |sent|, reply.toolCalls)
    requires var last := sent[|sent| - 1]; messages == last.messages + RoundOf(w, |sent|, ReplyOf(w, sent))
    requires var last := sent[|sent| - 1]; stored == last.stored + RoundOf(w, |sent|, ReplyOf(w, sent))
    ensures Ready(w, sent, n, summary, Request(messages, stored))
  {
    hide RoundOf, StopAsked;
  }

  // ---------------------------------------------------------------- what every request keeps

  /** Whatever may follow an acceptable request is acceptable. */
  lemma StepAcceptable(w: World, sent: seq<Request>, n: nat, summary: string, r: Request)
    requires sent != [] && MayFollow(w, sent, n, summary, r) && Acceptable(sent[|sent| - 1].messages)
    ensures Acceptable(r.messages)
  {
    hide Acceptable, RoundOf, Errors, Compressed, Sanitized, StopAsked;
    var k, last, reply := |sent|, sent[|sent| - 1], ReplyOf(w, sent);
    match reply {
      case Response(_, _, _) =>
        RoundIsRound(w, k, reply);
        RoundKeepsAcceptable(last.messages, RoundOf(w, k, reply));
      case ContextError => BuiltAcceptable(Plain(System, w.systemPrompt(k, summary)), r.stored);
      case _ =>
    }
  }

  lemma BuiltAcceptable(m: Message, history: seq<Message>)
    requires m.role == System
    ensures Acceptable([m] + Sanitized(history))
  {
    hide Sanitized;
    SanitizedIsReady(history);
    assert ([m] + Sanitized(history))[1..] == Sanitized(history);
  }

  /** Every request of a turn whose first one is acceptable is acceptable. */
  lemma {:induction false} AllAcceptable(w: World, sent: seq<Request>, n: nat, summary: string)
    requires n < |sent| && Log(w, sent, n, summary) && Acceptable(sent[n].messages)
    ensures forall i :: n <= i < |sent| ==> Acceptable(sent[i].messages)
    decreases |sent|
  {
    hide Acceptable, MayFollow;
    if |sent| > n + 1 {
      var front := sent[..|sent| - 1];
      AllAcceptable(w, front, n, summary);
      assert front[|front| - 1] == sent[|front| - 1];
      StepAcceptable(w, front, n, summary, sent[|sent| - 1]);
      forall i | n <= i < |sent| ensures Acceptable(sent[i].messages) {
        if i < |front| {
          assert front[i] == sent[i];
        }
      }
    }
  }

  /** A request of the turn that was followed by another answered with a context error. */
  ghost predicate Squeezed(w: World, sent: seq<Request>, n: nat) {
    exists i: nat :: n <= i < |sent| - 1 && w.llm(i, sent[i].messages).ContextError?
  }

  /** The retry after a context error mirrors the store exactly; the one after a timeout as before. */
  lemma RetryMirrors(w: World, sent: seq<Request>, n: nat, summary: string, r: Request, exact: bool)
    requires sent != [] && MayFollow(w, sent, n, summary, r) && !ReplyOf(w, sent).Response?
    ensures ReplyOf(w, sent).ContextError? ==> Mirrors(r, true) && Mirrors(r, exact)
    ensures Mirrors(sent[|sent| - 1], exact) ==> Mirrors(r, exact)
  {
    hide Sanitized, Errors, Compressed;
    if ReplyOf(w, sent).ContextError? {
      assert r.messages[1..] == Sanitized(r.stored);
    }
  }

  /** Without compression every request of a turn mirrors what is stored, and the store has grown by
      complete rounds. */
  lemma {:induction false} AllMirror(w: World, sent: seq<Request>, n: nat, summary: string, base: seq<Message>,
                                     u: Message, exact: bool)
    returns (rounds: seq<Message>)
    requires n < |sent| && Log(w, sent, n, summary) && !Squeezed(w, sent, n)
    requires InStep(sent[n].messages, sent[n].stored, base, u, [], exact)
    ensures forall i :: n <= i < |sent| ==> Mirrors(sent[i], exact)
    ensures InStep(sent[|sent| - 1].messages, sent[|sent| - 1].stored, base, u, rounds, exact)
    decreases |sent|
  {
    hide InStep, Mirrors, MayFollow;
    rounds := [];
    var last := sent[|sent| - 1];
    if |sent| > n + 1 {
      var front := sent[..|sent| - 1];
      NotSqueezedBefore(w, sent, n);
      var before := AllMirror(w, front, n, summary, base, u, exact);
      rounds := StepMirrors(w, front, n, summary, last, base, u, before, exact);
      forall i | n <= i < |front| ensures Mirrors(sent[i], exact) {
        assert front[i] == sent[i];
      }
    }
    InStepMirrors(last.messages, last.stored, base, u, rounds, exact);
  }

  lemma NotSqueezedBefore(w: World, sent: seq<Request>, n: nat)
    requires |sent| > n + 1 && !Squeezed(w, sent, n)
    ensures !Squeezed(w, sent[..|sent| - 1], n) && !ReplyOf(w, sent[..|sent| - 1]).ContextError?
  {
    var front := sent[..|sent| - 1];
    forall i: nat | n <= i < |front| ensures !w.llm(i, front[i].messages).ContextError? {
      assert front[i] == sent[i];
    }
  }

  lemma StepMirrors(w: World, sent: seq<Request>, n: nat, summary: string, r: Request, base: seq<Message>, u: Message,
                    before: seq<Message>, exact: bool)
    returns (rounds: seq<Message>)
    requires sent != [] && MayFollow(w, sent, n, summary, r) && !ReplyOf(w, sent).ContextError?
    requires InStep(sent[|sent| - 1].messages, sent[|sent| - 1].stored, base, u, before, exact)
    ensures InStep(r.messages, r.stored, base, u, rounds, exact)
  {
    hide InStep, RoundOf, StopAsked, Errors;
    var last, reply := sent[|sent| - 1], ReplyOf(w, sent);
    rounds := before;
    if reply.Response? {
      RoundIsRound(w, |sent|, reply);
      InStepRound(last.messages, last.stored, base, u, before, RoundOf(w, |sent|, reply), exact);
      rounds := before + RoundOf(w, |sent|, reply);
    }
  }

  /** The store when such a turn ends: the user message and complete rounds. */
  lemma TurnExtends(w: World, sent: seq<Request>, n: nat, summary: string, base: seq<Message>, u: Message, exact: bool,
                    maxIterations: nat, stored: seq<Message>, outcome: Outcome)
    requires n < |sent| && Log(w, sent, n, summary) && !Squeezed(w, sent, n)
    requires InStep(sent[n].messages, sent[n].stored, base, u, [], exact)
    requires Concludes(w, sent, n, maxIterations, stored, outcome)
    ensures Extends(stored, base, u)
  {
    hide InStep, RoundOf, StopAsked, Errors, Responses, Log, Extends;
    var rounds := AllMirror(w, sent, n, summary, base, u, exact);
    var last, reply := sent[|sent| - 1], ReplyOf(w, sent);
    if reply.Response? && reply.toolCalls != [] {
      var round := RoundOf(w, |sent|, reply);
      RoundIsRound(w, |sent|, reply);
      InStepRound(last.messages, last.stored, base, u, rounds, round, exact);
      InStepExtends(last.messages + round, stored, base, u, rounds + round, exact);
    } else {
      InStepExtends(last.messages, stored, base, u, rounds, exact);
    }
  }

  /** All of it, for a turn that may send nothing. */
  lemma TurnKeeps(w: World, sent: seq<Request>, n: nat, summary: string, base: seq<Message>, u: Message, exact: bool,
                  first: seq<Message>, maxIterations: nat, stored: seq<Message>, outcome: Outcome)
    requires n <= |sent| && Log(w, sent, n, summary) && !Squeezed(w, sent, n) && InStep(first, base + [u], base, u, [], exact)
    requires if n == |sent| then stored == base + [u]
             else sent[n] == Request(first, base + [u]) && Concludes(w, sent, n, maxIterations, stored, outcome)
    ensures Extends(stored, base, u) && forall i :: n <= i < |sent| ==> Mirrors(sent[i], exact)
  {
    hide InStep, Mirrors, Log, Concludes, Squeezed, Extends;
    if n < |sent| {
      var _ := AllMirror(w, sent, n, summary, base, u, exact);
      TurnExtends(w, sent, n, summary, base, u, exact, maxIterations, stored, outcome);
    } else {
      InStepExtends(first, stored, base, u, [], exact);
    }
  }

  // ---------------------------------------------------------------- the first request

  /** The request a turn begins with. */
  function FirstMessages(w: World, k: nat, summary: string, history: seq<Message>, userMessage: string,
                         media: seq<string>): seq<Message>
  {
    Resolved(w, [Plain(System, w.systemPrompt(k, summary))] + Sanitized(history) + UserPart(userMessage, media))
  }

  lemma ResolvedIsBare(w: World, ms: seq<Message>)
    ensures Bare(Resolved(w, ms)) == Bare(ms) && |Resolved(w, ms)| == |ms|
    ensures NoMedia(ms) ==> Resolved(w, ms) == ms
  {
    if NoMedia(ms) {
      assert forall i :: 0 <= i < |ms| ==> ms[i] in ms;
    }
  }

  lemma ResolvedTail(w: World, m: Message, tail: seq<Message>)
    requires m.media == []
    ensures var r := Resolved(w, [m] + tail); r != [] && r[0] == m && r[1..] == Resolved(w, tail)
  {
    var r := Resolved(w, [m] + tail);
    assert forall i :: 0 <= i < |tail| ==> r[1..][i] == Resolved(w, tail)[i];
  }

  lemma FirstIs(w: World, k: nat, summary: string, history: seq<Message>, userMessage: string, media: seq<string>)
    ensures var r, tail := FirstMessages(w, k, summary, history, userMessage, media), Sanitized(history) + UserPart(userMessage, media);
            r != [] && r[0] == Plain(System, w.systemPrompt(k, summary)) && r[1..] == Resolved(w, tail)
  {
    hide Sanitized, UserPart, Resolved;
    var m, tail := Plain(System, w.systemPrompt(k, summary)), Sanitized(history) + UserPart(userMessage, media);
    ResolvedTail(w, m, tail);
    assert [m] + Sanitized(history) + UserPart(userMessage, media) == [m] + tail;
  }

  lemma FirstBuilt(w: World, k: nat, summary: string, history: seq<Message>, userMessage: string, media: seq<string>,
                   messages: seq<Message>)
    requires messages == [Plain(System, w.systemPrompt(k, summary))] + (Sanitized(history) + UserPart(userMessage, media))
    ensures Resolved(w, messages) == FirstMessages(w, k, summary, history, userMessage, media)
  {
    hide Sanitized, UserPart, Resolved;
    var m, clean, user := Plain(System, w.systemPrompt(k, summary)), Sanitized(history), UserPart(userMessage, media);
    assert [m] + clean + user == [m] + (clean + user);
  }

  /** It is acceptable, whatever the history. */
  lemma FirstAcceptable(w: World, k: nat, summary: string, history: seq<Message>, userMessage: string, media: seq<string>)
    ensures Acceptable(FirstMessages(w, k, summary, history, userMessage, media))
  {
    hide Sanitized, Text.TrimSpace, NoSystem, ToolsInBlocks, CallsAnswered, CallsFollow, Resolved, Bare, FirstMessages;
    var clean, user := Sanitized(history), UserPart(userMessage, media);
    FirstIs(w, k, summary, history, userMessage, media);
    SanitizedIsReady(history);
    if user != [] {
      UserKeepsShape(clean, user[0]);
      assert clean + user == clean + [user[0]];
    } else {
      assert clean + user == clean;
    }
    ResolvedIsBare(w, clean + user);
    MediaKeepsShape(clean + user, Resolved(w, clean + user));
  }

  /** With a message that is not blank it is in step with the store. */
  lemma FirstInStep(w: World, k: nat, summary: string, base: seq<Message>, userMessage: string, media: seq<string>)
    requires Text.TrimSpace(userMessage) != ""
    ensures var u := Plain(User, userMessage);
            InStep(FirstMessages(w, k, summary, base, userMessage, media), base + [u], base, u, [], media == [] && NoMedia(base))
  {
    hide Sanitized, Text.TrimSpace, Resolved, FirstMessages;
    var u, exact := Plain(User, userMessage), media == [] && NoMedia(base);
    var first := FirstMessages(w, k, summary, base, userMessage, media);
    var tail := Sanitized(base) + [u.(media := media)];
    FirstIs(w, k, summary, base, userMessage, media);
    ResolvedIsBare(w, tail);
    if exact {
      SanitizedNoMedia(base);
      PlainTurnNoMedia([u] + tail, Sanitized(base), u);
      assert ([u] + tail)[1..] == tail;
    }
    StartsInStep(first, tail, base, u, media, exact);
  }

  // ---------------------------------------------------------------- what comes out

  /** The outcome told from the last reply: an error, its text, a stop asked for by a tool, or
      nothing when the rounds have run out; an empty text becomes the default. */
  lemma OutcomeIs(w: World, sent: seq<Request>, n: nat, maxIterations: nat, defaultResponse: string,
                  stored: seq<Message>, outcome: Outcome)
    requires |sent| > n && Concluded(w, sent, n, maxIterations, defaultResponse, stored, outcome)
    ensures var reply := w.llm(|sent| - 1, sent[|sent| - 1].messages);
            && (outcome == Failed <==> !reply.Response?)
            && (reply.Response? && reply.toolCalls == [] ==>
                  outcome == Done(if reply.content != "" then reply.content
                                  else if reply.reasoning != "" then reply.reasoning else defaultResponse))
            && (reply.Response? && reply.toolCalls != [] ==>
                  if exists i: nat :: i < |reply.toolCalls| && w.tool(|sent|, i).stopOnError then outcome == Done(STOPPED)
                  else outcome == Done(defaultResponse) && Responses(w, sent, n) == maxIterations)
  {
    hide Responses, RoundOf, Errors;
  }

  /** The errors at the end of a log, one by one: at most three, and an answer before them. */
  lemma {:induction false} ErrorsMean(w: World, sent: seq<Request>, n: nat, summary: string)
    requires n <= |sent| && Log(w, sent, n, summary)
    ensures var e := Errors(w, sent, n);
            && e <= 3 && e <= |sent| - n
            && (forall i: nat :: |sent| - e <= i < |sent| ==> !w.llm(i, sent[i].messages).Response?)
            && (|sent| - e > n ==> w.llm(|sent| - e - 1, sent[|sent| - e - 1].messages).Response?)
    decreases |sent|
  {
    hide RoundOf, Compressed, Sanitized, StopAsked;
    if |sent| > n {
      var front := sent[..|sent| - 1];
      assert |front| > n ==> Log(w, front, n, summary) && MayFollow(w, front, n, summary, sent[|sent| - 1]);
      assert |front| == n ==> Log(w, front, n, summary);
      ErrorsMean(w, front, n, summary);
      assert forall i: nat :: i < |front| ==> front[i] == sent[i];
    }
  }

  /** A turn fails on an error that is neither a timeout nor a context error, or on the third error
      in a row. */
  lemma FailsOnTheThird(w: World, sent: seq<Request>, n: nat, summary: string, maxIterations: nat, stored: seq<Message>)
    requires n < |sent| && Log(w, sent, n, summary) && Concludes(w, sent, n, maxIterations, stored, Failed)
    ensures w.llm(|sent| - 1, sent[|sent| - 1].messages).OtherError? ||
            (|sent| >= n + 3 && forall i: nat :: |sent| - 3 <= i < |sent| ==> !w.llm(i, sent[i].messages).Response?)
  {
    hide Log, Responses, RoundOf;
    ErrorsMean(w, sent, n, summary);
  }

  lemma {:induction false} LogAt(w: World, sent: seq<Request>, n: nat, summary: string, i: nat)
    requires n <= i && i + 1 < |sent| && Log(w, sent, n, summary)
    ensures MayFollow(w, sent[..i + 1], n, summary, sent[i + 1])
    decreases |sent|
  {
    hide MayFollow;
    var front := sent[..|sent| - 1];
    if i + 1 < |front| {
      LogAt(w, front, n, summary, i);
      assert front[..i + 1] == sent[..i + 1] && front[i + 1] == sent[i + 1];
    } else {
      assert front == sent[..i + 1];
    }
  }

  /** From each request to the next: tool calls that nobody stopped are carried out and shown along
      with all that was shown before; a timeout repeats the request; a context error halves a
      history of more than four messages, whose end is kept, and shows what is left; nothing else goes on. */
  lemma RequestByRequest(w: World, sent: seq<Request>, n: nat, summary: string, i: nat)
    requires n <= i && i + 1 < |sent| && Log(w, sent, n, summary)
    ensures var next, reply, r, r' := i + 1, w.llm(i, sent[i].messages), sent[i], sent[i + 1];
            match reply
            case Response(_, _, calls) =>
              && calls != [] && (forall k: nat :: k < |calls| ==> !w.tool(next, k).stopOnError)
              && r'.messages == r.messages + RoundOf(w, next, reply) && r'.stored == r.stored + RoundOf(w, next, reply)
            case TimeoutError => r' == r
            case ContextError =>
              && r'.messages == [Plain(System, w.systemPrompt(next, summary))] + Sanitized(r'.stored)
              && (|r.stored| <= 4 ==> r'.stored == r.stored)
              && (|r.stored| > 4 ==>
                    && |r'.stored| == |r.stored| - (|r.stored| - 2) / 2
                    && r'.stored[1..] == r.stored[|r.stored| - |r'.stored| + 1..])
            case OtherError => false
  {
    hide RoundOf, Compressed, Sanitized, Errors;
    LogAt(w, sent, n, summary, i);
    assert sent[..i + 1][|sent[..i + 1]| - 1] == sent[i];
    if w.llm(i, sent[i].messages).ContextError? {
      if |sent[i].stored| > 4 {
        CompressionKeepsTheEnd(sent[i].stored);
      } else {
        ShortStays(sent[i].stored);
      }
    }
  }

  lemma ShortStays(h: seq<Message>)
    requires |h| <= 4
    ensures Compressed(h) == h
  {
  }

  /** The first request, part by part. */
  lemma FirstInParts(w: World, k: nat, summary: string, history: seq<Message>, userMessage: string, media: seq<string>)
    ensures var r, blank := FirstMessages(w, k, summary, history, userMessage, media), Text.TrimSpace(userMessage) == "";
            && |r| == 1 + |Sanitized(history)| + (if blank then 0 else 1)
            && r[0] == Message(System, w.systemPrompt(k, summary), [], "", [], "")
            && (forall i :: 0 <= i < |Sanitized(history)| ==>
                              r[1 + i] == Sanitized(history)[i].(media := r[1 + i].media)
                              && r[1 + i].media == if Sanitized(history)[i].media == [] then [] else w.resolveMedia(Sanitized(history)[i].media))
            && (!blank ==> r[|r| - 1] == Message(User, userMessage, if media == [] then [] else w.resolveMedia(media), "", [], ""))
  {
    hide Sanitized, Text.TrimSpace, FirstMessages;
    FirstIs(w, k, summary, history, userMessage, media);
    var r, tail := FirstMessages(w, k, summary, history, userMessage, media), Sanitized(history) + UserPart(userMessage, media);
    forall i | 0 <= i < |tail| ensures r[1 + i] == Resolved(w, tail)[i] {
      assert r[1..][i] == Resolved(w, tail)[i];
    }
  }
}
