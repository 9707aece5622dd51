/** The provider fallback chain over the cooldown tracker. */
module Fallback {
  import opened Common
  import opened Cooldown

  datatype Candidate = Candidate(provider: string, model: string)

  datatype Reply = Ok(response: string) | Err(error: string)

  /** The world around one call of `Execute`, indexed by candidate: what running it would
      return, whether the context is cancelled just before and just after, and the clock. */
  datatype World = World(
    run: nat -> Reply,
    cancelledBefore: nat -> bool,
    cancelledAfter: nat -> bool,
    clockBefore: nat -> int,
    clockAfter: nat -> int,
    classify: (string, string, string) -> Option<Reason>)

  datatype Attempt = Attempt(provider: string, model: string, reason: Option<Reason>, skipped: bool)

  datatype Result =
    | Success(response: string, candidate: Candidate, attempts: seq<Attempt>)
    | NoCandidates
    | Cancelled
    | Unclassified(error: string)
    | NonRetriable(reason: Reason)
    | Exhausted(attempts: seq<Attempt>)

  // ---------------------------------------------------------------- candidate by candidate

  predicate Runs(v: Providers, c: Candidate, w: World, i: nat) {
    !w.cancelledBefore(i) && Available(StateOf(v, c.provider), w.clockBefore(i))
  }

  /** The reason for which candidate `i`, if it runs, fails and lets the chain go on. */
  function RetriableReason(c: Candidate, w: World, i: nat): Option<Reason> {
    if w.run(i).Ok? || w.cancelledAfter(i) then None
    else
      var r := w.classify(w.run(i).error, c.provider, c.model);
      if r.Some? && r.value != Format then r else None
  }

  /** Does the chain go on after candidate `i`: skipped, or run and retriably failed? */
  predicate Passes(v: Providers, c: Candidate, w: World, i: nat) {
    !w.cancelledBefore(i) && (Runs(v, c, w, i) ==> RetriableReason(c, w, i).Some?)
  }

  /** The tracker after a candidate the chain went on from. */
  function Passed(v: Providers, c: Candidate, w: World, i: nat, window: int): Providers
    requires Passes(v, c, w, i)
  {
    if Runs(v, c, w, i)
    then v[c.provider := Fail(StateOf(v, c.provider), w.clockAfter(i), RetriableReason(c, w, i).value, window)]
    else v
  }

  function AttemptOf(v: Providers, c: Candidate, w: World, i: nat): Attempt {
    if Runs(v, c, w, i)
    then Attempt(c.provider, c.model, RetriableReason(c, w, i), false)
    else Attempt(c.provider, c.model, Some(RateLimit), true)
  }

  /** What candidate `i` makes of the chain when it does not let it go on. */
  function Verdict(v: Providers, c: Candidate, w: World, i: nat, attempts: seq<Attempt>): Result
    requires !Passes(v, c, w, i)
  {
    if w.cancelledBefore(i) then Cancelled
    else if w.run(i).Ok? then Success(w.run(i).response, c, attempts)
    else if w.cancelledAfter(i) then Cancelled
    else
      match w.classify(w.run(i).error, c.provider, c.model)
      case None => Unclassified(w.run(i).error)
      case Some(reason) => NonRetriable(reason)
  }

  function Closed(v: Providers, c: Candidate, w: World, i: nat): Providers {
    if Runs(v, c, w, i) && w.run(i).Ok? && c.provider in v then v[c.provider := Succeed(v[c.provider])] else v
  }

  /** How a chain ends: its result, the tracker, and the candidates that were run, by index. */
  datatype Ending = Ending(result: Result, tracker: Providers, ran: seq<nat>)

  function Chain(cs: seq<Candidate>, i: nat, v: Providers, w: World, window: int, attempts: seq<Attempt>,
                 ran: seq<nat>): Ending
    requires i <= |cs|
    decreases |cs| - i
  {
    if i == |cs| then Ending(Exhausted(attempts), v, ran)
    else
      var ran' := if Runs(v, cs[i], w, i) then ran + [i] else ran;
      if Passes(v, cs[i], w, i)
      then Chain(cs, i + 1, Passed(v, cs[i], w, i, window), w, window, attempts + [AttemptOf(v, cs[i], w, i)], ran')
      else Ending(Verdict(v, cs[i], w, i, attempts), Closed(v, cs[i], w, i), ran')
  }

  class FallbackChain {
    const cooldown: CooldownTracker

    constructor (cooldown: CooldownTracker)
      ensures this.cooldown == cooldown
    {
      this.cooldown := cooldown;
    }

    /** `Execute`; `ran` lists the candidates whose run function was called. */
    method Execute(w: World, candidates: seq<Candidate>) returns (result: Result, ran: seq<nat>)
      requires cooldown.Valid()
      modifies cooldown, cooldown.entries.Values
      ensures cooldown.Valid()
      ensures candidates == [] ==> result == NoCandidates && ran == [] && cooldown.View() == old(cooldown.View())
      ensures candidates != [] ==>
                Ending(result, cooldown.View(), ran) == Chain(candidates, 0, old(cooldown.View()), w, cooldown.failureWindow, [], [])
    {
      hide Fail, Available;
      ran := [];
      if |candidates| == 0 {
        return NoCandidates, [];
      }
      var attempts: seq<Attempt> := [];
      ghost var ending := Chain(candidates, 0, cooldown.View(), w, cooldown.failureWindow, [], []);
      for i := 0 to |candidates|
        invariant cooldown.Valid() && fresh(cooldown.entries.Values - old(cooldown.entries.Values))
        invariant Chain(candidates, i, cooldown.View(), w, cooldown.failureWindow, attempts, ran) == ending
      {
        var candidate := candidates[i];
        ghost var v := cooldown.View();
        if w.cancelledBefore(i) {
          return Cancelled, ran;
        }
        var available := cooldown.IsAvailable(candidate.provider, w.clockBefore(i));
        if !available {
          attempts := attempts + [Attempt(candidate.provider, candidate.model, Some(RateLimit), true)];
          continue;
        }
        ran := ran + [i];
        var reply := w.run(i);
        if reply.Ok? {
          cooldown.MarkSuccess(candidate.provider);
          return Success(reply.response, candidate, attempts), ran;
        }
        if w.cancelledAfter(i) {
          return Cancelled, ran;
        }
        var failErr := w.classify(reply.error, candidate.provider, candidate.model);
        if failErr == None {
          return Unclassified(reply.error), ran;
        }
        if failErr.value == Format {
          return NonRetriable(failErr.value), ran;
        }
        cooldown.MarkFailure(candidate.provider, failErr.value, w.clockAfter(i));
        attempts := attempts + [Attempt(candidate.provider, candidate.model, failErr, false)];
        if i == |candidates| - 1 {
          return Exhausted(attempts), ran;
        }
      }
      result := Exhausted(attempts);
    }
  }

  // ---------------------------------------------------------------- what a chain does

  /** The tracker as candidate `k` finds it, all candidates before it having let the chain go on. */
  function ViewAt(cs: seq<Candidate>, k: nat, v: Providers, w: World, window: int): Providers
    requires k <= |cs|
  {
    if k == 0 then v
    else
      var before := ViewAt(cs, k - 1, v, w, window);
      if Passes(before, cs[k - 1], w, k - 1) then Passed(before, cs[k - 1], w, k - 1, window) else before
  }

  predicate PassesAt(cs: seq<Candidate>, k: nat, v: Providers, w: World, window: int)
    requires k < |cs|
  {
    Passes(ViewAt(cs, k, v, w, window), cs[k], w, k)
  }

  predicate RunsAt(cs: seq<Candidate>, k: nat, v: Providers, w: World, window: int)
    requires k < |cs|
  {
    Runs(ViewAt(cs, k, v, w, window), cs[k], w, k)
  }

  /** The attempts of the first `k` candidates. */
  function AttemptsTo(cs: seq<Candidate>, k: nat, v: Providers, w: World, window: int): seq<Attempt>
    requires k <= |cs|
  {
    seq(k, i requires 0 <= i < k => AttemptOf(ViewAt(cs, i, v, w, window), cs[i], w, i))
  }

  function RanTo(cs: seq<Candidate>, k: nat, v: Providers, w: World, window: int): seq<nat>
    requires k <= |cs|
  {
    if k == 0 then []
    else RanTo(cs, k - 1, v, w, window) + if RunsAt(cs, k - 1, v, w, window) then [k - 1] else []
  }

  lemma {:induction false} ChainFrom(cs: seq<Candidate>, i: nat, j: nat, v: Providers, w: World, window: int)
    requires i <= j <= |cs|
    requires forall k: nat :: k < j ==> PassesAt(cs, k, v, w, window)
    requires j < |cs| ==> !PassesAt(cs, j, v, w, window)
    ensures Chain(cs, i, ViewAt(cs, i, v, w, window), w, window, AttemptsTo(cs, i, v, w, window), RanTo(cs, i, v, w, window))
         == EndingAt(cs, j, v, w, window)
    decreases j - i
  {
    hide Passes, Passed, AttemptOf, Verdict, Closed, Runs;
    if i < j {
      assert PassesAt(cs, i, v, w, window);
      ChainFrom(cs, i + 1, j, v, w, window);
      assert AttemptsTo(cs, i + 1, v, w, window)
          == AttemptsTo(cs, i, v, w, window) + [AttemptOf(ViewAt(cs, i, v, w, window), cs[i], w, i)];
      var ran := RanTo(cs, i, v, w, window);
      assert ran + [] == ran;
    } else if j < |cs| {
      var ran := RanTo(cs, i, v, w, window);
      assert ran + [] == ran;
    }
  }

  /** The ending when `j` is the first candidate that does not let the chain go on, or `|cs|`. */
  function EndingAt(cs: seq<Candidate>, j: nat, v: Providers, w: World, window: int): Ending
    requires j <= |cs| && forall k: nat :: k < j ==> PassesAt(cs, k, v, w, window)
    requires j < |cs| ==> !PassesAt(cs, j, v, w, window)
  {
    var at, attempts := ViewAt(cs, j, v, w, window), AttemptsTo(cs, j, v, w, window);
    if j == |cs| then Ending(Exhausted(attempts), at, RanTo(cs, j, v, w, window))
    else Ending(Verdict(at, cs[j], w, j, attempts), Closed(at, cs[j], w, j), RanTo(cs, j + 1, v, w, window))
  }

  /** The first candidate from `i` on that stops the chain. */
  function StopAt(cs: seq<Candidate>, i: nat, v: Providers, w: World, window: int): (j: nat)
    requires i <= |cs|
    ensures i <= j <= |cs|
    ensures forall k: nat :: i <= k < j ==> PassesAt(cs, k, v, w, window)
    ensures j < |cs| ==> !PassesAt(cs, j, v, w, window)
    decreases |cs| - i
  {
    if i == |cs| || !PassesAt(cs, i, v, w, window) then i else StopAt(cs, i + 1, v, w, window)
  }

  function Executed(cs: seq<Candidate>, v: Providers, w: World, window: int): Ending {
    Chain(cs, 0, v, w, window, [], [])
  }

  lemma ExecutedIs(cs: seq<Candidate>, v: Providers, w: World, window: int)
    ensures Executed(cs, v, w, window) == EndingAt(cs, StopAt(cs, 0, v, w, window), v, w, window)
  {
    ChainFrom(cs, 0, StopAt(cs, 0, v, w, window), v, w, window);
    assert AttemptsTo(cs, 0, v, w, window) == [];
  }

  lemma {:induction false} RanInOrder(cs: seq<Candidate>, k: nat, v: Providers, w: World, window: int)
    requires k <= |cs|
    ensures var ran := RanTo(cs, k, v, w, window);
            && (forall a, b :: 0 <= a < b < |ran| ==> ran[a] < ran[b])
            && (forall i: nat :: i in ran <==> i < k && RunsAt(cs, i, v, w, window))
  {
    hide RunsAt;
    if k > 0 {
      RanInOrder(cs, k - 1, v, w, window);
      var ran := RanTo(cs, k - 1, v, w, window);
      forall a | 0 <= a < |ran| ensures ran[a] < k - 1 {
        assert ran[a] in ran;
      }
    }
  }

  /** Candidates run in order, each at most once, and only while available; none after the one
      that ended the chain. */
  lemma RunsInOrderWhileAvailable(cs: seq<Candidate>, v: Providers, w: World, window: int)
    ensures var ran, j := Executed(cs, v, w, window).ran, StopAt(cs, 0, v, w, window);
            && (forall a, b :: 0 <= a < b < |ran| ==> ran[a] < ran[b])
            && (forall i <- ran ::
                  (i < |cs| && i <= j && Available(StateOf(ViewAt(cs, i, v, w, window), cs[i].provider), w.clockBefore(i))))
            && (forall i: nat :: i < |cs| && i <= j && i !in ran ==>
                                   w.cancelledBefore(i) || !Available(StateOf(ViewAt(cs, i, v, w, window), cs[i].provider), w.clockBefore(i)))
  {
    hide Available;
    ExecutedIs(cs, v, w, window);
    var j := StopAt(cs, 0, v, w, window);
    RanInOrder(cs, if j < |cs| then j + 1 else j, v, w, window);
  }

  /** A success is the first one: every earlier candidate has exactly one recorded attempt, in
      order, and was either skipped or failed retriably. */
  lemma SuccessIsTheFirst(cs: seq<Candidate>, v: Providers, w: World, window: int)
    requires Executed(cs, v, w, window).result.Success?
    ensures var r, j := Executed(cs, v, w, window).result, StopAt(cs, 0, v, w, window);
            && j < |cs| && r.candidate == cs[j] && w.run(j) == Ok(r.response) && RunsAt(cs, j, v, w, window)
            && |r.attempts| == j
            && forall i: nat :: i < j ==> Recorded(r.attempts[i], cs, i, v, w, window)
  {
    hide RunsAt, ViewAt;
    ExecutedIs(cs, v, w, window);
    var j := StopAt(cs, 0, v, w, window);
    assert j < |cs| ==> (RunsAt(cs, j, v, w, window) <==> Runs(ViewAt(cs, j, v, w, window), cs[j], w, j)) by {
      if j < |cs| { RunsAtIs(cs, j, v, w, window); }
    }
    forall i: nat | i < j ensures Recorded(AttemptsTo(cs, j, v, w, window)[i], cs, i, v, w, window) {
      AttemptIsRecorded(cs, i, v, w, window);
    }
  }

  lemma AttemptIsRecorded(cs: seq<Candidate>, i: nat, v: Providers, w: World, window: int)
    requires i < |cs| && PassesAt(cs, i, v, w, window)
    ensures Recorded(AttemptOf(ViewAt(cs, i, v, w, window), cs[i], w, i), cs, i, v, w, window)
  {
    hide ViewAt, Available;
  }

  lemma RunsAtIs(cs: seq<Candidate>, i: nat, v: Providers, w: World, window: int)
    requires i < |cs|
    ensures RunsAt(cs, i, v, w, window) <==> Runs(ViewAt(cs, i, v, w, window), cs[i], w, i)
  {
  }

  /** The attempt names its candidate; it was skipped for lack of availability, or it ran and failed retriably. */
  predicate Recorded(a: Attempt, cs: seq<Candidate>, i: nat, v: Providers, w: World, window: int)
    requires i < |cs|
  {
    && a.provider == cs[i].provider && a.model == cs[i].model
    && a.skipped == !RunsAt(cs, i, v, w, window)
    && (a.skipped ==> a.reason == Some(RateLimit))
    && (!a.skipped ==> w.run(i).Err? && a.reason.Some? && a.reason != Some(Format))
    && (!a.skipped ==> a.reason == w.classify(w.run(i).error, a.provider, a.model))
  }

  /** Exhaustion means every candidate was skipped or failed retriably, one attempt each. */
  lemma ExhaustionRecordsEveryone(cs: seq<Candidate>, v: Providers, w: World, window: int)
    ensures Executed(cs, v, w, window).result.Exhausted? <==> forall i: nat :: i < |cs| ==> PassesAt(cs, i, v, w, window)
    ensures var r := Executed(cs, v, w, window).result; r.Exhausted? ==>
              |r.attempts| == |cs| && forall i: nat :: i < |cs| ==> Recorded(r.attempts[i], cs, i, v, w, window)
  {
    hide RunsAt, ViewAt;
    ExecutedIs(cs, v, w, window);
    var j := StopAt(cs, 0, v, w, window);
    forall i: nat | i < j ensures Recorded(AttemptsTo(cs, j, v, w, window)[i], cs, i, v, w, window) {
      AttemptIsRecorded(cs, i, v, w, window);
    }
  }

  lemma {:induction false} OthersKeepTheirCooldown(cs: seq<Candidate>, k: nat, v: Providers, w: World,
                                                   window: int, p: string)
    requires k <= |cs| && forall i: nat :: i < k && RunsAt(cs, i, v, w, window) ==> cs[i].provider != p
    ensures var v' := ViewAt(cs, k, v, w, window); (p in v' <==> p in v) && (p in v ==> v'[p] == v[p])
  {
    hide Fail, Available;
    if k > 0 {
      OthersKeepTheirCooldown(cs, k - 1, v, w, window, p);
      RunsAtIs(cs, k - 1, v, w, window);
    }
  }

  /** Cooldown state changes only for providers that were run. */
  lemma OnlyRunProvidersChange(cs: seq<Candidate>, v: Providers, w: World, window: int, p: string)
    requires forall i <- Executed(cs, v, w, window).ran :: i < |cs| ==> cs[i].provider != p
    ensures var v' := Executed(cs, v, w, window).tracker; (p in v' <==> p in v) && (p in v ==> v'[p] == v[p])
  {
    hide Fail, Available, RunsAt, ViewAt;
    ExecutedIs(cs, v, w, window);
    var j := StopAt(cs, 0, v, w, window);
    var n := if j < |cs| then j + 1 else j;
    RanInOrder(cs, n, v, w, window);
    OthersKeepTheirCooldown(cs, j, v, w, window, p);
    if j < |cs| {
      RunsAtIs(cs, j, v, w, window);
    }
  }

  // ---------------------------------------------------------------- how a chain ends

  /** Candidate `i` as the chain reaches it is out of its cooldown. */
  predicate FreeAt(cs: seq<Candidate>, i: nat, v: Providers, w: World, window: int)
    requires i < |cs|
  {
    Available(StateOf(ViewAt(cs, i, v, w, window), cs[i].provider), w.clockBefore(i))
  }

  /** The error of candidate `i`, as classified. */
  function Classified(cs: seq<Candidate>, i: nat, w: World): Option<Reason>
    requires i < |cs| && w.run(i).Err?
  {
    w.classify(w.run(i).error, cs[i].provider, cs[i].model)
  }

  /** Candidate `i` is passed over: in its cooldown, or run with an error worth another candidate. */
  predicate PassedOver(cs: seq<Candidate>, i: nat, v: Providers, w: World, window: int)
    requires i < |cs|
  {
    && !w.cancelledBefore(i)
    && (FreeAt(cs, i, v, w, window) ==>
          w.run(i).Err? && !w.cancelledAfter(i) && Classified(cs, i, w).Some? && Classified(cs, i, w) != Some(Format))
  }

  lemma PassesIffPassedOver(cs: seq<Candidate>, i: nat, v: Providers, w: World, window: int)
    requires i < |cs|
    ensures PassesAt(cs, i, v, w, window) <==> PassedOver(cs, i, v, w, window)
  {
    hide ViewAt, Available;
  }

  /** With `j` the first candidate that is not passed over: the result is exhaustion exactly when there is
      none; otherwise it is a success, a cancellation, an error of no known kind, or an error that no other
      candidate can mend, each exactly when what happened at `j` calls for it. */
  lemma ResultIs(cs: seq<Candidate>, v: Providers, w: World, window: int) returns (j: nat)
    ensures j <= |cs| && (forall i: nat :: i < j ==> PassedOver(cs, i, v, w, window))
    ensures j < |cs| ==> !PassedOver(cs, j, v, w, window)
    ensures Executed(cs, v, w, window).result.Exhausted? <==> j == |cs|
    ensures j < |cs| ==>
              var r, before, runs := Executed(cs, v, w, window).result, w.cancelledBefore(j), !w.cancelledBefore(j) && FreeAt(cs, j, v, w, window);
              && (before || runs)
              && (r == Cancelled <==> before || (w.run(j).Err? && w.cancelledAfter(j)))
              && (r.Success? <==> runs && w.run(j).Ok?)
              && (r.Success? ==> r.response == w.run(j).response && r.candidate == cs[j])
              && (r.Unclassified? <==> runs && w.run(j).Err? && !w.cancelledAfter(j) && Classified(cs, j, w) == None)
              && (r.Unclassified? ==> r.error == w.run(j).error)
              && (r.NonRetriable? <==> runs && w.run(j).Err? && !w.cancelledAfter(j) && Classified(cs, j, w) == Some(Format))
              && (r.NonRetriable? ==> r.reason == Format)
  {
    hide PassesAt, PassedOver, ViewAt, Available;
    ExecutedIs(cs, v, w, window);
    j := StopAt(cs, 0, v, w, window);
    forall i: nat | i < j ensures PassedOver(cs, i, v, w, window) {
      assert PassesAt(cs, i, v, w, window);
      PassesIffPassedOver(cs, i, v, w, window);
    }
    if j < |cs| {
      PassesIffPassedOver(cs, j, v, w, window);
      VerdictIs(cs, j, v, w, window, AttemptsTo(cs, j, v, w, window));
    }
  }

  lemma VerdictIs(cs: seq<Candidate>, j: nat, v: Providers, w: World, window: int, attempts: seq<Attempt>)
    requires j < |cs| && !PassedOver(cs, j, v, w, window)
    ensures !Passes(ViewAt(cs, j, v, w, window), cs[j], w, j)
    ensures var r, before, runs := Verdict(ViewAt(cs, j, v, w, window), cs[j], w, j, attempts), w.cancelledBefore(j),
                                   !w.cancelledBefore(j) && FreeAt(cs, j, v, w, window);
            && (before || runs) && !r.Exhausted?
            && (r == Cancelled <==> before || (w.run(j).Err? && w.cancelledAfter(j)))
            && (r.Success? <==> runs && w.run(j).Ok?)
            && (r.Success? ==> r.response == w.run(j).response && r.candidate == cs[j])
            && (r.Unclassified? <==> runs && w.run(j).Err? && !w.cancelledAfter(j) && Classified(cs, j, w) == None)
            && (r.Unclassified? ==> r.error == w.run(j).error)
            && (r.NonRetriable? <==> runs && w.run(j).Err? && !w.cancelledAfter(j) && Classified(cs, j, w) == Some(Format))
            && (r.NonRetriable? ==> r.reason == Format)
  {
    hide ViewAt, Available;
  }

  /** The tracker along the way: a candidate that ran and failed has one more failure on record, of its own
      kind and at its own time; one that was skipped changes nothing. */
  lemma TrackerOnTheWay(cs: seq<Candidate>, i: nat, v: Providers, w: World, window: int)
    requires i < |cs| && PassedOver(cs, i, v, w, window)
    ensures var at, next := ViewAt(cs, i, v, w, window), ViewAt(cs, i + 1, v, w, window);
            if FreeAt(cs, i, v, w, window)
            then next == at[cs[i].provider := Fail(StateOf(at, cs[i].provider), w.clockAfter(i), Classified(cs, i, w).value, window)]
            else next == at
  {
    hide Fail, Available;
    PassesIffPassedOver(cs, i, v, w, window);
    NextView(cs, i, v, w, window);
  }

  /** The tracker in the end: after a success the provider has a clean record and is available; nothing
      else ends a chain with a change. */
  lemma TrackerInTheEnd(cs: seq<Candidate>, v: Providers, w: World, window: int) returns (j: nat)
    ensures j <= |cs| && (forall i: nat :: i < j ==> PassedOver(cs, i, v, w, window))
    ensures j < |cs| ==> !PassedOver(cs, j, v, w, window)
    ensures var e, at := Executed(cs, v, w, window), ViewAt(cs, j, v, w, window);
            if e.result.Success? && j < |cs| && cs[j].provider in at
            then
              && cs[j].provider in e.tracker &&
                 var clean := e.tracker[cs[j].provider];
                 && e.tracker == at[cs[j].provider := clean] && clean.errorCount == 0 && clean.failureCounts == map[]
                 && forall now :: Available(clean, now)
            else e.tracker == at
  {
    hide PassesAt, PassedOver, ViewAt, Available, Succeed;
    ExecutedIs(cs, v, w, window);
    j := ResultIs(cs, v, w, window);
    var stop := StopAt(cs, 0, v, w, window);
    SameStop(cs, j, v, w, window);
    if j < |cs| {
      ClosedIs(cs, j, v, w, window);
    }
  }

  lemma SameStop(cs: seq<Candidate>, j: nat, v: Providers, w: World, window: int)
    requires j <= |cs| && (forall i: nat :: i < j ==> PassedOver(cs, i, v, w, window))
    requires j < |cs| ==> !PassedOver(cs, j, v, w, window)
    ensures StopAt(cs, 0, v, w, window) == j
  {
    hide PassesAt, PassedOver;
    var stop := StopAt(cs, 0, v, w, window);
    if stop < |cs| {
      PassesIffPassedOver(cs, stop, v, w, window);
    }
    if j < |cs| {
      PassesIffPassedOver(cs, j, v, w, window);
    }
  }

  lemma ClosedIs(cs: seq<Candidate>, j: nat, v: Providers, w: World, window: int)
    requires j < |cs|
    ensures var at := ViewAt(cs, j, v, w, window);
            if !w.cancelledBefore(j) && FreeAt(cs, j, v, w, window) && w.run(j).Ok? && cs[j].provider in at
            then
              var clean := Closed(at, cs[j], w, j)[cs[j].provider];
              && Closed(at, cs[j], w, j) == at[cs[j].provider := clean] && clean.errorCount == 0 && clean.failureCounts == map[]
              && forall now :: Available(clean, now)
            else Closed(at, cs[j], w, j) == at
  {
    hide ViewAt;
  }

  // ---------------------------------------------------------------- no hammering

  ghost predicate OutUntil(e: Entry, until: int) {
    forall now :: now < until ==> !Available(e, now)
  }

  lemma {:induction false} StillCooling(cs: seq<Candidate>, i: nat, k: nat, v: Providers, w: World, window: int)
    requires i < k < |cs| && RunsAt(cs, i, v, w, window) && PassesAt(cs, i, v, w, window)
    requires forall m: nat :: i < m <= k ==> w.clockBefore(m) < w.clockAfter(i) + MINUTE
    ensures var e := StateOf(ViewAt(cs, k, v, w, window), cs[i].provider); !Available(e, w.clockBefore(k))
    ensures StateOf(ViewAt(cs, k, v, w, window), cs[i].provider) == StateOf(ViewAt(cs, i + 1, v, w, window), cs[i].provider)
    decreases k
  {
    hide Fail, Available, RunsAt, PassesAt;
    var p := cs[i].provider;
    var failed := StateOf(ViewAt(cs, i + 1, v, w, window), p);
    FailedIsCooling(cs, i, v, w, window);
    if k > i + 1 {
      StillCooling(cs, i, k - 1, v, w, window);
      var before := ViewAt(cs, k - 1, v, w, window);
      if cs[k - 1].provider == p {
        assert !Runs(before, cs[k - 1], w, k - 1);
      }
    }
  }

  lemma FailedIsCooling(cs: seq<Candidate>, i: nat, v: Providers, w: World, window: int)
    requires i < |cs| && RunsAt(cs, i, v, w, window) && PassesAt(cs, i, v, w, window)
    ensures OutUntil(StateOf(ViewAt(cs, i + 1, v, w, window), cs[i].provider), w.clockAfter(i) + MINUTE)
  {
    hide StandardCooldown, BillingCooldown, ViewAt;
    var at := ViewAt(cs, i, v, w, window);
    assert ViewAt(cs, i + 1, v, w, window) == Passed(at, cs[i], w, i, window) by { NextView(cs, i, v, w, window); }
    var e, reason := StateOf(at, cs[i].provider), RetriableReason(cs[i], w, i).value;
    FailCools(e, w.clockAfter(i), reason, window);
  }

  lemma NextView(cs: seq<Candidate>, i: nat, v: Providers, w: World, window: int)
    requires i < |cs| && PassesAt(cs, i, v, w, window)
    ensures ViewAt(cs, i + 1, v, w, window) == Passed(ViewAt(cs, i, v, w, window), cs[i], w, i, window)
  {
  }

  /** Any failure keeps a provider out for at least a minute. */
  lemma FailCools(e: Entry, at: int, reason: Reason, window: int)
    ensures OutUntil(Fail(e, at, reason, window), at + MINUTE)
  {
    hide StandardCooldown, BillingCooldown;
    var e' := Fail(e, at, reason, window);
    StandardSteps(e'.errorCount);
    BillingSteps(Count(e'.failureCounts, Billing));
  }

  /** Within one chain a provider that just failed is not run again under another model,
      unless a minute has gone by. */
  lemma FailedProviderIsSkipped(cs: seq<Candidate>, i: nat, k: nat, v: Providers, w: World, window: int)
    requires i < k < |cs| && cs[k].provider == cs[i].provider
    requires RunsAt(cs, i, v, w, window) && PassesAt(cs, i, v, w, window)
    requires forall m: nat :: i < m <= k ==> w.clockBefore(m) < w.clockAfter(i) + MINUTE
    ensures !RunsAt(cs, k, v, w, window)
  {
    hide Available, ViewAt;
    StillCooling(cs, i, k, v, w, window);
  }

  // ---------------------------------------------------------------- resolving candidates

  /** `ResolveCandidatesWithLookup`: `parse` stands for lookup and reference parsing (none for a
      blank or malformed reference), `key` for the canonical model key. */
  method ResolveCandidates(primary: string, fallbacks: seq<string>, parse: string -> Option<Candidate>,
                           key: Candidate -> string)
    returns (candidates: seq<Candidate>)
    ensures forall a, b :: 0 <= a < b < |candidates| ==> key(candidates[a]) != key(candidates[b])
    ensures candidates == FirstOfEach([primary] + fallbacks, parse, key)
  {
    var seen: set<string> := {};
    candidates := [];
    var raws := [primary] + fallbacks;
    for i := 0 to |raws|
      invariant seen == set c | c in candidates :: key(c)
      invariant forall a, b :: 0 <= a < b < |candidates| ==> key(candidates[a]) != key(candidates[b])
      invariant candidates == FirstOfEach(raws[..i], parse, key)
    {
      assert raws[..i + 1][..i] == raws[..i];
      var ref := parse(raws[i]);
      if ref == None {
        continue;
      }
      var k := key(ref.value);
      if k in seen {
        continue;
      }
      seen := seen + {k};
      candidates := candidates + [ref.value];
    }
    assert raws[..|raws|] == raws;
  }

  /** The first candidate of each model key, in order of appearance. */
  function FirstOfEach(raws: seq<string>, parse: string -> Option<Candidate>,
                       key: Candidate -> string): seq<Candidate> {
    if raws == [] then []
    else
      var front := FirstOfEach(raws[..|raws| - 1], parse, key);
      var ref := parse(raws[|raws| - 1]);
      if ref == None || exists c <- front :: key(c) == key(ref.value) then front else front + [ref.value]
  }

  lemma {:induction false} KeyIsCovered(raws: seq<string>, parse: string -> Option<Candidate>, key: Candidate -> string, i: nat)
    requires i < |raws| && parse(raws[i]) != None
    ensures exists c <- FirstOfEach(raws, parse, key) :: key(c) == key(parse(raws[i]).value)
  {
    var front := raws[..|raws| - 1];
    var before, all := FirstOfEach(front, parse, key), FirstOfEach(raws, parse, key);
    if i < |front| {
      assert front[i] == raws[i];
      KeyIsCovered(front, parse, key, i);
      var c :| c in before && key(c) == key(parse(raws[i]).value);
      assert c in all;
    } else if !exists c <- before :: key(c) == key(parse(raws[i]).value) {
      assert all == before + [parse(raws[i]).value];
      assert parse(raws[i]).value in all;
    } else {
      assert all == before;
    }
  }

  lemma {:induction false} IsGiven(raws: seq<string>, parse: string -> Option<Candidate>, key: Candidate -> string, c: Candidate)
    requires c in FirstOfEach(raws, parse, key)
    ensures exists i :: 0 <= i < |raws| && parse(raws[i]) == Some(c)
  {
    var front := raws[..|raws| - 1];
    if c in FirstOfEach(front, parse, key) {
      IsGiven(front, parse, key, c);
      var i :| 0 <= i < |front| && parse(front[i]) == Some(c);
      assert raws[i] == front[i];
    } else {
      assert parse(raws[|raws| - 1]) == Some(c);
    }
  }

  /** Every usable reference is represented by its key, and nothing else is there. */
  lemma EveryKeyIsCovered(raws: seq<string>, parse: string -> Option<Candidate>, key: Candidate -> string)
    ensures forall i :: 0 <= i < |raws| && parse(raws[i]) != None ==>
                          exists c <- FirstOfEach(raws, parse, key) :: key(c) == key(parse(raws[i]).value)
    ensures forall c <- FirstOfEach(raws, parse, key) :: exists i :: 0 <= i < |raws| && parse(raws[i]) == Some(c)
  {
    hide FirstOfEach;
    forall i | 0 <= i < |raws| && parse(raws[i]) != None
      ensures exists c <- FirstOfEach(raws, parse, key) :: key(c) == key(parse(raws[i]).value)
    {
      KeyIsCovered(raws, parse, key, i);
    }
    forall c | c in FirstOfEach(raws, parse, key) ensures exists i :: 0 <= i < |raws| && parse(raws[i]) == Some(c) {
      IsGiven(raws, parse, key, c);
    }
  }

  /** Candidate `a` comes from reference `at[a]`, the first with its key, and these are in order. */
  ghost predicate FirstsAt(raws: seq<string>, cs: seq<Candidate>, at: seq<nat>, parse: string -> Option<Candidate>,
                           key: Candidate -> string) {
    && |at| == |cs| && (forall a, b :: 0 <= a < b < |at| ==> at[a] < at[b])
    && forall a :: 0 <= a < |at| ==> IsFirst(raws, cs[a], at[a], parse, key)
  }

  ghost predicate IsFirst(raws: seq<string>, c: Candidate, i: nat, parse: string -> Option<Candidate>, key: Candidate -> string) {
    && i < |raws| && parse(raws[i]) == Some(c)
    && forall k :: 0 <= k < i && parse(raws[k]).Some? ==> key(parse(raws[k]).value) != key(c)
  }

  lemma StillFirst(raws: seq<string>, c: Candidate, i: nat, parse: string -> Option<Candidate>, key: Candidate -> string)
    requires raws != [] && IsFirst(raws[..|raws| - 1], c, i, parse, key)
    ensures IsFirst(raws, c, i, parse, key)
  {
    var front := raws[..|raws| - 1];
    assert forall k :: 0 <= k < |front| ==> raws[k] == front[k];
  }

  /** Each candidate comes from the first reference with its key, and they come in the order of those. */
  lemma {:induction false} FirstsInOrder(raws: seq<string>, parse: string -> Option<Candidate>, key: Candidate -> string)
    returns (at: seq<nat>)
    ensures FirstsAt(raws, FirstOfEach(raws, parse, key), at, parse, key)
  {
    hide IsFirst;
    at := [];
    if raws != [] {
      var front := raws[..|raws| - 1];
      var earlier := FirstsInOrder(front, parse, key);
      var before, ref := FirstOfEach(front, parse, key), parse(raws[|raws| - 1]);
      forall a | 0 <= a < |earlier| ensures IsFirst(raws, before[a], earlier[a], parse, key) && earlier[a] < |front| {
        InFront(front, before[a], earlier[a], parse, key);
        StillFirst(raws, before[a], earlier[a], parse, key);
      }
      at := earlier;
      if !(ref == None || exists c <- before :: key(c) == key(ref.value)) {
        NewIsFirst(raws, ref.value, parse, key);
        at := earlier + [|front|];
      }
    }
  }

  lemma InFront(raws: seq<string>, c: Candidate, i: nat, parse: string -> Option<Candidate>, key: Candidate -> string)
    requires IsFirst(raws, c, i, parse, key)
    ensures i < |raws|
  {
  }

  lemma NewIsFirst(raws: seq<string>, c: Candidate, parse: string -> Option<Candidate>, key: Candidate -> string)
    requires raws != [] && parse(raws[|raws| - 1]) == Some(c)
    requires !exists d <- FirstOfEach(raws[..|raws| - 1], parse, key) :: key(d) == key(c)
    ensures IsFirst(raws, c, |raws| - 1, parse, key)
  {
    hide FirstOfEach;
    var front := raws[..|raws| - 1];
    forall k | 0 <= k < |front| && parse(raws[k]).Some? ensures key(parse(raws[k]).value) != key(c) {
      assert front[k] == raws[k];
      KeyIsCovered(front, parse, key, k);
    }
  }
}
