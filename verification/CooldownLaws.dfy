/** Safety of the cooldown state machine over whole runs, and exactly which failure windows
    are safe. */
module CooldownLaws {
  import opened Common
  import opened Cooldown

  /** Later or equal, the unset time being earliest. */
  predicate NotEarlier(t: Time, t': Time) {
    t.At? ==> t'.At? && t.ns <= t'.ns
  }

  ghost predicate CountsAgree(e: Entry) {
    e.errorCount == Total(e.failureCounts) && forall r <- e.failureCounts :: e.failureCounts[r] >= 0
  }

  /** Both ends lie within the cooldown that the current counts would give. */
  ghost predicate EndsBounded(e: Entry) {
    && (e.cooldownEnd.At? ==> e.lastFailure.At? && e.cooldownEnd.ns <= e.lastFailure.ns + StandardCooldown(e.errorCount))
    && (e.disabledUntil.At? ==>
          e.lastFailure.At? && e.disabledUntil.ns <= e.lastFailure.ns + BillingCooldown(Count(e.failureCounts, Billing)))
  }

  ghost predicate Inv(e: Entry) { CountsAgree(e) && EndsBounded(e) }

  predicate ClockOk(e: Entry, now: int) { e.lastFailure.At? ==> e.lastFailure.ns <= now }

  /** Windows that are long enough: a reset billing backoff (5h) must not undercut an
      unexpired one (24h). */
  predicate SafeWindow(window: int) { window + 1 >= 19 * HOUR }

  lemma {:induction false} FailKeepsCounts(e: Entry, now: int, reason: Reason, window: int)
    requires CountsAgree(e)
    ensures CountsAgree(Fail(e, now, reason, window))
  {
    hide StandardCooldown, BillingCooldown;
    var counts := if WindowPassed(e, now, window) then map[] else e.failureCounts;
    OneMore(counts, reason);
  }

  lemma OneMore(counts: map<Reason, int>, reason: Reason)
    ensures Total(counts[reason := Count(counts, reason) + 1]) == Total(counts) + 1
  {
    var counts' := counts[reason := Count(counts, reason) + 1];
    assert forall r :: Count(counts', r) == Count(counts, r) + (if r == reason then 1 else 0);
  }

  lemma {:induction false} FailKeepsInv(e: Entry, now: int, reason: Reason, window: int)
    requires Inv(e) && ClockOk(e, now) && SafeWindow(window)
    ensures Inv(Fail(e, now, reason, window))
  {
    hide CountsAgree, EndsBounded, Fail;
    FailKeepsCounts(e, now, reason, window);
    FailKeepsBounds(e, now, reason, window);
  }

  lemma {:induction false} FailKeepsBounds(e: Entry, now: int, reason: Reason, window: int)
    requires EndsBounded(e) && ClockOk(e, now) && SafeWindow(window)
    ensures EndsBounded(Fail(e, now, reason, window))
  {
    hide StandardCooldown, BillingCooldown;
    var e' := Fail(e, now, reason, window);
    StandardSteps(e.errorCount);
    StandardSteps(e'.errorCount);
    BillingSteps(Count(e.failureCounts, Billing));
    BillingSteps(Count(e'.failureCounts, Billing));
  }

  lemma SucceedKeepsInv(e: Entry)
    requires Inv(e)
    ensures Inv(Succeed(e))
  {
  }

  /** A further failure only ever extends: neither end moves earlier, across resets too. */
  lemma {:induction false} FailureNeverShortens(e: Entry, now: int, reason: Reason, window: int)
    requires Inv(e) && ClockOk(e, now) && SafeWindow(window)
    ensures var e' := Fail(e, now, reason, window);
            NotEarlier(e.cooldownEnd, e'.cooldownEnd) && NotEarlier(e.disabledUntil, e'.disabledUntil)
  {
    hide StandardCooldown, BillingCooldown;
    var e' := Fail(e, now, reason, window);
    StandardSteps(e.errorCount);
    StandardSteps(e'.errorCount);
    BillingSteps(Count(e.failureCounts, Billing));
    BillingSteps(Count(e'.failureCounts, Billing));
  }

  /** The absolute caps. */
  lemma EndsCapped(e: Entry)
    requires EndsBounded(e)
    ensures e.cooldownEnd.At? ==> e.cooldownEnd.ns <= e.lastFailure.ns + HOUR
    ensures e.disabledUntil.At? ==> e.disabledUntil.ns <= e.lastFailure.ns + 24 * HOUR
  {
    hide StandardCooldown, BillingCooldown;
    StandardSteps(e.errorCount);
    BillingSteps(Count(e.failureCounts, Billing));
  }

  // ---------------------------------------------------------------- reading

  /** `CooldownRemaining` is zero exactly when the provider is available. */
  lemma RemainingZeroIffAvailable(e: Entry, now: int)
    ensures Remaining(e, now) >= 0 && (Remaining(e, now) == 0 <==> Available(e, now))
  {
  }

  /** And it is exact: left alone, the provider becomes available when it has passed, not before. */
  lemma RemainingIsExact(e: Entry, now: int, later: int)
    requires now <= later
    ensures Available(e, later) <==> later - now >= Remaining(e, now)
  {
  }

  // ---------------------------------------------------------------- whole runs

  datatype Event = Failure(at: int, reason: Reason) | Success(at: int)

  function Replay(e: Entry, evs: seq<Event>, window: int): Entry
    decreases |evs|
  {
    if evs == [] then e
    else Replay(if evs[0].Failure? then Fail(e, evs[0].at, evs[0].reason, window) else Succeed(e), evs[1..], window)
  }

  /** The clock does not run backwards. */
  predicate Monotone(evs: seq<Event>, from: Time) {
    evs != [] ==> (from.At? ==> from.ns <= evs[0].at) && Monotone(evs[1..], At(evs[0].at))
  }

  lemma {:induction false} ReplayKeepsInv(e: Entry, evs: seq<Event>, from: Time, window: int)
    requires Inv(e) && SafeWindow(window) && Monotone(evs, from)
    requires e.lastFailure.At? ==> from.At? && e.lastFailure.ns <= from.ns
    ensures Inv(Replay(e, evs, window))
    ensures var last := Replay(e, evs, window).lastFailure;
            last.At? ==> last.ns <= if evs == [] then (if from.At? then from.ns else last.ns) else evs[|evs| - 1].at
    decreases |evs|
  {
    hide Inv, Fail;
    if evs != [] {
      var ev := evs[0];
      var e' := if ev.Failure? then Fail(e, ev.at, ev.reason, window) else Succeed(e);
      if ev.Failure? {
        FailKeepsInv(e, ev.at, ev.reason, window);
        FailSetsLast(e, ev.at, ev.reason, window);
      } else {
        SucceedKeepsInv(e);
      }
      ReplayKeepsInv(e', evs[1..], At(ev.at), window);
    }
  }

  lemma FailSetsLast(e: Entry, now: int, reason: Reason, window: int)
    ensures Fail(e, now, reason, window).lastFailure == At(now)
  {
  }

  /** In every state a provider can reach: the error count is the sum of the failure counts,
      both ends are capped, and one more failure extends them. */
  lemma EveryReachableStateIsSafe(evs: seq<Event>, now: int, reason: Reason, window: int)
    requires SafeWindow(window) && Monotone(evs + [Failure(now, reason)], Zero)
    ensures var e := Replay(FRESH, evs, window);
            var e' := Fail(e, now, reason, window);
            && CountsAgree(e)
            && (e.cooldownEnd.At? ==> e.lastFailure.At? && e.cooldownEnd.ns <= e.lastFailure.ns + HOUR)
            && (e.disabledUntil.At? ==> e.lastFailure.At? && e.disabledUntil.ns <= e.lastFailure.ns + 24 * HOUR)
            && NotEarlier(e.cooldownEnd, e'.cooldownEnd) && NotEarlier(e.disabledUntil, e'.disabledUntil)
  {
    hide Fail, NotEarlier, StandardCooldown, BillingCooldown;
    MonotonePrefix(evs, now, reason, Zero);
    ReplayKeepsInv(FRESH, evs, Zero, window);
    var e := Replay(FRESH, evs, window);
    EndsCapped(e);
    FailureNeverShortens(e, now, reason, window);
  }

  lemma {:induction false} MonotonePrefix(evs: seq<Event>, now: int, reason: Reason, from: Time)
    requires Monotone(evs + [Failure(now, reason)], from)
    ensures Monotone(evs, from)
    ensures evs != [] ==> evs[|evs| - 1].at <= now
    ensures evs == [] && from.At? ==> from.ns <= now
  {
    if evs == [] {
      assert evs + [Failure(now, reason)] == [Failure(now, reason)];
    } else {
      assert (evs + [Failure(now, reason)])[1..] == evs[1..] + [Failure(now, reason)];
      MonotonePrefix(evs[1..], now, reason, At(evs[0].at));
    }
  }

  // ---------------------------------------------------------------- which windows are safe

  /** No run, and no failure after it, ever brings a provider back earlier. */
  ghost predicate NeverShortens(window: int) {
    forall evs, now, reason :: Monotone(evs + [Failure(now, reason)], Zero) ==>
                                 var e := Replay(FRESH, evs, window);
                                 var e' := Fail(e, now, reason, window);
                                 NotEarlier(e.cooldownEnd, e'.cooldownEnd) && NotEarlier(e.disabledUntil, e'.disabledUntil)
  }

  /** Four billing failures at once disable a provider for a day. */
  lemma {:induction false} FourBillingFailures(window: int)
    requires window >= 0
    ensures var evs := [Failure(0, Billing), Failure(0, Billing), Failure(0, Billing), Failure(0, Billing)];
            var e := Replay(FRESH, evs, window); e.disabledUntil == At(24 * HOUR) && e.lastFailure == At(0)
  {
    var b := Failure(0, Billing);
    var e1 := Fail(FRESH, 0, Billing, window);
    var e2 := Fail(e1, 0, Billing, window);
    var e3 := Fail(e2, 0, Billing, window);
    var e4 := Fail(e3, 0, Billing, window);
    BillingSteps(4);
    assert e4.failureCounts[Billing] == 4;
    assert [b, b, b, b][1..] == [b, b, b] && [b, b, b][1..] == [b, b] && [b, b][1..] == [b] && [b][1..] == [];
  }

  /** The window is safe exactly when it is at least 19 hours (less one tick): the configured
      24 hours are. */
  lemma SafeWindowIsExact(window: int)
    requires window >= 0
    ensures NeverShortens(window) <==> SafeWindow(window)
  {
    if SafeWindow(window) {
      forall evs, now, reason | Monotone(evs + [Failure(now, reason)], Zero)
        ensures var e := Replay(FRESH, evs, window);
                var e' := Fail(e, now, reason, window);
                NotEarlier(e.cooldownEnd, e'.cooldownEnd) && NotEarlier(e.disabledUntil, e'.disabledUntil)
      {
        EveryReachableStateIsSafe(evs, now, reason, window);
      }
    } else {
      hide Replay;
      var b := Failure(0, Billing);
      var evs, now := [b, b, b, b], window + 1;
      FourBillingFailures(window);
      MonotoneBurst(now);
      var e := Replay(FRESH, evs, window);
      BillingSteps(1);
      assert Fail(e, now, Billing, window).disabledUntil == At(now + 5 * HOUR);
      assert !NotEarlier(e.disabledUntil, Fail(e, now, Billing, window).disabledUntil);
    }
  }

  lemma MonotoneBurst(now: int)
    requires now >= 0
    ensures var b := Failure(0, Billing); Monotone([b, b, b, b] + [Failure(now, Billing)], Zero)
  {
    var b, c := Failure(0, Billing), Failure(now, Billing);
    assert [b, b, b, b] + [c] == [b, b, b, b, c];
    assert [b, b, b, b, c][1..] == [b, b, b, c] && [b, b, b, c][1..] == [b, b, c] && [b, b, c][1..] == [b, c] && [b, c][1..] == [c] && [c][1..] == [];
    assert Monotone([c], At(0));
    assert Monotone([b, c], At(0));
    assert Monotone([b, b, c], At(0));
    assert Monotone([b, b, b, c], At(0));
  }

  lemma ConfiguredWindowIsSafe()
    ensures SafeWindow(FAILURE_WINDOW) && NeverShortens(FAILURE_WINDOW)
  {
    SafeWindowIsExact(FAILURE_WINDOW);
  }

  // ---------------------------------------------------------------- the record of a run, exactly

  /** The failures at the end of a run, with no success among them and no pause longer than the window
      between them, or between the last of them and `next`. */
  function Streak(evs: seq<Event>, next: int, window: int): seq<Event> {
    if evs == [] then []
    else
      var last := evs[|evs| - 1];
      if last.Success? || next - last.at > window then [] else Streak(evs[..|evs| - 1], last.at, window) + [last]
  }

  /** How many of these failures are of one kind. */
  function Tally(evs: seq<Event>, r: Reason): nat {
    if evs == [] then 0 else Tally(evs[..|evs| - 1], r) + if evs[|evs| - 1].Failure? && evs[|evs| - 1].reason == r then 1 else 0
  }

  function After(e: Entry, ev: Event, window: int): Entry {
    if ev.Failure? then Fail(e, ev.at, ev.reason, window) else Succeed(e)
  }

  lemma {:induction false} ReplayGrows(e: Entry, evs: seq<Event>, ev: Event, window: int)
    ensures Replay(e, evs + [ev], window) == After(Replay(e, evs, window), ev, window)
    decreases |evs|
  {
    hide Fail, Succeed;
    if evs == [] {
      assert evs + [ev] == [ev] && [ev][1..] == [];
    } else {
      assert (evs + [ev])[1..] == evs[1..] + [ev];
      ReplayGrows(After(e, evs[0], window), evs[1..], ev, window);
    }
  }

  lemma TallyGrows(s: seq<Event>, ev: Event, r: Reason)
    ensures Tally(s + [ev], r) == Tally(s, r) + if ev.Failure? && ev.reason == r then 1 else 0
  {
    assert (s + [ev])[..|s|] == s;
  }

  /** The entry has the failures of `s` on record, and no others. */
  ghost predicate Records(e: Entry, s: seq<Event>) {
    e.errorCount == |s| && forall r :: Count(e.failureCounts, r) == Tally(s, r)
  }

  lemma OneMoreRecorded(e: Entry, s: seq<Event>, now: int, reason: Reason, window: int)
    requires if WindowPassed(e, now, window) then s == [] else Records(e, s)
    ensures var e' := Fail(e, now, reason, window); Records(e', s + [Failure(now, reason)]) && e'.lastFailure == At(now)
  {
    hide StandardCooldown, BillingCooldown, Tally;
    var e', s' := Fail(e, now, reason, window), s + [Failure(now, reason)];
    forall r ensures Count(e'.failureCounts, r) == Tally(s', r) {
      TallyGrows(s, Failure(now, reason), r);
      NoTally(r);
    }
  }

  lemma NoTally(r: Reason)
    ensures Tally([], r) == 0
  {
  }

  lemma NothingRecorded(e: Entry)
    requires e.errorCount == 0 && e.failureCounts == map[]
    ensures Records(e, [])
  {
  }

  /** What the next failure finds on record is the streak it continues. */
  lemma {:induction false} RecordIsStreak(evs: seq<Event>, next: int, window: int)
    ensures var e, s := Replay(FRESH, evs, window), Streak(evs, next, window);
            if WindowPassed(e, next, window) then s == [] else Records(e, s)
  {
    hide Fail, Replay, Records;
    if evs == [] {
      NothingReplayed(window);
      NothingRecorded(FRESH);
    } else {
      var front, last := evs[..|evs| - 1], evs[|evs| - 1];
      assert evs == front + [last];
      ReplayGrows(FRESH, front, last, window);
      if last.Failure? {
        RecordIsStreak(front, last.at, window);
        OneMoreRecorded(Replay(FRESH, front, window), Streak(front, last.at, window), last.at, last.reason, window);
      } else {
        NothingRecorded(Replay(FRESH, evs, window));
      }
    }
  }

  lemma NothingReplayed(window: int)
    ensures Replay(FRESH, [], window) == FRESH
  {
  }

  /** The whole entry after any run that ends in a failure. The counts are those of the streak with the new
      failure. A billing failure disables for 5, 10, 20 and then 24 hours by the number of billing failures in
      the streak; any other cools down for 1, 5, 25 and then 60 minutes by the number of all failures in it.
      The other end stays. */
  lemma {:induction false} FailureIsExact(evs: seq<Event>, now: int, reason: Reason, window: int)
    ensures var was, e := Replay(FRESH, evs, window), Replay(FRESH, evs + [Failure(now, reason)], window);
            var s := Streak(evs, now, window);
            var n, b := |s| + 1, Tally(s, Billing) + 1;
            && e.lastFailure == At(now) && e.errorCount == n
            && (forall r :: Count(e.failureCounts, r) == Tally(s, r) + if r == reason then 1 else 0)
            && (reason == Billing ==>
                  && e.disabledUntil == At(now + if b == 1 then 18_000_000_000_000 else if b == 2 then 36_000_000_000_000
                                           else if b == 3 then 72_000_000_000_000 else 86_400_000_000_000)
                  && e.disabledReason == Some(Billing) && e.cooldownEnd == was.cooldownEnd)
            && (reason != Billing ==>
                  && e.cooldownEnd == At(now + if n == 1 then 60_000_000_000 else if n == 2 then 300_000_000_000
                                         else if n == 3 then 1_500_000_000_000 else 3_600_000_000_000)
                  && e.disabledUntil == was.disabledUntil && e.disabledReason == was.disabledReason)
  {
    hide StandardCooldown, BillingCooldown, Replay, Records, Tally;
    ReplayGrows(FRESH, evs, Failure(now, reason), window);
    RecordIsStreak(evs, now, window);
    var was, s := Replay(FRESH, evs, window), Streak(evs, now, window);
    OneMoreRecorded(was, s, now, reason, window);
    var e := Fail(was, now, reason, window);
    RecordedIs(e, s, Failure(now, reason));
    StandardSteps(e.errorCount);
    BillingSteps(Count(e.failureCounts, Billing));
  }

  lemma RecordedIs(e: Entry, s: seq<Event>, ev: Event)
    requires ev.Failure? && Records(e, s + [ev])
    ensures e.errorCount == |s| + 1 && forall r :: Count(e.failureCounts, r) == Tally(s, r) + if r == ev.reason then 1 else 0
  {
    hide Tally;
    forall r ensures Tally(s + [ev], r) == Tally(s, r) + if r == ev.reason then 1 else 0 {
      TallyGrows(s, ev, r);
    }
  }

  /** And after any run that ends in a success: a clean record, except for when it failed last. */
  lemma SuccessIsExact(evs: seq<Event>, now: int, window: int)
    ensures var was, e := Replay(FRESH, evs, window), Replay(FRESH, evs + [Success(now)], window);
            && e.errorCount == 0 && (forall r :: Count(e.failureCounts, r) == 0)
            && e.cooldownEnd == Zero && e.disabledUntil == Zero && e.disabledReason == None && e.lastFailure == was.lastFailure
  {
    hide Replay;
    ReplayGrows(FRESH, evs, Success(now), window);
  }

  /** A provider is out exactly while one of its ends lies ahead. */
  lemma AvailableIffEndsPassed(e: Entry, now: int)
    ensures Available(e, now) <==> (e.disabledUntil.At? ==> e.disabledUntil.ns <= now) && (e.cooldownEnd.At? ==> e.cooldownEnd.ns <= now)
  {
  }
}
