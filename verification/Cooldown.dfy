/** Per-provider cooldowns: exponential backoff with a failure window that resets the counts. */
module Cooldown {
  import opened Common

  datatype Reason = Auth | RateLimit | Billing | Timeout | Format | Overloaded | Unknown

  /** A point in time in nanoseconds; `Zero` is the unset time. */
  datatype Time = Zero | At(ns: int)

  const MS: int := 1_000_000
  const MINUTE: int := 60_000 * MS
  const HOUR: int := 60 * MINUTE

  /** The default failure window. */
  const FAILURE_WINDOW: int := 24 * HOUR

  function Pow(base: nat, exp: nat): nat {
    if exp == 0 then 1 else base * Pow(base, exp - 1)
  }

  /** min(1h, 1min * 5^min(n-1, 3)) */
  function StandardCooldown(errorCount: int): int {
    var n := Max(1, errorCount);
    var exp := Min(n - 1, 3);
    Min(3_600_000, 60_000 * Pow(5, exp)) * MS
  }

  /** min(24h, 5h * 2^min(n-1, 10)) */
  function BillingCooldown(billingErrorCount: int): int {
    var n := Max(1, billingErrorCount);
    var exp := Min(n - 1, 10);
    Min(24 * 60 * 60 * 1000, 5 * 60 * 60 * 1000 * Pow(2, exp)) * MS
  }

  /** The documented steps: 1, 5, 25 minutes, then the cap of one hour. */
  lemma {:induction false} StandardSteps(n: int)
    ensures StandardCooldown(n) == (if n <= 1 then MINUTE else if n == 2 then 5 * MINUTE else if n == 3 then 25 * MINUTE else HOUR)
  {
    assert Pow(5, 1) == 5 && Pow(5, 2) == 25 && Pow(5, 3) == 125;
  }

  lemma {:induction false} PowDoubles(k: nat, m: nat)
    requires k <= m
    ensures Pow(2, k) <= Pow(2, m)
  {
    if k < m {
      PowDoubles(k, m - 1);
    }
  }

  lemma SmallPowers()
    ensures Pow(2, 0) == 1 && Pow(2, 1) == 2 && Pow(2, 2) == 4 && Pow(2, 3) == 8
  {
  }

  /** The documented steps: 5, 10, 20 hours, then the cap of one day. */
  lemma {:induction false} BillingSteps(n: int)
    ensures BillingCooldown(n) == (if n <= 1 then 5 * HOUR else if n == 2 then 10 * HOUR else if n == 3 then 20 * HOUR else 24 * HOUR)
  {
    SmallPowers();
    hide Pow;
    if n >= 4 {
      PowDoubles(3, Min(n - 1, 10));
    }
  }

  // ---------------------------------------------------------------- one provider, as a value

  datatype Entry = Entry(
    errorCount: int, failureCounts: map<Reason, int>, cooldownEnd: Time,
    disabledUntil: Time, disabledReason: Option<Reason>, lastFailure: Time)

  const FRESH: Entry := Entry(0, map[], Zero, Zero, None, Zero)

  function Count(counts: map<Reason, int>, r: Reason): int {
    if r in counts then counts[r] else 0
  }

  function Total(counts: map<Reason, int>): int {
    Count(counts, Auth) + Count(counts, RateLimit) + Count(counts, Billing) + Count(counts, Timeout)
    + Count(counts, Format) + Count(counts, Overloaded) + Count(counts, Unknown)
  }

  predicate WindowPassed(e: Entry, now: int, window: int) {
    e.lastFailure.At? && now - e.lastFailure.ns > window
  }

  function Fail(e: Entry, now: int, reason: Reason, window: int): Entry {
    var e := if WindowPassed(e, now, window) then e.(errorCount := 0, failureCounts := map[]) else e;
    var errorCount := e.errorCount + 1;
    var counts := e.failureCounts[reason := Count(e.failureCounts, reason) + 1];
    var e := e.(errorCount := errorCount, failureCounts := counts, lastFailure := At(now));
    if reason == Billing then
      e.(disabledUntil := At(now + BillingCooldown(counts[Billing])), disabledReason := Some(Billing))
    else
      e.(cooldownEnd := At(now + StandardCooldown(errorCount)))
  }

  function Succeed(e: Entry): Entry {
    Entry(0, map[], Zero, Zero, None, e.lastFailure)
  }

  predicate Before(now: int, t: Time) { t.At? && now < t.ns }

  predicate Available(e: Entry, now: int) {
    !Before(now, e.disabledUntil) && !Before(now, e.cooldownEnd)
  }

  function Remaining(e: Entry, now: int): int {
    var disabled := if Before(now, e.disabledUntil) then e.disabledUntil.ns - now else 0;
    var cooling := if Before(now, e.cooldownEnd) then e.cooldownEnd.ns - now else 0;
    Max(disabled, cooling)
  }

  // ---------------------------------------------------------------- the tracker

  /** One provider's entry, updated in place. */
  class CooldownEntry {
    var errorCount: int
    var failureCounts: map<Reason, int>
    var cooldownEnd: Time
    var disabledUntil: Time
    var disabledReason: Option<Reason>
    var lastFailure: Time

    function State(): Entry
      reads this
    {
      Entry(errorCount, failureCounts, cooldownEnd, disabledUntil, disabledReason, lastFailure)
    }

    constructor ()
      ensures State() == FRESH
    {
      errorCount, failureCounts := 0, map[];
      cooldownEnd, disabledUntil, disabledReason, lastFailure := Zero, Zero, None, Zero;
    }

    /** The part of `MarkFailure` that updates the entry. */
    method Record(reason: Reason, now: int, failureWindow: int)
      modifies this
      ensures State() == Fail(old(State()), now, reason, failureWindow)
    {
      hide StandardCooldown, BillingCooldown;
      if lastFailure != Zero && now - lastFailure.ns > failureWindow {
        errorCount := 0;
        failureCounts := map[];
      }
      errorCount := errorCount + 1;
      failureCounts := failureCounts[reason := Count(failureCounts, reason) + 1];
      lastFailure := At(now);
      if reason == Billing {
        var billingCount := failureCounts[Billing];
        disabledUntil := At(now + BillingCooldown(billingCount));
        disabledReason := Some(Billing);
      } else {
        cooldownEnd := At(now + StandardCooldown(errorCount));
      }
    }
  }

  type Providers = map<string, Entry>

  function StateOf(v: Providers, provider: string): Entry {
    if provider in v then v[provider] else FRESH
  }

  class CooldownTracker {
    var entries: map<string, CooldownEntry>
    const failureWindow: int

    ghost predicate Valid()
      reads this
    {
      forall p, q :: p in entries && q in entries && p != q ==> entries[p] != entries[q]
    }

    ghost function View(): Providers
      reads this, entries.Values
    {
      map p | p in entries :: entries[p].State()
    }

    constructor ()
      ensures Valid() && View() == map[] && failureWindow == FAILURE_WINDOW && entries == map[]
    {
      entries := map[];
      failureWindow := FAILURE_WINDOW;
    }

    method GetOrCreate(provider: string) returns (entry: CooldownEntry)
      requires Valid()
      modifies this
      ensures Valid() && provider in entries && entries[provider] == entry
      ensures provider in old(entries) ==> entries == old(entries)
      ensures provider !in old(entries) ==> fresh(entry) && entry.State() == FRESH && entries == old(entries)[provider := entry]
    {
      if provider !in entries {
        entry := new CooldownEntry();
        entries := entries[provider := entry];
      } else {
        entry := entries[provider];
      }
    }

    method MarkFailure(provider: string, reason: Reason, now: int)
      requires Valid()
      modifies this, entries.Values
      ensures Valid() && fresh(entries.Values - old(entries.Values))
      ensures View() == old(View())[provider := Fail(StateOf(old(View()), provider), now, reason, failureWindow)]
    {
      hide Fail;
      var entry := GetOrCreate(provider);
      entry.Record(reason, now, failureWindow);
    }

    method MarkSuccess(provider: string)
      requires Valid()
      modifies entries.Values
      ensures Valid()
      ensures View() == if provider in old(View()) then old(View())[provider := Succeed(old(View())[provider])] else old(View())
    {
      if provider !in entries {
        return;
      }
      var entry := entries[provider];
      assert entry in entries.Values;
      entry.errorCount := 0;
      entry.failureCounts := map[];
      entry.cooldownEnd := Zero;
      entry.disabledUntil := Zero;
      entry.disabledReason := None;
      assert entry.State() == old(Succeed(entry.State()));
    }

    method IsAvailable(provider: string, now: int) returns (r: bool)
      ensures r == Available(StateOf(View(), provider), now)
    {
      if provider !in entries {
        return true;
      }
      var entry := entries[provider];
      if entry.disabledUntil != Zero && now < entry.disabledUntil.ns {
        return false;
      }
      if entry.cooldownEnd != Zero && now < entry.cooldownEnd.ns {
        return false;
      }
      return true;
    }

    method CooldownRemaining(provider: string, now: int) returns (remaining: int)
      ensures remaining == Remaining(StateOf(View(), provider), now)
    {
      if provider !in entries {
        return 0;
      }
      var entry := entries[provider];
      remaining := 0;
      if entry.disabledUntil != Zero && now < entry.disabledUntil.ns {
        var d := entry.disabledUntil.ns - now;
        if d > remaining {
          remaining := d;
        }
      }
      if entry.cooldownEnd != Zero && now < entry.cooldownEnd.ns {
        var d := entry.cooldownEnd.ns - now;
        if d > remaining {
          remaining := d;
        }
      }
    }

    method ErrorCount(provider: string) returns (n: int)
      ensures n == StateOf(View(), provider).errorCount
    {
      n := if provider in entries then entries[provider].errorCount else 0;
    }

    method FailureCount(provider: string, reason: Reason) returns (n: int)
      ensures n == Count(StateOf(View(), provider).failureCounts, reason)
    {
      n := if provider in entries then Count(entries[provider].failureCounts, reason) else 0;
    }
  }
}
