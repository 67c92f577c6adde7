/** The retry policy's backoff, and the work one dispatcher call can do. */
module Retry {
  import opened Model
  import opened Txn
  import opened Delivery
  import opened Conservation

  // ----- Backoff -----

  const MAX_DURATION: int := 0x7FFF_FFFF_FFFF_FFFF
  const WORD: int := 0x1_0000_0000_0000_0000

  predicate IsDuration(d: int) {
    -MAX_DURATION - 1 <= d <= MAX_DURATION
  }

  /** Doubling a 64-bit signed duration, with wrap-around. */
  function Doubled(d: int): (r: int)
    requires IsDuration(d)
    ensures IsDuration(r)
    ensures -MAX_DURATION - 1 <= 2 * d <= MAX_DURATION <==> r == 2 * d
  {
    if 2 * d > MAX_DURATION then 2 * d - WORD else if 2 * d < -MAX_DURATION - 1 then 2 * d + WORD else 2 * d
  }

  datatype RetryPolicy = RetryPolicy(maxAttempts: int, baseDelay: int, maxDelay: int) {
    predicate Valid() { IsDuration(baseDelay) && IsDuration(maxDelay) }

    function WithAttempts(attempts: int): RetryPolicy { this.(maxAttempts := attempts) }
  }

  /** The delay loop from doubling number `i` on. */
  function DelayFrom(p: RetryPolicy, delay: int, i: int, attempt: int): (r: int)
    requires p.Valid() && IsDuration(delay)
    ensures IsDuration(r)
    decreases attempt - i
  {
    if i >= attempt then delay
    else
      var next := Doubled(delay);
      if p.maxDelay > 0 && next >= p.maxDelay then p.maxDelay else DelayFrom(p, next, i + 1, attempt)
  }

  function Delay(p: RetryPolicy, attempt: int): int
    requires p.Valid()
  {
    if p.baseDelay <= 0 then 0 else DelayFrom(p, p.baseDelay, 1, attempt)
  }

  method NextDelay(p: RetryPolicy, attempt: int) returns (delay: int)
    requires p.Valid()
    ensures delay == Delay(p, attempt)
  {
    if p.baseDelay <= 0 {
      return 0;
    }
    delay := p.baseDelay;
    var i := 1;
    while i < attempt
      invariant IsDuration(delay) && DelayFrom(p, delay, i, attempt) == Delay(p, attempt)
      decreases attempt - i
    {
      delay := Doubled(delay);
      if p.maxDelay > 0 && delay >= p.maxDelay {
        return p.maxDelay;
      }
      i := i + 1;
    }
  }

  function Power(base: int, n: nat): int {
    if n == 0 then base else 2 * Power(base, n - 1)
  }

  lemma {:induction false} PowerShift(base: int, n: nat)
    ensures Power(2 * base, n) == Power(base, n + 1)
  {
    if n == 0 {
    } else {
      PowerShift(base, n - 1);
    }
  }

  lemma {:induction false} PowerGrows(base: int, m: nat, n: nat)
    requires base > 0 && m <= n
    ensures 0 < Power(base, m) <= Power(base, n)
  {
    if n == 0 {
    } else {
      PowerGrows(base, if m == n then m - 1 else m, n - 1);
    }
  }

  function MinInt(a: int, b: int): int {
    if a < b then a else b
  }

  /** The first doubling of `delay` that is at least `cap`. */
  function ReachCap(delay: int, cap: int): int
    requires delay > 0
    decreases cap - delay
  {
    if 2 * delay >= cap then 2 * delay else ReachCap(2 * delay, cap)
  }

  /** The doubling that reaches the cap fits in a 64-bit duration. */
  predicate NoOverflow(p: RetryPolicy) {
    p.baseDelay > 0 && p.maxDelay > 0 && ReachCap(p.baseDelay, p.maxDelay) <= MAX_DURATION
  }

  lemma {:induction false} DelayFromIsCapped(p: RetryPolicy, delay: int, i: int, attempt: int)
    requires p.Valid() && p.maxDelay > 0 && IsDuration(delay) && delay > 0 && i < attempt
    requires ReachCap(delay, p.maxDelay) <= MAX_DURATION
    ensures DelayFrom(p, delay, i, attempt) == MinInt(Power(delay, attempt - i), p.maxDelay)
    decreases attempt - i
  {
    PowerShift(delay, attempt - i - 1);
    if 2 * delay >= p.maxDelay {
      PowerGrows(2 * delay, 0, attempt - i - 1);
    } else if i + 1 == attempt {
    } else {
      DelayFromIsCapped(p, 2 * delay, i + 1, attempt);
    }
  }

  lemma {:induction false} OverflowGoesNegative(p: RetryPolicy, delay: int, i: int) returns (attempt: int)
    requires p.Valid() && p.maxDelay > 0 && IsDuration(delay) && delay > 0
    requires ReachCap(delay, p.maxDelay) > MAX_DURATION
    ensures attempt > i && DelayFrom(p, delay, i, attempt) < 0
    decreases p.maxDelay - delay
  {
    if 2 * delay >= p.maxDelay {
      attempt := i + 1;
      assert DelayFrom(p, Doubled(delay), i + 1, attempt) == Doubled(delay);
    } else {
      attempt := OverflowGoesNegative(p, 2 * delay, i + 1);
    }
  }

  /** From the second attempt on the delay is the doubled base, capped, for every
      attempt number, exactly when reaching the cap does not overflow. */
  lemma {:induction false} BackoffIsCappedDoubling(p: RetryPolicy)
    requires p.Valid() && p.baseDelay > 0 && p.maxDelay > 0
    ensures (forall attempt | attempt >= 2 :: Delay(p, attempt) == MinInt(Power(p.baseDelay, attempt - 1), p.maxDelay))
            <==> NoOverflow(p)
  {
    if NoOverflow(p) {
      forall attempt | attempt >= 2
        ensures Delay(p, attempt) == MinInt(Power(p.baseDelay, attempt - 1), p.maxDelay)
      {
        DelayFromIsCapped(p, p.baseDelay, 1, attempt);
      }
    } else {
      var attempt := OverflowGoesNegative(p, p.baseDelay, 1);
      PowerGrows(p.baseDelay, 0, attempt - 1);
      assert Delay(p, attempt) < 0;
    }
  }

  /** The first attempt waits for the base even when that is above the cap, and without a
      positive base nothing ever waits. */
  lemma FirstDelayIsBase(p: RetryPolicy, attempt: int)
    requires p.Valid()
    ensures p.baseDelay <= 0 ==> Delay(p, attempt) == 0
    ensures p.baseDelay > 0 && attempt <= 1 ==> Delay(p, attempt) == p.baseDelay
  {
  }

  lemma {:induction false} PowerAdds(a: int, words: int, n: nat) returns (more: int)
    ensures Power(a + words * WORD, n) == Power(a, n) + more * WORD
  {
    if n == 0 {
      more := words;
    } else {
      var half := PowerAdds(a, words, n - 1);
      more := 2 * half;
    }
  }

  lemma {:induction false} UncappedFrom(p: RetryPolicy, delay: int, i: int, attempt: int) returns (words: int)
    requires p.Valid() && p.maxDelay <= 0 && IsDuration(delay) && i <= attempt
    ensures DelayFrom(p, delay, i, attempt) == Power(delay, attempt - i) + words * WORD
    decreases attempt - i
  {
    if i == attempt {
      words := 0;
    } else {
      var n := attempt - i - 1;
      var wrapped := if Doubled(delay) == 2 * delay then 0 else if 2 * delay > MAX_DURATION then -1 else 1;
      var rest := UncappedFrom(p, Doubled(delay), i + 1, attempt);
      var more := PowerAdds(2 * delay, wrapped, n);
      PowerShift(delay, n);
      words := rest + more;
    }
  }

  /** Without a cap the delay is the doubled base in 64-bit arithmetic, for every attempt
      number: in range, and off by whole words only. */
  lemma {:induction false} UncappedDoublingWraps(p: RetryPolicy, attempt: int) returns (words: int)
    requires p.Valid() && p.baseDelay > 0 && p.maxDelay <= 0 && attempt >= 1
    ensures IsDuration(Delay(p, attempt)) && Delay(p, attempt) == Power(p.baseDelay, attempt - 1) + words * WORD
  {
    words := UncappedFrom(p, p.baseDelay, 1, attempt);
  }

  /** A cap of at most half the range can never overflow. */
  lemma {:induction false} HalfRangeCapIsSafe(p: RetryPolicy, delay: int)
    requires 0 < delay && 0 < p.maxDelay <= MAX_DURATION / 2 && delay <= MAX_DURATION / 2
    ensures ReachCap(delay, p.maxDelay) <= MAX_DURATION
    decreases p.maxDelay - delay
  {
    if 2 * delay >= p.maxDelay {
    } else {
      HalfRangeCapIsSafe(p, 2 * delay);
    }
  }

  /** With the base within the cap, delays never shrink and never pass the cap. */
  lemma {:induction false} BackoffMonotone(p: RetryPolicy, a: int, b: int)
    requires p.Valid() && NoOverflow(p) && p.baseDelay <= p.maxDelay && 1 <= a <= b
    ensures 0 < Delay(p, a) <= Delay(p, b) <= p.maxDelay
  {
    BackoffIsCappedDoubling(p);
    PowerGrows(p.baseDelay, 0, a - 1);
    PowerGrows(p.baseDelay, a - 1, b - 1);
    assert Power(p.baseDelay, 0) == p.baseDelay;
  }

  // ----- Bounded work -----

  function TotalBackoff(p: RetryPolicy, waits: nat): int
    requires p.Valid()
  {
    if waits == 0 then 0 else TotalBackoff(p, waits - 1) + Delay(p, waits)
  }

  lemma {:induction false} TotalBackoffBound(p: RetryPolicy, waits: nat)
    requires p.Valid() && NoOverflow(p) && p.baseDelay <= p.maxDelay
    ensures TotalBackoff(p, waits) <= waits * p.maxDelay
  {
    if waits == 0 {
    } else {
      TotalBackoffBound(p, waits - 1);
      BackoffMonotone(p, waits, waits);
      assert waits * p.maxDelay == (waits - 1) * p.maxDelay + p.maxDelay;
    }
  }

  function Failures(log: seq<Action>): nat {
    if log == [] then 0 else Failures(log[..|log| - 1]) + if log[|log| - 1].Failed? then 1 else 0
  }

  lemma {:induction false} FailuresAppend(log: seq<Action>, a: Action)
    ensures Failures(log + [a]) == Failures(log) + if a.Failed? then 1 else 0
  {
    assert (log + [a])[..|log|] == log;
  }

  lemma {:induction false} SuffixCalls(env: Env, p: Progress, g: Group, evs: seq<ChangeEvent>, acked: nat)
    ensures DeliverSuffix(env, p, g, evs, acked).p.calls <= p.calls + |evs|
    decreases |evs|
  {
    if evs == [] {
    } else {
      var ev := evs[0];
      if env.KeyOf(ev) in p.seen {
        SuffixCalls(env, Suppress(p, ev), g, evs[1..], acked);
      } else if env.accepts(p.calls) {
        SuffixCalls(env, Accept(env, p, ev), g, evs[1..], ev.sourcePos);
      }
    }
  }

  lemma {:induction false} SuffixFailures(env: Env, p: Progress, g: Group, evs: seq<ChangeEvent>, acked: nat)
    ensures var r := DeliverSuffix(env, p, g, evs, acked);
            Failures(r.p.log) == Failures(p.log) + if r.ok then 0 else 1
    decreases |evs|
  {
    if evs == [] {
    } else {
      var ev := evs[0];
      if env.KeyOf(ev) in p.seen {
        FailuresAppend(p.log, Suppressed(ev));
        SuffixFailures(env, Suppress(p, ev), g, evs[1..], acked);
      } else if env.accepts(p.calls) {
        FailuresAppend(p.log, Wrote(ev));
        SuffixFailures(env, Accept(env, p, ev), g, evs[1..], ev.sourcePos);
      } else {
        FailuresAppend(p.log, Failed(ev));
      }
    }
  }

  /** In one pass a group fails at most once. */
  lemma {:induction false} PassWork(env: Env, p: Progress, pending: seq<Group>)
    ensures var r := Pass(env, p, pending);
            && r.p.calls <= p.calls + EventCount(pending)
            && Failures(r.p.log) <= Failures(p.log) + |r.next|
            && |r.next| <= |pending| && EventCount(r.next) <= EventCount(pending)
    decreases |pending|
  {
    if pending == [] {
    } else {
      var g, r := pending[0], Pass(env, p, pending);
      if Held(p, g) {
        PassWork(env, p, pending[1..]);
        assert r.next[1..] == Pass(env, p, pending[1..]).next;
      } else {
        var d := Delivery.DeliverGroup(env, p, g);
        SuffixCalls(env, p, g, g.events, 0);
        SuffixFailures(env, p, g, g.events, 0);
        PassWork(env, d.p, pending[1..]);
        if !d.ok {
          assert r.next[1..] == Pass(env, d.p, pending[1..]).next;
        }
      }
    }
  }

  function Times(k: nat, n: nat): nat {
    if k == 0 then 0 else n + Times(k - 1, n)
  }

  lemma {:induction false} TimesIsProduct(k: nat, n: nat)
    ensures Times(k, n) == k * n
  {
    if k == 0 {
    } else {
      TimesIsProduct(k - 1, n);
      assert k * n == (k - 1) * n + n;
    }
  }

  lemma {:induction false} DrainWork(env: Env, p: Progress, pending: seq<Group>, attempt: int, maxAttempts: int,
                                     events: nat, groups: nat)
    requires attempt <= maxAttempts + 1 && EventCount(pending) <= events && |pending| <= groups
    ensures var r, left := Drain(env, p, pending, attempt, maxAttempts), maxAttempts - attempt + 1;
            && r.p.calls <= p.calls + Times(left, events)
            && Failures(r.p.log) <= Failures(p.log) + Times(left, groups)
            && (r.waits == 0 || r.waits <= left - 1)
            && (r.verdict == SinkError ==> r.waits == left - 1)
    decreases maxAttempts - attempt + 1
  {
    if attempt > maxAttempts {
    } else {
      var s := Pass(env, p, pending);
      PassWork(env, p, pending);
      if s.failed.Some? && attempt < maxAttempts && !env.cancelled(s.p.calls) {
        DrainWork(env, s.p, s.next, attempt + 1, maxAttempts, events, groups);
      }
    }
  }

  lemma {:induction false} GroupsCount(cfg: Config, events: seq<ChangeEvent>)
    requires cfg.Valid() && events != []
    ensures EventCount(Groups(cfg, events)) == |events|
    ensures |Groups(cfg, events)| <= |events|
  {
    var size := if cfg.groupSize.Some? then cfg.groupSize.value else |events|;
    assert cfg.groupSize.None? ==> Chunks(events, size) == [events];
    ChunksRoundTrip(events, size);
    CountFlat(Chunks(events, size));
  }

  lemma {:induction false} CountFlat(chunks: seq<seq<ChangeEvent>>)
    requires forall i | 0 <= i < |chunks| :: chunks[i] != []
    ensures EventCount(ToGroups(chunks)) == |Flatten(chunks)|
    ensures |chunks| <= |Flatten(chunks)|
  {
    if chunks == [] {
    } else {
      CountFlat(chunks[1..]);
      assert ToGroups(chunks)[1..] == ToGroups(chunks[1..]);
    }
  }

  /** One call makes at most `maxAttempts` writes per event, records at most
      `maxAttempts` failures per group, and sleeps at most `maxAttempts - 1` times
      the cap in all; it reports a sink error only after the whole budget. */
  lemma {:induction false} BoundedWork(env: Env, cfg: Config, policy: RetryPolicy, d: DState, events: seq<ChangeEvent>)
    requires cfg.Valid() && cfg.maxAttempts >= 1 && events != []
    requires policy.Valid() && NoOverflow(policy) && policy.baseDelay <= policy.maxDelay
    ensures var r := DeliverEvents(env, cfg, d, events);
            && r.d.p.calls - d.p.calls <= cfg.maxAttempts * |events|
            && Failures(r.d.p.log) - Failures(d.p.log) <= cfg.maxAttempts * |Groups(cfg, events)|
            && (r.verdict == SinkError ==> r.waits == cfg.maxAttempts - 1)
            && TotalBackoff(policy, r.waits) <= (cfg.maxAttempts - 1) * policy.maxDelay
  {
    GroupsCount(cfg, events);
    DrainWork(env, d.p, Groups(cfg, events), 1, cfg.maxAttempts, |events|, |Groups(cfg, events)|);
    TimesIsProduct(cfg.maxAttempts, |events|);
    TimesIsProduct(cfg.maxAttempts, |Groups(cfg, events)|);
    var waits := DeliverEvents(env, cfg, d, events).waits;
    TotalBackoffBound(policy, waits);
    ScaleMonotone(waits, cfg.maxAttempts - 1, policy.maxDelay);
  }

  lemma ScaleMonotone(a: nat, b: nat, cap: nat)
    requires a <= b
    ensures a * cap <= b * cap
  {
  }
}
