/** What a run owes to the sink's answers: two sinks that answer alike for a while take
    the dispatcher through the same actions up to the first call they may differ on. */
module Oracles {
  import opened Model
  import opened Delivery
  import opened Invariants
  import opened Conservation

  /** The write attempts among the actions. */
  function Attempted(log: seq<Action>): nat {
    if log == [] then 0 else Attempted(log[..|log| - 1]) + if log[|log| - 1].Suppressed? then 0 else 1
  }

  lemma {:induction false} AttemptedAppend(log: seq<Action>, a: Action)
    ensures Attempted(log + [a]) == Attempted(log) + if a.Suppressed? then 0 else 1
  {
    assert (log + [a])[..|log|] == log;
  }

  lemma {:induction false} AttemptedGrows(log: seq<Action>, m: nat)
    requires m <= |log|
    ensures Attempted(log[..m]) <= Attempted(log)
  {
    if m == |log| {
      assert log[..m] == log;
    } else {
      AttemptedGrows(log[..|log| - 1], m);
      assert log[..|log| - 1][..m] == log[..m];
    }
  }

  /** Action `m` of the log is write attempt number `k`. */
  predicate AttemptAt(log: seq<Action>, m: nat, k: nat) {
    m < |log| && !log[m].Suppressed? && Attempted(log[..m]) == k
  }

  lemma {:induction false} AttemptCounts(log: seq<Action>, m: nat, k: nat)
    requires AttemptAt(log, m, k)
    ensures k < Attempted(log)
  {
    assert log[..m + 1] == log[..m] + [log[m]];
    AttemptedAppend(log[..m], log[m]);
    AttemptedGrows(log, m + 1);
  }

  lemma {:induction false} AttemptIsUnique(log: seq<Action>, m: nat, n: nat, k: nat)
    requires AttemptAt(log, m, k) && AttemptAt(log, n, k)
    ensures m == n
  {
    if m < n {
      assert log[..n][..m] == log[..m];
      AttemptCounts(log[..n], m, k);
    } else if n < m {
      assert log[..m][..n] == log[..n];
      AttemptCounts(log[..m], n, k);
    }
  }

  // ----- Sinks that answer alike -----

  /** The oracles differ at most in the sink's answers from call `k` on. */
  ghost predicate SameUntil(a: Env, b: Env, k: nat) {
    a.hash == b.hash && a.cancelled == b.cancelled && forall i | 0 <= i < k :: a.accepts(i) == b.accepts(i)
  }

  /** The state has counted its attempts, and there are at most `k`. */
  ghost predicate Within(p: Progress, k: nat) {
    Attempted(p.log) == p.calls <= k
  }

  /** Up to the same action `m` the logs agree, and there each has attempt `k`, of the
      same event, the first with the answer of oracle `a`. */
  ghost predicate ForkAt(a: Env, k: nat, p: seq<Action>, q: seq<Action>, m: nat) {
    && AttemptAt(p, m, k) && AttemptAt(q, m, k)
    && p[..m] == q[..m] && p[m].event == q[m].event && (p[m].Wrote? <==> a.accepts(k))
  }

  ghost predicate Forks(a: Env, k: nat, p: seq<Action>, q: seq<Action>) {
    exists m: nat :: ForkAt(a, k, p, q, m)
  }

  lemma ForkStays(a: Env, k: nat, p: seq<Action>, q: seq<Action>, p2: seq<Action>, q2: seq<Action>)
    requires Forks(a, k, p, q) && p <= p2 && q <= q2
    ensures Forks(a, k, p2, q2)
  {
    var m: nat :| ForkAt(a, k, p, q, m);
    assert p2[..m] == p[..m] && q2[..m] == q[..m];
    assert ForkAt(a, k, p2, q2, m);
  }

  /** Delivering an event whose key is new starts with an attempt to write it. */
  lemma {:induction false} StartsWithAttempt(env: Env, p: Progress, g: Group, evs: seq<ChangeEvent>, acked: nat)
    requires evs != [] && env.KeyOf(evs[0]) !in p.seen
    ensures p.log + [if env.accepts(p.calls) then Wrote(evs[0]) else Failed(evs[0])]
            <= DeliverSuffix(env, p, g, evs, acked).p.log
  {
    if env.accepts(p.calls) {
      SuffixConserves(env, Accept(env, p, evs[0]), g, evs[1..], evs[0].sourcePos);
    }
  }

  lemma {:induction false} SuffixForks(a: Env, b: Env, k: nat, p: Progress, g: Group, evs: seq<ChangeEvent>,
                                       acked: nat)
    requires a.hash == b.hash && evs != [] && a.KeyOf(evs[0]) !in p.seen && Within(p, k) && p.calls == k
    ensures Forks(a, k, DeliverSuffix(a, p, g, evs, acked).p.log, DeliverSuffix(b, p, g, evs, acked).p.log)
  {
    var r, s, n := DeliverSuffix(a, p, g, evs, acked).p.log, DeliverSuffix(b, p, g, evs, acked).p.log, |p.log|;
    StartsWithAttempt(a, p, g, evs, acked);
    StartsWithAttempt(b, p, g, evs, acked);
    assert r[..n] == p.log && s[..n] == p.log;
    assert ForkAt(a, k, r, s, n);
  }

  lemma {:induction false} SuffixAgrees(a: Env, b: Env, k: nat, p: Progress, g: Group, evs: seq<ChangeEvent>,
                                        acked: nat)
    requires SameUntil(a, b, k) && Within(p, k)
    ensures var r, s := DeliverSuffix(a, p, g, evs, acked), DeliverSuffix(b, p, g, evs, acked);
            (r == s && Within(r.p, k)) || Forks(a, k, r.p.log, s.p.log)
    decreases |evs|
  {
    if evs == [] {
    } else {
      var ev := evs[0];
      if a.KeyOf(ev) in p.seen {
        AttemptedAppend(p.log, Suppressed(ev));
        SuffixAgrees(a, b, k, Suppress(p, ev), g, evs[1..], acked);
      } else if p.calls == k {
        SuffixForks(a, b, k, p, g, evs, acked);
      } else {
        AttemptedAppend(p.log, Wrote(ev));
        AttemptedAppend(p.log, Failed(ev));
        if a.accepts(p.calls) {
          assert Accept(a, p, ev) == Accept(b, p, ev);
          SuffixAgrees(a, b, k, Accept(a, p, ev), g, evs[1..], ev.sourcePos);
        }
      }
    }
  }

  lemma {:induction false} PassAgrees(a: Env, b: Env, k: nat, p: Progress, pending: seq<Group>)
    requires SameUntil(a, b, k) && Within(p, k)
    ensures var r, s := Pass(a, p, pending), Pass(b, p, pending);
            (r == s && Within(r.p, k)) || Forks(a, k, r.p.log, s.p.log)
    decreases |pending|
  {
    if pending == [] {
    } else if Held(p, pending[0]) {
      PassAgrees(a, b, k, p, pending[1..]);
    } else {
      var d, e := Delivery.DeliverGroup(a, p, pending[0]), Delivery.DeliverGroup(b, p, pending[0]);
      SuffixAgrees(a, b, k, p, pending[0], pending[0].events, 0);
      if d == e && Within(d.p, k) {
        PassAgrees(a, b, k, d.p, pending[1..]);
      } else {
        PassConserves(a, d.p, pending[1..]);
        PassConserves(b, e.p, pending[1..]);
        ForkStays(a, k, d.p.log, e.p.log, Pass(a, p, pending).p.log, Pass(b, p, pending).p.log);
      }
    }
  }

  lemma {:induction false} DrainGrows(env: Env, p: Progress, pending: seq<Group>, attempt: int, maxAttempts: int)
    requires attempt <= maxAttempts
    ensures Pass(env, p, pending).p.log <= Drain(env, p, pending, attempt, maxAttempts).p.log
  {
    var s := Pass(env, p, pending);
    if s.failed.Some? && attempt < maxAttempts && !env.cancelled(s.p.calls) {
      DrainConserves(env, s.p, s.next, attempt + 1, maxAttempts);
    }
  }

  lemma {:induction false} DrainAgrees(a: Env, b: Env, k: nat, p: Progress, pending: seq<Group>, attempt: int,
                                       maxAttempts: int)
    requires SameUntil(a, b, k) && Within(p, k)
    ensures var r, s := Drain(a, p, pending, attempt, maxAttempts), Drain(b, p, pending, attempt, maxAttempts);
            (r == s && Within(r.p, k)) || Forks(a, k, r.p.log, s.p.log)
    decreases maxAttempts - attempt + 1
  {
    if attempt > maxAttempts {
    } else {
      var r, s := Pass(a, p, pending), Pass(b, p, pending);
      PassAgrees(a, b, k, p, pending);
      if r == s && Within(r.p, k) {
        if r.failed.Some? && attempt < maxAttempts && !a.cancelled(r.p.calls) {
          DrainAgrees(a, b, k, r.p, r.next, attempt + 1, maxAttempts);
        }
      } else {
        DrainGrows(a, p, pending, attempt, maxAttempts);
        DrainGrows(b, p, pending, attempt, maxAttempts);
        ForkStays(a, k, r.p.log, s.p.log, Drain(a, p, pending, attempt, maxAttempts).p.log,
                  Drain(b, p, pending, attempt, maxAttempts).p.log);
      }
    }
  }

  lemma {:induction false} EventsAgree(a: Env, b: Env, k: nat, cfg: Config, d: DState, events: seq<ChangeEvent>)
    requires cfg.Valid() && SameUntil(a, b, k) && Within(d.p, k)
    ensures var r, s := DeliverEvents(a, cfg, d, events), DeliverEvents(b, cfg, d, events);
            (r == s && Within(r.d.p, k)) || Forks(a, k, r.d.p.log, s.d.p.log)
  {
    if events != [] {
      DrainAgrees(a, b, k, d.p, Groups(cfg, events), 1, cfg.maxAttempts);
    }
  }

  /** No call shortens the log. */
  lemma {:induction false} CallGrows(env: Env, cfg: Config, d: DState, c: Call)
    requires cfg.Valid()
    ensures Extends(d.p, CallResult(env, cfg, d, c).d.p)
  {
    ExtendsIsStable(env, d.p);
    CallKeeps(env, e => true, q => Extends(d.p, q), cfg, d, c);
  }

  lemma {:induction false} PlanAgrees(a: Env, b: Env, k: nat, cfg: Config, d: DState, batches: seq<seq<ChangeEvent>>)
    requires cfg.Valid() && SameUntil(a, b, k) && Within(d.p, k)
    ensures var r, s := DeliverPlan(a, cfg, d, batches), DeliverPlan(b, cfg, d, batches);
            (r == s && Within(r.d.p, k)) || Forks(a, k, r.d.p.log, s.d.p.log)
    decreases |batches|
  {
    if batches == [] {
    } else {
      var r, s := DeliverEvents(a, cfg, d, batches[0]), DeliverEvents(b, cfg, d, batches[0]);
      EventsAgree(a, b, k, cfg, d, batches[0]);
      if r == s && Within(r.d.p, k) {
        PlanAgrees(a, b, k, cfg, r.d, batches[1..]);
      } else {
        CallGrows(a, cfg, r.d, Planned(batches[1..]));
        CallGrows(b, cfg, s.d, Planned(batches[1..]));
        ForkStays(a, k, r.d.p.log, s.d.p.log, DeliverPlan(a, cfg, d, batches).d.p.log,
                  DeliverPlan(b, cfg, d, batches).d.p.log);
      }
    }
  }

  lemma {:induction false} CallAgrees(a: Env, b: Env, k: nat, cfg: Config, d: DState, c: Call)
    requires cfg.Valid() && SameUntil(a, b, k) && Within(d.p, k)
    ensures var r, s := CallResult(a, cfg, d, c), CallResult(b, cfg, d, c);
            (r == s && Within(r.d.p, k)) || Forks(a, k, r.d.p.log, s.d.p.log)
  {
    match c
    case Batched(events) => EventsAgree(a, b, k, cfg, d, events);
    case Planned(batches) => PlanAgrees(a, b, k, cfg, d, batches);
  }

  /** With two sinks that answer the first `k` calls alike, whole runs are the same, or
      their logs agree up to attempt `k` and both make it, of the same event. */
  lemma {:induction false} RunAgrees(a: Env, b: Env, k: nat, cfg: Config, calls: seq<Call>)
    requires cfg.Valid() && SameUntil(a, b, k)
    ensures var d, e := Run(a, cfg, calls), Run(b, cfg, calls);
            (d == e && Within(d.p, k)) || Forks(a, k, d.p.log, e.p.log)
  {
    if calls == [] {
    } else {
      var n := |calls| - 1;
      RunAgrees(a, b, k, cfg, calls[..n]);
      var d, e := Run(a, cfg, calls[..n]), Run(b, cfg, calls[..n]);
      if d == e && Within(d.p, k) {
        CallAgrees(a, b, k, cfg, d, calls[n]);
      } else {
        CallGrows(a, cfg, d, calls[n]);
        CallGrows(b, cfg, e, calls[n]);
        ForkStays(a, k, d.p.log, e.p.log, Run(a, cfg, calls).p.log, Run(b, cfg, calls).p.log);
      }
    }
  }

  lemma {:induction false} RunCounts(env: Env, cfg: Config, calls: seq<Call>)
    requires cfg.Valid()
    ensures Attempted(Run(env, cfg, calls).p.log) == Run(env, cfg, calls).p.calls
  {
    forall p: Progress, ev
      ensures Attempted(Suppress(p, ev).log) == Attempted(p.log)
      ensures Attempted(Accept(env, p, ev).log) == Attempted(Reject(p, ev).log) == Attempted(p.log) + 1
    {
      AttemptedAppend(p.log, Suppressed(ev));
      AttemptedAppend(p.log, Wrote(ev));
      AttemptedAppend(p.log, Failed(ev));
    }
    RunKeeps(env, e => true, (p: Progress) => Attempted(p.log) == p.calls, cfg, calls);
  }
}
