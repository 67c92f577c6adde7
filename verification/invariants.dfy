/** What every action of the dispatcher keeps, every run of the dispatcher keeps;
    at-most-once delivery over all runs is the first use. */
module Invariants {
  import opened Model
  import opened Txn
  import opened Delivery

  /** `inv` survives each thing the dispatcher can do with an acceptable event. */
  ghost predicate Stable(env: Env, ok: ChangeEvent -> bool, inv: Progress -> bool) {
    && (forall p, ev {:trigger inv(Suppress(p, ev))} ::
          ok(ev) && inv(p) && env.KeyOf(ev) in p.seen ==> inv(Suppress(p, ev)))
    && (forall p, ev {:trigger inv(Accept(env, p, ev))} ::
          ok(ev) && inv(p) && env.KeyOf(ev) !in p.seen ==> inv(Accept(env, p, ev)))
    && (forall p, ev {:trigger inv(Reject(p, ev))} ::
          ok(ev) && inv(p) && env.KeyOf(ev) !in p.seen ==> inv(Reject(p, ev)))
    && (forall p, txnId, txnSeq {:trigger inv(Release(p, txnId, txnSeq))} ::
          inv(p) ==> inv(Release(p, txnId, txnSeq)))
  }

  ghost predicate All(ok: ChangeEvent -> bool, events: seq<ChangeEvent>) {
    forall i | 0 <= i < |events| :: ok(events[i])
  }

  ghost predicate AllIn(ok: ChangeEvent -> bool, groups: seq<Group>) {
    forall i | 0 <= i < |groups| :: All(ok, groups[i].events)
  }

  lemma {:induction false} SuffixKeeps(env: Env, ok: ChangeEvent -> bool, inv: Progress -> bool, p: Progress, g: Group,
                                       evs: seq<ChangeEvent>, acked: nat)
    requires Stable(env, ok, inv) && inv(p) && All(ok, evs)
    ensures inv(DeliverSuffix(env, p, g, evs, acked).p)
    decreases |evs|
  {
    if evs == [] {
    } else {
      var ev := evs[0];
      assert ok(ev);
      if env.KeyOf(ev) in p.seen {
        SuffixKeeps(env, ok, inv, Suppress(p, ev), g, evs[1..], acked);
      } else if env.accepts(p.calls) {
        SuffixKeeps(env, ok, inv, Accept(env, p, ev), g, evs[1..], ev.sourcePos);
      } else {
        assert inv(Reject(p, ev));
      }
    }
  }

  lemma {:induction false} PassKeeps(env: Env, ok: ChangeEvent -> bool, inv: Progress -> bool, p: Progress,
                                     pending: seq<Group>)
    requires Stable(env, ok, inv) && inv(p) && AllIn(ok, pending)
    ensures inv(Pass(env, p, pending).p)
    ensures AllIn(ok, Pass(env, p, pending).next)
    decreases |pending|
  {
    if pending == [] {
    } else {
      var g := pending[0];
      assert All(ok, g.events);
      if Held(p, g) {
        PassKeeps(env, ok, inv, p, pending[1..]);
      } else {
        SuffixKeeps(env, ok, inv, p, g, g.events, 0);
        PassKeeps(env, ok, inv, Delivery.DeliverGroup(env, p, g).p, pending[1..]);
      }
    }
  }

  lemma {:induction false} DrainKeeps(env: Env, ok: ChangeEvent -> bool, inv: Progress -> bool, p: Progress,
                                      pending: seq<Group>, attempt: int, maxAttempts: int)
    requires Stable(env, ok, inv) && inv(p) && AllIn(ok, pending)
    ensures inv(Drain(env, p, pending, attempt, maxAttempts).p)
    decreases maxAttempts - attempt + 1
  {
    if attempt > maxAttempts {
    } else {
      PassKeeps(env, ok, inv, p, pending);
      var s := Pass(env, p, pending);
      if s.failed.Some? && attempt < maxAttempts && !env.cancelled(s.p.calls) {
        DrainKeeps(env, ok, inv, s.p, s.next, attempt + 1, maxAttempts);
      }
    }
  }

  lemma {:induction false} GroupsAll(cfg: Config, events: seq<ChangeEvent>, ok: ChangeEvent -> bool)
    requires cfg.Valid() && events != [] && All(ok, events)
    ensures AllIn(ok, Groups(cfg, events))
  {
    if cfg.groupSize.Some? {
      ChunksAll(events, cfg.groupSize.value, ok);
    }
  }

  lemma {:induction false} ChunksAll(events: seq<ChangeEvent>, size: nat, ok: ChangeEvent -> bool)
    requires size > 0 && All(ok, events)
    ensures forall j | 0 <= j < |Chunks(events, size)| :: All(ok, Chunks(events, size)[j])
    decreases |events|
  {
    if |events| <= size {
    } else {
      ChunksAll(events[size..], size, ok);
    }
  }

  lemma {:induction false} EventsKeep(env: Env, ok: ChangeEvent -> bool, inv: Progress -> bool, cfg: Config, d: DState,
                                      events: seq<ChangeEvent>)
    requires cfg.Valid() && Stable(env, ok, inv) && inv(d.p) && All(ok, events)
    ensures inv(DeliverEvents(env, cfg, d, events).d.p)
  {
    if events != [] {
      GroupsAll(cfg, events, ok);
      DrainKeeps(env, ok, inv, d.p, Groups(cfg, events), 1, cfg.maxAttempts);
    }
  }

  lemma {:induction false} PlanKeeps(env: Env, ok: ChangeEvent -> bool, inv: Progress -> bool, cfg: Config, d: DState,
                                     batches: seq<seq<ChangeEvent>>)
    requires cfg.Valid() && Stable(env, ok, inv) && inv(d.p)
    requires forall i | 0 <= i < |batches| :: All(ok, batches[i])
    ensures inv(DeliverPlan(env, cfg, d, batches).d.p)
    decreases |batches|
  {
    if batches == [] {
    } else {
      EventsKeep(env, ok, inv, cfg, d, batches[0]);
      PlanKeeps(env, ok, inv, cfg, DeliverEvents(env, cfg, d, batches[0]).d, batches[1..]);
    }
  }

  ghost predicate CallOk(ok: ChangeEvent -> bool, c: Call) {
    match c
    case Batched(events) => All(ok, events)
    case Planned(batches) => forall i | 0 <= i < |batches| :: All(ok, batches[i])
  }

  lemma {:induction false} CallKeeps(env: Env, ok: ChangeEvent -> bool, inv: Progress -> bool, cfg: Config, d: DState,
                                     c: Call)
    requires cfg.Valid() && Stable(env, ok, inv) && inv(d.p) && CallOk(ok, c)
    ensures inv(CallResult(env, cfg, d, c).d.p)
  {
    match c
    case Batched(events) => EventsKeep(env, ok, inv, cfg, d, events);
    case Planned(batches) => PlanKeeps(env, ok, inv, cfg, d, batches);
  }

  lemma {:induction false} LastCallKeeps(env: Env, ok: ChangeEvent -> bool, inv: Progress -> bool, cfg: Config,
                                         calls: seq<Call>)
    requires cfg.Valid() && Stable(env, ok, inv) && calls != []
    requires inv(Run(env, cfg, calls[..|calls| - 1]).p) && CallOk(ok, calls[|calls| - 1])
    ensures inv(Run(env, cfg, calls).p)
  {
    CallKeeps(env, ok, inv, cfg, Run(env, cfg, calls[..|calls| - 1]), calls[|calls| - 1]);
  }

  /** What holds after the first `n` calls of a run still holds at its end. */
  lemma {:induction false} RunKeepsFrom(env: Env, ok: ChangeEvent -> bool, inv: Progress -> bool, cfg: Config,
                                        calls: seq<Call>, n: nat)
    requires cfg.Valid() && Stable(env, ok, inv) && n <= |calls| && inv(Run(env, cfg, calls[..n]).p)
    requires forall i | n <= i < |calls| :: CallOk(ok, calls[i])
    ensures inv(Run(env, cfg, calls).p)
    decreases |calls|
  {
    if n == |calls| {
      assert calls[..n] == calls;
    } else {
      var before := calls[..|calls| - 1];
      assert before[..n] == calls[..n];
      RunKeepsFrom(env, ok, inv, cfg, before, n);
      LastCallKeeps(env, ok, inv, cfg, calls);
    }
  }

  lemma {:induction false} RunKeeps(env: Env, ok: ChangeEvent -> bool, inv: Progress -> bool, cfg: Config,
                                    calls: seq<Call>)
    requires cfg.Valid() && Stable(env, ok, inv) && inv(INITIAL)
    requires forall i | 0 <= i < |calls| :: CallOk(ok, calls[i])
    ensures inv(Run(env, cfg, calls).p)
  {
    RunKeepsFrom(env, ok, inv, cfg, calls, 0);
  }

  // ----- Monotonicity -----

  /** History only grows, keys stay marked, and each new mark is a new delivery. */
  ghost predicate Extends(p: Progress, q: Progress) {
    && p.log <= q.log
    && p.seen <= q.seen
    && p.calls <= q.calls
    && q.delivered - p.delivered == |q.seen| - |p.seen|
  }

  lemma {:induction false} ExtendsIsStable(env: Env, p: Progress)
    ensures Stable(env, e => true, q => Extends(p, q))
    ensures Extends(p, p)
  {
    forall q, ev | Extends(p, q) && env.KeyOf(ev) !in q.seen
      ensures Extends(p, Accept(env, q, ev))
    {
      assert Accept(env, q, ev).seen == q.seen + {env.KeyOf(ev)};
    }
  }

  // ----- At most once -----

  function Writes(log: seq<Action>): seq<ChangeEvent> {
    if log == [] then []
    else
      var a := log[|log| - 1];
      Writes(log[..|log| - 1]) + if a.Wrote? then [a.event] else []
  }

  lemma {:induction false} WritesAppend(log: seq<Action>, a: Action)
    ensures Writes(log + [a]) == if a.Wrote? then Writes(log) + [a.event] else Writes(log)
  {
    assert (log + [a])[..|log|] == log;
  }

  ghost predicate DistinctKeys(env: Env, events: seq<ChangeEvent>) {
    forall i, j | 0 <= i < j < |events| :: env.KeyOf(events[i]) != env.KeyOf(events[j])
  }

  ghost function Keys(env: Env, events: seq<ChangeEvent>): set<nat> {
    set i | 0 <= i < |events| :: env.KeyOf(events[i])
  }

  lemma {:induction false} KeysAppend(env: Env, events: seq<ChangeEvent>, ev: ChangeEvent)
    ensures Keys(env, events + [ev]) == Keys(env, events) + {env.KeyOf(ev)}
  {
    var after := events + [ev];
    assert forall i | 0 <= i < |events| :: after[i] == events[i];
    assert after[|events|] == ev;
    forall k | k in Keys(env, events) + {env.KeyOf(ev)}
      ensures k in Keys(env, after)
    {
      if k in Keys(env, events) {
        var i :| 0 <= i < |events| && k == env.KeyOf(events[i]);
        assert after[i] == events[i];
      }
    }
  }

  ghost predicate Once(env: Env, p: Progress) {
    && DistinctKeys(env, Writes(p.log))
    && p.seen == Keys(env, Writes(p.log))
    && p.delivered == |p.seen| == |Writes(p.log)|
  }

  lemma {:induction false} AcceptKeepsOnce(env: Env, p: Progress, ev: ChangeEvent)
    requires Once(env, p) && env.KeyOf(ev) !in p.seen
    ensures Once(env, Accept(env, p, ev))
  {
    var before := Writes(p.log);
    WritesAppend(p.log, Wrote(ev));
    KeysAppend(env, before, ev);
    forall i | 0 <= i < |before|
      ensures env.KeyOf(before[i]) != env.KeyOf(ev)
    {
      assert env.KeyOf(before[i]) in Keys(env, before);
    }
  }

  lemma {:induction false} OnceIsStable(env: Env)
    ensures Stable(env, e => true, p => Once(env, p))
  {
    forall p, ev | Once(env, p)
      ensures Once(env, Suppress(p, ev)) && Once(env, Reject(p, ev))
      ensures env.KeyOf(ev) !in p.seen ==> Once(env, Accept(env, p, ev))
    {
      WritesAppend(p.log, Suppressed(ev));
      WritesAppend(p.log, Failed(ev));
      if env.KeyOf(ev) !in p.seen {
        AcceptKeepsOnce(env, p, ev);
      }
    }
  }

  /** Across any calls with any failures, no two successful writes share a
      delivery key, the dedup set is exactly the keys of the written events, and
      the delivered counter is its size. */
  lemma {:induction false} AtMostOnce(env: Env, cfg: Config, calls: seq<Call>)
    requires cfg.Valid()
    ensures var p := Run(env, cfg, calls).p;
            && DistinctKeys(env, Writes(p.log))
            && p.seen == Keys(env, Writes(p.log))
            && p.delivered == |p.seen| == |Writes(p.log)|
  {
    OnceIsStable(env);
    assert Once(env, INITIAL);
    RunKeeps(env, e => true, p => Once(env, p), cfg, calls);
  }

  ghost predicate NothingKnownWritten(env: Env, seen: set<nat>, n: nat, q: Progress) {
    && seen <= q.seen && n <= |q.log|
    && forall k | n <= k < |q.log| && q.log[k].Wrote? :: env.KeyOf(q.log[k].event) !in seen
  }

  /** Once a row's key has been delivered, no event with that key is written again in
      the rest of any run: a later change of the row never reaches the sink. */
  lemma {:induction false} DeliveredKeyNeverWrittenAgain(env: Env, cfg: Config, calls: seq<Call>, n: nat)
    requires cfg.Valid() && n <= |calls|
    ensures var p, q := Run(env, cfg, calls[..n]).p, Run(env, cfg, calls).p;
            && p.seen <= q.seen && |p.log| <= |q.log|
            && forall k | |p.log| <= k < |q.log| && q.log[k].Wrote? :: env.KeyOf(q.log[k].event) !in p.seen
  {
    var p := Run(env, cfg, calls[..n]).p;
    RunKeepsFrom(env, e => true, q => NothingKnownWritten(env, p.seen, |p.log|, q), cfg, calls, n);
  }

  // ----- Statuses -----

  ghost predicate NamesOneKey(keyOf: nat -> string, e: ChangeEvent) {
    TableKey(e) == keyOf(e.seqNo)
  }

  ghost predicate WroteNumber(log: seq<Action>, s: nat) {
    exists i :: 0 <= i < |log| && log[i].Wrote? && log[i].event.seqNo == s
  }

  lemma {:induction false} WroteNumberAppend(log: seq<Action>, a: Action, s: nat)
    ensures WroteNumber(log + [a], s) <==> WroteNumber(log, s) || (a.Wrote? && a.event.seqNo == s)
  {
    var after := log + [a];
    assert after[|log|] == a;
    if WroteNumber(log, s) {
      var i :| 0 <= i < |log| && log[i].Wrote? && log[i].event.seqNo == s;
      assert after[i] == log[i];
    }
  }

  /** Once written, an event number never fails again, and `Acked` is shown for
      exactly the event numbers written. */
  ghost predicate StatusesSettle(p: Progress) {
    && (forall i, j | 0 <= i < j < |p.log| && p.log[i].Wrote? && p.log[j].Failed? ::
          p.log[i].event.seqNo != p.log[j].event.seqNo)
    && (forall s :: s in p.status && p.status[s] == Acked <==> WroteNumber(p.log, s))
  }

  ghost predicate StatusInvariant(env: Env, keyOf: nat -> string, p: Progress) {
    && StatusesSettle(p)
    && (forall i | 0 <= i < |p.log| && p.log[i].Wrote? :: env.hash(keyOf(p.log[i].event.seqNo)) in p.seen)
  }

  lemma {:induction false} StatusKept(env: Env, keyOf: nat -> string, p: Progress, ev: ChangeEvent)
    requires NamesOneKey(keyOf, ev) && StatusInvariant(env, keyOf, p)
    ensures StatusInvariant(env, keyOf, Suppress(p, ev))
    ensures env.KeyOf(ev) !in p.seen ==> StatusInvariant(env, keyOf, Accept(env, p, ev))
    ensures env.KeyOf(ev) !in p.seen ==> StatusInvariant(env, keyOf, Reject(p, ev))
  {
    forall s
      ensures WroteNumber(p.log + [Suppressed(ev)], s) <==> WroteNumber(p.log, s)
      ensures WroteNumber(p.log + [Failed(ev)], s) <==> WroteNumber(p.log, s)
      ensures WroteNumber(p.log + [Wrote(ev)], s) <==> WroteNumber(p.log, s) || ev.seqNo == s
    {
      WroteNumberAppend(p.log, Suppressed(ev), s);
      WroteNumberAppend(p.log, Failed(ev), s);
      WroteNumberAppend(p.log, Wrote(ev), s);
    }
  }

  /** When each event number names one delivery key, no acknowledged event number
      ever goes back to retrying, in any run. */
  lemma {:induction false} AckedStaysAcked(env: Env, cfg: Config, calls: seq<Call>, keyOf: nat -> string)
    requires cfg.Valid()
    requires forall i | 0 <= i < |calls| :: CallOk(e => NamesOneKey(keyOf, e), calls[i])
    ensures StatusesSettle(Run(env, cfg, calls).p)
  {
    var ok := e => NamesOneKey(keyOf, e);
    var inv := p => StatusInvariant(env, keyOf, p);
    forall p, ev | ok(ev) && inv(p)
      ensures env.KeyOf(ev) in p.seen ==> inv(Suppress(p, ev))
      ensures env.KeyOf(ev) !in p.seen ==> inv(Accept(env, p, ev)) && inv(Reject(p, ev))
    {
      StatusKept(env, keyOf, p, ev);
    }
    RunKeeps(env, ok, inv, cfg, calls);
  }

  /** What came of the last attempt to write the event of that number. */
  function LastAttempt(log: seq<Action>, s: nat): Option<Action> {
    if log == [] then None
    else
      var a := log[|log| - 1];
      if a.event.seqNo == s && !a.Suppressed? then Some(a) else LastAttempt(log[..|log| - 1], s)
  }

  ghost predicate ShowsLastAttempt(p: Progress, s: nat) {
    match LastAttempt(p.log, s)
    case None => s !in p.status
    case Some(a) => s in p.status && p.status[s] == if a.Wrote? then Acked else Retrying
  }

  lemma LastAttemptAppend(log: seq<Action>, a: Action, s: nat)
    ensures LastAttempt(log + [a], s) ==
            if a.event.seqNo == s && !a.Suppressed? then Some(a) else LastAttempt(log, s)
  {
    assert (log + [a])[..|log|] == log;
  }

  lemma StepShowsLastAttempt(env: Env, p: Progress, ev: ChangeEvent, s: nat)
    requires ShowsLastAttempt(p, s)
    ensures ShowsLastAttempt(Suppress(p, ev), s)
    ensures ShowsLastAttempt(Accept(env, p, ev), s)
    ensures ShowsLastAttempt(Reject(p, ev), s)
  {
    LastAttemptAppend(p.log, Suppressed(ev), s);
    LastAttemptAppend(p.log, Wrote(ev), s);
    LastAttemptAppend(p.log, Failed(ev), s);
  }

  /** In every run, whatever keys the events have, an event number is shown as acknowledged
      or retrying as its last attempt ended, and not at all before its first. */
  lemma {:induction false} StatusShowsLastAttempt(env: Env, cfg: Config, calls: seq<Call>, s: nat)
    requires cfg.Valid()
    ensures ShowsLastAttempt(Run(env, cfg, calls).p, s)
  {
    var inv := p => ShowsLastAttempt(p, s);
    forall p, ev | inv(p)
      ensures inv(Suppress(p, ev)) && inv(Accept(env, p, ev)) && inv(Reject(p, ev))
    {
      StepShowsLastAttempt(env, p, ev, s);
    }
    forall i | 0 <= i < |calls|
      ensures CallOk(e => true, calls[i])
    {
    }
    RunKeeps(env, e => true, inv, cfg, calls);
  }
}
