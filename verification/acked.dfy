/** The position a call acknowledges, in terms of what the log shows was written. */
module Acknowledged {
  import opened Model
  import opened Txn
  import opened Delivery
  import opened Invariants
  import opened Conservation
  import opened KeptChanges
  import opened Oracles

  // ----- Positions in a log -----

  /** The position of the last write, `otherwise` when there is none. */
  function LastWriteOr(log: seq<Action>, otherwise: nat): nat {
    if log == [] then otherwise
    else if log[|log| - 1].Wrote? then log[|log| - 1].event.sourcePos
    else LastWriteOr(log[..|log| - 1], otherwise)
  }

  /** The highest position written, 0 when nothing was. */
  function Highest(log: seq<Action>): nat {
    if log == [] then 0
    else
      var h, a := Highest(log[..|log| - 1]), log[|log| - 1];
      if a.Wrote? then Max(h, a.event.sourcePos) else h
  }

  /** `h` bounds the positions written and is one of them, or 0. */
  ghost predicate IsHighest(log: seq<Action>, h: nat) {
    && (forall i | 0 <= i < |log| && log[i].Wrote? :: log[i].event.sourcePos <= h)
    && (h == 0 || exists i :: 0 <= i < |log| && log[i].Wrote? && log[i].event.sourcePos == h)
  }

  lemma {:induction false} HighestIs(log: seq<Action>)
    ensures IsHighest(log, Highest(log))
  {
    if log == [] {
    } else {
      HighestIs(log[..|log| - 1]);
    }
  }

  lemma {:induction false} HighestConcat(a: seq<Action>, b: seq<Action>)
    ensures Highest(a + b) == Max(Highest(a), Highest(b))
  {
    if b == [] {
      assert a + b == a;
    } else {
      var n := |b| - 1;
      HighestConcat(a, b[..n]);
      assert (a + b)[..|a| + n] == a + b[..n] && (a + b)[|a| + n] == b[n];
    }
  }

  lemma {:induction false} LastWriteFrom(a: Action, log: seq<Action>, otherwise: nat)
    ensures LastWriteOr([a] + log, otherwise) ==
            LastWriteOr(log, if a.Wrote? then a.event.sourcePos else otherwise)
  {
    if log == [] {
      assert [a] + log == [a] && [a][..0] == [];
    } else {
      LastWriteFrom(a, log[..|log| - 1], otherwise);
      assert ([a] + log)[..|log|] == [a] + log[..|log| - 1];
    }
  }

  /** The actions handle exactly these events, in order. */
  ghost predicate ActsOn(log: seq<Action>, events: seq<ChangeEvent>) {
    |log| == |events| && forall i | 0 <= i < |log| :: log[i].event == events[i] && !log[i].Failed?
  }

  /** Positions never fall. */
  ghost predicate Ascends(events: seq<ChangeEvent>) {
    forall i, j | 0 <= i < j < |events| :: events[i].sourcePos <= events[j].sourcePos
  }

  lemma {:induction false} LastIsHighest(log: seq<Action>, events: seq<ChangeEvent>)
    requires ActsOn(log, events) && Ascends(events)
    ensures LastWriteOr(log, 0) == Highest(log)
  {
    if log == [] {
    } else {
      var n := |log| - 1;
      LastIsHighest(log[..n], events[..n]);
      HighestIs(log[..n]);
    }
  }

  // ----- One group -----

  ghost predicate HasFailed(log: seq<Action>) {
    exists a | a in log :: a.Failed?
  }

  lemma HasFailedIn(p: seq<Action>, q: seq<Action>, r: seq<Action>)
    requires p <= q <= r && (HasFailed(q[|p|..]) || HasFailed(r[|q|..]))
    ensures HasFailed(r[|p|..])
  {
    assert r[|p|..] == q[|p|..] + r[|q|..];
    if HasFailed(q[|p|..]) {
      var a :| a in q[|p|..] && a.Failed?;
      assert a in r[|p|..];
    } else {
      var a :| a in r[|q|..] && a.Failed?;
      assert a in r[|p|..];
    }
  }

  /** What delivering the events after log `before` comes to. */
  ghost predicate SuffixActs(before: seq<Action>, evs: seq<ChangeEvent>, acked: nat, r: GroupResult) {
    && before <= r.p.log && r.acked == LastWriteOr(r.p.log[|before|..], acked)
    && (r.ok ==> ActsOn(r.p.log[|before|..], evs)) && (!r.ok ==> HasFailed(r.p.log[|before|..]))
  }

  lemma OneMoreAction(before: seq<Action>, a: Action, evs: seq<ChangeEvent>, acked: nat, r: GroupResult)
    requires evs != [] && a.event == evs[0] && !a.Failed?
    requires SuffixActs(before + [a], evs[1..], if a.Wrote? then a.event.sourcePos else acked, r)
    ensures SuffixActs(before, evs, acked, r)
  {
    var n := |before|;
    var rest := r.p.log[n + 1..];
    assert r.p.log[n..] == [a] + rest;
    LastWriteFrom(a, rest, acked);
    if !r.ok {
      HasFailedIn(before, before + [a], r.p.log);
    }
  }

  lemma {:induction false} SuffixWrites(env: Env, p: Progress, g: Group, evs: seq<ChangeEvent>, acked: nat,
                                        r: GroupResult)
    requires r == DeliverSuffix(env, p, g, evs, acked)
    ensures SuffixActs(p.log, evs, acked, r)
    decreases |evs|
  {
    if evs == [] {
      assert r.p.log[|p.log|..] == [];
    } else if env.KeyOf(evs[0]) in p.seen {
      SuffixWrites(env, Suppress(p, evs[0]), g, evs[1..], acked, r);
      OneMoreAction(p.log, Suppressed(evs[0]), evs, acked, r);
    } else if env.accepts(p.calls) {
      SuffixWrites(env, Accept(env, p, evs[0]), g, evs[1..], evs[0].sourcePos, r);
      OneMoreAction(p.log, Wrote(evs[0]), evs, acked, r);
    } else {
      assert r.p.log[|p.log|..] == [Failed(evs[0])];
    }
  }

  // ----- One pass -----

  /** The highest of the groups' last writes, the log being cut into the groups' parts. */
  function HighestLastWrite(log: seq<Action>, groups: seq<Group>): nat
    requires |log| == |GroupEvents(groups)|
    decreases |groups|
  {
    if groups == [] then 0
    else
      var n := |groups[0].events|;
      Max(LastWriteOr(log[..n], 0), HighestLastWrite(log[n..], groups[1..]))
  }

  /** In the part of the log from `start` on exactly the groups `done` were delivered,
      and `acked` is the highest of their last writes. */
  ghost predicate AcksDone(log: seq<Action>, start: nat, done: seq<Group>, acked: nat) {
    start <= |log| && ActsOn(log[start..], GroupEvents(done)) && acked == HighestLastWrite(log[start..], done)
  }

  lemma {:induction false} DoneFirst(p: seq<Action>, q: seq<Action>, r: seq<Action>, g: Group, done: seq<Group>,
                                     acked: nat)
    requires p <= q <= r && ActsOn(q[|p|..], g.events) && AcksDone(r, |q|, done, acked)
    ensures AcksDone(r, |p|, [g] + done, Max(LastWriteOr(q[|p|..], 0), acked))
  {
    var part, n := r[|p|..], |g.events|;
    assert part[..n] == q[|p|..] && part[n..] == r[|q|..];
    assert ([g] + done)[1..] == done;
    assert part == part[..n] + part[n..];
  }

  lemma {:induction false} PassAcks(env: Env, p: Progress, pending: seq<Group>) returns (done: seq<Group>)
    ensures var r := Pass(env, p, pending);
            && p.log <= r.p.log && Subseq(done, pending)
            && (r.failed.None? ==> AcksDone(r.p.log, |p.log|, done, r.acked))
            && (r.failed.Some? ==> HasFailed(r.p.log[|p.log|..]))
    decreases |pending|
  {
    done := [];
    var r := Pass(env, p, pending);
    if pending == [] {
      assert r.p.log[|p.log|..] == [];
    } else if Held(p, pending[0]) {
      done := PassAcks(env, p, pending[1..]);
      SubseqSkips(done, pending);
    } else {
      var g := pending[0];
      var d := Delivery.DeliverGroup(env, p, g);
      SuffixWrites(env, p, g, g.events, 0, d);
      done := PassAcks(env, d.p, pending[1..]);
      if d.ok {
        if r.failed.None? {
          DoneFirst(p.log, d.p.log, r.p.log, g, done, Pass(env, d.p, pending[1..]).acked);
        } else {
          HasFailedIn(p.log, d.p.log, r.p.log);
        }
        done := [g] + done;
        assert done[1..] == done[1..] && Subseq(done, pending);
      } else {
        HasFailedIn(p.log, d.p.log, r.p.log);
        SubseqSkips(done, pending);
      }
    }
  }

  lemma SubseqSkips(a: seq<Group>, b: seq<Group>)
    requires b != [] && Subseq(a, b[1..])
    ensures Subseq(a, b)
  {
  }

  // ----- One call -----

  /** What is acknowledged by a call that began with `n` actions in the log: the last
      pass began at `start`, right at the call when nothing failed in it. */
  ghost predicate AcksLastPass(log: seq<Action>, n: nat, start: nat, done: seq<Group>, acked: nat) {
    && n <= start && AcksDone(log, start, done, acked)
    && (start == n || HasFailed(log[n..start]))
  }

  lemma {:induction false} DrainAcks(env: Env, p: Progress, pending: seq<Group>, attempt: int, maxAttempts: int,
                                     r: DrainResult)
    returns (start: nat, done: seq<Group>)
    requires attempt <= maxAttempts && r == Drain(env, p, pending, attempt, maxAttempts) && r.verdict == Delivered
    ensures Subseq(done, pending) && AcksLastPass(r.p.log, |p.log|, start, done, r.acked)
    decreases maxAttempts - attempt
  {
    var s := Pass(env, p, pending);
    done := PassAcks(env, p, pending);
    start := |p.log|;
    if s.failed.None? {
    } else {
      PassConserves(env, p, pending);
      var rest := Drain(env, s.p, s.next, attempt + 1, maxAttempts);
      start, done := DrainAcks(env, s.p, s.next, attempt + 1, maxAttempts, rest);
      DrainConserves(env, s.p, s.next, attempt + 1, maxAttempts);
      SubseqTrans(done, s.next, pending);
      FailedBefore(p.log, s.p.log, rest.p.log, start);
    }
  }

  lemma FailedBefore(p: seq<Action>, q: seq<Action>, r: seq<Action>, start: nat)
    requires p <= q && |q| <= start <= |r| && q <= r && HasFailed(q[|p|..])
    ensures HasFailed(r[|p|..start])
  {
    var a :| a in q[|p|..] && a.Failed?;
    var i :| 0 <= i < |q| - |p| && q[|p|..][i] == a;
    assert r[|p|..start][i] == a;
  }

  /** A successful call acknowledges the highest, over the groups delivered in its last
      pass, of the position of the group's last write in that pass; a group without a
      write counts as 0. */
  lemma {:induction false} AcksHighestLastWrite(env: Env, cfg: Config, d: DState, events: seq<ChangeEvent>)
    returns (start: nat, done: seq<Group>)
    requires cfg.Valid() && cfg.maxAttempts >= 1 && events != []
    requires DeliverEvents(env, cfg, d, events).verdict == Delivered
    ensures var r := DeliverEvents(env, cfg, d, events);
            Subseq(done, Groups(cfg, events)) && AcksLastPass(r.d.p.log, |d.p.log|, start, done, r.acked)
  {
    var groups := Groups(cfg, events);
    start, done := DrainAcks(env, d.p, groups, 1, cfg.maxAttempts, Drain(env, d.p, groups, 1, cfg.maxAttempts));
  }

  // ----- What a call reports -----

  lemma {:induction false} PassReports(env: Env, p: Progress, pending: seq<Group>)
    ensures var r := Pass(env, p, pending);
            p.log <= r.p.log && (r.failed.Some? <==> HasFailed(r.p.log[|p.log|..]))
  {
    var r := Pass(env, p, pending);
    var done := PassAcks(env, p, pending);
    if r.failed.None? {
      assert forall i | 0 <= i < |r.p.log[|p.log|..]| :: !r.p.log[|p.log|..][i].Failed?;
    }
  }

  /** The context is looked at after every attempt that failed and was not the last: when
      it is done by then, the call makes no further attempt and reports that. Without a
      failed write it reports success, whatever the context. */
  lemma {:induction false} DoneContextStops(env: Env, cfg: Config, d: DState, events: seq<ChangeEvent>)
    requires cfg.Valid() && cfg.maxAttempts >= 1 && forall i :: env.cancelled(i)
    ensures var r := DeliverEvents(env, cfg, d, events);
            && |d.p.log| <= |r.d.p.log| && r.waits == 0
            && r.verdict == if !HasFailed(r.d.p.log[|d.p.log|..]) then Delivered
                            else if cfg.maxAttempts == 1 then SinkError else Cancelled
  {
    if events != [] {
      PassReports(env, d.p, Groups(cfg, events));
    } else {
      assert d.p.log[|d.p.log|..] == [];
    }
  }

  lemma {:induction false} DrainCancels(env: Env, p: Progress, pending: seq<Group>, attempt: int, maxAttempts: int)
    ensures var r := Drain(env, p, pending, attempt, maxAttempts);
            r.verdict == Cancelled ==> env.cancelled(r.p.calls)
    decreases maxAttempts - attempt + 1
  {
    if attempt >= maxAttempts {
    } else {
      var s := Pass(env, p, pending);
      DrainCancels(env, s.p, s.next, attempt + 1, maxAttempts);
    }
  }

  /** A call reports the context's end only when the context is done. */
  lemma {:induction false} CancelledMeansDone(env: Env, cfg: Config, d: DState, events: seq<ChangeEvent>)
    requires cfg.Valid()
    ensures var r := DeliverEvents(env, cfg, d, events); r.verdict == Cancelled ==> env.cancelled(r.d.p.calls)
  {
    if events != [] {
      DrainCancels(env, d.p, Groups(cfg, events), 1, cfg.maxAttempts);
    }
  }

  /** The first failed write from `start` on is of an event of that group. */
  ghost predicate FirstFailure(log: seq<Action>, start: nat, k: nat, g: Group) {
    && start <= k < |log| && log[k].Failed? && log[k].event in g.events
    && forall j | start <= j < k :: !log[j].Failed?
  }

  lemma {:induction false} SuffixFailure(env: Env, p: Progress, g: Group, evs: seq<ChangeEvent>, acked: nat,
                                         r: GroupResult)
    returns (k: nat)
    requires r == DeliverSuffix(env, p, g, evs, acked) && !r.ok && forall e | e in evs :: e in g.events
    ensures FirstFailure(r.p.log, |p.log|, k, g) && p.log <= r.p.log
    decreases |evs|
  {
    SuffixWrites(env, p, g, evs, acked, r);
    k := |p.log|;
    if env.KeyOf(evs[0]) in p.seen {
      k := SuffixFailure(env, Suppress(p, evs[0]), g, evs[1..], acked, r);
      assert r.p.log[|p.log|] == (p.log + [Suppressed(evs[0])])[|p.log|];
    } else if env.accepts(p.calls) {
      k := SuffixFailure(env, Accept(env, p, evs[0]), g, evs[1..], evs[0].sourcePos, r);
      assert r.p.log[|p.log|] == (p.log + [Wrote(evs[0])])[|p.log|];
    }
  }

  lemma {:induction false} PassFailure(env: Env, p: Progress, pending: seq<Group>) returns (k: nat)
    requires Pass(env, p, pending).failed.Some?
    ensures var r := Pass(env, p, pending);
            r.failed.value in pending && FirstFailure(r.p.log, |p.log|, k, r.failed.value) && p.log <= r.p.log
    decreases |pending|
  {
    var r, g := Pass(env, p, pending), pending[0];
    if Held(p, g) {
      k := PassFailure(env, p, pending[1..]);
    } else {
      var d := Delivery.DeliverGroup(env, p, g);
      SuffixWrites(env, p, g, g.events, 0, d);
      if d.ok {
        k := PassFailure(env, d.p, pending[1..]);
        DeliveredBefore(p.log, d.p.log, r.p.log, g, k, r.failed.value);
      } else {
        k := SuffixFailure(env, p, g, g.events, 0, d);
        var done := PassAcks(env, d.p, pending[1..]);
        assert r.p.log[..|d.p.log|] == d.p.log;
        assert forall j | |p.log| <= j <= k :: r.p.log[j] == d.p.log[j];
      }
    }
  }

  lemma DeliveredBefore(p: seq<Action>, q: seq<Action>, r: seq<Action>, g: Group, k: nat, failed: Group)
    requires p <= q <= r && ActsOn(q[|p|..], g.events) && FirstFailure(r, |q|, k, failed)
    ensures FirstFailure(r, |p|, k, failed)
  {
    forall j | |p| <= j < k
      ensures !r[j].Failed?
    {
      assert j < |q| ==> r[j] == q[|p|..][j - |p|];
    }
  }

  lemma {:induction false} DrainRollsBack(env: Env, p: Progress, pending: seq<Group>, attempt: int, maxAttempts: int,
                                          r: DrainResult)
    returns (start: nat, k: nat, g: Group)
    requires r == Drain(env, p, pending, attempt, maxAttempts) && r.verdict == SinkError
    ensures g in pending && r.rollback == Some(g.first) && FirstFailure(r.p.log, start, k, g)
    ensures |p.log| <= start && (attempt == maxAttempts ==> start == |p.log|)
    ensures attempt < maxAttempts ==> start > |p.log| && HasFailed(r.p.log[|p.log|..start])
    decreases maxAttempts - attempt + 1
  {
    var s := Pass(env, p, pending);
    k := PassFailure(env, p, pending);
    start, g := |p.log|, s.failed.value;
    if attempt < maxAttempts {
      PassReports(env, p, pending);
      PassConserves(env, p, pending);
      SubseqIn(s.next, pending);
      var rest := Drain(env, s.p, s.next, attempt + 1, maxAttempts);
      start, k, g := DrainRollsBack(env, s.p, s.next, attempt + 1, maxAttempts, rest);
      DrainConserves(env, s.p, s.next, attempt + 1, maxAttempts);
      FailedBefore(p.log, s.p.log, rest.p.log, start);
    }
  }

  /** A call that ends in a sink error asks for a replay from the sequence that opens the
      group of the first write to fail in the last pass, which with one attempt is the first
      pass, and otherwise comes after one in which a write failed. */
  lemma {:induction false} ErrorRollsBackToFirst(env: Env, cfg: Config, d: DState, events: seq<ChangeEvent>)
    returns (start: nat, k: nat, g: Group)
    requires cfg.Valid() && DeliverEvents(env, cfg, d, events).verdict == SinkError
    ensures var r, n := DeliverEvents(env, cfg, d, events), |d.p.log|;
            && events != [] && g in Groups(cfg, events) && r.rollback == Some(g.first)
            && FirstFailure(r.d.p.log, start, k, g) && n <= start
            && (if cfg.maxAttempts == 1 then start == n else n < start && HasFailed(r.d.p.log[n..start]))
  {
    var groups := Groups(cfg, events);
    start, k, g := DrainRollsBack(env, d.p, groups, 1, cfg.maxAttempts, Drain(env, d.p, groups, 1, cfg.maxAttempts));
  }

  // ----- When that is the highest position written -----

  ghost predicate EachAscends(groups: seq<Group>) {
    forall i | 0 <= i < |groups| :: Ascends(groups[i].events)
  }

  lemma {:induction false} AckedOfAscending(log: seq<Action>, groups: seq<Group>)
    requires ActsOn(log, GroupEvents(groups)) && EachAscends(groups)
    ensures HighestLastWrite(log, groups) == Highest(log)
    decreases |groups|
  {
    if groups == [] {
    } else {
      var n, evs := |groups[0].events|, GroupEvents(groups);
      assert evs[..n] == groups[0].events && evs[n..] == GroupEvents(groups[1..]);
      LastIsHighest(log[..n], groups[0].events);
      AckedOfAscending(log[n..], groups[1..]);
      HighestConcat(log[..n], log[n..]);
      assert log == log[..n] + log[n..];
    }
  }

  lemma {:induction false} ChunksAscend(events: seq<ChangeEvent>, size: nat)
    requires size > 0 && Ascends(events)
    ensures forall i | 0 <= i < |Chunks(events, size)| :: Ascends(Chunks(events, size)[i])
    decreases |events|
  {
    if |events| <= size {
    } else {
      ChunksAscend(events[size..], size);
    }
  }

  lemma {:induction false} GroupsAscend(cfg: Config, events: seq<ChangeEvent>)
    requires cfg.Valid() && events != [] && Ascends(events)
    ensures EachAscends(Groups(cfg, events))
  {
    if cfg.groupSize.Some? {
      ChunksAscend(events, cfg.groupSize.value);
    }
  }

  lemma {:induction false} SubseqAscends(done: seq<Group>, groups: seq<Group>)
    requires Subseq(done, groups) && EachAscends(groups)
    ensures EachAscends(done)
  {
    SubseqIn(done, groups);
    forall i | 0 <= i < |done|
      ensures Ascends(done[i].events)
    {
      assert done[i] in groups;
    }
  }

  lemma {:induction false} DrainAcksHighest(env: Env, p: Progress, pending: seq<Group>, attempt: int, maxAttempts: int,
                                            r: DrainResult)
    returns (start: nat)
    requires attempt <= maxAttempts && r == Drain(env, p, pending, attempt, maxAttempts) && r.verdict == Delivered
    requires EachAscends(pending)
    ensures |p.log| <= start <= |r.p.log| && r.acked == Highest(r.p.log[start..])
    ensures start == |p.log| || HasFailed(r.p.log[|p.log|..start])
  {
    var done;
    start, done := DrainAcks(env, p, pending, attempt, maxAttempts, r);
    SubseqAscends(done, pending);
    AckedOfAscending(r.p.log[start..], done);
  }

  /** What the call writes. */
  function WrittenBy(d: DState, r: DeliverResult): seq<Action>
    requires |d.p.log| <= |r.d.p.log|
  {
    r.d.p.log[|d.p.log|..]
  }

  ghost predicate AcksHighest(d: DState, r: DeliverResult) {
    |d.p.log| <= |r.d.p.log| && r.acked == Highest(WrittenBy(d, r))
  }

  /** A call in which no write fails acknowledges the highest position it wrote. */
  lemma {:induction false} SmoothCallAcksHighest(env: Env, cfg: Config, d: DState, events: seq<ChangeEvent>)
    requires cfg.Valid() && cfg.maxAttempts >= 1 && Ascends(events)
    requires var r := DeliverEvents(env, cfg, d, events);
             r.verdict == Delivered && |d.p.log| <= |r.d.p.log| && !HasFailed(WrittenBy(d, r))
    ensures AcksHighest(d, DeliverEvents(env, cfg, d, events))
  {
    var r := DeliverEvents(env, cfg, d, events);
    if events == [] {
      assert WrittenBy(d, r) == [];
    } else {
      var groups := Groups(cfg, events);
      GroupsAscend(cfg, events);
      var start := DrainAcksHighest(env, d.p, groups, 1, cfg.maxAttempts, Drain(env, d.p, groups, 1, cfg.maxAttempts));
      if start > |d.p.log| {
        FailedWithin(r.d.p.log, |d.p.log|, start);
      }
    }
  }

  lemma FailedWithin(log: seq<Action>, n: nat, start: nat)
    requires n <= start <= |log| && HasFailed(log[n..start])
    ensures HasFailed(log[n..])
  {
    var a :| a in log[n..start] && a.Failed?;
    var i :| 0 <= i < start - n && log[n..start][i] == a;
    assert log[n..][i] == a;
  }

  // ----- Exactly when every sink has the highest position acknowledged -----

  /** Positions strictly rise. */
  ghost predicate Climbing(events: seq<ChangeEvent>) {
    forall i, j | 0 <= i < j < |events| :: events[i].sourcePos < events[j].sourcePos
  }

  lemma {:induction false} WritesConcat(a: seq<Action>, b: seq<Action>)
    ensures Writes(a + b) == Writes(a) + Writes(b)
  {
    if b == [] {
      assert a + b == a;
    } else {
      WritesConcat(a, b[..|b| - 1]);
      assert (a + b)[..|a + b| - 1] == a + b[..|b| - 1];
    }
  }

  lemma {:induction false} HighestOfWrites(log: seq<Action>)
    ensures Highest(log) == MaxPos(Writes(log))
  {
    if log == [] {
    } else {
      HighestOfWrites(log[..|log| - 1]);
      if log[|log| - 1].Wrote? {
        assert Writes(log)[..|Writes(log)| - 1] == Writes(log[..|log| - 1]);
      }
    }
  }

  /** The position of the last event, 0 when there are no more than `n`. */
  function LastAfter(events: seq<ChangeEvent>, n: nat): nat {
    if n < |events| then events[|events| - 1].sourcePos else 0
  }

  lemma {:induction false} MaxOfAscending(events: seq<ChangeEvent>)
    requires Ascends(events)
    ensures MaxPos(events) == LastAfter(events, 0)
  {
    if events == [] {
    } else {
      MaxOfAscending(events[..|events| - 1]);
    }
  }

  lemma AscendsAppend(events: seq<ChangeEvent>, e: ChangeEvent)
    requires Ascends(events) && forall x | x in events :: x.sourcePos <= e.sourcePos
    ensures Ascends(events + [e])
  {
  }

  lemma {:induction false} FirstChangesAscend(env: Env, known: set<nat>, events: seq<ChangeEvent>)
    requires Ascends(events)
    ensures Ascends(FirstChanges(env, known, events))
  {
    if events == [] {
    } else {
      var n := |events| - 1;
      FirstChangesAscend(env, known, events[..n]);
      FirstChangesMembers(env, known, events[..n]);
      assert forall x | x in events[..n] :: x.sourcePos <= events[n].sourcePos;
      AscendsAppend(FirstChanges(env, known, events[..n]), events[n]);
    }
  }

  ghost predicate OccursOnce(pending: seq<Group>, g: Group) {
    forall i, j | 0 <= i < j < |pending| :: pending[i] != g || pending[j] != g
  }

  /** A pass over groups of which only `g` holds new keys, and `g` once. */
  lemma {:induction false} PassOnce(env: Env, known: set<nat>, writes: seq<ChangeEvent>, p: Progress,
                                    pending: seq<Group>, g: Group, m: nat)
    returns (k: nat)
    requires UpTo(env, known, writes, g.events, p, m) && OnlyNew(env, known, pending, g) && OccursOnce(pending, g)
    ensures var r := Pass(env, p, pending);
            && UpTo(env, known, writes, g.events, r.p, k)
            && (if g in pending then m <= k else k == m && r.failed.None?)
            && (r.failed.None? ==> r.next == [] && (g in pending ==> k == |g.events|))
            && (r.failed.Some? ==> r.next == [g] && k < |g.events| && env.KeyOf(g.events[k]) !in r.p.seen)
    decreases |pending|
  {
    k := m;
    if pending == [] {
    } else {
      var x := pending[0];
      assert x in pending && x.events[0..] == x.events;
      var d := Delivery.DeliverGroup(env, p, x);
      if x == g {
        k := GroupUpTo(env, known, writes, p, g, 0, m, 0, d);
        assert g !in pending[1..];
      } else {
        KnownIsSuppressed(env, known, writes, p, x, g.events, m);
      }
      k := PassOnce(env, known, writes, d.p, pending[1..], g, k);
    }
  }

  lemma {:induction false} KnownIsSuppressed(env: Env, known: set<nat>, writes: seq<ChangeEvent>, p: Progress,
                                             x: Group, events: seq<ChangeEvent>, m: nat)
    requires UpTo(env, known, writes, events, p, m) && x.txnId == "" && !HoldsNew(env.hash, known, x)
    ensures var d := Delivery.DeliverGroup(env, p, x); d.ok && UpTo(env, known, writes, events, d.p, m)
  {
    GroupWithout(env.hash, known, x);
    KnownGroup(env, p, x, x.events, 0);
  }

  lemma {:induction false} FirstChangesGrow(env: Env, known: set<nat>, events: seq<ChangeEvent>, m: nat)
    requires m <= |events|
    ensures FirstChanges(env, known, events[..m]) <= FirstChanges(env, known, events)
  {
    FirstChangesConcat(env, known, events[..m], events[m..]);
    assert events == events[..m] + events[m..];
  }

  lemma {:induction false} OneMoreFirst(env: Env, known: set<nat>, events: seq<ChangeEvent>, k: nat)
    requires k < |events| && env.KeyOf(events[k]) !in known + Keys(env, events[..k])
    ensures |FirstChanges(env, known, events[..k])| < |FirstChanges(env, known, events)|
  {
    KnownStep(env, known, events, k);
    FirstChangesGrow(env, known, events, k + 1);
  }

  /** With something left to write after `k`, what is written last is the same from `m`
      on as from `k` on. */
  lemma {:induction false} SameLast(env: Env, known: set<nat>, events: seq<ChangeEvent>, m: nat, k: nat)
    requires m <= k < |events| && env.KeyOf(events[k]) !in known + Keys(env, events[..k])
    ensures var f := FirstChanges(env, known, events);
            var a, b := |FirstChanges(env, known, events[..m])|, |FirstChanges(env, known, events[..k])|;
            a <= b < |f| && LastAfter(f, a) == LastAfter(f, b)
  {
    OneMoreFirst(env, known, events, k);
    FirstChangesGrow(env, known, events[..k], m);
    assert events[..k][..m] == events[..m];
  }

  lemma {:induction false} PassAcksHighest(env: Env, p: Progress, pending: seq<Group>)
    requires EachAscends(pending) && Pass(env, p, pending).failed.None?
    ensures var r := Pass(env, p, pending);
            && p.log <= r.p.log && r.acked == MaxPos(Writes(r.p.log[|p.log|..]))
            && Writes(r.p.log) == Writes(p.log) + Writes(r.p.log[|p.log|..])
  {
    var r := Pass(env, p, pending);
    var done := PassAcks(env, p, pending);
    var part := r.p.log[|p.log|..];
    SubseqAscends(done, pending);
    AckedOfAscending(part, done);
    HighestOfWrites(part);
    WritesConcat(p.log, part);
    assert p.log + part == r.p.log;
  }

  lemma TailOf(writes: seq<ChangeEvent>, a: seq<ChangeEvent>, b: seq<ChangeEvent>, rest: seq<ChangeEvent>)
    requires writes + b == (writes + a) + rest
    ensures a <= b && rest == b[|a|..]
  {
    assert (writes + b)[|writes|..] == b && ((writes + a) + rest)[|writes|..] == a + rest;
  }

  lemma {:induction false} MaxOfTail(events: seq<ChangeEvent>, n: nat)
    requires n <= |events| && Ascends(events)
    ensures MaxPos(events[n..]) == LastAfter(events, n)
  {
    MaxOfAscending(events[n..]);
  }

  lemma {:induction false} PassAcksTail(env: Env, known: set<nat>, writes: seq<ChangeEvent>, p: Progress,
                                        pending: seq<Group>, g: Group, m: nat)
    requires UpTo(env, known, writes, g.events, p, m) && EachAscends(pending) && Ascends(g.events)
    requires Pass(env, p, pending).failed.None?
    requires UpTo(env, known, writes, g.events, Pass(env, p, pending).p, |g.events|)
    ensures Pass(env, p, pending).acked ==
            LastAfter(FirstChanges(env, known, g.events), |FirstChanges(env, known, g.events[..m])|)
  {
    var f, fm := FirstChanges(env, known, g.events), FirstChanges(env, known, g.events[..m]);
    PassAcksHighest(env, p, pending);
    assert g.events[..|g.events|] == g.events;
    TailOf(writes, fm, f, Writes(Pass(env, p, pending).p.log[|p.log|..]));
    FirstChangesAscend(env, known, g.events);
    MaxOfTail(f, |fm|);
  }

  /** What is acknowledged once only `g` holds new keys: the position of the last of its
      first changes, unless they were all written before. */
  lemma {:induction false} OneGroupAcks(env: Env, known: set<nat>, writes: seq<ChangeEvent>, p: Progress,
                                        pending: seq<Group>, g: Group, m: nat, attempt: int, maxAttempts: int,
                                        r: DrainResult)
    requires UpTo(env, known, writes, g.events, p, m) && OnlyNew(env, known, pending, g) && OccursOnce(pending, g)
    requires g in pending && EachAscends(pending) && attempt <= maxAttempts
    requires r == Drain(env, p, pending, attempt, maxAttempts) && r.verdict == Delivered
    ensures r.acked == LastAfter(FirstChanges(env, known, g.events), |FirstChanges(env, known, g.events[..m])|)
    decreases maxAttempts - attempt
  {
    var s := Pass(env, p, pending);
    var k := PassOnce(env, known, writes, p, pending, g, m);
    assert g.events[..|g.events|] == g.events;
    FirstChangesGrow(env, known, g.events, m);
    if s.failed.None? {
      PassAcksTail(env, known, writes, p, pending, g, m);
    } else {
      SameLast(env, known, g.events, m, k);
      OneGroupAcks(env, known, writes, s.p, [g], g, k, attempt + 1, maxAttempts,
                   Drain(env, s.p, [g], attempt + 1, maxAttempts));
    }
  }

  lemma {:induction false} NoRepeatsOfClimbing(events: seq<ChangeEvent>)
    requires Climbing(events)
    ensures NoRepeats(events) && Ascends(events)
  {
  }

  /** Groups of different events are different. */
  lemma {:induction false} GroupsDiffer(groups: seq<Group>, g: Group)
    requires NoRepeats(GroupEvents(groups)) && forall i | 0 <= i < |groups| :: groups[i].events != []
    ensures OccursOnce(groups, g)
  {
    forall i, j | 0 <= i < j < |groups|
      ensures groups[i] != g || groups[j] != g
    {
      GroupsSplit(groups, i);
      NoRepeatsTail(GroupEvents(groups[..i]), groups[i].events + GroupEvents(groups[i + 1..]));
      assert groups[i + 1..][j - i - 1] == groups[j];
      GroupInEvents(groups[i + 1..], j - i - 1);
      HalvesApart(groups[i].events, GroupEvents(groups[i + 1..]), groups[i].events[0]);
    }
  }

  /** With one attempt, the highest position written is acknowledged. */
  lemma {:induction false} OneAttemptAcksHighest(env: Env, cfg: Config, d: DState, events: seq<ChangeEvent>)
    requires cfg.Valid() && cfg.maxAttempts == 1 && Ascends(events)
    requires DeliverEvents(env, cfg, d, events).verdict == Delivered
    ensures AcksHighest(d, DeliverEvents(env, cfg, d, events))
  {
    var r := DeliverEvents(env, cfg, d, events);
    if events == [] {
      assert WrittenBy(d, r) == [];
    } else {
      GroupsAscend(cfg, events);
      PassAcksHighest(env, d.p, Groups(cfg, events));
      HighestOfWrites(WrittenBy(d, r));
    }
  }

  /** One group with new keys: what the call writes are the group's first changes. */
  lemma {:induction false} OneGroupAcksHighest(env: Env, p: Progress, groups: seq<Group>, i: nat, maxAttempts: int,
                                               r: DrainResult)
    requires maxAttempts >= 1 && Untagged(groups) && i < |groups| && EachAscends(groups)
    requires OccursOnce(groups, groups[i])
    requires forall j | 0 <= j < |groups| && j != i :: !HoldsNew(env.hash, p.seen, groups[j])
    requires r == Drain(env, p, groups, 1, maxAttempts) && r.verdict == Delivered
    ensures |p.log| <= |r.p.log| && r.acked == Highest(r.p.log[|p.log|..])
  {
    var g, known, writes := groups[i], p.seen, Writes(p.log);
    assert g.events[..0] == [] && g.events[..|g.events|] == g.events;
    OneGroupAcks(env, known, writes, p, groups, g, 0, 1, maxAttempts, r);
    var k := DrainUpTo(env, known, writes, p, groups, g, 0, 1, maxAttempts, r);
    FirstChangesAscend(env, known, g.events);
    DrainConserves(env, p, groups, 1, maxAttempts);
    CallWroteFirst(p, r.p, FirstChanges(env, known, g.events));
  }

  lemma {:induction false} CallWroteFirst(p: Progress, q: Progress, first: seq<ChangeEvent>)
    requires p.log <= q.log && Writes(q.log) == Writes(p.log) + first && Ascends(first)
    ensures Highest(q.log[|p.log|..]) == LastAfter(first, 0)
  {
    var part := q.log[|p.log|..];
    assert q.log == p.log + part;
    WritesConcat(p.log, part);
    assert (Writes(p.log) + first)[|Writes(p.log)|..] == first;
    assert (Writes(p.log) + Writes(part))[|Writes(p.log)|..] == Writes(part);
    HighestOfWrites(part);
    MaxOfAscending(first);
  }

  /** No attempt, one attempt, or several and only one group holds new keys. */
  ghost predicate HighestIsKept(hash: string -> nat, cfg: Config, known: set<nat>, events: seq<ChangeEvent>)
    requires cfg.Valid()
  {
    events == [] || cfg.maxAttempts <= 1 || OneHoldsNew(hash, known, Groups(cfg, events))
  }

  lemma {:induction false} SoleHolderAcksHighest(env: Env, cfg: Config, d: DState, events: seq<ChangeEvent>)
    requires cfg.Valid() && cfg.maxAttempts >= 1 && UntaggedEvents(events) && Climbing(events) && events != []
    requires OneHoldsNew(env.hash, d.p.seen, Groups(cfg, events))
    requires DeliverEvents(env, cfg, d, events).verdict == Delivered
    ensures AcksHighest(d, DeliverEvents(env, cfg, d, events))
  {
    var groups := Groups(cfg, events);
    NoRepeatsOfClimbing(events);
    GroupsStart(cfg, events);
    GroupsHoldEvents(cfg, events);
    GroupsAscend(cfg, events);
    var i := SoleHolder(env.hash, d.p.seen, groups);
    GroupsDiffer(groups, groups[i]);
    OneGroupAcksHighest(env, d.p, groups, i, cfg.maxAttempts, Drain(env, d.p, groups, 1, cfg.maxAttempts));
  }

  lemma {:induction false} KeptIsAcked(env: Env, cfg: Config, d: DState, events: seq<ChangeEvent>)
    requires cfg.Valid() && UntaggedEvents(events) && Climbing(events)
    requires HighestIsKept(env.hash, cfg, d.p.seen, events) && DeliverEvents(env, cfg, d, events).verdict == Delivered
    ensures AcksHighest(d, DeliverEvents(env, cfg, d, events))
  {
    if events == [] || cfg.maxAttempts < 1 {
      assert WrittenBy(d, DeliverEvents(env, cfg, d, events)) == [];
    } else if cfg.maxAttempts == 1 {
      NoRepeatsOfClimbing(events);
      OneAttemptAcksHighest(env, cfg, d, events);
    } else {
      SoleHolderAcksHighest(env, cfg, d, events);
    }
  }

  lemma {:induction false} SoleHolder(hash: string -> nat, known: set<nat>, groups: seq<Group>) returns (i: nat)
    requires groups != [] && OneHoldsNew(hash, known, groups)
    ensures i < |groups| && forall j | 0 <= j < |groups| && j != i :: !HoldsNew(hash, known, groups[j])
  {
    i := 0;
    if k :| 0 <= k < |groups| && HoldsNew(hash, known, groups[k]) {
      i := k;
    }
  }

  // ----- A position that is not the highest -----

  lemma {:induction false} AckedIsIn(env: Env, p: Progress, g: Group)
    requires g.txnId == "" && Pass(env, p, [g]).failed.None?
    ensures var acked := Pass(env, p, [g]).acked; acked == 0 || exists e | e in g.events :: e.sourcePos == acked
  {
    var d := Delivery.DeliverGroup(env, p, g);
    assert [g][1..] == [];
    SuffixWrites(env, p, g, g.events, 0, d);
    LastWriteIsIn(d.p.log[|p.log|..], g.events);
  }

  lemma {:induction false} LastWriteIsIn(log: seq<Action>, events: seq<ChangeEvent>)
    requires ActsOn(log, events)
    ensures LastWriteOr(log, 0) == 0 || exists e | e in events :: e.sourcePos == LastWriteOr(log, 0)
  {
    if log == [] {
    } else {
      var n := |log| - 1;
      LastWriteIsIn(log[..n], events[..n]);
      assert log[n].event in events;
      if e :| e in events[..n] && e.sourcePos == LastWriteOr(log[..n], 0) {
        assert e in events;
      }
    }
  }

  /** Delivering a group again, to a sink that now accepts everything. */
  lemma {:induction false} AgainAcksWithin(env: Env, p: Progress, g: Group, maxAttempts: int)
    requires g.txnId == "" && AcceptsFrom(env, p.calls) && maxAttempts > 1
    ensures var r := Drain(env, p, [g], 2, maxAttempts);
            && r.verdict == Delivered && p.log <= r.p.log
            && (r.acked == 0 || exists e | e in g.events :: e.sourcePos == r.acked)
  {
    AcceptedPass(env, p, [g]);
    AckedIsIn(env, p, g);
    DrainConserves(env, p, [g], 2, maxAttempts);
  }

  lemma {:induction false} SecondAttempt(env: Env, p: Progress, groups: seq<Group>, i: nat, maxAttempts: int)
    requires Untagged(groups) && RefusesThenAccepts(env, p.calls) && i < |groups| && maxAttempts > 1
    requires HoldsNew(env.hash, p.seen, groups[i])
    requires forall j | 0 <= j < i :: !HoldsNew(env.hash, p.seen, groups[j])
    ensures var s, r := Pass(env, p, groups), Drain(env, p, groups, 1, maxAttempts);
            && WritesFirst(env, p, GroupEvents(groups[i + 1..]), s.p) && p.log <= s.p.log <= r.p.log
            && r.verdict == Delivered
            && (r.acked == 0 || exists e | e in groups[i].events :: e.sourcePos == r.acked)
  {
    PassOvertakes(env, p, groups, i);
    PassConserves(env, p, groups);
    assert groups[i] in groups;
    AgainAcksWithin(env, Pass(env, p, groups).p, groups[i], maxAttempts);
  }

  /** With a sink that refuses only the first write of the call, the group it belongs to
      is delivered last, and a lower position than the highest is acknowledged. */
  lemma {:induction false} OvertakenAcksLess(env: Env, p: Progress, groups: seq<Group>, i: nat, k: nat,
                                             maxAttempts: int, r: DrainResult)
    requires Untagged(groups) && RefusesThenAccepts(env, p.calls) && i < k < |groups| && maxAttempts > 1
    requires HoldsNew(env.hash, p.seen, groups[i]) && HoldsNew(env.hash, p.seen, groups[k])
    requires forall j | 0 <= j < i :: !HoldsNew(env.hash, p.seen, groups[j])
    requires Climbing(GroupEvents(groups)) && forall e | e in GroupEvents(groups) :: e.sourcePos > 0
    requires r == Drain(env, p, groups, 1, maxAttempts)
    ensures r.verdict == Delivered && |p.log| <= |r.p.log| && r.acked < Highest(r.p.log[|p.log|..])
  {
    var q := Pass(env, p, groups).p;
    SecondAttempt(env, p, groups, i, maxAttempts);
    var e := WrittenLater(env, p, q, groups, i, k);
    WrittenIsBelow(p.log, q.log, r.p.log, e);
    EarlierIsLower(groups, i, e);
  }

  lemma {:induction false} WrittenLater(env: Env, p: Progress, q: Progress, groups: seq<Group>, i: nat, k: nat)
    returns (e: ChangeEvent)
    requires i < k < |groups| && HoldsNew(env.hash, p.seen, groups[i]) && HoldsNew(env.hash, p.seen, groups[k])
    requires WritesFirst(env, p, GroupEvents(groups[i + 1..]), q) && p.log <= q.log
    ensures e in GroupEvents(groups[i + 1..]) && Wrote(e) in q.log[|p.log|..]
  {
    var later, part := GroupEvents(groups[i + 1..]), q.log[|p.log|..];
    BothHalvesNew(env, p.seen, groups, i, k);
    FirstChangesMembers(env, p.seen, later);
    e := FirstChanges(env, p.seen, later)[0];
    assert q.log == p.log + part;
    WritesConcat(p.log, part);
    assert Writes(part) == FirstChanges(env, p.seen, later) by {
      assert (Writes(p.log) + Writes(part))[|Writes(p.log)|..] == Writes(part);
    }
    WritesAreWrote(part, e);
  }

  lemma {:induction false} WritesAreWrote(log: seq<Action>, e: ChangeEvent)
    requires e in Writes(log)
    ensures Wrote(e) in log
  {
    if log[|log| - 1] == Wrote(e) {
    } else {
      WritesAreWrote(log[..|log| - 1], e);
    }
  }

  lemma {:induction false} WrittenIsBelow(p: seq<Action>, q: seq<Action>, r: seq<Action>, e: ChangeEvent)
    requires p <= q <= r && Wrote(e) in q[|p|..]
    ensures e.sourcePos <= Highest(r[|p|..])
  {
    var i :| 0 <= i < |q| - |p| && q[|p|..][i] == Wrote(e);
    assert r[|p|..][i] == Wrote(e);
    HighestIs(r[|p|..]);
  }

  lemma MiddleIsBelow(a: seq<ChangeEvent>, b: seq<ChangeEvent>, c: seq<ChangeEvent>, e: ChangeEvent)
    requires Climbing(a + (b + c)) && e in c
    ensures e in a + (b + c) && forall x | x in b :: x.sourcePos < e.sourcePos
  {
    var all := a + (b + c);
    var k :| 0 <= k < |c| && c[k] == e;
    assert all[|a| + |b| + k] == e;
    forall x | x in b
      ensures x.sourcePos < e.sourcePos
    {
      var j :| 0 <= j < |b| && b[j] == x;
      assert all[|a| + j] == x;
    }
  }

  lemma {:induction false} EarlierIsLower(groups: seq<Group>, i: nat, e: ChangeEvent)
    requires i < |groups| && Climbing(GroupEvents(groups)) && e in GroupEvents(groups[i + 1..])
    requires forall x | x in GroupEvents(groups) :: x.sourcePos > 0
    ensures e.sourcePos > 0 && forall x | x in groups[i].events :: x.sourcePos < e.sourcePos
  {
    GroupsSplit(groups, i);
    MiddleIsBelow(GroupEvents(groups[..i]), groups[i].events, GroupEvents(groups[i + 1..]), e);
  }

  /** A successful call acknowledges the highest position it wrote, whatever the sink and
      the context do, if and only if it makes at most one attempt, or several with new
      keys in one group only. */
  lemma {:induction false} HighestAckedIff(hash: string -> nat, cfg: Config, d: DState, events: seq<ChangeEvent>)
    requires cfg.Valid() && UntaggedEvents(events) && Climbing(events) && forall e | e in events :: e.sourcePos > 0
    ensures (forall accepts: nat -> bool, cancelled: nat -> bool ::
               var r := DeliverEvents(Env(hash, accepts, cancelled), cfg, d, events);
               r.verdict == Delivered ==> AcksHighest(d, r))
            <==> HighestIsKept(hash, cfg, d.p.seen, events)
  {
    if HighestIsKept(hash, cfg, d.p.seen, events) {
      forall accepts: nat -> bool, cancelled: nat -> bool
        ensures var r := DeliverEvents(Env(hash, accepts, cancelled), cfg, d, events);
                r.verdict == Delivered ==> AcksHighest(d, r)
      {
        if DeliverEvents(Env(hash, accepts, cancelled), cfg, d, events).verdict == Delivered {
          KeptIsAcked(Env(hash, accepts, cancelled), cfg, d, events);
        }
      }
    } else {
      var env := Env(hash, i => i != d.p.calls, i => false);
      LowerIsAcked(env, cfg, d, events);
      var r := DeliverEvents(Env(hash, env.accepts, env.cancelled), cfg, d, events);
      assert r.verdict == Delivered && !AcksHighest(d, r);
    }
  }

  lemma {:induction false} LowerIsAcked(env: Env, cfg: Config, d: DState, events: seq<ChangeEvent>)
    requires cfg.Valid() && UntaggedEvents(events) && Climbing(events) && forall e | e in events :: e.sourcePos > 0
    requires !HighestIsKept(env.hash, cfg, d.p.seen, events) && RefusesThenAccepts(env, d.p.calls)
    ensures var r := DeliverEvents(env, cfg, d, events);
            r.verdict == Delivered && |d.p.log| <= |r.d.p.log| && r.acked < Highest(WrittenBy(d, r))
  {
    var groups := Groups(cfg, events);
    var m, k :| 0 <= m < k < |groups|
                && HoldsNew(env.hash, d.p.seen, groups[m]) && HoldsNew(env.hash, d.p.seen, groups[k]);
    var i := FirstGroupWithNew(env.hash, d.p.seen, groups, m);
    GroupsStart(cfg, events);
    GroupsHoldEvents(cfg, events);
    OvertakenAcksLess(env, d.p, groups, i, k, cfg.maxAttempts, Drain(env, d.p, groups, 1, cfg.maxAttempts));
  }

  // ----- A sink that accepts everything -----

  lemma {:induction false} AcceptedWritesFirst(env: Env, cfg: Config, d: DState, events: seq<ChangeEvent>)
    requires cfg.Valid() && cfg.maxAttempts >= 1 && AcceptsFrom(env, d.p.calls)
    requires UntaggedEvents(events) && Ascends(events)
    ensures var r := DeliverEvents(env, cfg, d, events);
            && r.verdict == Delivered && r.d.p.calls >= d.p.calls && AcksHighest(d, r) && d.p.log <= r.d.p.log
            && WritesFirst(env, d.p, events, r.d.p)
  {
    var r := DeliverEvents(env, cfg, d, events);
    if events == [] {
      assert WrittenBy(d, r) == [];
    } else {
      var groups := Groups(cfg, events);
      GroupsStart(cfg, events);
      GroupsHoldEvents(cfg, events);
      GroupsAscend(cfg, events);
      AcceptedPass(env, d.p, groups);
      PassWritesFirst(env, d.p, groups);
      PassAcksHighest(env, d.p, groups);
      HighestOfWrites(WrittenBy(d, r));
    }
  }

  /** An untagged batch in ascending order of positive positions. */
  ghost predicate PlainBatch(list: seq<ChangeEvent>) {
    UntaggedEvents(list) && Ascends(list) && forall e | e in list :: e.sourcePos > 0
  }

  /** The position of the last event whose key is new, 0 when none is. */
  ghost function LastNew(env: Env, known: set<nat>, events: seq<ChangeEvent>): nat {
    var first := FirstChanges(env, known, events);
    if first == [] then 0 else first[|first| - 1].sourcePos
  }

  /** With a sink that accepts everything a call acknowledges the position of the last
      event whose key was new, and 0 exactly when no key was. */
  lemma {:induction false} AcceptedAcksLastNew(env: Env, cfg: Config, d: DState, events: seq<ChangeEvent>)
    requires cfg.Valid() && cfg.maxAttempts >= 1 && AcceptsFrom(env, d.p.calls)
    requires PlainBatch(events)
    ensures var r := DeliverEvents(env, cfg, d, events);
            && r.verdict == Delivered && r.d.p.calls >= d.p.calls && AcksHighest(d, r)
            && r.acked == LastNew(env, d.p.seen, events)
            && (r.acked == 0 <==> forall e | e in events :: env.KeyOf(e) in d.p.seen)
  {
    var first := FirstChanges(env, d.p.seen, events);
    AcceptedWritesFirst(env, cfg, d, events);
    FirstChangesMembers(env, d.p.seen, events);
    FirstChangesAscend(env, d.p.seen, events);
    CallWroteFirst(d.p, DeliverEvents(env, cfg, d, events).d.p, first);
    assert first != [] ==> first[|first| - 1] in events;
  }

  // ----- Planned delivery -----

  lemma {:induction false} PlanConcat(env: Env, cfg: Config, d: DState, a: seq<seq<ChangeEvent>>,
                                      b: seq<seq<ChangeEvent>>)
    requires cfg.Valid()
    ensures var r, whole := DeliverPlan(env, cfg, d, a), DeliverPlan(env, cfg, d, a + b);
            if r.verdict != Delivered then whole == r
            else var rest := DeliverPlan(env, cfg, r.d, b);
                 && whole.d == rest.d && whole.verdict == rest.verdict && whole.acked == Max(r.acked, rest.acked)
    decreases |a|
  {
    if a == [] {
      assert a + b == b;
    } else {
      assert (a + b)[1..] == a[1..] + b;
      PlanConcat(env, cfg, DeliverEvents(env, cfg, d, a[0]).d, a[1..], b);
    }
  }

  /** Batch `k` of the plan was reached and succeeded. */
  ghost predicate BatchWentThrough(env: Env, cfg: Config, d: DState, lists: seq<seq<ChangeEvent>>, k: nat)
    requires cfg.Valid()
  {
    k < |lists| && DeliverPlan(env, cfg, d, lists[..k]).verdict == Delivered
    && DeliverEvents(env, cfg, DeliverPlan(env, cfg, d, lists[..k]).d, lists[k]).verdict == Delivered
  }

  /** What batch `k` of the plan acknowledged. */
  function BatchAcked(env: Env, cfg: Config, d: DState, lists: seq<seq<ChangeEvent>>, k: nat): nat
    requires cfg.Valid() && k < |lists|
  {
    DeliverEvents(env, cfg, DeliverPlan(env, cfg, d, lists[..k]).d, lists[k]).acked
  }

  lemma {:induction false} PlanOfOne(env: Env, cfg: Config, d: DState, list: seq<ChangeEvent>)
    requires cfg.Valid()
    ensures var r, s := DeliverPlan(env, cfg, d, [list]), DeliverEvents(env, cfg, d, list);
            r.d == s.d && r.verdict == s.verdict && r.acked == if s.verdict == Delivered then s.acked else 0
  {
    assert [list][1..] == [];
  }

  lemma {:induction false} PlanFront(env: Env, cfg: Config, d: DState, lists: seq<seq<ChangeEvent>>, n: nat)
    requires cfg.Valid() && |lists| == n + 1
    ensures var r, whole := DeliverPlan(env, cfg, d, lists[..n]), DeliverPlan(env, cfg, d, lists);
            if BatchWentThrough(env, cfg, d, lists, n) then
              whole.verdict == Delivered && whole.acked == Max(r.acked, BatchAcked(env, cfg, d, lists, n))
            else whole.verdict != Delivered && whole.acked == r.acked
  {
    PlanConcat(env, cfg, d, lists[..n], [lists[n]]);
    assert lists[..n] + [lists[n]] == lists;
    if DeliverPlan(env, cfg, d, lists[..n]).verdict == Delivered {
      PlanOfOne(env, cfg, DeliverPlan(env, cfg, d, lists[..n]).d, lists[n]);
    }
  }

  lemma {:induction false} SameInFront(env: Env, cfg: Config, d: DState, lists: seq<seq<ChangeEvent>>, n: nat, k: nat)
    requires cfg.Valid() && k < n <= |lists|
    ensures BatchWentThrough(env, cfg, d, lists[..n], k) <==> BatchWentThrough(env, cfg, d, lists, k)
    ensures BatchAcked(env, cfg, d, lists[..n], k) == BatchAcked(env, cfg, d, lists, k)
  {
    assert lists[..n][..k] == lists[..k];
  }

  /** Batch `k`, if it went through, acknowledged at most `acked`. */
  ghost predicate AckedWithin(env: Env, cfg: Config, d: DState, lists: seq<seq<ChangeEvent>>, k: nat, acked: nat)
    requires cfg.Valid() && k < |lists|
  {
    BatchWentThrough(env, cfg, d, lists, k) ==> BatchAcked(env, cfg, d, lists, k) <= acked
  }

  /** Batch `k` went through and acknowledged `acked`. */
  ghost predicate AckedBy(env: Env, cfg: Config, d: DState, lists: seq<seq<ChangeEvent>>, k: nat, acked: nat)
    requires cfg.Valid()
  {
    BatchWentThrough(env, cfg, d, lists, k) && BatchAcked(env, cfg, d, lists, k) == acked
  }

  lemma {:induction false} PlanBounds(env: Env, cfg: Config, d: DState, lists: seq<seq<ChangeEvent>>, k: nat)
    requires cfg.Valid() && k < |lists|
    ensures AckedWithin(env, cfg, d, lists, k, DeliverPlan(env, cfg, d, lists).acked)
    decreases |lists|
  {
    var n := |lists| - 1;
    PlanFront(env, cfg, d, lists, n);
    if k == n {
    } else {
      PlanBounds(env, cfg, d, lists[..n], k);
      SameInFront(env, cfg, d, lists, n, k);
    }
  }

  lemma {:induction false} PlanReaches(env: Env, cfg: Config, d: DState, lists: seq<seq<ChangeEvent>>)
    returns (k: nat)
    requires cfg.Valid() && DeliverPlan(env, cfg, d, lists).acked > 0
    ensures AckedBy(env, cfg, d, lists, k, DeliverPlan(env, cfg, d, lists).acked)
    decreases |lists|
  {
    var n := |lists| - 1;
    PlanFront(env, cfg, d, lists, n);
    if AckedBy(env, cfg, d, lists, n, DeliverPlan(env, cfg, d, lists).acked) {
      k := n;
    } else {
      k := PlanReaches(env, cfg, d, lists[..n]);
      SameInFront(env, cfg, d, lists, n, k);
    }
  }

  /** A plan, whether it succeeds or stops at a batch, acknowledges the highest of what
      the batches that went through acknowledged. */
  lemma {:induction false} PlanAcksMaximum(env: Env, cfg: Config, d: DState, lists: seq<seq<ChangeEvent>>)
    requires cfg.Valid()
    ensures var acked := DeliverPlan(env, cfg, d, lists).acked;
            && (forall k: nat | k < |lists| :: AckedWithin(env, cfg, d, lists, k, acked))
            && (acked == 0 || exists k: nat :: AckedBy(env, cfg, d, lists, k, acked))
  {
    forall k: nat | k < |lists|
      ensures AckedWithin(env, cfg, d, lists, k, DeliverPlan(env, cfg, d, lists).acked)
    {
      PlanBounds(env, cfg, d, lists, k);
    }
    if DeliverPlan(env, cfg, d, lists).acked > 0 {
      var k := PlanReaches(env, cfg, d, lists);
    }
  }

  lemma HighestJoins(d: DState, s: DeliverResult, rest: DeliverResult, r: DeliverResult)
    requires AcksHighest(d, s) && AcksHighest(s.d, rest) && d.p.log <= s.d.p.log <= rest.d.p.log
    requires r.d == rest.d && r.acked == Max(s.acked, rest.acked)
    ensures AcksHighest(d, r)
  {
    HighestConcat(WrittenBy(d, s), WrittenBy(s.d, rest));
    assert WrittenBy(d, s) + WrittenBy(s.d, rest) == WrittenBy(d, r);
  }

  lemma {:induction false} AcceptedBatch(env: Env, cfg: Config, d: DState, list: seq<ChangeEvent>, s: DeliverResult)
    requires cfg.Valid() && cfg.maxAttempts >= 1 && AcceptsFrom(env, d.p.calls) && PlainBatch(list)
    requires s == DeliverEvents(env, cfg, d, list)
    ensures s.verdict == Delivered && AcksHighest(d, s) && d.p.log <= s.d.p.log && AcceptsFrom(env, s.d.p.calls)
  {
    AcceptedAcksLastNew(env, cfg, d, list);
    CallGrows(env, cfg, d, Batched(list));
  }

  /** With a sink that accepts everything that is the highest position the plan wrote. */
  lemma {:induction false} AcceptedPlanAcksHighest(env: Env, cfg: Config, d: DState, lists: seq<seq<ChangeEvent>>,
                                                   r: DeliverResult)
    requires cfg.Valid() && cfg.maxAttempts >= 1 && AcceptsFrom(env, d.p.calls)
    requires forall i | 0 <= i < |lists| :: PlainBatch(lists[i])
    requires r == DeliverPlan(env, cfg, d, lists)
    ensures r.verdict == Delivered && AcksHighest(d, r) && d.p.log <= r.d.p.log
    decreases |lists|
  {
    if lists == [] {
      assert WrittenBy(d, r) == [];
    } else {
      var s := DeliverEvents(env, cfg, d, lists[0]);
      AcceptedBatch(env, cfg, d, lists[0], s);
      var rest := DeliverPlan(env, cfg, s.d, lists[1..]);
      AcceptedPlanAcksHighest(env, cfg, s.d, lists[1..], rest);
      HighestJoins(d, s, rest, r);
    }
  }
}
