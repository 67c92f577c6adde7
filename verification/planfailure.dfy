/** What the sink can do to one transaction delivered table by table: when success means
    the whole of it, for every sink. */
module PlanFailure {
  import opened Model
  import opened Txn
  import opened Delivery
  import opened Conservation
  import opened TxnPrefix
  import opened TxnFailure
  import opened Planner
  import opened Plan
  import opened TxnPlan

  // ----- A plan as cuts of the transaction -----

  /** Nonempty batches that, one after the other, are the transaction. */
  ghost predicate Cuts(lists: seq<seq<ChangeEvent>>, events: seq<ChangeEvent>) {
    (forall i | 0 <= i < |lists| :: lists[i] != []) && Flatten(lists) == events
  }

  /** The number of events in the first `k` batches. */
  function Offset(lists: seq<seq<ChangeEvent>>, k: nat): nat
    requires k <= |lists|
  {
    |Flatten(lists[..k])|
  }

  lemma {:induction false} FlattenConcat(a: seq<seq<ChangeEvent>>, b: seq<seq<ChangeEvent>>)
    ensures Flatten(a + b) == Flatten(a) + Flatten(b)
  {
    if a == [] {
      assert a + b == b;
    } else {
      assert (a + b)[1..] == a[1..] + b;
      FlattenConcat(a[1..], b);
    }
  }

  lemma {:induction false} CutAt(lists: seq<seq<ChangeEvent>>, events: seq<ChangeEvent>, k: nat)
    requires Cuts(lists, events) && k < |lists|
    ensures Offset(lists, k) < Offset(lists, k + 1) <= |events|
    ensures lists[k] == events[Offset(lists, k)..Offset(lists, k + 1)]
  {
    var before := Flatten(lists[..k]);
    FlattenConcat(lists[..k], lists[k..]);
    FlattenConcat(lists[..k], [lists[k]]);
    assert lists[..k] + lists[k..] == lists && lists[..k] + [lists[k]] == lists[..k + 1];
    assert lists[k..][0] == lists[k] && [lists[k]][1..] == [];
    assert Flatten([lists[k]]) == lists[k];
    assert events == before + (lists[k] + Flatten(lists[k..][1..]));
  }

  lemma CutEnds(lists: seq<seq<ChangeEvent>>, events: seq<ChangeEvent>)
    requires Cuts(lists, events)
    ensures Offset(lists, 0) == 0 && Offset(lists, |lists|) == |events|
  {
    assert lists[..|lists|] == lists;
  }

  // ----- Plans batch by batch -----

  /** From a state that is `ok` at batch `k`, success of the batch leaves nothing pending
      and a state that is `ok` at the next. */
  ghost predicate Completes(env: Env, cfg: Config, lists: seq<seq<ChangeEvent>>, k: nat, d: DState,
                            ok: (nat, DState) -> bool)
    requires cfg.Valid() && k < |lists|
  {
    var s := DeliverEvents(env, cfg, d, lists[k]);
    s.verdict == Delivered ==> s.d.pending == [] && ok(k + 1, s.d)
  }

  lemma {:induction false} EachCompletes(env: Env, cfg: Config, lists: seq<seq<ChangeEvent>>, k: nat, d: DState,
                                         ok: (nat, DState) -> bool)
    requires cfg.Valid() && k <= |lists| && ok(k, d)
    requires forall i: nat, e | i < |lists| && ok(i, e) :: Completes(env, cfg, lists, i, e, ok)
    ensures var r := DeliverPlan(env, cfg, d, lists[k..]); r.verdict == Delivered ==> ok(|lists|, r.d)
    ensures PlanCompletes(env, cfg, d, lists[k..])
    decreases |lists| - k
  {
    if k == |lists| {
    } else {
      assert Completes(env, cfg, lists, k, d, ok);
      assert lists[k..][0] == lists[k] && lists[k..][1..] == lists[k + 1..];
      var s := DeliverEvents(env, cfg, d, lists[k]);
      if s.verdict == Delivered {
        EachCompletes(env, cfg, lists, k + 1, s.d, ok);
      }
    }
  }

  /** From a state that is `ok` at batch `k`, the batch succeeds and leaves a state that is
      `ok` at the next. */
  ghost predicate Succeeds(env: Env, cfg: Config, lists: seq<seq<ChangeEvent>>, k: nat, d: DState,
                           ok: (nat, DState) -> bool)
    requires cfg.Valid() && k < |lists|
  {
    var s := DeliverEvents(env, cfg, d, lists[k]);
    s.verdict == Delivered && ok(k + 1, s.d)
  }

  lemma {:induction false} EachSucceeds(env: Env, cfg: Config, lists: seq<seq<ChangeEvent>>, k: nat, d: DState,
                                        ok: (nat, DState) -> bool)
    requires cfg.Valid() && k <= |lists| && ok(k, d)
    requires forall i: nat, e | i < |lists| && ok(i, e) :: Succeeds(env, cfg, lists, i, e, ok)
    ensures var r := DeliverPlan(env, cfg, d, lists[k..]); r.verdict == Delivered && ok(|lists|, r.d)
    decreases |lists| - k
  {
    if k == |lists| {
    } else {
      assert Succeeds(env, cfg, lists, k, d, ok);
      assert lists[k..][0] == lists[k] && lists[k..][1..] == lists[k + 1..];
      EachSucceeds(env, cfg, lists, k + 1, DeliverEvents(env, cfg, d, lists[k]).d, ok);
    }
  }

  // ----- A planned batch as a stretch of the transaction -----

  /** The transaction up to event `to`, as the batch from event `from` on meets it. */
  ghost function BatchCourse(cfg: Config, c: Course, from: nat, to: nat): Course
    requires cfg.Valid() && from < to <= |c.events|
  {
    c.(events := c.events[..to], size := SizeOf(cfg, c.events[from..to]), origin := from)
  }

  /** Both courses have come the same way to event `h`. */
  ghost predicate SameWay(a: Course, b: Course, h: nat) {
    && a.hash == b.hash && a.txn == b.txn && a.known == b.known && a.n == b.n
    && h <= |a.events| && h <= |b.events| && a.events[..h] == b.events[..h]
  }

  lemma {:induction false} SamePast(a: Course, b: Course, h: nat)
    requires SameWay(a, b, h)
    ensures a.Marked(h) == b.Marked(h) && a.Attempts(h) == b.Attempts(h)
  {
    if h == 0 {
    } else {
      assert a.events[..h][..h - 1] == a.events[..h - 1] && b.events[..h][..h - 1] == b.events[..h - 1];
      assert a.events[..h][h - 1] == b.events[..h][h - 1];
      SamePast(a, b, h - 1);
    }
  }

  lemma {:induction false} AtSame(a: Course, b: Course, base: nat, p: Progress, h: nat)
    requires SameWay(a, b, h) && At(a, base, p, h)
    ensures At(b, base, p, h)
  {
    SamePast(a, b, h);
  }

  lemma {:induction false} BatchWay(cfg: Config, c: Course, from: nat, to: nat, h: nat)
    requires cfg.Valid() && from < to <= |c.events| && h <= to && Transaction(c.events, c.txn)
    ensures BatchCourse(cfg, c, from, to).Valid()
    ensures SameWay(c, BatchCourse(cfg, c, from, to), h) && SameWay(BatchCourse(cfg, c, from, to), c, h)
  {
    assert c.events[..to][..h] == c.events[..h];
  }

  lemma {:induction false} NewInBatch(cfg: Config, c: Course, from: nat, to: nat, h: nat)
    requires cfg.Valid() && from < to <= |c.events| && h < to && Transaction(c.events, c.txn)
    ensures BatchCourse(cfg, c, from, to).New(h) <==> c.New(h)
    ensures BatchCourse(cfg, c, from, to).Attempts(h) == c.Attempts(h)
  {
    BatchWay(cfg, c, from, to, h);
    SamePast(c, BatchCourse(cfg, c, from, to), h);
  }

  lemma {:induction false} BatchGroups(cfg: Config, c: Course, from: nat, to: nat)
    requires cfg.Valid() && from < to <= |c.events| && Transaction(c.events, c.txn)
    ensures Covers(BatchCourse(cfg, c, from, to), Groups(cfg, c.events[from..to]), from)
    ensures Groups(cfg, c.events[from..to]) != []
  {
    BatchWay(cfg, c, from, to, 0);
    assert c.events[..to][from..] == c.events[from..to];
    BatchCovers(cfg, BatchCourse(cfg, c, from, to), c.events[from..to]);
  }

  // ----- A batch that cannot be dropped -----

  lemma {:induction false} BatchReady(cfg: Config, c: Course, base: nat, p: Progress, from: nat, to: nat)
    requires cfg.Valid() && from < to <= |c.events| && Transaction(c.events, c.txn) && At(c, base, p, from)
    ensures var bc, groups := BatchCourse(cfg, c, from, to), Groups(cfg, c.events[from..to]);
            bc.Valid() && groups != [] && Covers(bc, groups, from) && At(bc, base, p, from)
  {
    BatchGroups(cfg, c, from, to);
    BatchWay(cfg, c, from, to, from);
    AtSame(c, BatchCourse(cfg, c, from, to), base, p, from);
  }

  lemma {:induction false} BatchLeaves(cfg: Config, c: Course, base: nat, p: Progress, from: nat, to: nat, h: nat)
    requires cfg.Valid() && from < to <= |c.events| && h <= to && Transaction(c.events, c.txn)
    requires At(BatchCourse(cfg, c, from, to), base, p, h)
    ensures At(c, base, p, h)
  {
    BatchWay(cfg, c, from, to, h);
    AtSame(BatchCourse(cfg, c, from, to), c, base, p, h);
  }

  lemma StartsStopped(c: Course, base: nat, p: Progress, groups: seq<Group>)
    requires c.size > 0 && groups != [] && Covers(c, groups, c.origin) && At(c, base, p, c.origin)
    ensures Stopped(c, base, p, groups, c.origin) && groups[0].first == c.origin + 1
  {
  }

  lemma {:induction false} BatchDrains(env: Env, cfg: Config, c: Course, base: nat, d: DState, from: nat, to: nat)
    returns (h: nat, b: nat)
    requires cfg.Valid() && cfg.maxAttempts >= 1 && env.hash == c.hash && Transaction(c.events, c.txn)
    requires from < to <= |c.events| && At(c, base, d.p, from)
    ensures var bc, groups := BatchCourse(cfg, c, from, to), Groups(cfg, c.events[from..to]);
            && groups != [] && groups[0].first == from + 1
            && DrainStops(bc, groups, from, cfg.maxAttempts == 1, h, b, Drain(env, d.p, groups, 1, cfg.maxAttempts))
  {
    var bc, groups := BatchCourse(cfg, c, from, to), Groups(cfg, c.events[from..to]);
    BatchReady(cfg, c, base, d.p, from, to);
    StartsStopped(bc, base, d.p, groups);
    h, b := DrainPrefix(env, bc, base, d.p, groups, from, 1, cfg.maxAttempts);
  }

  /** A batch delivers a prefix of what is left, and all of it when it reports success
      and no refusal can come while a group is under way. */
  lemma {:induction false} BatchStops(env: Env, cfg: Config, c: Course, base: nat, d: DState, from: nat, to: nat,
                                      r: DeliverResult)
    returns (h: nat, b: nat)
    requires cfg.Valid() && cfg.maxAttempts >= 1 && env.hash == c.hash && Transaction(c.events, c.txn)
    requires from < to <= |c.events| && At(c, base, d.p, from) && r == DeliverEvents(env, cfg, d, c.events[from..to])
    ensures At(c, b, r.d.p, h)
    ensures r.verdict == Delivered && (cfg.maxAttempts == 1 || BatchCourse(cfg, c, from, to).Shielded()) ==>
              h == to && r.d.pending == []
  {
    h, b := BatchDrains(env, cfg, c, base, d, from, to);
    var bc := BatchCourse(cfg, c, from, to);
    BatchWay(cfg, c, from, to, 0);
    StoppedIsPrefix(bc, b, r.d, h);
    BatchLeaves(cfg, c, b, r.d.p, from, to, h);
  }

  // ----- When a plan cannot be dropped -----

  /** Batch `k` of the plan, as a stretch of the transaction. */
  ghost function CourseAt(cfg: Config, c: Course, lists: seq<seq<ChangeEvent>>, k: nat): Course
    requires cfg.Valid() && Cuts(lists, c.events) && k < |lists|
  {
    CutAt(lists, c.events, k);
    BatchCourse(cfg, c, Offset(lists, k), Offset(lists, k + 1))
  }

  /** No batch of the plan can be refused an event whose key is new but that does not open
      a group of the batch. */
  ghost predicate PlanShielded(cfg: Config, c: Course, lists: seq<seq<ChangeEvent>>)
    requires cfg.Valid() && Cuts(lists, c.events)
  {
    forall k: nat | k < |lists| :: CourseAt(cfg, c, lists, k).Shielded()
  }

  /** Exactly the events of the first `k` batches were handled. */
  ghost predicate Reached(c: Course, lists: seq<seq<ChangeEvent>>, k: nat, d: DState) {
    k <= |lists| && exists b: nat :: At(c, b, d.p, Offset(lists, k))
  }

  lemma {:induction false} ShieldedBatchCompletes(env: Env, cfg: Config, c: Course, lists: seq<seq<ChangeEvent>>,
                                                  k: nat, d: DState, ok: (nat, DState) -> bool)
    requires cfg.Valid() && cfg.maxAttempts >= 1 && env.hash == c.hash && Transaction(c.events, c.txn)
    requires Cuts(lists, c.events) && k < |lists| && Reached(c, lists, k, d)
    requires cfg.maxAttempts == 1 || CourseAt(cfg, c, lists, k).Shielded()
    requires forall i, e :: ok(i, e) <==> Reached(c, lists, i, e)
    ensures Completes(env, cfg, lists, k, d, ok)
  {
    CutAt(lists, c.events, k);
    var b: nat :| At(c, b, d.p, Offset(lists, k));
    var s := DeliverEvents(env, cfg, d, lists[k]);
    var h, b2 := BatchStops(env, cfg, c, b, d, Offset(lists, k), Offset(lists, k + 1), s);
    assert s.verdict == Delivered ==> Reached(c, lists, k + 1, s.d);
  }

  /** A plan that does not reorder the transaction, and that no refusal can stop while a
      group is under way: success means all of it, and every batch completes. */
  lemma {:induction false} ShieldedPlanIsWhole(env: Env, cfg: Config, c: Course, d: DState,
                                               lists: seq<seq<ChangeEvent>>)
    requires cfg.Valid() && cfg.maxAttempts >= 1 && env.hash == c.hash && Transaction(c.events, c.txn)
    requires Cuts(lists, c.events) && At(c, d.p.calls, d.p, 0)
    requires cfg.maxAttempts == 1 || PlanShielded(cfg, c, lists)
    ensures var r := DeliverPlan(env, cfg, d, lists); r.verdict == Delivered ==> Reached(c, lists, |lists|, r.d)
    ensures PlanCompletes(env, cfg, d, lists)
  {
    var ok := (k: nat, e: DState) => Reached(c, lists, k, e);
    CutEnds(lists, c.events);
    assert ok(0, d);
    forall k: nat, e | k < |lists| && ok(k, e)
      ensures Completes(env, cfg, lists, k, e, ok)
    {
      ShieldedBatchCompletes(env, cfg, c, lists, k, e, ok);
    }
    EachCompletes(env, cfg, lists, 0, d, ok);
    assert lists[0..] == lists;
  }

  // ----- A plan that is dropped -----

  /** The sink refuses only the write of event `j`, whose key is new. */
  ghost predicate RefusesAt(env: Env, c: Course, base: nat, j: nat) {
    c.New(j) && env == RefusesOne(c.hash, base + c.Attempts(j))
  }

  /** No event before `j` is refused, and event `j` is. */
  lemma {:induction false} BatchRefused(env: Env, cfg: Config, c: Course, base: nat, from: nat, to: nat, j: nat,
                                        h: nat)
    requires cfg.Valid() && from < to <= |c.events| && Transaction(c.events, c.txn) && RefusesAt(env, c, base, j)
    requires h < to && h <= j
    ensures BatchCourse(cfg, c, from, to).Refused(env, base, h) <==> h == j
  {
    NewInBatch(cfg, c, from, to, h);
    if h < j {
      AttemptsGrow(c, h, j);
    }
  }

  /** The batches before the refused event go through. */
  lemma {:induction false} BatchGoesThrough(env: Env, cfg: Config, c: Course, base: nat, d: DState, from: nat,
                                            to: nat, j: nat)
    requires cfg.Valid() && cfg.maxAttempts >= 1 && Transaction(c.events, c.txn) && RefusesAt(env, c, base, j)
    requires from < to <= j && At(c, base, d.p, from)
    ensures var r := DeliverEvents(env, cfg, d, c.events[from..to]); r.verdict == Delivered && At(c, base, r.d.p, to)
  {
    var bc, groups := BatchCourse(cfg, c, from, to), Groups(cfg, c.events[from..to]);
    BatchReady(cfg, c, base, d.p, from, to);
    var h := PassPrefix(env, bc, base, d.p, groups, from);
    if h < to {
      BatchRefused(env, cfg, c, base, from, to, j, h);
    }
    BatchLeaves(cfg, c, base, Pass(env, d.p, groups).p, from, to, to);
  }

  lemma {:induction false} BatchFirstRefused(env: Env, cfg: Config, c: Course, base: nat, from: nat, to: nat, j: nat)
    requires cfg.Valid() && Transaction(c.events, c.txn) && RefusesAt(env, c, base, j)
    requires from <= j < to <= |c.events|
    ensures FirstRefused(env, BatchCourse(cfg, c, from, to), base, from, j)
  {
    BatchRefused(env, cfg, c, base, from, to, j, j);
    forall i | from <= i < j
      ensures !BatchCourse(cfg, c, from, to).Refused(env, base, i)
    {
      BatchRefused(env, cfg, c, base, from, to, j, i);
    }
  }

  /** The batch that holds event `j` inside a group is dropped from it on. */
  lemma {:induction false} BatchDrops(env: Env, cfg: Config, c: Course, base: nat, d: DState, from: nat, to: nat,
                                      j: nat)
    requires cfg.Valid() && cfg.maxAttempts >= 2 && Transaction(c.events, c.txn) && RefusesAt(env, c, base, j)
    requires from <= j < to <= |c.events| && At(c, base, d.p, from) && BatchCourse(cfg, c, from, to).Exposed(j)
    ensures var r := DeliverEvents(env, cfg, d, c.events[from..to]);
            r.verdict == Delivered && At(c, base + 1, r.d.p, j)
  {
    var groups := Groups(cfg, c.events[from..to]);
    var r := Drain(env, d.p, groups, 1, cfg.maxAttempts);
    BatchReady(cfg, c, base, d.p, from, to);
    BatchFirstRefused(env, cfg, c, base, from, to, j);
    DrainDrops(env, BatchCourse(cfg, c, from, to), base, d.p, groups, from, j, cfg.maxAttempts, r);
    BatchLeaves(cfg, c, base + 1, r.p, from, to, j);
  }

  /** With the tracker waiting for an event before it, a batch is passed over. */
  lemma {:induction false} StuckBatch(env: Env, cfg: Config, c: Course, d: DState, from: nat, to: nat, j: nat)
    requires cfg.Valid() && cfg.maxAttempts >= 1 && Transaction(c.events, c.txn) && from < to <= |c.events|
    requires j < from && Expected(d.p.next, c.txn) == j + 1
    ensures var r := DeliverEvents(env, cfg, d, c.events[from..to]); r.verdict == Delivered && r.d.p == d.p
  {
    var groups := Groups(cfg, c.events[from..to]);
    BatchGroups(cfg, c, from, to);
    BatchWay(cfg, c, from, to, 0);
    CoveredAreHeld(BatchCourse(cfg, c, from, to), d.p, groups, from, j);
    StuckPass(env, d.p, groups);
  }

  /** At batch `k`: everything before it was handled, or the plan was dropped at `j`. */
  ghost predicate DroppedAt(c: Course, base: nat, lists: seq<seq<ChangeEvent>>, j: nat, k: nat, d: DState) {
    k <= |lists| && if j < Offset(lists, k) then At(c, base + 1, d.p, j) else At(c, base, d.p, Offset(lists, k))
  }

  lemma {:induction false} BatchAround(env: Env, cfg: Config, c: Course, base: nat, lists: seq<seq<ChangeEvent>>,
                                       j: nat, k: nat, d: DState, s: DeliverResult)
    requires cfg.Valid() && cfg.maxAttempts >= 2 && Transaction(c.events, c.txn) && RefusesAt(env, c, base, j)
    requires Cuts(lists, c.events) && k < |lists| && DroppedAt(c, base, lists, j, k, d)
    requires Offset(lists, k) <= j < Offset(lists, k + 1) ==> CourseAt(cfg, c, lists, k).Exposed(j)
    requires s == DeliverEvents(env, cfg, d, lists[k])
    ensures s.verdict == Delivered && DroppedAt(c, base, lists, j, k + 1, s.d)
  {
    CutAt(lists, c.events, k);
    var from, to := Offset(lists, k), Offset(lists, k + 1);
    if j < from {
      StuckBatch(env, cfg, c, d, from, to, j);
    } else if j < to {
      BatchDrops(env, cfg, c, base, d, from, to, j);
    } else {
      BatchGoesThrough(env, cfg, c, base, d, from, to, j);
    }
  }

  lemma {:induction false} OffsetsGrow(lists: seq<seq<ChangeEvent>>, events: seq<ChangeEvent>, k: nat, m: nat)
    requires Cuts(lists, events) && k <= m <= |lists|
    ensures Offset(lists, k) <= Offset(lists, m)
    decreases m
  {
    if k == m {
    } else {
      CutAt(lists, events, m - 1);
      OffsetsGrow(lists, events, k, m - 1);
    }
  }

  /** Some event of batch `m` can be refused while its group is under way: the sink that
      refuses only that write makes the plan deliver exactly what comes before it. */
  lemma {:induction false} ExposedPlanDrops(env: Env, cfg: Config, c: Course, base: nat, d: DState,
                                            lists: seq<seq<ChangeEvent>>, m: nat, j: nat)
    requires cfg.Valid() && cfg.maxAttempts >= 2 && Transaction(c.events, c.txn) && RefusesAt(env, c, base, j)
    requires Cuts(lists, c.events) && At(c, base, d.p, 0)
    requires m < |lists| && Offset(lists, m) <= j < Offset(lists, m + 1) && CourseAt(cfg, c, lists, m).Exposed(j)
    ensures var r := DeliverPlan(env, cfg, d, lists); r.verdict == Delivered && At(c, base + 1, r.d.p, j)
  {
    var ok := (k: nat, e: DState) => DroppedAt(c, base, lists, j, k, e);
    CutEnds(lists, c.events);
    forall k: nat, e | k < |lists| && ok(k, e)
      ensures Succeeds(env, cfg, lists, k, e, ok)
    {
      if k < m {
        OffsetsGrow(lists, c.events, k + 1, m);
      } else if m < k {
        OffsetsGrow(lists, c.events, m + 1, k);
      }
      BatchAround(env, cfg, c, base, lists, j, k, e, DeliverEvents(env, cfg, e, lists[k]));
    }
    EachSucceeds(env, cfg, lists, 0, d, ok);
    OffsetsGrow(lists, c.events, m + 1, |lists|);
    assert lists[0..] == lists;
  }

  lemma {:induction false} IdlePlan(env: Env, cfg: Config, d: DState, lists: seq<seq<ChangeEvent>>)
    requires cfg.Valid() && cfg.maxAttempts < 1
    ensures DeliverPlan(env, cfg, d, lists).verdict == Delivered && DeliverPlan(env, cfg, d, lists).d.p == d.p
    decreases |lists|
  {
    if lists == [] {
    } else {
      IdlePlan(env, cfg, DeliverEvents(env, cfg, d, lists[0]).d, lists[1..]);
    }
  }

  // ----- For every sink -----

  /** A planned call that returns no error has handled the whole transaction. */
  ghost predicate PlanSuccessIsWhole(env: Env, cfg: Config, d: DState, events: seq<ChangeEvent>,
                                     lists: seq<seq<ChangeEvent>>)
    requires cfg.Valid()
  {
    var r := DeliverPlan(env, cfg, d, lists);
    r.verdict == Delivered ==> AllHandled(|d.p.log|, r.d.p, events)
  }

  /** An attempt is made, the plan does not reorder the transaction, and either it is
      the only attempt or no event can be refused while its group is under way. */
  ghost predicate PlanIsSafe(hash: string -> nat, cfg: Config, d: DState, events: seq<ChangeEvent>, txn: string,
                             lists: seq<seq<ChangeEvent>>)
    requires cfg.Valid() && events != []
  {
    && cfg.maxAttempts >= 1 && Cuts(lists, events)
    && (cfg.maxAttempts == 1 || PlanShielded(cfg, CourseOf(hash, cfg, d, events, txn), lists))
  }

  lemma {:induction false} SafePlanIsWhole(env: Env, cfg: Config, d: DState, events: seq<ChangeEvent>, txn: string,
                                           lists: seq<seq<ChangeEvent>>)
    requires cfg.Valid() && Transaction(events, txn) && Expected(d.p.next, txn) == 1
    requires PlanIsSafe(env.hash, cfg, d, events, txn, lists)
    ensures PlanSuccessIsWhole(env, cfg, d, events, lists) && PlanCompletes(env, cfg, d, lists)
  {
    var c := CourseOf(env.hash, cfg, d, events, txn);
    assert events[..|events|] == events;
    StartsAtZero(c, d);
    CutEnds(lists, events);
    ShieldedPlanIsWhole(env, cfg, c, d, lists);
  }

  lemma {:induction false} SomeExposed(cfg: Config, c: Course, lists: seq<seq<ChangeEvent>>) returns (m: nat, j: nat)
    requires cfg.Valid() && Transaction(c.events, c.txn) && Cuts(lists, c.events) && !PlanShielded(cfg, c, lists)
    ensures m < |lists| && Offset(lists, m) <= j < Offset(lists, m + 1) <= |c.events|
    ensures CourseAt(cfg, c, lists, m).Exposed(j) && c.New(j)
  {
    m :| m < |lists| && !CourseAt(cfg, c, lists, m).Shielded();
    j :| CourseAt(cfg, c, lists, m).Exposed(j);
    CutAt(lists, c.events, m);
    NewInBatch(cfg, c, Offset(lists, m), Offset(lists, m + 1), j);
  }

  lemma {:induction false} DroppedIsNotWhole(env: Env, cfg: Config, c: Course, d: DState,
                                             lists: seq<seq<ChangeEvent>>, b: nat, j: nat)
    requires cfg.Valid() && Transaction(c.events, c.txn) && c.n == |d.p.log| && j < |c.events|
    requires var r := DeliverPlan(env, cfg, d, lists); r.verdict == Delivered && At(c, b, r.d.p, j)
    ensures !PlanSuccessIsWhole(env, cfg, d, c.events, lists)
  {
    NotBefore(c.events, c.txn, j);
  }

  lemma {:induction false} ExposedPlanIsDropped(cfg: Config, d: DState, c: Course, lists: seq<seq<ChangeEvent>>)
    returns (env: Env)
    requires cfg.Valid() && cfg.maxAttempts >= 2 && c.Valid() && Expected(d.p.next, c.txn) == 1
    requires c.n == |d.p.log| && c.known == d.p.seen && Cuts(lists, c.events) && !PlanShielded(cfg, c, lists)
    ensures env.hash == c.hash && !PlanSuccessIsWhole(env, cfg, d, c.events, lists)
  {
    var m, j := SomeExposed(cfg, c, lists);
    env := RefusesOne(c.hash, d.p.calls + c.Attempts(j));
    StartsAtZero(c, d);
    ExposedPlanDrops(env, cfg, c, d.p.calls, d, lists, m, j);
    DroppedIsNotWhole(env, cfg, c, d, lists, d.p.calls + 1, j);
  }

  lemma NotBefore(events: seq<ChangeEvent>, txn: string, j: nat)
    requires Transaction(events, txn) && j < |events|
    ensures events[j] in events && events[j] !in events[..j]
  {
  }

  lemma {:induction false} UnsafePlanIsDropped(hash: string -> nat, cfg: Config, d: DState, events: seq<ChangeEvent>,
                                               txn: string, edges: Graph, batches: seq<TableBatch>, walked: nat)
    returns (env: Env)
    requires cfg.Valid() && Transaction(events, txn) && Expected(d.p.next, txn) == 1
    requires IsPlan(batches, events, edges, walked)
    requires forall i | 0 <= i < |batches| :: EventsIn(batches)[i] != []
    requires !PlanIsSafe(hash, cfg, d, events, txn, EventsIn(batches))
    ensures env.hash == hash && !PlanSuccessIsWhole(env, cfg, d, events, EventsIn(batches))
  {
    env := Env(hash, i => true, i => false);
    if cfg.maxAttempts < 1 {
      IdlePlan(env, cfg, d, EventsIn(batches));
      assert d.p.log[|d.p.log|..] == [] && events[0] in events;
    } else if Flatten(EventsIn(batches)) != events {
      PlannedTransactionIff(env, cfg, d, events, txn, edges, batches, walked);
    } else {
      env := ExposedPlanIsDropped(cfg, d, CourseOf(hash, cfg, d, events, txn), EventsIn(batches));
    }
  }

  lemma PiecesAreNonempty(lists: seq<seq<ChangeEvent>>, txn: string)
    requires ArePieces(lists, txn)
    ensures forall i | 0 <= i < |lists| :: lists[i] != []
  {
    forall i | 0 <= i < |lists|
      ensures lists[i] != []
    {
      assert IsPiece(lists[i], txn);
    }
  }

  /** A fresh transaction delivered table by table: a nil error means every event was
      handled, whatever the sink and the context do, if and only if an attempt is made,
      the plan's batches in order are the transaction in its own order, and with several
      attempts every event whose key is new opens a group of its batch. Then, whatever
      fails, every event of a walked table follows those of its parents. */
  lemma {:induction false} PlannedWholeForEverySinkIff(hash: string -> nat, cfg: Config, d: DState,
                                                       events: seq<ChangeEvent>, txn: string, edges: Graph,
                                                       batches: seq<TableBatch>, walked: nat)
    requires cfg.Valid() && Transaction(events, txn) && Expected(d.p.next, txn) == 1
    requires IsPlan(batches, events, edges, walked)
    ensures (forall accepts: nat -> bool, cancelled: nat -> bool ::
               PlanSuccessIsWhole(Env(hash, accepts, cancelled), cfg, d, events, EventsIn(batches)))
            <==> PlanIsSafe(hash, cfg, d, events, txn, EventsIn(batches))
    ensures PlanIsSafe(hash, cfg, d, events, txn, EventsIn(batches)) ==>
              forall accepts: nat -> bool, cancelled: nat -> bool ::
                var r := DeliverPlan(Env(hash, accepts, cancelled), cfg, d, EventsIn(batches));
                ParentsFirstSince(|d.p.log|, r.d.p.log, events, edges, Names(TablesOf(batches)[..walked]))
  {
    var lists := EventsIn(batches);
    GroupingPieces(events, txn, batches);
    PiecesAreNonempty(lists, txn);
    if PlanIsSafe(hash, cfg, d, events, txn, lists) {
      forall accepts: nat -> bool, cancelled: nat -> bool
        ensures PlanSuccessIsWhole(Env(hash, accepts, cancelled), cfg, d, events, lists)
        ensures var r := DeliverPlan(Env(hash, accepts, cancelled), cfg, d, lists);
                ParentsFirstSince(|d.p.log|, r.d.p.log, events, edges, Names(TablesOf(batches)[..walked]))
      {
        SafePlanIsWhole(Env(hash, accepts, cancelled), cfg, d, events, txn, lists);
        CompletePlanRespectsForeignKeys(Env(hash, accepts, cancelled), cfg, d, events, edges, batches, walked);
      }
    } else {
      var env := UnsafePlanIsDropped(hash, cfg, d, events, txn, edges, batches, walked);
      assert !PlanSuccessIsWhole(Env(hash, env.accepts, env.cancelled), cfg, d, events, lists);
    }
  }
}
