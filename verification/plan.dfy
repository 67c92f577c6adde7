/** Planned delivery: cycles and the walk, grouping by table, and foreign keys
    respected while writes fail and are retried. */
module Plan {
  import opened Model
  import opened Txn
  import opened Delivery
  import opened Invariants
  import opened Conservation
  import opened Planner

  // ----- The walk emits every table exactly when there is no cycle -----

  /** Each table is a parent of the next. */
  ghost predicate IsPath(path: seq<string>, edges: Graph, names: set<string>) {
    forall i | 0 <= i < |path| - 1 :: StepAt(path, i, edges, names)
  }

  ghost predicate StepAt(path: seq<string>, i: nat, edges: Graph, names: set<string>)
    requires i + 1 < |path|
  {
    path[i] in Parents(edges, names, path[i + 1])
  }

  ghost predicate IsCycle(path: seq<string>, edges: Graph, names: set<string>) {
    |path| >= 2 && path[0] == path[|path| - 1] && IsPath(path, edges, names)
  }

  ghost predicate HasCycle(edges: Graph, names: set<string>) {
    exists path: seq<string> :: IsCycle(path, edges, names)
  }

  lemma {:induction false} PathClimbs(path: seq<string>, order: seq<string>, edges: Graph, names: set<string>, k: nat)
    returns (j: nat)
    requires path != [] && IsPath(path, edges, names) && ParentsFirst(order, edges, names)
    requires k < |order| && order[k] == path[|path| - 1]
    ensures j < |order| && order[j] == path[0] && (|path| >= 2 ==> j < k) && j <= k
  {
    j := k;
    if |path| < 2 {
    } else {
      var n := |path| - 1;
      assert StepAt(path, n - 1, edges, names);
      assert forall m | 0 <= m < n - 1 :: StepAt(path, m, edges, names) ==> StepAt(path[..n], m, edges, names);
      var i :| 0 <= i < k && order[i] == path[n - 1];
      j := PathClimbs(path[..n], order, edges, names, i);
    }
  }

  ghost predicate ParentWithin(left: set<string>, x: string, edges: Graph, names: set<string>) {
    exists p :: p in Parents(edges, names, x) && p in left
  }

  /** From a set in which everyone has a parent, walk up `n` times. */
  lemma {:induction false} ClimbChain(left: set<string>, c: string, edges: Graph, names: set<string>, n: nat)
    returns (path: seq<string>)
    requires c in left
    requires forall x {:trigger ParentWithin(left, x, edges, names)} :: x in left ==>
             ParentWithin(left, x, edges, names)
    ensures |path| == n + 1 && IsPath(path, edges, names) && forall i | 0 <= i < |path| :: path[i] in left
  {
    if n == 0 {
      path := [c];
    } else {
      var rest := ClimbChain(left, c, edges, names, n - 1);
      assert ParentWithin(left, rest[0], edges, names);
      var p :| p in Parents(edges, names, rest[0]) && p in left;
      path := [p] + rest;
      forall i | 0 <= i < |path| - 1
        ensures StepAt(path, i, edges, names)
      {
        assert i > 0 ==> StepAt(rest, i - 1, edges, names);
      }
    }
  }

  lemma {:induction false} Pigeonhole(s: seq<string>, holes: set<string>) returns (i: nat, j: nat)
    requires |s| > |holes| && forall k | 0 <= k < |s| :: s[k] in holes
    ensures i < j < |s| && s[i] == s[j]
  {
    var n := |s| - 1;
    if k :| 0 <= k < n && s[k] == s[n] {
      i, j := k, n;
    } else {
      assert s[n] in holes;
      assert holes == (holes - {s[n]}) + {s[n]};
      assert forall k | 0 <= k < n :: s[..n][k] == s[k];
      i, j := Pigeonhole(s[..n], holes - {s[n]});
    }
  }

  /** Kahn's walk leaves no table to the fallback exactly when the graph induced on
      the planned tables has no cycle, self edges included. */
  lemma {:induction false} WalkCompleteIffAcyclic(order: seq<string>, tables: seq<string>, edges: Graph)
    requires WalkResult(order, tables, edges)
    ensures Names(order) == Names(tables) <==> !HasCycle(edges, Names(tables))
  {
    if HasCycle(edges, Names(tables)) {
      CycleBlocksWalk(order, tables, edges);
    } else if Names(order) != Names(tables) {
      LeftoverHasCycle(order, tables, edges);
      assert false;
    }
  }

  lemma {:induction false} CycleBlocksWalk(order: seq<string>, tables: seq<string>, edges: Graph)
    requires WalkResult(order, tables, edges) && HasCycle(edges, Names(tables))
    ensures Names(order) != Names(tables)
  {
    var names := Names(tables);
    var path: seq<string> :| IsCycle(path, edges, names);
    var last := path[|path| - 1];
    assert StepAt(path, |path| - 2, edges, names);
    assert last in names;
    if last in order {
      var k :| 0 <= k < |order| && order[k] == last;
      var j := PathClimbs(path, order, edges, names, k);
      assert false;
    }
  }

  lemma {:induction false} LeftoverHasCycle(order: seq<string>, tables: seq<string>, edges: Graph)
    requires WalkResult(order, tables, edges) && Names(order) != Names(tables)
    ensures HasCycle(edges, Names(tables))
  {
    var names, left := Names(tables), Names(tables) - Names(order);
    LeftoversWait(order, tables, edges);
    assert Names(order) < names;
    var c :| c in names && c !in Names(order);
    CycleWithin(left, c, edges, names);
  }

  lemma {:induction false} CycleWithin(left: set<string>, c: string, edges: Graph, names: set<string>)
    requires c in left
    requires forall x {:trigger ParentWithin(left, x, edges, names)} :: x in left ==>
             ParentWithin(left, x, edges, names)
    ensures HasCycle(edges, names)
  {
    var path := ClimbChain(left, c, edges, names, |left|);
    var i, j := Pigeonhole(path, left);
    PathSlice(path, edges, names, i, j + 1);
    var loop := path[i..j + 1];
    assert loop[0] == path[i] && loop[|loop| - 1] == path[j];
    assert IsCycle(loop, edges, names);
  }

  lemma {:induction false} LeftoversWait(order: seq<string>, tables: seq<string>, edges: Graph)
    requires WalkResult(order, tables, edges)
    ensures var names, left := Names(tables), Names(tables) - Names(order);
            forall x {:trigger ParentWithin(left, x, edges, names)} :: x in left ==> ParentWithin(left, x, edges, names)
  {
    var names, left := Names(tables), Names(tables) - Names(order);
    forall x | x in left
      ensures ParentWithin(left, x, edges, names)
    {
      assert Waits(x, order, edges, names);
      var p :| p in Parents(edges, names, x) && p !in order;
      KeepMembers(edges[x], names);
    }
  }

  lemma {:induction false} PathSlice(path: seq<string>, edges: Graph, names: set<string>, i: nat, j: nat)
    requires IsPath(path, edges, names) && i <= j <= |path|
    ensures IsPath(path[i..j], edges, names)
  {
    forall k | 0 <= k < j - i - 1
      ensures StepAt(path[i..j], k, edges, names)
    {
      assert StepAt(path, i + k, edges, names);
    }
  }

  // ----- Grouping -----

  function EventsOf(events: seq<ChangeEvent>, table: string): seq<ChangeEvent> {
    if events == [] then []
    else
      var last := events[|events| - 1];
      if last.table == table then EventsOf(events[..|events| - 1], table) + [last]
      else EventsOf(events[..|events| - 1], table)
  }

  lemma {:induction false} EventsOfMembers(events: seq<ChangeEvent>, table: string)
    ensures forall e :: e in EventsOf(events, table) <==> e in events && e.table == table
  {
    if events == [] {
    } else {
      var n := |events| - 1;
      EventsOfMembers(events[..n], table);
      assert events == events[..n] + [events[n]];
    }
  }

  /** The tables of the events, in the order of first appearance. */
  function TablesIn(events: seq<ChangeEvent>): seq<string> {
    if events == [] then []
    else
      var before := TablesIn(events[..|events| - 1]);
      if events[|events| - 1].table in before then before else before + [events[|events| - 1].table]
  }

  lemma {:induction false} TablesInMembers(events: seq<ChangeEvent>)
    ensures Distinct(TablesIn(events))
    ensures forall t :: t in TablesIn(events) <==> EventsOf(events, t) != []
  {
    if events == [] {
    } else {
      TablesInMembers(events[..|events| - 1]);
    }
  }

  /** The batch a plan holds for one table. */
  function BatchFor(events: seq<ChangeEvent>, table: string): TableBatch {
    TableBatch(table, EventsOf(events, table), MaxPos(EventsOf(events, table)))
  }

  /** The batches of the events' tables, each table once. */
  ghost predicate IsGrouping(batches: seq<TableBatch>, events: seq<ChangeEvent>) {
    && Distinct(TablesOf(batches)) && Names(TablesOf(batches)) == Names(TablesIn(events))
    && (forall i | 0 <= i < |batches| :: batches[i] == BatchFor(events, batches[i].table))
  }

  /** A plan: a grouping of which the first `walked` batches came out of the walk. */
  ghost predicate IsPlan(batches: seq<TableBatch>, events: seq<ChangeEvent>, edges: Graph, walked: nat) {
    && IsGrouping(batches, events)
    && walked <= |batches| && WalkResult(TablesOf(batches)[..walked], TablesIn(events), edges)
  }

  /** The batch holds its table's events, as often as they occur and in order, and their
      highest position. */
  ghost predicate HoldsTable(b: TableBatch, events: seq<ChangeEvent>) {
    && Subseq(b.events, events) && IsMaxPos(b.events, b.position)
    && forall e :: multiset(b.events)[e] == if e.table == b.table then multiset(events)[e] else 0
  }

  lemma {:induction false} SubseqAppend<T(!new)>(a: seq<T>, b: seq<T>, x: T)
    requires Subseq(a, b)
    ensures Subseq(a, b + [x]) && Subseq(a + [x], b + [x])
  {
    if b == [] {
      assert a == [] && ([x] + [])[1..] == [];
      assert a + [x] == [x] && b + [x] == [x] && [x][1..] == [];
    } else {
      assert (b + [x])[1..] == b[1..] + [x];
      if a != [] && a[0] == b[0] && Subseq(a[1..], b[1..]) {
        assert (a + [x])[1..] == a[1..] + [x];
        SubseqAppend(a[1..], b[1..], x);
      } else {
        SubseqAppend(a, b[1..], x);
      }
    }
  }

  lemma {:induction false} EventsOfKeeps(events: seq<ChangeEvent>, table: string)
    ensures Subseq(EventsOf(events, table), events)
    ensures forall e :: multiset(EventsOf(events, table))[e] == if e.table == table then multiset(events)[e] else 0
  {
    if events == [] {
    } else {
      var n := |events| - 1;
      EventsOfKeeps(events[..n], table);
      SubseqAppend(EventsOf(events[..n], table), events[..n], events[n]);
      assert events == events[..n] + [events[n]];
    }
  }

  /** The plan has each table of the events once, and nothing of them is lost: every batch
      holds its table's events, in order, with their highest position. */
  lemma {:induction false} PlanHoldsEvents(events: seq<ChangeEvent>, batches: seq<TableBatch>)
    requires IsGrouping(batches, events)
    ensures forall i | 0 <= i < |batches| :: HoldsTable(batches[i], events)
    ensures forall e | e in events :: exists i :: 0 <= i < |batches| && batches[i].table == e.table
    ensures forall i, j | 0 <= i < j < |batches| :: batches[i].table != batches[j].table
  {
    forall i | 0 <= i < |batches|
      ensures HoldsTable(batches[i], events)
    {
      EventsOfKeeps(events, batches[i].table);
    }
    TablesInMembers(events);
    forall e | e in events
      ensures exists i :: 0 <= i < |batches| && batches[i].table == e.table
    {
      EventsOfMembers(events, e.table);
      assert e in EventsOf(events, e.table) && e.table in Names(TablesOf(batches));
      var i :| 0 <= i < |batches| && TablesOf(batches)[i] == e.table;
    }
    forall i, j | 0 <= i < j < |batches|
      ensures batches[i].table != batches[j].table
    {
      assert TablesOf(batches)[i] != TablesOf(batches)[j];
    }
  }

  function TablesOf(batches: seq<TableBatch>): seq<string> {
    seq(|batches|, i requires 0 <= i < |batches| => batches[i].table)
  }

  method GroupByTable(events: seq<ChangeEvent>) returns (groups: map<string, seq<ChangeEvent>>, tables: seq<string>)
    ensures tables == TablesIn(events)
    ensures forall t :: EventsOf(events, t) == if t in groups then groups[t] else []
    ensures forall t :: t in tables <==> t in groups
  {
    groups, tables := map[], [];
    for i := 0 to |events|
      invariant tables == TablesIn(events[..i])
      invariant forall t :: EventsOf(events[..i], t) == if t in groups then groups[t] else []
      invariant groups.Keys == Names(tables)
    {
      assert events[..i + 1][..i] == events[..i];
      var ev := events[i];
      if ev.table !in groups {
        NamesAppend(tables, ev.table);
        tables := tables + [ev.table];
      }
      groups := groups[ev.table := (if ev.table in groups then groups[ev.table] else []) + [ev]];
    }
    assert events[..|events|] == events;
  }

  method HighestPosition(events: seq<ChangeEvent>) returns (pos: nat)
    ensures pos == MaxPos(events)
  {
    pos := 0;
    for j := 0 to |events|
      invariant pos == MaxPos(events[..j])
    {
      assert events[..j + 1][..j] == events[..j];
      if events[j].sourcePos > pos {
        pos := events[j].sourcePos;
      }
    }
    assert events[..|events|] == events;
  }

  method PlanBatches(planner: FKPlanner, events: seq<ChangeEvent>) returns (batches: seq<TableBatch>, ghost walked: nat)
    ensures IsGrouping(batches, events)
    ensures IsPlan(batches, events, planner.edges, walked)
  {
    var groups, tables := GroupByTable(events);
    TablesInMembers(events);
    var ordered;
    ordered, walked := planner.Order(tables);
    InGroups(events, groups, tables, ordered);
    batches := BatchesFor(events, groups, ordered);
    assert TablesOf(batches) == ordered;
  }

  lemma InGroups(events: seq<ChangeEvent>, groups: map<string, seq<ChangeEvent>>, tables: seq<string>,
                 ordered: seq<string>)
    requires Names(ordered) == Names(tables) && forall t :: t in tables <==> t in groups
    requires forall t :: EventsOf(events, t) == if t in groups then groups[t] else []
    ensures forall t | t in ordered :: t in groups && groups[t] == EventsOf(events, t)
  {
    forall t | t in ordered
      ensures t in groups && groups[t] == EventsOf(events, t)
    {
      assert t in Names(ordered);
    }
  }

  /** One batch per ordered table, with the highest position of its events. */
  method BatchesFor(ghost events: seq<ChangeEvent>, groups: map<string, seq<ChangeEvent>>, ordered: seq<string>)
    returns (batches: seq<TableBatch>)
    requires forall t | t in ordered :: t in groups && groups[t] == EventsOf(events, t)
    ensures |batches| == |ordered| && forall k | 0 <= k < |ordered| :: batches[k] == BatchFor(events, ordered[k])
  {
    batches := [];
    for i := 0 to |ordered|
      invariant |batches| == i
      invariant forall k | 0 <= k < i :: batches[k] == BatchFor(events, ordered[k])
    {
      var group := groups[ordered[i]];
      var pos := HighestPosition(group);
      batches := batches + [TableBatch(ordered[i], group, pos)];
    }
  }

  // ----- Planned delivery -----

  /** Action `k` of `q`, if a write, comes after every event of every earlier batch
      was handled in this call. */
  ghost predicate AfterEarlier(n: nat, log: seq<Action>, batches: seq<seq<ChangeEvent>>, k: nat)
    requires k < |log|
  {
    exists b :: 0 <= b < |batches| && log[k].event in batches[b]
                && forall c, f | 0 <= c < b && f in batches[c] :: HandledBetween(log, n, k, f)
  }

  ghost predicate HandledBetween(log: seq<Action>, n: nat, k: nat, f: ChangeEvent)
    requires k <= |log|
  {
    exists j :: n <= j < k && (log[j] == Wrote(f) || log[j] == Suppressed(f))
  }

  /** Every batch that is delivered without an error leaves nothing pending. */
  ghost predicate PlanCompletes(env: Env, cfg: Config, d: DState, batches: seq<seq<ChangeEvent>>)
    requires cfg.Valid()
    decreases |batches|
  {
    if batches == [] then true
    else
      var s := DeliverEvents(env, cfg, d, batches[0]);
      s.verdict == Delivered ==>
        (batches[0] != [] ==> s.d.pending == []) && PlanCompletes(env, cfg, s.d, batches[1..])
  }

  lemma {:induction false} UntaggedPlanCompletes(env: Env, cfg: Config, d: DState, batches: seq<seq<ChangeEvent>>)
    requires cfg.Valid() && cfg.maxAttempts >= 1
    requires forall i | 0 <= i < |batches| :: UntaggedEvents(batches[i])
    ensures PlanCompletes(env, cfg, d, batches)
    decreases |batches|
  {
    if batches == [] {
    } else {
      if batches[0] != [] {
        UntaggedSuccessIsComplete(env, cfg, d, batches[0]);
      }
      UntaggedPlanCompletes(env, cfg, DeliverEvents(env, cfg, d, batches[0]).d, batches[1..]);
    }
  }

  /** Planned delivery acts on an event only after all events of earlier batches. */
  lemma {:induction false} PlanInOrder(env: Env, cfg: Config, d: DState, batches: seq<seq<ChangeEvent>>)
    requires cfg.Valid() && PlanCompletes(env, cfg, d, batches)
    ensures var log := DeliverPlan(env, cfg, d, batches).d.p.log;
            && d.p.log <= log
            && forall k | |d.p.log| <= k < |log| :: AfterEarlier(|d.p.log|, log, batches, k)
    decreases |batches|
  {
    if batches == [] {
    } else {
      var s := DeliverEvents(env, cfg, d, batches[0]);
      var q := DeliverPlan(env, cfg, d, batches).d;
      var n, m := |d.p.log|, |s.d.p.log|;
      AckedWithinBatch(env, cfg, d, batches[0]);
      if batches[0] != [] {
        DispatcherConserves(env, cfg, d, batches[0]);
      }
      if s.verdict == Delivered {
        PlanInOrder(env, cfg, s.d, batches[1..]);
        FirstBatchHandled(d.p, s.d.p, q.p, env, batches[0]);
      }
      forall k | n <= k < |q.p.log|
        ensures AfterEarlier(n, q.p.log, batches, k)
      {
        if k < m {
          assert q.p.log[k] == s.d.p.log[k];
          assert q.p.log[k].event in batches[0];
        } else {
          assert AfterEarlier(m, q.p.log, batches[1..], k);
          LaterBatch(n, m, q.p.log, batches, k);
        }
      }
    }
  }

  lemma {:induction false} FirstBatchHandled(p: Progress, q: Progress, r: Progress, env: Env, events: seq<ChangeEvent>)
    requires q.log <= r.log && (events == [] || AllDone(env, p, q, events))
    ensures forall f | f in events :: HandledBetween(r.log, |p.log|, |q.log|, f)
  {
    forall f | f in events
      ensures HandledBetween(r.log, |p.log|, |q.log|, f)
    {
      var i :| 0 <= i < |events| && events[i] == f;
      assert Done(env, p, q, events[i]);
      var k :| |p.log| <= k < |q.log| && (q.log[k] == Wrote(f) || q.log[k] == Suppressed(f));
      assert r.log[k] == q.log[k];
    }
  }

  lemma {:induction false} LaterBatch(n: nat, m: nat, log: seq<Action>, batches: seq<seq<ChangeEvent>>, k: nat)
    requires batches != [] && n <= m <= k < |log| && AfterEarlier(m, log, batches[1..], k)
    requires forall f | f in batches[0] :: HandledBetween(log, n, m, f)
    ensures AfterEarlier(n, log, batches, k)
  {
    var b :| 0 <= b < |batches[1..]| && log[k].event in batches[1..][b]
             && forall c, f | 0 <= c < b && f in batches[1..][c] :: HandledBetween(log, m, k, f);
    assert log[k].event in batches[b + 1];
    forall c, f | 0 <= c < b + 1 && f in batches[c]
      ensures HandledBetween(log, n, k, f)
    {
      if c > 0 {
        assert f in batches[1..][c - 1];
        assert HandledBetween(log, m, k, f);
      } else {
        assert HandledBetween(log, n, m, f);
      }
    }
  }

  function EventsIn(batches: seq<TableBatch>): seq<seq<ChangeEvent>> {
    seq(|batches|, i requires 0 <= i < |batches| => batches[i].events)
  }

  /** The `k`-th action, on an event of a walked table, comes after every planned
      event of each parent table was handled in this call. */
  ghost predicate ParentsHandledFirst(n: nat, log: seq<Action>, k: nat, events: seq<ChangeEvent>, edges: Graph,
                                      walked: set<string>)
    requires k < |log|
  {
    log[k].event.table in walked ==>
      forall f | f in events && f.table in Parents(edges, Names(TablesIn(events)), log[k].event.table) ::
        HandledBetween(log, n, k, f)
  }

  ghost predicate ParentsFirstSince(n: nat, log: seq<Action>, events: seq<ChangeEvent>, edges: Graph,
                                    walked: set<string>)
  {
    forall k | n <= k < |log| :: ParentsHandledFirst(n, log, k, events, edges, walked)
  }

  lemma {:induction false} ParentInEarlierBatch(events: seq<ChangeEvent>, edges: Graph, batches: seq<TableBatch>,
                                                walked: nat, b: nat, f: ChangeEvent) returns (c: nat)
    requires IsPlan(batches, events, edges, walked) && b < walked && f in events
    requires f.table in Parents(edges, Names(TablesIn(events)), batches[b].table)
    ensures c < b && f in batches[c].events
  {
    var order := TablesOf(batches)[..walked];
    assert order[b] == batches[b].table;
    assert f.table in order[..b];
    c :| 0 <= c < b && order[..b][c] == f.table;
    EventsOfMembers(events, batches[c].table);
  }

  lemma {:induction false} BatchOfWalkedTable(events: seq<ChangeEvent>, batches: seq<TableBatch>, walked: nat, b: nat,
                                              e: ChangeEvent)
    requires IsGrouping(batches, events) && b < |batches| && e in batches[b].events
    requires walked <= |batches| && e.table in Names(TablesOf(batches)[..walked])
    ensures b < walked && batches[b].table == e.table
  {
    EventsOfMembers(events, batches[b].table);
    var tables := TablesOf(batches);
    var i :| 0 <= i < walked && tables[..walked][i] == e.table;
    assert tables[i] == tables[b];
  }

  lemma {:induction false} WalkedTableInOrder(n: nat, log: seq<Action>, k: nat, events: seq<ChangeEvent>, edges: Graph,
                                              batches: seq<TableBatch>, walked: nat)
    requires k < |log| && AfterEarlier(n, log, EventsIn(batches), k) && IsPlan(batches, events, edges, walked)
    ensures ParentsHandledFirst(n, log, k, events, edges, Names(TablesOf(batches)[..walked]))
  {
    var lists, e := EventsIn(batches), log[k].event;
    if e.table in Names(TablesOf(batches)[..walked]) {
      var b :| 0 <= b < |lists| && e in lists[b]
               && forall c, g | 0 <= c < b && g in lists[c] :: HandledBetween(log, n, k, g);
      BatchOfWalkedTable(events, batches, walked, b, e);
      forall f | f in events && f.table in Parents(edges, Names(TablesIn(events)), e.table)
        ensures HandledBetween(log, n, k, f)
      {
        var c := ParentInEarlierBatch(events, edges, batches, walked, b, f);
        assert f in lists[c];
      }
    }
  }

  /** Every action on a walked table's event comes after the handling of its parents. */
  lemma {:induction false} CompletePlanRespectsForeignKeys(env: Env, cfg: Config, d: DState, events: seq<ChangeEvent>,
                                                           edges: Graph, batches: seq<TableBatch>, walked: nat)
    requires cfg.Valid() && IsPlan(batches, events, edges, walked) && PlanCompletes(env, cfg, d, EventsIn(batches))
    ensures ParentsFirstSince(|d.p.log|, DeliverPlan(env, cfg, d, EventsIn(batches)).d.p.log, events, edges,
                              Names(TablesOf(batches)[..walked]))
  {
    var lists := EventsIn(batches);
    PlanInOrder(env, cfg, d, lists);
    var n, log := |d.p.log|, DeliverPlan(env, cfg, d, lists).d.p.log;
    forall k | n <= k < |log|
      ensures ParentsHandledFirst(n, log, k, events, edges, Names(TablesOf(batches)[..walked]))
    {
      assert AfterEarlier(n, log, lists, k);
      WalkedTableInOrder(n, log, k, events, edges, batches, walked);
    }
  }

  // ----- In terms of the declared dependencies -----

  /** The dependency is declared, between two planned tables. */
  predicate DeclaredWithin(list: seq<FKEdge>, names: set<string>, parent: string, child: string) {
    FKEdge(parent, child) in list && parent in names && child in names
  }

  lemma {:induction false} ParentsInMembers(list: seq<FKEdge>, parent: string, child: string)
    ensures parent in ParentsIn(list, child) <==> FKEdge(parent, child) in list
  {
    if list == [] {
    } else {
      ParentsInMembers(list[..|list| - 1], parent, child);
      assert list == list[..|list| - 1] + [list[|list| - 1]];
    }
  }

  lemma ParentsAreDeclared(edges: Graph, list: seq<FKEdge>, names: set<string>, parent: string, child: string)
    requires Declares(edges, list)
    ensures parent in Parents(edges, names, child) <==> DeclaredWithin(list, names, parent, child)
  {
    ParentsInMembers(list, parent, child);
    assert ParentsIn(list, child) == if child in edges then edges[child] else [];
    if child in edges {
      KeepMembers(edges[child], names);
    }
  }

  /** A round of planned tables, each declared a parent of the next. */
  ghost predicate DeclaredRound(list: seq<FKEdge>, names: set<string>, path: seq<string>) {
    && |path| >= 2 && path[0] == path[|path| - 1]
    && forall i | 0 <= i < |path| - 1 :: DeclaredStep(list, names, path, i)
  }

  predicate DeclaredStep(list: seq<FKEdge>, names: set<string>, path: seq<string>, i: nat)
    requires i + 1 < |path|
  {
    DeclaredWithin(list, names, path[i], path[i + 1])
  }

  lemma {:induction false} CycleIsDeclared(edges: Graph, list: seq<FKEdge>, names: set<string>, path: seq<string>)
    requires Declares(edges, list)
    ensures IsCycle(path, edges, names) <==> DeclaredRound(list, names, path)
  {
    forall i | 0 <= i < |path| - 1
      ensures StepAt(path, i, edges, names) <==> DeclaredStep(list, names, path, i)
    {
      ParentsAreDeclared(edges, list, names, path[i], path[i + 1]);
    }
  }

  /** From the `n`-th action on, what concerns the child of a declared dependency comes after
      every planned event of the parent was handled. */
  ghost predicate DeclaredParentsFirst(n: nat, log: seq<Action>, list: seq<FKEdge>, events: seq<ChangeEvent>,
                                       walked: set<string>)
  {
    forall k, edge, f | n <= k < |log| && edge in list && f in events ::
      log[k].event.table == edge.child && edge.child in walked && f.table == edge.parent ==>
        HandledBetween(log, n, k, f)
  }

  lemma {:induction false} DeclaredFirst(n: nat, log: seq<Action>, edges: Graph, list: seq<FKEdge>,
                                         events: seq<ChangeEvent>, walked: set<string>)
    requires Declares(edges, list) && ParentsFirstSince(n, log, events, edges, walked)
    requires walked <= Names(TablesIn(events))
    ensures DeclaredParentsFirst(n, log, list, events, walked)
  {
    var names := Names(TablesIn(events));
    forall k, edge, f | n <= k < |log| && edge in list && f in events
      ensures log[k].event.table == edge.child && edge.child in walked && f.table == edge.parent ==>
                HandledBetween(log, n, k, f)
    {
      TablesInMembers(events);
      EventsOfMembers(events, f.table);
      assert f in EventsOf(events, f.table) && f.table in names;
      assert edge == FKEdge(edge.parent, edge.child);
      ParentsAreDeclared(edges, list, names, f.table, log[k].event.table);
      assert ParentsHandledFirst(n, log, k, events, edges, walked);
    }
  }

  /** Whatever writes fail and however often they are retried: when planned delivery
      of untagged events acts on an event of a table the walk emitted, every planned event
      of each parent declared for it has been handled before; the walk emits every planned
      table exactly when no declared dependencies between planned tables form a round. */
  lemma {:induction false} PlannedDeliveryRespectsForeignKeys(env: Env, cfg: Config, d: DState, list: seq<FKEdge>,
                                                              events: seq<ChangeEvent>, edges: Graph,
                                                              batches: seq<TableBatch>, walked: nat)
    requires cfg.Valid() && cfg.maxAttempts >= 1 && UntaggedEvents(events) && Declares(edges, list)
    ensures IsPlan(batches, events, edges, walked) ==>
              var emitted, tables := Names(TablesOf(batches)[..walked]), Names(TablesIn(events));
              && DeclaredParentsFirst(|d.p.log|, DeliverPlan(env, cfg, d, EventsIn(batches)).d.p.log, list, events,
                                      emitted)
              && (emitted == tables <==> forall path :: !DeclaredRound(list, tables, path))
  {
    if IsPlan(batches, events, edges, walked) {
      var lists, tables := EventsIn(batches), Names(TablesIn(events));
      var emitted := Names(TablesOf(batches)[..walked]);
      forall i | 0 <= i < |lists|
        ensures UntaggedEvents(lists[i])
      {
        EventsOfMembers(events, batches[i].table);
      }
      UntaggedPlanCompletes(env, cfg, d, lists);
      CompletePlanRespectsForeignKeys(env, cfg, d, events, edges, batches, walked);
      WalkCompleteIffAcyclic(TablesOf(batches)[..walked], TablesIn(events), edges);
      forall path
        ensures IsCycle(path, edges, tables) <==> DeclaredRound(list, tables, path)
      {
        CycleIsDeclared(edges, list, tables, path);
      }
      WalkedArePlanned(events, batches, walked);
      DeclaredFirst(|d.p.log|, DeliverPlan(env, cfg, d, lists).d.p.log, edges, list, events, emitted);
    }
  }

  lemma WalkedArePlanned(events: seq<ChangeEvent>, batches: seq<TableBatch>, walked: nat)
    requires IsGrouping(batches, events) && walked <= |batches|
    ensures Names(TablesOf(batches)[..walked]) <= Names(TablesIn(events))
  {
    forall t | t in TablesOf(batches)[..walked]
      ensures t in Names(TablesIn(events))
    {
      assert t in Names(TablesOf(batches));
    }
  }
}
