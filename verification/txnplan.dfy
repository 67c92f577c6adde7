/** One transaction delivered table by table: the plan goes through exactly when it
    does not reorder the transaction. */
module TxnPlan {
  import opened Model
  import opened Txn
  import opened Delivery
  import opened Conservation
  import opened TxnOrder
  import opened TxnPrefix
  import opened Planner
  import opened Plan

  // ----- Rising sequences -----

  /** The members of a nonempty rising sequence besides its last. */
  lemma RisingFront(a: seq<ChangeEvent>)
    requires Rising(a) && a != []
    ensures Rising(a[..|a| - 1])
    ensures forall e :: e in a[..|a| - 1] <==> e in a && e != a[|a| - 1]
    ensures forall e | e in a :: e.txnSeq <= a[|a| - 1].txnSeq
  {
    assert a == a[..|a| - 1] + [a[|a| - 1]];
  }

  /** Two rising sequences with the same members are the same. */
  lemma {:induction false} RisingUnique(a: seq<ChangeEvent>, b: seq<ChangeEvent>)
    requires Rising(a) && Rising(b) && forall e :: e in a <==> e in b
    ensures a == b
    decreases |a|
  {
    if a == [] {
      assert forall i | 0 <= i < |b| :: b[i] in a;
    } else {
      var m := |a| - 1;
      assert a[m] in b;
      RisingFront(a);
      RisingFront(b);
      assert b[|b| - 1] in a;
      LastsAgree(a, b);
      forall e
        ensures e in a[..m] <==> e in b[..|b| - 1]
      {
        assert e in a <==> e in b;
      }
      RisingUnique(a[..m], b[..|b| - 1]);
      assert a == a[..m] + [a[m]] && b == b[..|b| - 1] + [b[|b| - 1]];
    }
  }

  lemma LastsAgree(a: seq<ChangeEvent>, b: seq<ChangeEvent>)
    requires Rising(a) && Rising(b) && a != [] && b != [] && a[|a| - 1] in b && b[|b| - 1] in a
    ensures a[|a| - 1] == b[|b| - 1]
  {
  }

  lemma {:induction false} EventsOfRises(events: seq<ChangeEvent>, table: string)
    requires Rising(events)
    ensures Rising(EventsOf(events, table))
  {
    if events == [] {
    } else {
      var n := |events| - 1;
      EventsOfRises(events[..n], table);
      EventsOfMembers(events[..n], table);
      var before := EventsOf(events[..n], table);
      forall i | 0 <= i < |before|
        ensures before[i].txnSeq < events[n].txnSeq
      {
        assert before[i] in events[..n];
      }
    }
  }

  /** Nonempty parts of the transaction, each in its order. */
  ghost predicate ArePieces(lists: seq<seq<ChangeEvent>>, txn: string) {
    forall i | 0 <= i < |lists| :: IsPiece(lists[i], txn)
  }

  ghost predicate IsPiece(list: seq<ChangeEvent>, txn: string) {
    && list != [] && Rising(list)
    && forall k | 0 <= k < |list| :: list[k].txnId == txn && list[k].txnSeq >= 1
  }

  // ----- Groups of the transaction -----

  /** A nonempty group of the transaction, rising. */
  ghost predicate IsPart(g: Group, txn: string) {
    && g.events != [] && g == ToGroup(g.events) && Rising(g.events)
    && g.txnId == txn && forall i | 0 <= i < |g.events| :: g.events[i].txnId == txn && g.events[i].txnSeq >= 1
  }

  ghost predicate AreParts(groups: seq<Group>, txn: string) {
    forall i | 0 <= i < |groups| :: IsPart(groups[i], txn)
  }

  lemma PartSpans(g: Group, txn: string)
    requires IsPart(g, txn)
    ensures 1 <= g.first <= g.last && forall i | 0 <= i < |g.events| :: g.first <= g.events[i].txnSeq <= g.last
  {
  }

  /** Each group starts with the sequence after the last of the group before it. */
  ghost predicate Chained(next: nat, groups: seq<Group>)
    decreases |groups|
  {
    groups == [] || (groups[0].first == next && Chained(groups[0].last + 1, groups[1..]))
  }

  function NextAfter(next: nat, groups: seq<Group>): nat {
    if groups == [] then next else groups[|groups| - 1].last + 1
  }

  lemma {:induction false} ChainedConcat(next: nat, a: seq<Group>, b: seq<Group>)
    ensures Chained(next, a + b) <==> Chained(next, a) && Chained(NextAfter(next, a), b)
    decreases |a|
  {
    if a == [] {
      assert a + b == b;
    } else {
      assert (a + b)[1..] == a[1..] + b;
      ChainedConcat(a[0].last + 1, a[1..], b);
    }
  }

  lemma {:induction false} ChainedRises(next: nat, groups: seq<Group>, txn: string)
    requires AreParts(groups, txn) && Chained(next, groups)
    ensures Rising(GroupEvents(groups)) && forall e | e in GroupEvents(groups) :: e.txnSeq >= next
    decreases |groups|
  {
    if groups == [] {
    } else {
      PartSpans(groups[0], txn);
      ChainedRises(groups[0].last + 1, groups[1..], txn);
      var rest := GroupEvents(groups[1..]);
      forall i | 0 <= i < |rest|
        ensures rest[i].txnSeq > groups[0].last
      {
        assert rest[i] in rest;
      }
    }
  }

  /** Sequences `next`, `next + 1`, and so on. */
  ghost predicate CountsFrom(next: nat, events: seq<ChangeEvent>) {
    forall i | 0 <= i < |events| :: events[i].txnSeq == next + i
  }

  lemma {:induction false} CountingIsChained(next: nat, groups: seq<Group>, txn: string)
    requires AreParts(groups, txn) && CountsFrom(next, GroupEvents(groups))
    ensures Chained(next, groups)
    decreases |groups|
  {
    if groups == [] {
    } else {
      var g, all, rest := groups[0], GroupEvents(groups), GroupEvents(groups[1..]);
      assert all[0] == g.events[0] && all[|g.events| - 1] == g.events[|g.events| - 1];
      assert forall i | 0 <= i < |rest| :: rest[i] == all[|g.events| + i];
      CountingIsChained(g.last + 1, groups[1..], txn);
    }
  }

  // ----- A sink that accepts everything -----

  lemma {:induction false} AcceptedSuffixHandles(env: Env, n: nat, p: Progress, g: Group, evs: seq<ChangeEvent>,
                                                 acked: nat, r: GroupResult)
    requires (forall i :: env.accepts(i)) && n <= |p.log| && r == DeliverSuffix(env, p, g, evs, acked)
    ensures r.ok && n <= |r.p.log| && Since(n, r.p) == Since(n, p) + evs
    ensures r.p.next == if g.txnId != "" && g.last > 0 then Released(p.next, g.txnId, g.last) else p.next
    decreases |evs|
  {
    if evs == [] {
    } else {
      var (q, pos) := Handle(env, p, evs[0], acked);
      LogStep(n, p, Suppressed(evs[0]));
      LogStep(n, p, Wrote(evs[0]));
      AcceptedSuffixHandles(env, n, q, g, evs[1..], pos, r);
      assert Since(n, q) == Since(n, p) + [evs[0]];
      assert Since(n, p) + evs == Since(n, q) + evs[1..];
    }
  }

  /** A pass handles the groups it does not hold, and holds none exactly when they are
      chained from the sequence the tracker expects. */
  ghost predicate PassHandles(n: nat, p: Progress, pending: seq<Group>, txn: string, r: PassResult)
    requires n <= |p.log|
  {
    && r.failed.None? && n <= |r.p.log|
    && |Since(n, r.p)| + |GroupEvents(r.next)| == |Since(n, p)| + |GroupEvents(pending)|
    && (r.next == [] <==> Chained(Expected(p.next, txn), pending))
    && (r.next != [] ==> GroupEvents(r.next) != [])
    && (r.next == [] ==> && Since(n, r.p) == Since(n, p) + GroupEvents(pending)
                         && Expected(r.p.next, txn) == NextAfter(Expected(p.next, txn), pending))
  }

  lemma HeldPass(n: nat, p: Progress, pending: seq<Group>, txn: string, r: PassResult)
    requires n <= |p.log| && pending != [] && pending[0].events != [] && pending[0].first != Expected(p.next, txn)
    requires PassHandles(n, p, pending[1..], txn, r)
    ensures PassHandles(n, p, pending, txn, r.(next := [pending[0]] + r.next))
  {
    assert ([pending[0]] + r.next)[1..] == r.next;
  }

  lemma HandledPass(n: nat, p: Progress, pending: seq<Group>, txn: string, d: GroupResult, r: PassResult, acked: nat)
    requires n <= |p.log| && pending != [] && pending[0].first == Expected(p.next, txn)
    requires n <= |d.p.log| && Since(n, d.p) == Since(n, p) + pending[0].events
    requires Expected(d.p.next, txn) == pending[0].last + 1 && PassHandles(n, d.p, pending[1..], txn, r)
    ensures PassHandles(n, p, pending, txn, r.(acked := acked))
  {
    NextAfterFirst(Expected(p.next, txn), pending);
    HandledConcat(Since(n, p), pending[0].events, GroupEvents(pending[1..]));
  }

  lemma NextAfterFirst(next: nat, groups: seq<Group>)
    requires groups != []
    ensures NextAfter(next, groups) == NextAfter(groups[0].last + 1, groups[1..])
  {
  }

  lemma HandledConcat(a: seq<ChangeEvent>, b: seq<ChangeEvent>, c: seq<ChangeEvent>)
    ensures a + (b + c) == (a + b) + c
  {
  }

  lemma {:induction false} AcceptedPassHandles(env: Env, n: nat, p: Progress, pending: seq<Group>, txn: string)
    requires (forall i :: env.accepts(i)) && txn != "" && AreParts(pending, txn) && n <= |p.log|
    ensures PassHandles(n, p, pending, txn, Pass(env, p, pending))
    decreases |pending|
  {
    if pending == [] {
    } else {
      var g := pending[0];
      PartSpans(g, txn);
      assert IsPart(g, txn);
      if Held(p, g) {
        AcceptedPassHandles(env, n, p, pending[1..], txn);
        HeldPass(n, p, pending, txn, Pass(env, p, pending[1..]));
      } else {
        var d := Delivery.DeliverGroup(env, p, g);
        AcceptedSuffixHandles(env, n, p, g, g.events, 0, d);
        AcceptedPassHandles(env, n, d.p, pending[1..], txn);
        HandledPass(n, p, pending, txn, d, Pass(env, d.p, pending[1..]), Pass(env, p, pending).acked);
      }
    }
  }

  lemma {:induction false} GroupsAreParts(cfg: Config, events: seq<ChangeEvent>, txn: string)
    requires cfg.Valid() && IsPiece(events, txn)
    ensures AreParts(Groups(cfg, events), txn) && GroupEvents(Groups(cfg, events)) == events
    ensures Groups(cfg, events) != []
  {
    if cfg.groupSize.None? {
      assert Groups(cfg, events)[1..] == [];
    } else {
      ChunksRoundTrip(events, cfg.groupSize.value);
      var chunks := Chunks(events, cfg.groupSize.value);
      ChunksArePieces(events, cfg.groupSize.value, txn);
      PiecesAreParts(chunks, txn);
    }
  }

  lemma {:induction false} ChunksArePieces(events: seq<ChangeEvent>, size: nat, txn: string)
    requires size > 0 && (events == [] || IsPiece(events, txn))
    ensures ArePieces(Chunks(events, size), txn)
    decreases |events|
  {
    if |events| <= size {
    } else {
      ChunksArePieces(events[size..], size, txn);
      var rest := Chunks(events[size..], size);
      assert IsPiece(events[..size], txn);
      forall i | 0 <= i < |rest| + 1
        ensures IsPiece(([events[..size]] + rest)[i], txn)
      {
        assert i > 0 ==> IsPiece(rest[i - 1], txn);
      }
    }
  }

  lemma PieceIsPart(chunk: seq<ChangeEvent>, txn: string)
    requires IsPiece(chunk, txn)
    ensures IsPart(ToGroup(chunk), txn)
  {
  }

  lemma {:induction false} PiecesAreParts(chunks: seq<seq<ChangeEvent>>, txn: string)
    requires ArePieces(chunks, txn) && forall i | 0 <= i < |chunks| :: chunks[i] != []
    ensures AreParts(ToGroups(chunks), txn) && GroupEvents(ToGroups(chunks)) == Flatten(chunks)
  {
    GroupEventsOf(chunks);
    forall i | 0 <= i < |chunks|
      ensures IsPart(ToGroups(chunks)[i], txn)
    {
      assert IsPiece(chunks[i], txn);
      PieceIsPart(chunks[i], txn);
    }
  }

  // ----- The plan -----

  function PlanGroups(cfg: Config, lists: seq<seq<ChangeEvent>>): seq<Group>
    requires cfg.Valid() && forall i | 0 <= i < |lists| :: lists[i] != []
  {
    if lists == [] then [] else Groups(cfg, lists[0]) + PlanGroups(cfg, lists[1..])
  }

  lemma {:induction false} PlanGroupsAreParts(cfg: Config, lists: seq<seq<ChangeEvent>>, txn: string)
    requires cfg.Valid() && ArePieces(lists, txn)
    ensures AreParts(PlanGroups(cfg, lists), txn) && GroupEvents(PlanGroups(cfg, lists)) == Flatten(lists)
  {
    if lists == [] {
    } else {
      assert IsPiece(lists[0], txn);
      GroupsAreParts(cfg, lists[0], txn);
      PlanGroupsAreParts(cfg, lists[1..], txn);
      GroupEventsConcat(Groups(cfg, lists[0]), PlanGroups(cfg, lists[1..]));
    }
  }

  /** What a call comes to with an accepting sink: `dropped` events are not handled. */
  ghost predicate CallHandles(n: nat, d: DState, planned: seq<ChangeEvent>, dropped: nat, chained: bool,
                              r: DeliverResult)
    requires n <= |d.p.log|
  {
    && r.verdict == Delivered && n <= |r.d.p.log|
    && |Since(n, r.d.p)| + dropped == |Since(n, d.p)| + |planned|
    && (dropped == 0 <==> chained)
    && (dropped == 0 ==> Since(n, r.d.p) == Since(n, d.p) + planned)
  }

  lemma {:induction false} BatchHandles(env: Env, cfg: Config, n: nat, d: DState, list: seq<ChangeEvent>, txn: string)
    requires cfg.Valid() && cfg.maxAttempts >= 1 && (forall i :: env.accepts(i)) && txn != "" && n <= |d.p.log|
    requires IsPiece(list, txn)
    ensures var r, groups, next := DeliverEvents(env, cfg, d, list), Groups(cfg, list), Expected(d.p.next, txn);
            && CallHandles(n, d, list, |GroupEvents(r.d.pending)|, Chained(next, groups), r)
            && (Chained(next, groups) <==> r.d.pending == [])
            && (Chained(next, groups) ==> Expected(r.d.p.next, txn) == NextAfter(next, groups))
  {
    GroupsAreParts(cfg, list, txn);
    AcceptedPassHandles(env, n, d.p, Groups(cfg, list), txn);
  }

  lemma CallsHandle(n: nat, d: DState, a: seq<ChangeEvent>, x: nat, first: bool, s: DeliverResult, b: seq<ChangeEvent>,
                    y: nat, second: bool, r: DeliverResult, acked: nat)
    requires n <= |d.p.log| && CallHandles(n, d, a, x, first, s) && CallHandles(n, s.d, b, y, second, r)
    ensures CallHandles(n, d, a + b, x + y, first && second, r.(acked := acked))
  {
    assert Since(n, d.p) + (a + b) == (Since(n, d.p) + a) + b;
  }

  lemma {:induction false} PlanHandles(env: Env, cfg: Config, n: nat, d: DState, lists: seq<seq<ChangeEvent>>,
                                       txn: string)
    returns (dropped: nat)
    requires cfg.Valid() && cfg.maxAttempts >= 1 && (forall i :: env.accepts(i)) && txn != "" && n <= |d.p.log|
    requires ArePieces(lists, txn)
    ensures var chained := Chained(Expected(d.p.next, txn), PlanGroups(cfg, lists));
            && CallHandles(n, d, Flatten(lists), dropped, chained, DeliverPlan(env, cfg, d, lists))
            && (chained ==> PlanCompletes(env, cfg, d, lists))
    decreases |lists|
  {
    if lists == [] {
      dropped := 0;
    } else {
      assert IsPiece(lists[0], txn);
      var s, next, groups := DeliverEvents(env, cfg, d, lists[0]), Expected(d.p.next, txn), Groups(cfg, lists[0]);
      BatchHandles(env, cfg, n, d, lists[0], txn);
      var rest := PlanHandles(env, cfg, n, s.d, lists[1..], txn);
      dropped := |GroupEvents(s.d.pending)| + rest;
      ChainedConcat(next, groups, PlanGroups(cfg, lists[1..]));
      var second := Chained(Expected(s.d.p.next, txn), PlanGroups(cfg, lists[1..]));
      CallsHandle(n, d, lists[0], |GroupEvents(s.d.pending)|, Chained(next, groups), s, Flatten(lists[1..]), rest,
                  second, DeliverPlan(env, cfg, s.d, lists[1..]), DeliverPlan(env, cfg, d, lists).acked);
    }
  }

  // ----- Each planned event once -----

  function Members(events: seq<ChangeEvent>): set<ChangeEvent> {
    set e | e in events
  }

  lemma {:induction false} MemberCount(events: seq<ChangeEvent>)
    ensures |Members(events)| <= |events|
    ensures NoRepeats(events) ==> |Members(events)| == |events|
  {
    if events == [] {
    } else {
      var n := |events| - 1;
      MemberCount(events[..n]);
      assert events == events[..n] + [events[n]];
      assert Members(events) == Members(events[..n]) + {events[n]};
    }
  }

  lemma MembersWithin(a: set<ChangeEvent>, b: set<ChangeEvent>)
    requires a <= b
    ensures |a| <= |b|
  {
    assert b == a + (b - a);
  }

  lemma {:induction false} FlattenMembers(lists: seq<seq<ChangeEvent>>)
    ensures forall e :: e in Flatten(lists) <==> exists i :: 0 <= i < |lists| && e in lists[i]
  {
    if lists == [] {
    } else {
      FlattenMembers(lists[1..]);
      forall e
        ensures e in Flatten(lists) <==> exists i :: 0 <= i < |lists| && e in lists[i]
      {
        if i :| 0 <= i < |lists| && e in lists[i] {
          assert i > 0 ==> e in lists[1..][i - 1];
        }
        if j :| 0 <= j < |lists| - 1 && e in lists[1..][j] {
          assert e in lists[j + 1];
        }
      }
    }
  }

  /** No event is in two lists. */
  ghost predicate Apart(lists: seq<seq<ChangeEvent>>) {
    forall i, j, e | 0 <= i < j < |lists| && e in lists[i] :: e !in lists[j]
  }

  lemma {:induction false} FlattenOnce(lists: seq<seq<ChangeEvent>>)
    requires Apart(lists) && forall i | 0 <= i < |lists| :: NoRepeats(lists[i])
    ensures NoRepeats(Flatten(lists))
  {
    if lists == [] {
    } else {
      var rest := Flatten(lists[1..]);
      assert NoRepeats(lists[0]);
      FlattenOnce(lists[1..]);
      FlattenMembers(lists[1..]);
      forall i, j | 0 <= i < |lists[0]| && 0 <= j < |rest|
        ensures lists[0][i] != rest[j]
      {
        assert rest[j] in rest;
      }
    }
  }

  lemma {:induction false} TransactionRises(events: seq<ChangeEvent>, txn: string)
    requires Transaction(events, txn)
    ensures Rising(events)
  {
  }

  lemma {:induction false} TableIsPiece(events: seq<ChangeEvent>, txn: string, batches: seq<TableBatch>, i: nat)
    requires Transaction(events, txn) && IsGrouping(batches, events) && i < |batches|
    ensures IsPiece(batches[i].events, txn)
    ensures forall e :: e in batches[i].events <==> e in events && e.table == batches[i].table
  {
    var table := batches[i].table;
    TablesInMembers(events);
    TransactionRises(events, txn);
    EventsOfRises(events, table);
    EventsOfMembers(events, table);
    assert TablesOf(batches)[i] == table && table in Names(TablesOf(batches));
    forall k | 0 <= k < |batches[i].events|
      ensures batches[i].events[k].txnId == txn && batches[i].events[k].txnSeq >= 1
    {
      assert batches[i].events[k] in events;
    }
  }

  lemma {:induction false} TablesApart(events: seq<ChangeEvent>, batches: seq<TableBatch>)
    requires IsGrouping(batches, events)
    ensures Apart(EventsIn(batches))
  {
    var lists, tables := EventsIn(batches), TablesOf(batches);
    forall i, j, e | 0 <= i < j < |lists| && e in lists[i]
      ensures e !in lists[j]
    {
      EventsOfMembers(events, batches[i].table);
      EventsOfMembers(events, batches[j].table);
      assert tables[i] != tables[j];
    }
  }

  lemma {:induction false} GroupingHolds(events: seq<ChangeEvent>, batches: seq<TableBatch>, e: ChangeEvent)
    requires IsGrouping(batches, events) && e in events
    ensures exists i :: 0 <= i < |EventsIn(batches)| && e in EventsIn(batches)[i]
  {
    EventsOfMembers(events, e.table);
    TablesInMembers(events);
    assert e.table in Names(TablesOf(batches));
    var i :| 0 <= i < |batches| && TablesOf(batches)[i] == e.table;
    assert e in EventsIn(batches)[i];
  }

  /** What the grouping of a transaction by tables is. */
  lemma {:induction false} GroupingPieces(events: seq<ChangeEvent>, txn: string, batches: seq<TableBatch>)
    requires Transaction(events, txn) && IsGrouping(batches, events)
    ensures var lists := EventsIn(batches);
            && ArePieces(lists, txn) && NoRepeats(Flatten(lists)) && forall e :: e in Flatten(lists) <==> e in events
  {
    var lists := EventsIn(batches);
    forall i | 0 <= i < |lists|
      ensures IsPiece(lists[i], txn) && NoRepeats(lists[i]) && forall e | e in lists[i] :: e in events
    {
      TableIsPiece(events, txn, batches, i);
    }
    TablesApart(events, batches);
    FlattenMembers(lists);
    FlattenOnce(lists);
    forall e | e in events
      ensures exists i :: 0 <= i < |lists| && e in lists[i]
    {
      GroupingHolds(events, batches, e);
    }
  }

  // ----- Planned transactions stay in order -----

  lemma {:induction false} PieceIsWellTagged(hash: string -> nat, cfg: Config, list: seq<ChangeEvent>, txn: string)
    requires cfg.Valid() && IsPiece(list, txn)
    ensures WellTaggedEvents(hash, cfg, list)
  {
    GroupsAreParts(cfg, list, txn);
    forall i | 0 <= i < |Groups(cfg, list)|
      ensures WellTagged(hash, Groups(cfg, list)[i])
    {
      assert IsPart(Groups(cfg, list)[i], txn);
      RisingIsWellTagged(hash, Groups(cfg, list)[i]);
    }
  }

  /** A transaction keeps its order in any run, delivered whole or table by table. */
  lemma {:induction false} TransactionIsWellTagged(hash: string -> nat, cfg: Config, events: seq<ChangeEvent>,
                                                   txn: string, batches: seq<TableBatch>)
    requires cfg.Valid() && Transaction(events, txn) && IsGrouping(batches, events)
    ensures WellTaggedCall(hash, cfg, Batched(events)) && WellTaggedCall(hash, cfg, Planned(EventsIn(batches)))
  {
    TransactionRises(events, txn);
    PieceIsWellTagged(hash, cfg, events, txn);
    forall i | 0 <= i < |batches|
      ensures WellTaggedEvents(hash, cfg, EventsIn(batches)[i])
    {
      TableIsPiece(events, txn, batches, i);
      PieceIsWellTagged(hash, cfg, batches[i].events, txn);
    }
  }

  // ----- When a planned transaction goes through -----

  /** The chain condition is that the plan does not reorder the transaction. */
  lemma {:induction false} ChainedIffInOrder(cfg: Config, events: seq<ChangeEvent>, txn: string,
                                             lists: seq<seq<ChangeEvent>>)
    requires cfg.Valid() && Transaction(events, txn) && ArePieces(lists, txn)
    requires forall e :: e in Flatten(lists) <==> e in events
    ensures Chained(1, PlanGroups(cfg, lists)) <==> Flatten(lists) == events
  {
    PlanGroupsAreParts(cfg, lists, txn);
    TransactionRises(events, txn);
    if Chained(1, PlanGroups(cfg, lists)) {
      ChainedRises(1, PlanGroups(cfg, lists), txn);
      RisingUnique(Flatten(lists), events);
    } else if Flatten(lists) == events {
      CountingIsChained(1, PlanGroups(cfg, lists), txn);
    }
  }

  /** Every event of the transaction was handled since the log had `n` actions. */
  ghost predicate AllHandled(n: nat, p: Progress, events: seq<ChangeEvent>) {
    n <= |p.log| && forall e | e in events :: e in Since(n, p)
  }

  lemma {:induction false} DroppedIsMissing(n: nat, p: Progress, events: seq<ChangeEvent>, planned: seq<ChangeEvent>)
    requires n <= |p.log| && NoRepeats(planned) && (forall e | e in planned :: e in events) && |Since(n, p)| < |planned|
    ensures !AllHandled(n, p, events)
  {
    if AllHandled(n, p, events) {
      MemberCount(planned);
      MemberCount(Since(n, p));
      MembersWithin(Members(planned), Members(Since(n, p)));
      assert false;
    }
  }

  /** A fresh transaction delivered table by table to a sink that accepts everything:
      the call reports success, and it has delivered every event exactly when the
      plan's batches, one after the other, are the transaction in its own order. Then
      every event of a walked table follows those of its parents; otherwise an event
      is dropped behind the success. */
  lemma {:induction false} PlannedTransactionIff(env: Env, cfg: Config, d: DState, events: seq<ChangeEvent>,
                                                 txn: string, edges: Graph, batches: seq<TableBatch>, walked: nat)
    requires cfg.Valid() && cfg.maxAttempts >= 1 && (forall i :: env.accepts(i))
    requires Transaction(events, txn) && Expected(d.p.next, txn) == 1 && IsPlan(batches, events, edges, walked)
    ensures var n, r, lists := |d.p.log|, DeliverPlan(env, cfg, d, EventsIn(batches)), EventsIn(batches);
            && r.verdict == Delivered
            && (AllHandled(n, r.d.p, events) <==> Flatten(lists) == events)
            && (Flatten(lists) == events ==>
                  && Since(n, r.d.p) == events
                  && ParentsFirstSince(n, r.d.p.log, events, edges, Names(TablesOf(batches)[..walked])))
  {
    var n, lists := |d.p.log|, EventsIn(batches);
    GroupingPieces(events, txn, batches);
    ChainedIffInOrder(cfg, events, txn, lists);
    var dropped := PlanHandles(env, cfg, n, d, lists, txn);
    assert d.p.log[n..] == [];
    if Flatten(lists) == events {
      CompletePlanRespectsForeignKeys(env, cfg, d, events, edges, batches, walked);
    } else {
      DroppedIsMissing(n, DeliverPlan(env, cfg, d, lists).d.p, events, Flatten(lists));
    }
  }

  // ----- A parent dropped behind its child -----

  lemma {:induction false} EventsOfTwo(a: ChangeEvent, b: ChangeEvent)
    requires a.table != b.table
    ensures EventsOf([a, b], a.table) == [a] && EventsOf([a, b], b.table) == [b]
    ensures Names(TablesIn([a, b])) == {a.table, b.table}
  {
    assert [a, b][..1] == [a] && [a][..0] == [];
    assert TablesIn([a]) == [a.table] && TablesIn([a, b]) == [a.table, b.table];
    assert EventsOf([a], a.table) == [a] && EventsOf([a], b.table) == [];
  }

  lemma TwoNames(order: seq<string>, a: string, b: string)
    requires Distinct(order) && forall k | 0 <= k < |order| :: order[k] in {a, b}
    ensures |order| <= 2
  {
    if |order| > 2 {
      var i, j := Pigeonhole(order, {a, b});
      assert false;
    }
  }

  lemma {:induction false} ParentTableFirst(order: seq<string>, child: string, parent: string, edges: Graph)
    requires child != parent && Distinct(order) && Names(order) == {child, parent}
    requires child in edges && parent in edges[child] && ParentsFirst(order, edges, {child, parent})
    ensures order == [parent, child]
  {
    KeepMembers(edges[child], {child, parent});
    assert child in Names(order) && parent in Names(order);
    var i :| 0 <= i < |order| && order[i] == child;
    assert parent in Parents(edges, {child, parent}, order[i]) && parent in order[..i];
    var j :| 0 <= j < i && order[j] == parent;
    forall k | 0 <= k < |order|
      ensures order[k] == child || order[k] == parent
    {
      assert order[k] in Names(order);
    }
    TwoNames(order, child, parent);
  }

  /** A plan of a child's and a parent's event, the walk having emitted both tables. */
  lemma {:induction false} ParentPlannedFirst(child: ChangeEvent, parent: ChangeEvent, edges: Graph,
                                              batches: seq<TableBatch>)
    requires child.table != parent.table && child.table in edges && parent.table in edges[child.table]
    requires IsPlan(batches, [child, parent], edges, |batches|)
    ensures EventsIn(batches) == [[parent], [child]]
  {
    EventsOfTwo(child, parent);
    var tables := TablesOf(batches);
    assert tables[..|batches|] == tables;
    ParentTableFirst(tables, child.table, parent.table, edges);
    assert batches[0].table == tables[0] && batches[1].table == tables[1];
  }

  /** Any transaction that writes a child's row and then its parent's, under any plan
      whose walk puts the parent first: the parent's batch is passed over, the child is
      written, and the parent is dropped behind a success. */
  lemma {:induction false} ParentIsDropped(env: Env, cfg: Config, child: ChangeEvent, parent: ChangeEvent, txn: string,
                                           edges: Graph, batches: seq<TableBatch>)
    requires cfg.Valid() && cfg.maxAttempts >= 1 && (forall i :: env.accepts(i))
    requires child.table != parent.table && child.table in edges && parent.table in edges[child.table]
    requires Transaction([child, parent], txn) && IsPlan(batches, [child, parent], edges, |batches|)
    ensures var r := DeliverPlan(env, cfg, DState(INITIAL, []), EventsIn(batches));
            r.verdict == Delivered && r.d.p.log == [Wrote(child)] && r.d.pending == []
  {
    ParentPlannedFirst(child, parent, edges, batches);
    var events := [child, parent];
    assert events[0] == child && events[1] == parent;
    ChildAloneIsWritten(env, cfg, child, parent, EventsIn(batches));
  }

  lemma {:induction false} ChildAloneIsWritten(env: Env, cfg: Config, child: ChangeEvent, parent: ChangeEvent,
                                               lists: seq<seq<ChangeEvent>>)
    requires cfg.Valid() && cfg.maxAttempts >= 1 && (forall i :: env.accepts(i))
    requires child.txnId == parent.txnId != "" && child.txnSeq == 1 && parent.txnSeq == 2
    requires lists == [[parent], [child]]
    ensures var r := DeliverPlan(env, cfg, DState(INITIAL, []), lists);
            r.verdict == Delivered && r.d.p.log == [Wrote(child)] && r.d.pending == []
  {
    var d := DState(INITIAL, []);
    assert lists[1..] == [[child]] && [[child]][1..] == [];
    var s := DeliverEvents(env, cfg, d, [parent]);
    LoneBatch(env, cfg, d, parent, s);
    var t := DeliverEvents(env, cfg, s.d, [child]);
    LoneBatch(env, cfg, s.d, child, t);
    assert DeliverPlan(env, cfg, t.d, []).d == t.d;
    assert DeliverPlan(env, cfg, s.d, [[child]]).d == t.d && DeliverPlan(env, cfg, s.d, [[child]]).verdict == Delivered;
  }

  lemma LoneGroups(cfg: Config, ev: ChangeEvent)
    requires cfg.Valid()
    ensures Groups(cfg, [ev]) == [ToGroup([ev])]
  {
    if cfg.groupSize.Some? {
      assert Chunks([ev], cfg.groupSize.value) == [[ev]];
    }
  }

  /** One event in one group with an accepting sink: held, or written at once. */
  lemma {:induction false} LoneBatch(env: Env, cfg: Config, d: DState, ev: ChangeEvent, r: DeliverResult)
    requires cfg.Valid() && cfg.maxAttempts >= 1 && (forall i :: env.accepts(i))
    requires ev.txnId != "" && ev.txnSeq >= 1 && env.KeyOf(ev) !in d.p.seen && r == DeliverEvents(env, cfg, d, [ev])
    ensures r.verdict == Delivered
    ensures if Expected(d.p.next, ev.txnId) == ev.txnSeq then r.d.pending == [] && r.d.p.log == d.p.log + [Wrote(ev)]
            else r.d == DState(d.p, [ToGroup([ev])])
  {
    var g, q := ToGroup([ev]), Accept(env, d.p, ev);
    LoneGroups(cfg, ev);
    assert [g][1..] == [] && [ev][1..] == [];
    if Expected(d.p.next, ev.txnId) == ev.txnSeq {
      var e := Release(q, ev.txnId, ev.txnSeq);
      assert DeliverSuffix(env, q, g, [], ev.sourcePos) == GroupResult(e, ev.sourcePos, true);
      assert Delivery.DeliverGroup(env, d.p, g) == GroupResult(e, ev.sourcePos, true);
      assert Pass(env, e, []) == PassResult(e, [], 0, None);
      assert Pass(env, d.p, [g]) == PassResult(e, [], ev.sourcePos, None);
    } else {
      assert Pass(env, d.p, []) == PassResult(d.p, [], 0, None);
      assert Pass(env, d.p, [g]) == PassResult(d.p, [g], 0, None);
    }
  }
}
