/** Transaction order: exactly which groups keep it, and what it means for whole runs. */
module TxnOrder {
  import opened Model
  import opened Txn
  import opened Delivery
  import opened Invariants
  import opened Conservation

  // ----- Order and groups -----

  /** Strictly increasing transaction sequences. */
  ghost predicate Rising(events: seq<ChangeEvent>) {
    forall i, j | 0 <= i < j < |events| :: events[i].txnSeq < events[j].txnSeq
  }

  /** No earlier event of the group has the key of event `i`, so a write of it can be
      attempted. */
  ghost predicate CanWrite(hash: string -> nat, g: Group, i: nat) {
    i < |g.events| && forall k | 0 <= k < i :: hash(TableKey(g.events[k])) != hash(TableKey(g.events[i]))
  }

  /** Writable event `i` belongs to no transaction, or to that of the group: then its
      sequence lies within the group's, and those of later writable events above it. */
  ghost predicate InPlace(hash: string -> nat, g: Group, i: nat)
    requires i < |g.events|
  {
    var e := g.events[i];
    e.txnId == "" ||
    (&& e.txnId == g.txnId && 1 <= g.first <= e.txnSeq <= g.last
     && forall j | i < j && CanWrite(hash, g, j) :: e.txnSeq < g.events[j].txnSeq)
  }

  ghost predicate WellTagged(hash: string -> nat, g: Group) {
    forall i | CanWrite(hash, g, i) :: InPlace(hash, g, i)
  }

  ghost predicate WellTaggedEvents(hash: string -> nat, cfg: Config, events: seq<ChangeEvent>)
    requires cfg.Valid()
  {
    events == [] || forall g | g in Groups(cfg, events) :: WellTagged(hash, g)
  }

  ghost predicate WellTaggedCall(hash: string -> nat, cfg: Config, c: Call)
    requires cfg.Valid()
  {
    match c
    case Batched(events) => WellTaggedEvents(hash, cfg, events)
    case Planned(batches) => forall i | 0 <= i < |batches| :: WellTaggedEvents(hash, cfg, batches[i])
  }

  /** The successful writes of each transaction have increasing sequences. */
  ghost predicate Increasing(log: seq<Action>) {
    forall i, j | 0 <= i < j < |log| && log[i].Wrote? && log[j].Wrote?
                  && log[i].event.txnId != "" && log[i].event.txnId == log[j].event.txnId ::
      log[i].event.txnSeq < log[j].event.txnSeq
  }

  /** Increasing, with every written sequence of `txn` below `s` and that of any
      other transaction below the tracker's next. */
  ghost predicate OrderedUpTo(p: Progress, txn: string, s: nat) {
    && Increasing(p.log)
    && forall i | 0 <= i < |p.log| && p.log[i].Wrote? && p.log[i].event.txnId != "" ::
         p.log[i].event.txnSeq < if p.log[i].event.txnId == txn then s else Expected(p.next, p.log[i].event.txnId)
  }

  ghost predicate Ordered(p: Progress) {
    OrderedUpTo(p, "", 0)
  }

  lemma ReleaseOrders(p: Progress, txn: string, s: nat, last: nat)
    requires txn != "" && OrderedUpTo(p, txn, s) && (s <= Expected(p.next, txn) || s <= last + 1)
    ensures Ordered(if last > 0 then Release(p, txn, last) else p)
  {
  }

  /** The keys of the first `i` events are marked. */
  ghost predicate MarkedUpTo(env: Env, p: Progress, g: Group, i: nat) {
    i <= |g.events| && forall k | 0 <= k < i :: env.KeyOf(g.events[k]) in p.seen
  }

  /** What is still to be written of the transaction lies at `s` or above, and so does
      whatever the tracker is moved to. */
  ghost predicate StaysAbove(hash: string -> nat, p: Progress, g: Group, i: nat, s: nat) {
    && (forall j | i <= j && CanWrite(hash, g, j) && g.events[j].txnId == g.txnId :: s <= g.events[j].txnSeq)
    && (s <= Expected(p.next, g.txnId) ||
        (s <= g.last + 1 && forall j | i <= j && CanWrite(hash, g, j) :: s <= g.events[j].txnSeq))
  }

  /** A write of the transaction raises the bound to the sequence after it. */
  lemma WriteRaises(env: Env, p: Progress, g: Group, i: nat, s: nat)
    requires i < |g.events| && CanWrite(env.hash, g, i) && InPlace(env.hash, g, i) && g.events[i].txnId == g.txnId != ""
    requires OrderedUpTo(p, g.txnId, s) && s <= g.events[i].txnSeq
    ensures var q := Accept(env, p, g.events[i]);
            OrderedUpTo(q, g.txnId, g.events[i].txnSeq + 1)
            && StaysAbove(env.hash, q, g, i + 1, g.events[i].txnSeq + 1)
  {
  }

  lemma {:induction false} SuffixOrders(env: Env, p: Progress, g: Group, i: nat, s: nat, acked: nat)
    requires g.txnId != "" && WellTagged(env.hash, g) && MarkedUpTo(env, p, g, i)
    requires OrderedUpTo(p, g.txnId, s) && StaysAbove(env.hash, p, g, i, s)
    ensures Ordered(DeliverSuffix(env, p, g, g.events[i..], acked).p)
    decreases |g.events| - i
  {
    if i == |g.events| {
      ReleaseOrders(p, g.txnId, s, g.last);
    } else {
      var ev := g.events[i];
      assert g.events[i..][0] == ev && g.events[i..][1..] == g.events[i + 1..];
      if env.KeyOf(ev) in p.seen {
        SuffixOrders(env, Suppress(p, ev), g, i + 1, s, acked);
      } else {
        assert CanWrite(env.hash, g, i) && InPlace(env.hash, g, i);
        if !env.accepts(p.calls) {
          ReleaseOrders(Reject(p, ev), g.txnId, s, if ev.txnSeq > 0 then ev.txnSeq - 1 else 0);
        } else if ev.txnId == "" {
          SuffixOrders(env, Accept(env, p, ev), g, i + 1, s, ev.sourcePos);
        } else {
          WriteRaises(env, p, g, i, s);
          SuffixOrders(env, Accept(env, p, ev), g, i + 1, ev.txnSeq + 1, ev.sourcePos);
        }
      }
    }
  }

  lemma {:induction false} UntaggedOrders(env: Env, p: Progress, g: Group, i: nat, acked: nat)
    requires g.txnId == "" && WellTagged(env.hash, g) && MarkedUpTo(env, p, g, i) && Ordered(p)
    ensures Ordered(DeliverSuffix(env, p, g, g.events[i..], acked).p)
    decreases |g.events| - i
  {
    if i == |g.events| {
    } else {
      var ev := g.events[i];
      assert g.events[i..][0] == ev && g.events[i..][1..] == g.events[i + 1..];
      if env.KeyOf(ev) in p.seen {
        UntaggedOrders(env, Suppress(p, ev), g, i + 1, acked);
      } else {
        assert CanWrite(env.hash, g, i) && InPlace(env.hash, g, i);
        if env.accepts(p.calls) {
          UntaggedOrders(env, Accept(env, p, ev), g, i + 1, ev.sourcePos);
        }
      }
    }
  }

  lemma {:induction false} GroupOrders(env: Env, p: Progress, g: Group)
    requires WellTagged(env.hash, g) && Ordered(p) && !Held(p, g)
    ensures Ordered(Delivery.DeliverGroup(env, p, g).p)
  {
    assert g.events[0..] == g.events;
    if g.txnId == "" {
      UntaggedOrders(env, p, g, 0, 0);
    } else {
      var s := Expected(p.next, g.txnId);
      forall j: nat | CanWrite(env.hash, g, j) && g.events[j].txnId == g.txnId
        ensures s <= g.events[j].txnSeq
      {
        assert InPlace(env.hash, g, j);
      }
      SuffixOrders(env, p, g, 0, s, 0);
    }
  }

  // ----- Which groups keep the order -----

  /** The keys of the events from `h` to `k` are marked: they are suppressed. */
  lemma {:induction false} SkipMarked(env: Env, p: Progress, g: Group, h: nat, k: nat, acked: nat)
    returns (q: Progress)
    requires h <= k <= |g.events| && forall i | h <= i < k :: env.KeyOf(g.events[i]) in p.seen
    ensures DeliverSuffix(env, p, g, g.events[h..], acked) == DeliverSuffix(env, q, g, g.events[k..], acked)
    ensures q == p.(log := q.log) && p.log <= q.log
    decreases k - h
  {
    q := p;
    if h == k {
    } else {
      assert g.events[h..][0] == g.events[h] && g.events[h..][1..] == g.events[h + 1..];
      q := SkipMarked(env, Suppress(p, g.events[h]), g, h + 1, k, acked);
    }
  }

  /** Event `i` is the first that is not marked, and the sink accepts it. */
  lemma {:induction false} WritesNext(env: Env, p: Progress, g: Group, i: nat) returns (q: Progress)
    requires i < |g.events| && env.KeyOf(g.events[i]) !in p.seen && MarkedUpTo(env, p, g, i) && env.accepts(p.calls)
    ensures DeliverSuffix(env, p, g, g.events, 0) ==
            DeliverSuffix(env, q, g, g.events[i + 1..], g.events[i].sourcePos)
    ensures q.next == p.next && q.seen == p.seen + {env.KeyOf(g.events[i])} && q.calls == p.calls + 1
    ensures |p.log| < |q.log| && p.log <= q.log && q.log[|q.log| - 1] == Wrote(g.events[i])
  {
    assert g.events[0..] == g.events;
    q := SkipMarked(env, p, g, 0, i, 0);
    assert g.events[i..][0] == g.events[i] && g.events[i..][1..] == g.events[i + 1..];
    q := Accept(env, q, g.events[i]);
  }

  /** The event is written although a write of it is in the log already. */
  lemma {:induction false} WritesAgain(env: Env, p: Progress, g: Group, i: nat)
    requires CanWrite(env.hash, g, i) && env.accepts(p.calls) && g.events[i].txnId != ""
    requires p.seen == Keys(env, g.events) - {env.KeyOf(g.events[i])} && p.log == [Wrote(g.events[i])]
    ensures !Ordered(Delivery.DeliverGroup(env, p, g).p)
  {
    var r := Delivery.DeliverGroup(env, p, g);
    var q := WritesNext(env, p, g, i);
    SuffixConserves(env, q, g, g.events[i + 1..], g.events[i].sourcePos);
    assert r.p.log[0] == r.p.log[|q.log| - 1] == Wrote(g.events[i]);
  }

  /** The event is written, and at the end of the group the tracker still expects a
      sequence that is not above it. */
  lemma {:induction false} TrackerStaysBehind(env: Env, p: Progress, g: Group, i: nat)
    requires CanWrite(env.hash, g, i) && env.accepts(p.calls) && g.events[i].txnId == g.txnId != ""
    requires p.seen == Keys(env, g.events) - {env.KeyOf(g.events[i])}
    requires g.last < g.events[i].txnSeq && Expected(p.next, g.txnId) <= g.events[i].txnSeq
    ensures !Ordered(Delivery.DeliverGroup(env, p, g).p)
  {
    var n := |g.events|;
    var q := WritesNext(env, p, g, i);
    var t := SkipMarked(env, q, g, i + 1, n, g.events[i].sourcePos);
    assert g.events[n..] == [];
    assert Delivery.DeliverGroup(env, p, g).p.log[|q.log| - 1] == Wrote(g.events[i]);
  }

  lemma RefusedMoves(env: Env, p: Progress, g: Group, j: nat, acked: nat)
    requires j < |g.events| && env.KeyOf(g.events[j]) !in p.seen && !env.accepts(p.calls) && g.txnId != ""
    ensures var q := DeliverSuffix(env, p, g, g.events[j..], acked).p;
            && p.log <= q.log
            && Expected(q.next, g.txnId) <= Max(Expected(p.next, g.txnId), g.events[j].txnSeq)
  {
    assert g.events[j..][0] == g.events[j];
  }

  lemma WrittenAboveNext(p: Progress, k: nat)
    requires k < |p.log| && p.log[k].Wrote? && p.log[k].event.txnId != ""
    requires Expected(p.next, p.log[k].event.txnId) <= p.log[k].event.txnSeq
    ensures !Ordered(p)
  {
  }

  /** Event `i` is written and event `j` refused: the tracker is moved to `j`'s
      sequence, which is not above `i`'s. */
  lemma {:induction false} RefusalMovesBack(env: Env, p: Progress, g: Group, i: nat, j: nat)
    requires CanWrite(env.hash, g, i) && CanWrite(env.hash, g, j) && i < j && g.events[i].txnId == g.txnId != ""
    requires env.accepts(p.calls) && !env.accepts(p.calls + 1)
    requires p.seen == Keys(env, g.events) - {env.KeyOf(g.events[i]), env.KeyOf(g.events[j])}
    requires g.events[j].txnSeq <= g.events[i].txnSeq && Expected(p.next, g.txnId) <= g.events[i].txnSeq
    ensures !Ordered(Delivery.DeliverGroup(env, p, g).p)
  {
    var q := WritesNext(env, p, g, i);
    var t := SkipMarked(env, q, g, i + 1, j, g.events[i].sourcePos);
    RefusedMoves(env, t, g, j, g.events[i].sourcePos);
    WrittenAboveNext(Delivery.DeliverGroup(env, p, g).p, |q.log| - 1);
  }

  /** A state the group is admitted in, with nothing written but what `log` holds. */
  function Before(seen: set<nat>, next: map<string, nat>, log: seq<Action>): Progress {
    Progress(seen, next, map[], 0, 0, log)
  }

  lemma {:induction false} IllTaggedBreaks(hash: string -> nat, g: Group) returns (env: Env, p: Progress)
    requires !WellTagged(hash, g)
    ensures env.hash == hash && Ordered(p) && !Held(p, g) && !Ordered(Delivery.DeliverGroup(env, p, g).p)
  {
    env := Env(hash, i => i == 0, i => false);
    var i: nat :| CanWrite(hash, g, i) && !InPlace(hash, g, i);
    var e, keys := g.events[i], Keys(env, g.events);
    if e.txnId != g.txnId || g.first == 0 || e.txnSeq < g.first {
      var next := if e.txnId == g.txnId && g.first > 0 then map[g.txnId := g.first]
                  else map[g.txnId := g.first][e.txnId := e.txnSeq + 1];
      p := Before(keys - {env.KeyOf(e)}, next, [Wrote(e)]);
      WritesAgain(env, p, g, i);
    } else if e.txnSeq > g.last {
      p := Before(keys - {env.KeyOf(e)}, map[g.txnId := g.first], []);
      TrackerStaysBehind(env, p, g, i);
    } else {
      var j: nat :| i < j && CanWrite(hash, g, j) && e.txnSeq >= g.events[j].txnSeq;
      p := Before(keys - {env.KeyOf(e), env.KeyOf(g.events[j])}, map[g.txnId := g.first], []);
      RefusalMovesBack(env, p, g, i, j);
    }
  }

  /** Exactly which groups keep the order: delivered in any ordered state that admits
      it, to any sink, a group leaves an ordered state if and only if each event that
      can be written belongs to no transaction, or to the group's with a sequence from
      the group's first to its last and below those of all later such events. */
  lemma {:induction false} OrderKeptIff(hash: string -> nat, g: Group)
    ensures (forall accepts: nat -> bool, cancelled: nat -> bool, p: Progress | Ordered(p) && !Held(p, g) ::
               Ordered(Delivery.DeliverGroup(Env(hash, accepts, cancelled), p, g).p))
            <==> WellTagged(hash, g)
  {
    if WellTagged(hash, g) {
      forall accepts: nat -> bool, cancelled: nat -> bool, p: Progress | Ordered(p) && !Held(p, g)
        ensures Ordered(Delivery.DeliverGroup(Env(hash, accepts, cancelled), p, g).p)
      {
        GroupOrders(Env(hash, accepts, cancelled), p, g);
      }
    } else {
      var env, p := IllTaggedBreaks(hash, g);
      assert !Ordered(Delivery.DeliverGroup(Env(hash, env.accepts, env.cancelled), p, g).p);
    }
  }

  /** A part of one transaction in its order, with or without gaps. */
  lemma {:induction false} RisingIsWellTagged(hash: string -> nat, g: Group)
    requires g.events != [] && g == ToGroup(g.events) && g.first >= 1 && Rising(g.events)
    requires forall i | 0 <= i < |g.events| :: g.events[i].txnId == g.txnId
    ensures WellTagged(hash, g)
  {
  }

  // ----- Order over whole runs -----

  lemma {:induction false} PassOrders(env: Env, p: Progress, pending: seq<Group>)
    requires Ordered(p) && forall g | g in pending :: WellTagged(env.hash, g)
    ensures Ordered(Pass(env, p, pending).p)
    decreases |pending|
  {
    if pending == [] {
    } else {
      var g := pending[0];
      if Held(p, g) {
        PassOrders(env, p, pending[1..]);
      } else {
        assert g in pending;
        GroupOrders(env, p, g);
        PassOrders(env, Delivery.DeliverGroup(env, p, g).p, pending[1..]);
      }
    }
  }

  lemma {:induction false} DrainOrders(env: Env, p: Progress, pending: seq<Group>, attempt: int, maxAttempts: int)
    requires Ordered(p) && forall g | g in pending :: WellTagged(env.hash, g)
    ensures Ordered(Drain(env, p, pending, attempt, maxAttempts).p)
    decreases maxAttempts - attempt + 1
  {
    if attempt > maxAttempts {
    } else {
      var s := Pass(env, p, pending);
      PassOrders(env, p, pending);
      PassConserves(env, p, pending);
      SubseqIn(s.next, pending);
      if s.failed.Some? && attempt < maxAttempts && !env.cancelled(s.p.calls) {
        DrainOrders(env, s.p, s.next, attempt + 1, maxAttempts);
      }
    }
  }

  lemma {:induction false} EventsOrder(env: Env, cfg: Config, d: DState, events: seq<ChangeEvent>)
    requires cfg.Valid() && Ordered(d.p) && WellTaggedEvents(env.hash, cfg, events)
    ensures Ordered(DeliverEvents(env, cfg, d, events).d.p)
  {
    if events != [] {
      DrainOrders(env, d.p, Groups(cfg, events), 1, cfg.maxAttempts);
    }
  }

  lemma {:induction false} PlanOrders(env: Env, cfg: Config, d: DState, batches: seq<seq<ChangeEvent>>)
    requires cfg.Valid() && Ordered(d.p) && forall i | 0 <= i < |batches| :: WellTaggedEvents(env.hash, cfg, batches[i])
    ensures Ordered(DeliverPlan(env, cfg, d, batches).d.p)
    decreases |batches|
  {
    if batches == [] {
    } else {
      EventsOrder(env, cfg, d, batches[0]);
      PlanOrders(env, cfg, DeliverEvents(env, cfg, d, batches[0]).d, batches[1..]);
    }
  }

  /** Across any calls with any failures, the sequences written for one transaction
      strictly increase, because each is below the tracker's next. The groups may have
      gaps, as those of a plan do. */
  lemma {:induction false} TransactionOrderOverRuns(env: Env, cfg: Config, calls: seq<Call>)
    requires cfg.Valid() && forall i | 0 <= i < |calls| :: WellTaggedCall(env.hash, cfg, calls[i])
    ensures Increasing(Run(env, cfg, calls).p.log)
    ensures Ordered(Run(env, cfg, calls).p)
  {
    if calls == [] {
    } else {
      var n := |calls| - 1;
      TransactionOrderOverRuns(env, cfg, calls[..n]);
      var d := Run(env, cfg, calls[..n]);
      assert WellTaggedCall(env.hash, cfg, calls[n]);
      match calls[n]
      case Batched(events) => EventsOrder(env, cfg, d, events);
      case Planned(batches) => PlanOrders(env, cfg, d, batches);
    }
  }

  // ----- Groups that mix transactions -----

  const PLAIN := ChangeEvent(1, "t", OpInsert, [], "", "", 0, 1, 0, 1)
  const TAGGED := ChangeEvent(2, "t", OpInsert, [], "", "T", 1, 1, 0, 2)

  /** The `n`-th batch: an untagged event followed by the start of transaction T. */
  function MixedBatch(n: nat): seq<ChangeEvent> {
    [PLAIN.(seqNo := 2 * n), TAGGED.(seqNo := 2 * n + 1)]
  }

  lemma {:induction false} MixedBatchIsWritten(env: Env, d: DState, n: nat)
    requires forall i :: env.accepts(i)
    requires env.KeyOf(MixedBatch(n)[0]) !in d.p.seen && env.KeyOf(MixedBatch(n)[1]) !in d.p.seen
    requires env.KeyOf(MixedBatch(n)[0]) != env.KeyOf(MixedBatch(n)[1])
    ensures var q := DeliverEvents(env, Config(1, None), d, MixedBatch(n)).d.p;
            && q.log == d.p.log + [Wrote(MixedBatch(n)[0]), Wrote(MixedBatch(n)[1])]
            && q.seen == d.p.seen + {env.KeyOf(MixedBatch(n)[0]), env.KeyOf(MixedBatch(n)[1])}
  {
    var batch := MixedBatch(n);
    var g := ToGroup(batch);
    var p1 := Accept(env, d.p, batch[0]);
    var p2 := Accept(env, p1, batch[1]);
    assert batch[1..] == [batch[1]] && [batch[1]][1..] == [];
    assert DeliverSuffix(env, p1, g, [batch[1]], batch[0].sourcePos) == GroupResult(p2, batch[1].sourcePos, true);
    assert Delivery.DeliverGroup(env, d.p, g) == GroupResult(p2, batch[1].sourcePos, true);
    assert Groups(Config(1, None), batch) == [g];
    assert [g][1..] == [];
    assert Pass(env, p2, []) == PassResult(p2, [], 0, None);
    assert Pass(env, d.p, [g]).p == p2 && Pass(env, d.p, [g]).failed == None;
    assert p2.log == d.p.log + [Wrote(batch[0]), Wrote(batch[1])];
  }

  /** A group takes its transaction from its first event, so a group that starts
      untagged slips past the order gate: two such batches write one transaction's
      first sequence twice. */
  lemma {:induction false} MixedGroupsBreakOrder(env: Env)
    requires forall i :: env.accepts(i)
    requires DistinctKeys(env, MixedBatch(0) + MixedBatch(1))
    ensures !Increasing(Run(env, Config(1, None), [Batched(MixedBatch(0)), Batched(MixedBatch(1))]).p.log)
    ensures !WellTaggedCall(env.hash, Config(1, None), Batched(MixedBatch(0)))
  {
    var both, cfg := MixedBatch(0) + MixedBatch(1), Config(1, None);
    assert env.KeyOf(both[0]) != env.KeyOf(both[1]) && env.KeyOf(both[0]) != env.KeyOf(both[2])
        && env.KeyOf(both[0]) != env.KeyOf(both[3]) && env.KeyOf(both[1]) != env.KeyOf(both[2])
        && env.KeyOf(both[1]) != env.KeyOf(both[3]) && env.KeyOf(both[2]) != env.KeyOf(both[3]);
    var c0, c1 := Batched(MixedBatch(0)), Batched(MixedBatch(1));
    assert [c0, c1][..1] == [c0] && [c0][..0] == [];
    var d1 := Run(env, cfg, [c0]);
    MixedBatchIsWritten(env, DState(INITIAL, []), 0);
    assert Run(env, cfg, []) == DState(INITIAL, []);
    assert d1 == CallResult(env, cfg, Run(env, cfg, [c0][..0]), c0).d;
    MixedBatchIsWritten(env, d1, 1);
    var log := Run(env, cfg, [c0, c1]).p.log;
    assert log == [Wrote(both[0]), Wrote(both[1]), Wrote(both[2]), Wrote(both[3])];
    assert log[1].event.txnSeq == log[3].event.txnSeq;
    var g := ToGroup(MixedBatch(0));
    assert g == Groups(cfg, MixedBatch(0))[0] && g in Groups(cfg, MixedBatch(0));
    assert g.txnId == "" && g.events[1].txnId == "T";
    assert CanWrite(env.hash, g, 1) && !InPlace(env.hash, g, 1);
  }
}
