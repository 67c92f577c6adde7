/** The dispatcher and its parts as the stateful objects of the pipeline, each
    method tied to the functions of module Delivery. */
module Transport {
  import opened Model
  import opened Txn
  import opened Delivery
  import Offset

  class OrderTracker {
    var next: map<string, nat>

    constructor ()
      ensures next == map[]
    {
      next := map[];
    }

    predicate Acquire(txnId: string, txnSeq: nat)
      reads this
      ensures Acquire(txnId, txnSeq) <==> Admits(next, txnId, txnSeq)
    {
      if txnSeq == 0 then true
      else
        var expected := if txnId in next then next[txnId] else 0;
        txnSeq == if expected == 0 then 1 else expected
    }

    method Release(txnId: string, txnSeq: nat)
      modifies this
      ensures next == Released(old(next), txnId, txnSeq)
    {
      if txnSeq == 0 {
        return;
      }
      if txnSeq >= if txnId in next then next[txnId] else 0 {
        next := next[txnId := txnSeq + 1];
      }
    }

    method Reset()
      modifies this
      ensures forall txnId, txnSeq :: Acquire(txnId, txnSeq) <==> txnSeq <= 1
    {
      next := map[];
    }
  }

  class Dedup {
    const hash: string -> nat
    var seen: set<nat>

    constructor (hash: string -> nat)
      ensures seen == {} && this.hash == hash
    {
      this.hash := hash;
      seen := {};
    }

    predicate Seen(deliveryKey: string)
      reads this
    {
      hash(deliveryKey) in seen
    }

    method Mark(deliveryKey: string)
      modifies this
      ensures seen == old(seen) + {hash(deliveryKey)}
    {
      seen := seen + {hash(deliveryKey)};
    }

    function Size(): nat
      reads this
    {
      |seen|
    }
  }

  /** Any target: its n-th answer is the n-th value of `accepts`. */
  class Sink {
    const accepts: nat -> bool
    var calls: nat

    constructor (accepts: nat -> bool)
      ensures calls == 0 && this.accepts == accepts
    {
      this.accepts := accepts;
      calls := 0;
    }

    method Write(event: ChangeEvent) returns (ok: bool)
      modifies this
      ensures ok == accepts(old(calls)) && calls == old(calls) + 1
    {
      ok := accepts(calls);
      calls := calls + 1;
    }
  }

  class Dispatcher {
    const sink: Sink
    const dedup: Dedup
    const order: OrderTracker
    const splitter: Option<TxnSplitter>
    const maxAttempts: int
    const rollback: Offset.Store?
    var status: map<nat, DeliveryStatus>
    var delivered: nat
    var pending: seq<Group>
    ghost var log: seq<Action>

    ghost predicate Valid() {
      splitter.Some? ==> splitter.value.Valid()
    }

    ghost function Cfg(): Config {
      Config(maxAttempts, match splitter case None => None case Some(s) => Some(s.maxGroup))
    }

    ghost function EnvOf(cancelled: nat -> bool): Env {
      Env(dedup.hash, sink.accepts, cancelled)
    }

    ghost function Now(): Progress
      reads this, sink, dedup, order
    {
      Progress(dedup.seen, order.next, status, delivered, sink.calls, log)
    }

    ghost function State(): DState
      reads this, sink, dedup, order
    {
      DState(Now(), pending)
    }

    constructor (sink: Sink, hash: string -> nat, maxAttempts: int, splitter: Option<TxnSplitter>,
                 rollback: Offset.Store?)
      requires splitter.Some? ==> splitter.value.Valid()
      requires sink.calls == 0
      ensures Valid() && fresh(dedup) && fresh(order)
      ensures this.sink == sink && this.rollback == rollback && this.splitter == splitter
      ensures this.maxAttempts == maxAttempts && dedup.hash == hash
      ensures State() == DState(INITIAL, [])
    {
      this.sink := sink;
      this.dedup := new Dedup(hash);
      this.order := new OrderTracker();
      this.splitter := splitter;
      this.maxAttempts := maxAttempts;
      this.rollback := rollback;
      status, delivered, pending, log := map[], 0, [], [];
    }

    method DeliverGroup(ghost env: Env, group: Group) returns (acked: nat, ok: bool)
      requires env.hash == dedup.hash && env.accepts == sink.accepts
      modifies this`status, this`delivered, this`log, sink, dedup, order
      ensures GroupResult(Now(), acked, ok) == Delivery.DeliverGroup(env, old(Now()), group)
    {
      acked := 0;
      for i := 0 to |group.events|
        invariant DeliverSuffix(env, Now(), group, group.events[i..], acked) ==
                  Delivery.DeliverGroup(env, old(Now()), group)
      {
        var ev := group.events[i];
        assert group.events[i..][0] == ev && group.events[i..][1..] == group.events[i + 1..];
        var key := TableKey(ev);
        if dedup.Seen(key) {
          log := log + [Suppressed(ev)];
          continue;
        }
        var written := sink.Write(ev);
        if !written {
          status := status[ev.seqNo := Retrying];
          log := log + [Failed(ev)];
          if group.txnId != "" && ev.txnSeq > 0 {
            order.Release(group.txnId, ev.txnSeq - 1);
          }
          return acked, false;
        }
        dedup.Mark(key);
        status := status[ev.seqNo := Acked];
        delivered := delivered + 1;
        log := log + [Wrote(ev)];
        acked := ev.sourcePos;
      }
      if group.txnId != "" && group.last > 0 {
        order.Release(group.txnId, group.last);
      }
      ok := true;
    }

    /** One pass over the pending groups: the inner loop of `drainPending`. */
    method RunPass(ghost env: Env) returns (next: seq<Group>, acked: nat, failed: Option<Group>)
      requires env.hash == dedup.hash && env.accepts == sink.accepts
      modifies this`status, this`delivered, this`log, sink, dedup, order
      ensures PassResult(Now(), next, acked, failed) == Pass(env, old(Now()), pending)
    {
      next, acked, failed := [], 0, None;
      for i := 0 to |pending|
        invariant Completes(Pass(env, old(Now()), pending), Pass(env, Now(), pending[i..]), next, acked, failed)
      {
        var group := pending[i];
        CompletesOneMore(env, Pass(env, old(Now()), pending), Now(), pending, i, next, acked, failed);
        if group.txnId != "" && !order.Acquire(group.txnId, group.first) {
          next := next + [group];
          continue;
        }
        var pos, ok := DeliverGroup(env, group);
        if !ok {
          if failed.None? {
            failed := Some(group);
          }
          next := next + [group];
          continue;
        }
        if pos > acked {
          acked := pos;
        }
      }
    }

    method DrainPending(cancelled: nat -> bool) returns (acked: nat, verdict: Verdict)
      modifies this`status, this`delivered, this`log, this`pending, sink, dedup, order, rollback
      ensures var r := Drain(EnvOf(cancelled), old(Now()), old(pending), 1, maxAttempts);
              && Now() == r.p && pending == r.pending && acked == r.acked && verdict == r.verdict
              && (rollback != null ==>
                    rollback.State() == match r.rollback
                                        case None => old(rollback.State())
                                        case Some(pos) => Offset.RolledBack(old(rollback.State()), pos))
    {
      ghost var env := EnvOf(cancelled);
      acked := 0;
      var attempt := 1;
      while attempt <= maxAttempts
        invariant attempt == 1 ==> acked == 0
        invariant attempt > 1 ==> attempt <= maxAttempts
        invariant rollback != null ==> rollback.State() == old(rollback.State())
        invariant
          var whole := Drain(env, old(Now()), old(pending), 1, maxAttempts);
          var rest := Drain(env, Now(), pending, attempt, maxAttempts);
          whole == rest.(waits := whole.waits)
        decreases maxAttempts - attempt
      {
        var next, failed;
        next, acked, failed := RunPass(env);
        pending := next;
        if failed.None? {
          return acked, Delivered;
        }
        if attempt >= maxAttempts {
          if rollback != null {
            rollback.Rollback(failed.value.first);
          }
          return acked, SinkError;
        }
        if cancelled(sink.calls) {
          return acked, Cancelled;
        }
        attempt := attempt + 1;
      }
      verdict := Delivered;
    }

    /** Replaces the pending list by one pending group per chunk. */
    method Enqueue(groups: seq<seq<ChangeEvent>>)
      requires forall i | 0 <= i < |groups| :: groups[i] != []
      modifies this`pending
      ensures pending == ToGroups(groups)
    {
      pending := [];
      for i := 0 to |groups|
        invariant |pending| == i && forall k | 0 <= k < i :: pending[k] == ToGroup(groups[k])
      {
        var group := groups[i];
        pending := pending + [Group(group, group[0].txnId, group[0].txnSeq, group[|group| - 1].txnSeq)];
      }
    }

    method DeliverEvents(cancelled: nat -> bool, events: seq<ChangeEvent>) returns (acked: nat, verdict: Verdict)
      requires Valid()
      modifies this`status, this`delivered, this`log, this`pending, sink, dedup, order, rollback
      ensures var r := Delivery.DeliverEvents(EnvOf(cancelled), Cfg(), old(State()), events);
              && State() == r.d && acked == r.acked && verdict == r.verdict
              && (rollback != null ==>
                    rollback.State() == match r.rollback
                                        case None => old(rollback.State())
                                        case Some(pos) => Offset.RolledBack(old(rollback.State()), pos))
    {
      if |events| == 0 {
        return 0, Delivered;
      }
      var groups: seq<seq<ChangeEvent>> := [events];
      if splitter.Some? {
        groups := splitter.value.Split(events);
        ChunksRoundTrip(events, splitter.value.maxGroup);
      }
      Enqueue(groups);
      acked, verdict := DrainPending(cancelled);
    }

    method Deliver(cancelled: nat -> bool, batch: Batch) returns (acked: nat, verdict: Verdict)
      requires Valid()
      modifies this`status, this`delivered, this`log, this`pending, sink, dedup, order, rollback
      ensures var r := Delivery.DeliverEvents(EnvOf(cancelled), Cfg(), old(State()), batch.events);
              && State() == r.d && verdict == r.verdict
              && acked == (if r.verdict == Delivered then r.acked else batch.maxPos)
              && (rollback != null ==>
                    rollback.State() == match r.rollback
                                        case None => old(rollback.State())
                                        case Some(pos) => Offset.RolledBack(old(rollback.State()), pos))
    {
      acked, verdict := DeliverEvents(cancelled, batch.events);
      if verdict != Delivered {
        acked := batch.maxPos;
      }
    }

    method DeliverPlanned(cancelled: nat -> bool, batches: seq<TableBatch>) returns (acked: nat, verdict: Verdict)
      requires Valid()
      modifies this`status, this`delivered, this`log, this`pending, sink, dedup, order, rollback
      ensures var r := DeliverPlan(EnvOf(cancelled), Cfg(), old(State()),
                                   seq(|batches|, i requires 0 <= i < |batches| => batches[i].events));
              && State() == r.d && acked == r.acked && verdict == r.verdict
              && (rollback != null ==>
                    rollback.State() == match r.rollback
                                        case None => old(rollback.State())
                                        case Some(pos) => Offset.RolledBack(old(rollback.State()), pos))
    {
      ghost var plan := seq(|batches|, i requires 0 <= i < |batches| => batches[i].events);
      acked := 0;
      for i := 0 to |batches|
        invariant
          var whole := DeliverPlan(EnvOf(cancelled), Cfg(), old(State()), plan);
          var rest := DeliverPlan(EnvOf(cancelled), Cfg(), State(), plan[i..]);
          && whole.d == rest.d && whole.verdict == rest.verdict && whole.rollback == rest.rollback
          && whole.acked == Max(acked, rest.acked)
        invariant rollback != null ==> rollback.State() == old(rollback.State())
      {
        assert plan[i..][0] == batches[i].events && plan[i..][1..] == plan[i + 1..];
        var pos, v := DeliverEvents(cancelled, batches[i].events);
        if v != Delivered {
          return acked, v;
        }
        if pos > acked {
          acked := pos;
        }
      }
      verdict := Delivered;
    }

    /** The backlog shown by the monitor: the events of the pending groups. */
    method PendingCount() returns (count: nat)
      ensures count == EventCount(pending)
    {
      count := 0;
      for i := 0 to |pending|
        invariant count + EventCount(pending[i..]) == EventCount(pending)
      {
        assert pending[i..][1..] == pending[i + 1..];
        count := count + |pending[i].events|;
      }
    }
  }
}
