/** The delivery protocol as functions of a state and of the oracles that stand
    for the sink's answers and for context cancellation. */
module Delivery {
  import opened Model
  import opened Txn

  datatype DeliveryStatus = InFlight | Acked | Retrying

  datatype Group = Group(events: seq<ChangeEvent>, txnId: string, first: nat, last: nat)

  /** What `deliverGroup` did with one event. */
  datatype Action = Wrote(event: ChangeEvent) | Failed(event: ChangeEvent) | Suppressed(event: ChangeEvent)

  /** The sink's answer and the context's state are asked at the number of write
      attempts made so far; quantifying over both functions covers every pattern
      of failures and cancellations. `hash` stands for xxhash and is arbitrary. */
  datatype Env = Env(hash: string -> nat, accepts: nat -> bool, cancelled: nat -> bool) {
    function KeyOf(e: ChangeEvent): nat { hash(TableKey(e)) }
  }

  /** The dispatcher's persistent state. `calls` counts the write attempts and
      `log` is the history of all actions; the code keeps neither. */
  datatype Progress = Progress(
    seen: set<nat>,
    next: map<string, nat>,
    status: map<nat, DeliveryStatus>,
    delivered: nat,
    calls: nat,
    log: seq<Action>)

  const INITIAL := Progress({}, map[], map[], 0, 0, [])

  // ----- Order tracker -----

  function Entry(next: map<string, nat>, txnId: string): nat {
    if txnId in next then next[txnId] else 0
  }

  /** The next admissible sequence, 1 for an unknown transaction. */
  function Expected(next: map<string, nat>, txnId: string): nat {
    if Entry(next, txnId) == 0 then 1 else Entry(next, txnId)
  }

  predicate Admits(next: map<string, nat>, txnId: string, txnSeq: nat) {
    txnSeq == 0 || txnSeq == Expected(next, txnId)
  }

  function Released(next: map<string, nat>, txnId: string, txnSeq: nat): map<string, nat> {
    if txnSeq != 0 && txnSeq >= Entry(next, txnId) then next[txnId := txnSeq + 1] else next
  }

  // ----- One event -----

  function Suppress(p: Progress, ev: ChangeEvent): Progress {
    p.(log := p.log + [Suppressed(ev)])
  }

  function Accept(env: Env, p: Progress, ev: ChangeEvent): Progress {
    p.(seen := p.seen + {env.KeyOf(ev)},
       status := p.status[ev.seqNo := Acked],
       delivered := p.delivered + 1,
       calls := p.calls + 1,
       log := p.log + [Wrote(ev)])
  }

  function Reject(p: Progress, ev: ChangeEvent): Progress {
    p.(status := p.status[ev.seqNo := Retrying], calls := p.calls + 1, log := p.log + [Failed(ev)])
  }

  function Release(p: Progress, txnId: string, txnSeq: nat): Progress {
    p.(next := Released(p.next, txnId, txnSeq))
  }

  // ----- One group -----

  datatype GroupResult = GroupResult(p: Progress, acked: nat, ok: bool)

  /** `deliverGroup` from the suffix `evs` of the group on. */
  function DeliverSuffix(env: Env, p: Progress, g: Group, evs: seq<ChangeEvent>, acked: nat): GroupResult
    decreases |evs|
  {
    if evs == [] then
      GroupResult(if g.txnId != "" && g.last > 0 then Release(p, g.txnId, g.last) else p, acked, true)
    else
      var ev := evs[0];
      if env.KeyOf(ev) in p.seen then
        DeliverSuffix(env, Suppress(p, ev), g, evs[1..], acked)
      else if env.accepts(p.calls) then
        DeliverSuffix(env, Accept(env, p, ev), g, evs[1..], ev.sourcePos)
      else
        var q := Reject(p, ev);
        GroupResult(if g.txnId != "" && ev.txnSeq > 0 then Release(q, g.txnId, ev.txnSeq - 1) else q, acked, false)
  }

  function DeliverGroup(env: Env, p: Progress, g: Group): GroupResult {
    DeliverSuffix(env, p, g, g.events, 0)
  }

  // ----- One pass over the pending groups -----

  datatype PassResult = PassResult(p: Progress, next: seq<Group>, acked: nat, failed: Option<Group>)

  predicate Held(p: Progress, g: Group) {
    g.txnId != "" && !Admits(p.next, g.txnId, g.first)
  }

  function Pass(env: Env, p: Progress, pending: seq<Group>): PassResult
    decreases |pending|
  {
    if pending == [] then PassResult(p, [], 0, None)
    else
      var g := pending[0];
      if Held(p, g) then
        var r := Pass(env, p, pending[1..]);
        r.(next := [g] + r.next)
      else
        var d := DeliverGroup(env, p, g);
        var r := Pass(env, d.p, pending[1..]);
        if d.ok then r.(acked := Max(d.acked, r.acked))
        else r.(next := [g] + r.next, failed := Some(g))
  }

  /** `whole` is what the finished part of a pass and its `rest` add up to. */
  ghost predicate Completes(whole: PassResult, rest: PassResult, next: seq<Group>, acked: nat, failed: Option<Group>) {
    && whole.p == rest.p
    && whole.next == next + rest.next
    && whole.acked == Max(acked, rest.acked)
    && whole.failed == if failed.Some? then failed else rest.failed
  }

  lemma CompletesOneMore(env: Env, whole: PassResult, p: Progress, pending: seq<Group>, i: nat, next: seq<Group>,
                         acked: nat, failed: Option<Group>)
    requires i < |pending| && Completes(whole, Pass(env, p, pending[i..]), next, acked, failed)
    ensures var g, d := pending[i], DeliverGroup(env, p, pending[i]);
            if Held(p, g) then Completes(whole, Pass(env, p, pending[i + 1..]), next + [g], acked, failed)
            else if d.ok then Completes(whole, Pass(env, d.p, pending[i + 1..]), next, Max(acked, d.acked), failed)
            else Completes(whole, Pass(env, d.p, pending[i + 1..]), next + [g], acked,
                           if failed.Some? then failed else Some(g))
  {
    assert pending[i..][0] == pending[i] && pending[i..][1..] == pending[i + 1..];
  }

  // ----- The retry loop -----

  datatype Verdict = Delivered | SinkError | Cancelled

  /** `rollback` is the argument of the rollback callback, if it is called;
      `waits` the number of backoff delays slept. */
  datatype DrainResult = DrainResult(
    p: Progress, pending: seq<Group>, acked: nat, verdict: Verdict, rollback: Option<nat>, waits: nat)

  function Drain(env: Env, p: Progress, pending: seq<Group>, attempt: int, maxAttempts: int): (r: DrainResult)
    ensures r.rollback.Some? <==> r.verdict == SinkError
    decreases maxAttempts - attempt + 1
  {
    if attempt > maxAttempts then DrainResult(p, pending, 0, Delivered, None, 0)
    else
      var s := Pass(env, p, pending);
      if s.failed.None? then DrainResult(s.p, s.next, s.acked, Delivered, None, 0)
      else if attempt >= maxAttempts then
        DrainResult(s.p, s.next, s.acked, SinkError, Some(s.failed.value.first), 0)
      else if env.cancelled(s.p.calls) then DrainResult(s.p, s.next, s.acked, Cancelled, None, 0)
      else
        var d := Drain(env, s.p, s.next, attempt + 1, maxAttempts);
        d.(waits := d.waits + 1)
  }

  // ----- Batches -----

  /** The retry budget and the splitter's group size, if a splitter is installed. */
  datatype Config = Config(maxAttempts: int, groupSize: Option<nat>) {
    predicate Valid() { groupSize.Some? ==> groupSize.value > 0 }
  }

  datatype DState = DState(p: Progress, pending: seq<Group>)

  datatype DeliverResult = DeliverResult(d: DState, acked: nat, verdict: Verdict, rollback: Option<nat>, waits: nat)

  function ToGroup(events: seq<ChangeEvent>): Group
    requires events != []
  {
    Group(events, events[0].txnId, events[0].txnSeq, events[|events| - 1].txnSeq)
  }

  function ToGroups(chunks: seq<seq<ChangeEvent>>): (groups: seq<Group>)
    requires forall i | 0 <= i < |chunks| :: chunks[i] != []
    ensures |groups| == |chunks|
    ensures forall i | 0 <= i < |chunks| :: groups[i] == ToGroup(chunks[i])
  {
    if chunks == [] then [] else [ToGroup(chunks[0])] + ToGroups(chunks[1..])
  }

  function Groups(cfg: Config, events: seq<ChangeEvent>): seq<Group>
    requires cfg.Valid() && events != []
  {
    if cfg.groupSize.None? then ToGroups([events])
    else
      ChunksRoundTrip(events, cfg.groupSize.value);
      ToGroups(Chunks(events, cfg.groupSize.value))
  }

  function DeliverEvents(env: Env, cfg: Config, d: DState, events: seq<ChangeEvent>): (r: DeliverResult)
    requires cfg.Valid()
    ensures r.rollback.Some? <==> r.verdict == SinkError
  {
    if events == [] then DeliverResult(d, 0, Delivered, None, 0)
    else
      var s := Drain(env, d.p, Groups(cfg, events), 1, cfg.maxAttempts);
      DeliverResult(DState(s.p, s.pending), s.acked, s.verdict, s.rollback, s.waits)
  }

  /** `DeliverPlanned`: the table batches in the given order until one fails. */
  function DeliverPlan(env: Env, cfg: Config, d: DState, batches: seq<seq<ChangeEvent>>): (r: DeliverResult)
    requires cfg.Valid()
    ensures r.rollback.Some? <==> r.verdict == SinkError
    decreases |batches|
  {
    if batches == [] then DeliverResult(d, 0, Delivered, None, 0)
    else
      var s := DeliverEvents(env, cfg, d, batches[0]);
      if s.verdict != Delivered then s.(acked := 0)
      else
        var rest := DeliverPlan(env, cfg, s.d, batches[1..]);
        rest.(acked := Max(s.acked, rest.acked))
  }

  function EventCount(groups: seq<Group>): nat {
    if groups == [] then 0 else |groups[0].events| + EventCount(groups[1..])
  }

  // ----- Runs -----

  datatype Call = Batched(events: seq<ChangeEvent>) | Planned(batches: seq<seq<ChangeEvent>>)

  function CallResult(env: Env, cfg: Config, d: DState, c: Call): DeliverResult
    requires cfg.Valid()
  {
    match c
    case Batched(events) => DeliverEvents(env, cfg, d, events)
    case Planned(batches) => DeliverPlan(env, cfg, d, batches)
  }

  /** The state after any sequence of calls on a new dispatcher. */
  function Run(env: Env, cfg: Config, calls: seq<Call>): DState
    requires cfg.Valid()
  {
    if calls == [] then DState(INITIAL, [])
    else CallResult(env, cfg, Run(env, cfg, calls[..|calls| - 1]), calls[|calls| - 1]).d
  }
}
