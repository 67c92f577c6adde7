/** The whole pipeline as a step system, every locked method one atomic move, and
    the claim that the committed offset never passes undelivered entries. */
module Pipeline {
  import opened Model
  import opened Txn
  import opened Delivery
  import opened Invariants
  import opened Conservation
  import opened Source
  import Offset

  /** Where the runner's loop stands between two atomic moves. */
  datatype Stage =
    | Idle
    | Fetched(entries: seq<LogEntry>)
    | Prepared(events: seq<ChangeEvent>)
    | Acknowledged(acked: nat, maxPos: nat)
    | Advanced(maxPos: nat)

  datatype Sys = Sys(log: LogState, pos: nat, offs: Offset.Offsets, last: nat, d: DState, stage: Stage)

  /** `Prepare` is parsing and mapping, an order-preserving one-to-one step that may
      fail; `NoteLast` the second half of a checkpoint write. */
  datatype Move =
    | Append(entries: seq<LogEntry>)
    | Fetch(limit: nat)
    | PrepareFails
    | Prepare(events: seq<ChangeEvent>)
    | Deliver
    | Advance
    | Record
    | Persist
    | NoteLast
    | Restart

  /** After the full phase with watermark `w`: `RunFull` on a new store. */
  function Start(log: LogState, w: nat): Sys {
    var offs := Offset.Advanced(Offset.Recorded(Offset.Fresh(0), w), w).(phase := Offset.PhaseIncremental);
    Sys(log, w, offs, 0, DState(INITIAL, []), Idle)
  }

  ghost predicate Enabled(s: Sys, m: Move) {
    match m
    case Fetch(_) => s.stage.Idle?
    case PrepareFails => s.stage.Fetched?
    case Prepare(events) => s.stage.Fetched? && OneToOne(s.stage.entries, events)
    case Deliver => s.stage.Prepared?
    case Advance => s.stage.Acknowledged?
    case Record => s.stage.Advanced?
    case _ => true
  }

  /** One move; a move that is not enabled does nothing. */
  ghost function Next(env: Env, cfg: Config, s: Sys, m: Move): Sys
    requires cfg.Valid()
  {
    if !Enabled(s, m) then s
    else
      match m
      case Append(es) => s.(log := Appended(s.log, es))
      case Fetch(limit) =>
        (match ReadSpec(s.log.entries, s.pos, limit)
         case Err(_) => s
         case Ok(r) => s.(stage := Fetched(r.entries)))
      case PrepareFails => s.(stage := Idle)
      case Prepare(events) => s.(stage := Prepared(events))
      case Deliver => Delivering(env, cfg, s, s.stage.events)
      case Advance => s.(offs := Offset.Advanced(s.offs, s.stage.acked), stage := Advanced(s.stage.maxPos))
      case Record => s.(offs := Offset.Recorded(s.offs, s.stage.maxPos), pos := s.stage.maxPos, stage := Idle)
      case Persist => s.(offs := Offset.Persisted(s.offs))
      case NoteLast => s.(last := s.offs.committed)
      case Restart => s.(offs := Offset.Restored(s.offs))
  }

  /** A failed delivery rolls back, and the loop goes on from the replay position. */
  function Delivering(env: Env, cfg: Config, s: Sys, events: seq<ChangeEvent>): Sys
    requires cfg.Valid()
  {
    var r := DeliverEvents(env, cfg, s.d, events);
    if r.verdict == Delivered then s.(d := r.d, stage := Acknowledged(r.acked, MaxPos(events)))
    else
      var offs := if r.rollback.Some? then Offset.RolledBack(s.offs, r.rollback.value) else s.offs;
      s.(d := r.d, offs := offs, pos := offs.replayFrom, stage := Idle)
  }

  ghost function Moves(env: Env, cfg: Config, s: Sys, ms: seq<Move>): Sys
    requires cfg.Valid()
  {
    if ms == [] then s else Next(env, cfg, Moves(env, cfg, s, ms[..|ms| - 1]), ms[|ms| - 1])
  }

  // ----- Safety -----

  ghost predicate HandledAt(log: seq<Action>, pos: nat) {
    exists k :: 0 <= k < |log| && !log[k].Failed? && log[k].event.sourcePos == pos
  }

  /** Every entry above the watermark up to `to` has been handled. */
  ghost predicate Covered(entries: seq<LogEntry>, w: nat, to: nat, log: seq<Action>) {
    forall e | e in entries && w < e.seqNo <= to :: HandledAt(log, e.seqNo)
  }

  ghost predicate Safe(s: Sys, w: nat) {
    Covered(s.log.entries, w, Max(s.offs.committed, s.pos), s.d.p.log)
  }

  /** No entry belongs to a transaction, and none carries a sequence above `carried`. */
  ghost predicate UntaggedLog(entries: seq<LogEntry>, carried: nat) {
    forall e | e in entries :: e.txnId == "" && e.txnSeq <= carried
  }

  /** The events stand for all entries after `pos` up to their highest position. */
  ghost predicate Spans(entries: seq<LogEntry>, pos: nat, events: seq<ChangeEvent>) {
    forall e | e in entries && pos < e.seqNo <= MaxPos(events) :: exists ev :: ev in events && ev.sourcePos == e.seqNo
  }

  ghost predicate FetchedOk(log: LogState, pos: nat, es: seq<LogEntry>) {
    && es != [] && (forall e | e in es :: e in log.entries && pos < e.seqNo <= es[|es| - 1].seqNo)
    && (forall e | e in log.entries && pos < e.seqNo <= es[|es| - 1].seqNo :: e in es)
  }

  ghost predicate StageOk(s: Sys, w: nat) {
    match s.stage
    case Idle => true
    case Fetched(es) => FetchedOk(s.log, s.pos, es)
    case Prepared(events) => events != [] && MaxPos(events) <= s.log.pos && Spans(s.log.entries, s.pos, events)
    case Acknowledged(acked, maxPos) => acked <= maxPos <= s.log.pos && Covered(s.log.entries, w, maxPos, s.d.p.log)
    case Advanced(maxPos) => maxPos <= s.log.pos && Covered(s.log.entries, w, maxPos, s.d.p.log)
  }

  /** What every move keeps, a delivery as long as it passes nothing unhandled. */
  ghost predicate Inv(s: Sys, w: nat) {
    && LogValid(s.log) && w <= s.log.pos && s.pos <= s.log.pos && s.offs.replayFrom <= s.log.pos
    && s.offs.persisted <= s.offs.committed <= s.log.pos
    && Covered(s.log.entries, w, s.pos, s.d.p.log) && Covered(s.log.entries, w, s.offs.committed, s.d.p.log)
    && Covered(s.log.entries, w, s.offs.replayFrom, s.d.p.log)
    && StageOk(s, w)
  }

  ghost predicate UntaggedBatch(events: seq<ChangeEvent>, carried: nat) {
    UntaggedEvents(events) && forall ev | ev in events :: ev.txnSeq <= carried
  }

  ghost predicate UntaggedInv(s: Sys, w: nat) {
    && Inv(s, w) && UntaggedLog(s.log.entries, w) && s.offs.replayFrom <= w
    && (s.stage.Prepared? ==> UntaggedBatch(s.stage.events, w))
  }

  lemma {:induction false} AppendKeeps(s: Sys, w: nat, es: seq<LogEntry>)
    requires Inv(s, w) && FreshFor(s.log, es)
    ensures Inv(s.(log := Appended(s.log, es)), w)
  {
    var after := Appended(s.log, es);
    AppendAscendingIff(s.log, es);
    AppendedExtends(s.log, es);
    forall e | e in after.entries && e.seqNo <= s.log.pos
      ensures e in s.log.entries
    {
      OldPositionsAreOld(s.log, es, e);
    }
    if s.stage.Fetched? {
      var last := s.stage.entries[|s.stage.entries| - 1];
      assert last in s.stage.entries;
      LogBound(s.log, last);
    }
  }

  lemma {:induction false} AppendedUntagged(s: LogState, es: seq<LogEntry>, carried: nat)
    requires UntaggedLog(s.entries, carried) && UntaggedLog(es, carried)
    ensures UntaggedLog(Appended(s, es).entries, carried)
  {
    if es == [] {
    } else {
      assert es[|es| - 1] in es;
      AppendedUntagged(s, es[..|es| - 1], carried);
    }
  }

  lemma {:induction false} OldPositionsAreOld(s: LogState, es: seq<LogEntry>, e: LogEntry)
    requires LogValid(s) && FreshFor(s, es) && e in Appended(s, es).entries && e.seqNo <= s.pos
    ensures e in s.entries
  {
    AppendAscendingIff(s, es);
    AppendedExtends(s, es);
    var entries := Appended(s, es).entries;
    assert entries[..|s.entries|] == s.entries;
    var i :| 0 <= i < |entries| && entries[i] == e;
    if i >= |s.entries| {
      NewPositionsAreHigher(s, entries, i);
      assert false;
    }
  }

  lemma {:induction false} FetchKeeps(log: LogState, pos: nat, limit: nat, es: seq<LogEntry>)
    requires LogValid(log) && ReadSpec(log.entries, pos, limit).Ok?
    requires es == ReadSpec(log.entries, pos, limit).value.entries
    ensures FetchedOk(log, pos, es)
  {
    var k := ReadTakesNext(log.entries, pos, limit);
    SliceSpans(log, pos, k, es);
  }

  lemma SliceSpans(log: LogState, pos: nat, k: nat, es: seq<LogEntry>)
    requires Ascending(log.entries) && es != [] && k + |es| <= |log.entries| && es == log.entries[k..k + |es|]
    requires forall i | 0 <= i < |log.entries| :: log.entries[i].seqNo > pos <==> i >= k
    ensures FetchedOk(log, pos, es)
  {
    var entries, n := log.entries, |es|;
    forall e | e in entries && pos < e.seqNo <= es[n - 1].seqNo
      ensures e in es
    {
      var i :| 0 <= i < |entries| && entries[i] == e;
      SliceTakesAll(entries, k, n, i);
    }
    forall e | e in es
      ensures e in entries && pos < e.seqNo <= es[n - 1].seqNo
    {
      var i :| 0 <= i < n && es[i] == e;
      SliceIsBounded(entries, k, n, i);
    }
  }

  lemma SliceTakesAll(entries: seq<LogEntry>, k: nat, n: nat, i: nat)
    requires Ascending(entries) && k <= i < |entries| && 0 < n && k + n <= |entries|
    requires entries[i].seqNo <= entries[k + n - 1].seqNo
    ensures entries[i] in entries[k..k + n]
  {
    assert i > k + n - 1 ==> Precedes(entries, k + n - 1, i);
    assert entries[k..k + n][i - k] == entries[i];
  }

  lemma SliceIsBounded(entries: seq<LogEntry>, k: nat, n: nat, i: nat)
    requires Ascending(entries) && i < n && k + n <= |entries|
    ensures entries[k + i].seqNo <= entries[k + n - 1].seqNo
  {
    assert i < n - 1 ==> Precedes(entries, k + i, k + n - 1);
  }

  lemma {:induction false} PrepareKeeps(s: Sys, w: nat, events: seq<ChangeEvent>)
    requires Inv(s, w) && s.stage.Fetched? && OneToOne(s.stage.entries, events)
    ensures Inv(s.(stage := Prepared(events)), w)
  {
    var es := s.stage.entries;
    var last := es[|es| - 1];
    assert last in es;
    LogBound(s.log, last);
    PreparedMax(es, events);
    PreparedSpan(s.log, s.pos, es, events);
  }

  lemma {:induction false} PreparedSpan(log: LogState, pos: nat, es: seq<LogEntry>, events: seq<ChangeEvent>)
    requires FetchedOk(log, pos, es) && OneToOne(es, events) && MaxPos(events) == es[|es| - 1].seqNo
    ensures Spans(log.entries, pos, events)
  {
    forall e | e in log.entries && pos < e.seqNo <= MaxPos(events)
      ensures exists ev :: ev in events && ev.sourcePos == e.seqNo
    {
      var i :| 0 <= i < |es| && es[i] == e;
      assert events[i] in events;
    }
  }

  lemma {:induction false} PreparedMax(es: seq<LogEntry>, events: seq<ChangeEvent>)
    requires OneToOne(es, events) && es != [] && forall e | e in es :: e.seqNo <= es[|es| - 1].seqNo
    ensures MaxPos(events) == es[|es| - 1].seqNo
  {
    var last := es[|es| - 1];
    forall ev | ev in events
      ensures ev.sourcePos <= last.seqNo
    {
      var i :| 0 <= i < |events| && events[i] == ev;
      assert es[i] in es;
    }
    assert events[|es| - 1] in events;
  }

  lemma {:induction false} PreparedUntagged(entries: seq<LogEntry>, es: seq<LogEntry>, events: seq<ChangeEvent>,
                                            carried: nat)
    requires OneToOne(es, events) && UntaggedLog(entries, carried) && forall e | e in es :: e in entries
    ensures UntaggedBatch(events, carried)
  {
    forall ev | ev in events
      ensures ev.txnId == "" && ev.txnSeq <= carried
    {
      var i :| 0 <= i < |events| && events[i] == ev;
      assert es[i] in es;
    }
  }

  lemma {:induction false} CoveredGrows(entries: seq<LogEntry>, w: nat, to: nat, log: seq<Action>, more: seq<Action>)
    requires Covered(entries, w, to, log) && log <= more
    ensures Covered(entries, w, to, more)
  {
    forall e | e in entries && w < e.seqNo <= to
      ensures HandledAt(more, e.seqNo)
    {
      var k :| 0 <= k < |log| && !log[k].Failed? && log[k].event.sourcePos == e.seqNo;
      assert more[k] == log[k];
    }
  }

  lemma {:induction false} DoneIsHandled(env: Env, p: Progress, q: Progress, events: seq<ChangeEvent>, ev: ChangeEvent)
    requires AllDone(env, p, q, events) && ev in events
    ensures HandledAt(q.log, ev.sourcePos)
  {
    var i :| 0 <= i < |events| && events[i] == ev;
    assert Done(env, p, q, events[i]);
  }

  /** A success that settles all events covers everything up to their last position. */
  lemma {:induction false} SuccessKeeps(env: Env, cfg: Config, s: Sys, w: nat)
    requires cfg.Valid() && Inv(s, w) && s.stage.Prepared?
    requires var r := DeliverEvents(env, cfg, s.d, s.stage.events);
             r.verdict == Delivered && forall ev | ev in s.stage.events :: HandledAt(r.d.p.log, ev.sourcePos)
    ensures Inv(Delivering(env, cfg, s, s.stage.events), w)
  {
    var events := s.stage.events;
    var r := DeliverEvents(env, cfg, s.d, events);
    DispatcherConserves(env, cfg, s.d, events);
    AckedWithinBatch(env, cfg, s.d, events);
    OldStaysCovered(s, w, r.d.p.log);
    forall e | e in s.log.entries && w < e.seqNo <= MaxPos(events)
      ensures HandledAt(r.d.p.log, e.seqNo)
    {
      if e.seqNo > s.pos {
        var ev :| ev in events && ev.sourcePos == e.seqNo;
      }
    }
  }

  lemma {:induction false} OldStaysCovered(s: Sys, w: nat, log: seq<Action>)
    requires Inv(s, w) && s.d.p.log <= log
    ensures Covered(s.log.entries, w, s.pos, log) && Covered(s.log.entries, w, s.offs.committed, log)
    ensures Covered(s.log.entries, w, s.offs.replayFrom, log)
  {
    CoveredGrows(s.log.entries, w, s.pos, s.d.p.log, log);
    CoveredGrows(s.log.entries, w, s.offs.committed, s.d.p.log, log);
    CoveredGrows(s.log.entries, w, s.offs.replayFrom, s.d.p.log, log);
  }

  /** After a failure the runner goes on from the replay position: that must not pass an
      entry nobody handled. */
  lemma {:induction false} FailureKeeps(env: Env, cfg: Config, s: Sys, w: nat)
    requires cfg.Valid() && Inv(s, w) && s.stage.Prepared?
    requires var r := DeliverEvents(env, cfg, s.d, s.stage.events);
             r.verdict != Delivered &&
             (r.rollback.Some? ==> r.rollback.value <= s.log.pos &&
                                   Covered(s.log.entries, w, Max(s.offs.replayFrom, r.rollback.value), r.d.p.log))
    ensures Inv(Delivering(env, cfg, s, s.stage.events), w)
  {
    DispatcherConserves(env, cfg, s.d, s.stage.events);
    OldStaysCovered(s, w, DeliverEvents(env, cfg, s.d, s.stage.events).d.p.log);
  }

  lemma {:induction false} UntaggedDeliverKeeps(env: Env, cfg: Config, s: Sys, w: nat)
    requires cfg.Valid() && cfg.maxAttempts >= 1 && Inv(s, w)
    requires s.stage.Prepared? && UntaggedBatch(s.stage.events, w)
    ensures Inv(Delivering(env, cfg, s, s.stage.events), w)
    ensures Delivering(env, cfg, s, s.stage.events).offs.replayFrom <= Max(s.offs.replayFrom, w)
  {
    var events := s.stage.events;
    var r := DeliverEvents(env, cfg, s.d, events);
    UntaggedSuccessIsComplete(env, cfg, s.d, events);
    if r.verdict == Delivered {
      forall ev | ev in events
        ensures HandledAt(r.d.p.log, ev.sourcePos)
      {
        DoneIsHandled(env, s.d.p, r.d.p, events, ev);
      }
      SuccessKeeps(env, cfg, s, w);
    } else {
      assert r.rollback.Some? ==> r.rollback.value <= w;
      DispatcherConserves(env, cfg, s.d, events);
      OldStaysCovered(s, w, r.d.p.log);
      FailureKeeps(env, cfg, s, w);
    }
  }

  lemma {:induction false} NextKeeps(env: Env, cfg: Config, s: Sys, w: nat, m: Move)
    requires cfg.Valid() && Inv(s, w)
    requires m.Append? ==> FreshFor(s.log, m.entries)
    requires m.Deliver? && s.stage.Prepared? ==> Inv(Delivering(env, cfg, s, s.stage.events), w)
    ensures Inv(Next(env, cfg, s, m), w)
  {
    if Enabled(s, m) {
      match m
      case Append(es) => AppendKeeps(s, w, es);
      case Fetch(limit) =>
        if ReadSpec(s.log.entries, s.pos, limit).Ok? {
          FetchKeeps(s.log, s.pos, limit, ReadSpec(s.log.entries, s.pos, limit).value.entries);
        }
      case Prepare(events) => PrepareKeeps(s, w, events);
      case _ =>
    }
  }

  lemma {:induction false} NextKeepsUntagged(env: Env, cfg: Config, s: Sys, w: nat, m: Move)
    requires cfg.Valid() && cfg.maxAttempts >= 1 && UntaggedInv(s, w)
    requires m.Append? ==> FreshFor(s.log, m.entries) && UntaggedLog(m.entries, w)
    ensures UntaggedInv(Next(env, cfg, s, m), w)
  {
    if m.Deliver? && s.stage.Prepared? {
      UntaggedDeliverKeeps(env, cfg, s, w);
    }
    NextKeeps(env, cfg, s, w, m);
    if m.Append? {
      AppendedUntagged(s.log, m.entries, w);
    } else if m.Prepare? && Enabled(s, m) {
      PreparedUntagged(s.log.entries, s.stage.entries, m.events, w);
    }
  }

  /** Every append of the run is untagged and fresh for the log it meets. */
  ghost predicate GoodRun(env: Env, cfg: Config, s: Sys, ms: seq<Move>, carried: nat)
    requires cfg.Valid()
  {
    ms == [] ||
    var n := |ms| - 1;
    && GoodRun(env, cfg, s, ms[..n], carried)
    && (ms[n].Append? ==> && FreshFor(Moves(env, cfg, s, ms[..n]).log, ms[n].entries)
                          && UntaggedLog(ms[n].entries, carried))
  }

  /** A run over a strictly ascending untagged log, from the watermark `w` on. */
  ghost predicate Admissible(env: Env, cfg: Config, log: LogState, w: nat, carried: nat, ms: seq<Move>)
    requires cfg.Valid()
  {
    LogValid(log) && UntaggedLog(log.entries, carried) && w <= log.pos && GoodRun(env, cfg, Start(log, w), ms, carried)
  }

  lemma {:induction false} MovesKeep(env: Env, cfg: Config, log: LogState, w: nat, carried: nat, ms: seq<Move>)
    requires cfg.Valid() && cfg.maxAttempts >= 1 && carried <= w && Admissible(env, cfg, log, w, carried, ms)
    ensures UntaggedInv(Moves(env, cfg, Start(log, w), ms), w)
  {
    if ms == [] {
    } else {
      var n := |ms| - 1;
      MovesKeep(env, cfg, log, w, carried, ms[..n]);
      NextKeepsUntagged(env, cfg, Moves(env, cfg, Start(log, w), ms[..n]), w, ms[n]);
    }
  }

  /** For untagged streams over an ascending log, none of whose entries carries a
      sequence above the watermark, in every state reached by any interleaving of the
      moves with any sink and any cancellations: every log position above the
      watermark and at or below the committed position or the runner's position has
      been handled. */
  lemma {:induction false} CommittedNeverOutrunsDelivery(env: Env, cfg: Config, log: LogState, w: nat, carried: nat,
                                                         ms: seq<Move>)
    requires cfg.Valid() && cfg.maxAttempts >= 1 && carried <= w && Admissible(env, cfg, log, w, carried, ms)
    ensures Safe(Moves(env, cfg, Start(log, w), ms), w)
  {
    MovesKeep(env, cfg, log, w, carried, ms);
  }

  // ----- When no run loses an entry -----

  /** No admissible run ever reaches an unsafe state. */
  ghost predicate LossFree(cfg: Config, w: nat, carried: nat)
    requires cfg.Valid()
  {
    forall env, log, ms :: Admissible(env, cfg, log, w, carried, ms) ==> Safe(Moves(env, cfg, Start(log, w), ms), w)
  }

  lemma {:induction false} OneMove(env: Env, cfg: Config, s: Sys, ms: seq<Move>, m: Move)
    requires cfg.Valid()
    ensures Moves(env, cfg, s, ms + [m]) == Next(env, cfg, Moves(env, cfg, s, ms), m)
    ensures forall c | GoodRun(env, cfg, s, ms, c) && !m.Append? :: GoodRun(env, cfg, s, ms + [m], c)
  {
    assert (ms + [m])[..|ms|] == ms;
  }

  /** A turn of the loop from an idle runner. */
  function TurnMoves(limit: nat, events: seq<ChangeEvent>): seq<Move> {
    [Fetch(limit), Prepare(events), Deliver, Advance, Record]
  }

  lemma {:induction false} TurnIs(env: Env, cfg: Config, s: Sys, ms: seq<Move>, limit: nat, events: seq<ChangeEvent>)
    requires cfg.Valid()
    ensures Moves(env, cfg, s, ms + TurnMoves(limit, events)) ==
            Next(env, cfg, Next(env, cfg, Next(env, cfg, Next(env, cfg, Next(env, cfg, Moves(env, cfg, s, ms),
              Fetch(limit)), Prepare(events)), Deliver), Advance), Record)
    ensures forall c | GoodRun(env, cfg, s, ms, c) :: GoodRun(env, cfg, s, ms + TurnMoves(limit, events), c)
  {
    var m1 := ms + [Fetch(limit)];
    var m2 := m1 + [Prepare(events)];
    var m3 := m2 + [Deliver];
    var m4 := m3 + [Advance];
    OneMove(env, cfg, s, ms, Fetch(limit));
    OneMove(env, cfg, s, m1, Prepare(events));
    OneMove(env, cfg, s, m2, Deliver);
    OneMove(env, cfg, s, m3, Advance);
    OneMove(env, cfg, s, m4, Record);
    assert m4 + [Record] == ms + TurnMoves(limit, events);
  }

  function AfterTurn(env: Env, cfg: Config, s: Sys): Sys
    requires cfg.Valid() && s.stage.Prepared?
  {
    var r := DeliverEvents(env, cfg, s.d, s.stage.events);
    var m := MaxPos(s.stage.events);
    if r.verdict != Delivered then Delivering(env, cfg, s, s.stage.events)
    else s.(d := r.d, offs := Offset.Recorded(Offset.Advanced(s.offs, r.acked), m), pos := m, stage := Idle)
  }

  lemma AfterTurnIsMoves(env: Env, cfg: Config, s: Sys)
    requires cfg.Valid() && s.stage.Prepared?
    ensures AfterTurn(env, cfg, s) == Next(env, cfg, Next(env, cfg, Next(env, cfg, s, Deliver), Advance), Record)
  {
  }

  /** What the moves of a turn come to, from an idle runner. */
  lemma {:induction false} TurnReaches(env: Env, cfg: Config, s: Sys, limit: nat, events: seq<ChangeEvent>)
    requires cfg.Valid() && s.stage == Idle && ReadSpec(s.log.entries, s.pos, limit).Ok?
    requires OneToOne(ReadSpec(s.log.entries, s.pos, limit).value.entries, events)
    ensures Moves(env, cfg, s, TurnMoves(limit, events)) == AfterTurn(env, cfg, s.(stage := Prepared(events)))
  {
    TurnIs(env, cfg, s, [], limit, events);
    assert [] + TurnMoves(limit, events) == TurnMoves(limit, events);
    AfterTurnIsMoves(env, cfg, s.(stage := Prepared(events)));
  }

  lemma {:induction false} IdleMoves(env: Env, cfg: Config, s: Sys, limit: nat)
    requires cfg.Valid() && s.stage == Idle
    ensures ReadSpec(s.log.entries, s.pos, limit).Err? ==> Moves(env, cfg, s, [Fetch(limit)]) == s
    ensures ReadSpec(s.log.entries, s.pos, limit).Ok? ==> Moves(env, cfg, s, [Fetch(limit), PrepareFails]) == s
  {
    OneMove(env, cfg, s, [], Fetch(limit));
    OneMove(env, cfg, s, [Fetch(limit)], PrepareFails);
    assert [] + [Fetch(limit)] == [Fetch(limit)] && [Fetch(limit)] + [PrepareFails] == [Fetch(limit), PrepareFails];
  }

  /** A log with one entry, just above the watermark, and the event it becomes. */
  function LoneLog(w: nat, txnId: string, txnSeq: nat): LogState {
    LogState([LogEntry(w + 1, "t", OpInsert, map[], txnId, txnSeq)], w + 1)
  }

  function LoneEvent(w: nat, txnId: string, txnSeq: nat): ChangeEvent {
    ChangeEvent(w + 1, "t", OpInsert, [], "", txnId, txnSeq, 1, 0, w + 1)
  }

  lemma OneEventBatch(e: ChangeEvent)
    ensures MaxPos([e]) == e.sourcePos
  {
    assert e in [e];
    MaxPosUnique([e], MaxPos([e]), e.sourcePos);
  }

  /** The lone entry is fetched and prepared. */
  lemma LoneEntryPrepared(env: Env, cfg: Config, w: nat, txnId: string, txnSeq: nat)
    requires cfg.Valid()
    ensures var s, ev := Start(LoneLog(w, txnId, txnSeq), w), LoneEvent(w, txnId, txnSeq);
            Next(env, cfg, Next(env, cfg, s, Fetch(1)), Prepare([ev])) == s.(stage := Prepared([ev]))
    ensures LogValid(LoneLog(w, txnId, txnSeq))
  {
    var log := LoneLog(w, txnId, txnSeq);
    assert log.entries[..0] == [] && After([], w) == [];
    assert After(log.entries, w) == log.entries;
  }

  /** Without an attempt the dispatcher reports success and the runner moves on. */
  lemma {:induction false} NoAttemptLoses(env: Env, cfg: Config, w: nat)
    requires cfg.Valid() && cfg.maxAttempts < 1
    ensures Admissible(env, cfg, LoneLog(w, "", 0), w, 0, TurnMoves(1, [LoneEvent(w, "", 0)]))
    ensures !Safe(Moves(env, cfg, Start(LoneLog(w, "", 0), w), TurnMoves(1, [LoneEvent(w, "", 0)])), w)
  {
    var s, ev := Start(LoneLog(w, "", 0), w), LoneEvent(w, "", 0);
    LoneEntryPrepared(env, cfg, w, "", 0);
    OneEventBatch(ev);
    assert [] + TurnMoves(1, [ev]) == TurnMoves(1, [ev]);
    TurnIs(env, cfg, s, [], 1, [ev]);
    AfterTurnIsMoves(env, cfg, s.(stage := Prepared([ev])));
    NothingDone(env, cfg, s.d, [ev]);
    assert s.log.entries[0] in s.log.entries;
  }

  lemma NothingDone(env: Env, cfg: Config, d: DState, events: seq<ChangeEvent>)
    requires cfg.Valid() && cfg.maxAttempts < 1
    ensures DeliverEvents(env, cfg, d, events).d.p == d.p && DeliverEvents(env, cfg, d, events).verdict == Delivered
  {
  }

  // ----- A sink that refuses everything -----

  function RefusesAll(hash: string -> nat): Env {
    Env(hash, i => false, i => false)
  }

  /** A group of one event, admitted at every attempt, whose key is new. */
  ghost predicate LoneGroup(hash: string -> nat, p: Progress, g: Group) {
    && |g.events| == 1 && hash(TableKey(g.events[0])) !in p.seen
    && (g.txnId == "" || (g.first == 1 && g.events[0].txnSeq == 1 && Expected(p.next, g.txnId) == 1))
  }

  lemma {:induction false} LoneGroupRefused(hash: string -> nat, p: Progress, g: Group, attempt: int, maxAttempts: int)
    requires LoneGroup(hash, p, g) && attempt <= maxAttempts && forall k | 0 <= k < |p.log| :: p.log[k].Failed?
    ensures var r := Drain(RefusesAll(hash), p, [g], attempt, maxAttempts);
            && r.verdict == SinkError && r.rollback == Some(g.first)
            && forall k | 0 <= k < |r.p.log| :: r.p.log[k].Failed?
    decreases maxAttempts - attempt
  {
    var q := Reject(p, g.events[0]);
    assert [g][1..] == [];
    assert Pass(RefusesAll(hash), p, [g]) == PassResult(q, [g], 0, Some(g));
    if attempt == maxAttempts {
    } else {
      LoneGroupRefused(hash, q, g, attempt + 1, maxAttempts);
    }
  }

  /** The lone entry, alone or as a transaction, is refused at every attempt: the
      runner goes on from the sequence its event carries. When that is not below the
      entry's position the entry is skipped for good. */
  lemma {:induction false} RefusedEntryIsSkipped(hash: string -> nat, cfg: Config, w: nat, txnId: string, txnSeq: nat)
    requires cfg.Valid() && cfg.maxAttempts >= 1 && txnSeq > w && (txnId != "" ==> txnSeq == 1)
    ensures var s := Moves(RefusesAll(hash), cfg, Start(LoneLog(w, txnId, txnSeq), w),
                           [Fetch(1), Prepare([LoneEvent(w, txnId, txnSeq)]), Deliver]);
            s.stage == Idle && s.pos == s.offs.replayFrom == txnSeq && !Safe(s, w)
  {
    var env, s, ev := RefusesAll(hash), Start(LoneLog(w, txnId, txnSeq), w), LoneEvent(w, txnId, txnSeq);
    LoneEntryPrepared(env, cfg, w, txnId, txnSeq);
    var g := ToGroup([ev]);
    assert Chunks([ev], 1) == [[ev]];
    assert Groups(cfg, [ev]) == [g];
    LoneGroupRefused(hash, INITIAL, g, 1, cfg.maxAttempts);
    ThreeMoves(env, cfg, s, Fetch(1), Prepare([ev]), Deliver);
    assert s.log.entries[0] in s.log.entries;
  }

  lemma {:induction false} ThreeMoves(env: Env, cfg: Config, s: Sys, a: Move, b: Move, c: Move)
    requires cfg.Valid()
    ensures Moves(env, cfg, s, [a, b, c]) == Next(env, cfg, Next(env, cfg, Next(env, cfg, s, a), b), c)
    ensures !a.Append? && !b.Append? && !c.Append? ==> forall n :: GoodRun(env, cfg, s, [a, b, c], n)
  {
    OneMove(env, cfg, s, [], a);
    OneMove(env, cfg, s, [a], b);
    OneMove(env, cfg, s, [a, b], c);
    assert [] + [a] == [a] && [a] + [b] == [a, b] && [a, b] + [c] == [a, b, c];
  }

  /** The pipeline loses no untagged entry above the watermark, in any run with any
      sink, exactly when the retry policy allows at least one attempt and no entry can
      carry a sequence above the watermark. */
  lemma {:induction false} LossFreeIff(cfg: Config, w: nat, carried: nat)
    requires cfg.Valid()
    ensures LossFree(cfg, w, carried) <==> cfg.maxAttempts >= 1 && carried <= w
  {
    if cfg.maxAttempts < 1 {
      var env := RefusesAll(s => 0);
      NoAttemptLoses(env, cfg, w);
      UntaggedWidens(env, cfg, Start(LoneLog(w, "", 0), w), TurnMoves(1, [LoneEvent(w, "", 0)]), 0, carried);
    } else if carried > w {
      var env, ev := RefusesAll(s => 0), LoneEvent(w, "", carried);
      RefusedEntryIsSkipped(env.hash, cfg, w, "", carried);
      LoneEntryPrepared(env, cfg, w, "", carried);
      ThreeMoves(env, cfg, Start(LoneLog(w, "", carried), w), Fetch(1), Prepare([ev]), Deliver);
      assert Admissible(env, cfg, LoneLog(w, "", carried), w, carried, [Fetch(1), Prepare([ev]), Deliver]);
    } else {
      forall env, log, ms | Admissible(env, cfg, log, w, carried, ms)
        ensures Safe(Moves(env, cfg, Start(log, w), ms), w)
      {
        CommittedNeverOutrunsDelivery(env, cfg, log, w, carried, ms);
      }
    }
  }

  lemma {:induction false} UntaggedWidens(env: Env, cfg: Config, s: Sys, ms: seq<Move>, carried: nat, more: nat)
    requires cfg.Valid() && carried <= more && GoodRun(env, cfg, s, ms, carried)
    ensures GoodRun(env, cfg, s, ms, more)
  {
    if ms == [] {
    } else {
      UntaggedWidens(env, cfg, s, ms[..|ms| - 1], carried, more);
    }
  }

  // ----- Committed and written -----

  /** Among the acceptable events, equal delivery keys mean equal positions. */
  ghost predicate KeysNamePositions(env: Env, ok: ChangeEvent -> bool) {
    forall a, b | ok(a) && ok(b) && env.KeyOf(a) == env.KeyOf(b) :: a.sourcePos == b.sourcePos
  }

  ghost predicate WroteKey(env: Env, log: seq<Action>, key: nat) {
    exists k :: 0 <= k < |log| && log[k].Wrote? && env.KeyOf(log[k].event) == key
  }

  ghost predicate WrittenAt(log: seq<Action>, pos: nat) {
    exists k :: 0 <= k < |log| && log[k].Wrote? && log[k].event.sourcePos == pos
  }

  /** Marked keys were written, and every action is about an acceptable event. */
  ghost predicate Accounts(env: Env, ok: ChangeEvent -> bool, p: Progress) {
    && (forall k | 0 <= k < |p.log| ::
          ok(p.log[k].event) && (!p.log[k].Failed? ==> env.KeyOf(p.log[k].event) in p.seen))
    && (forall key | key in p.seen :: WroteKey(env, p.log, key))
  }

  lemma {:induction false} WroteKeyAppend(env: Env, log: seq<Action>, a: Action)
    ensures forall key | WroteKey(env, log, key) :: WroteKey(env, log + [a], key)
    ensures a.Wrote? ==> WroteKey(env, log + [a], env.KeyOf(a.event))
  {
    assert (log + [a])[|log|] == a;
    forall key | WroteKey(env, log, key)
      ensures WroteKey(env, log + [a], key)
    {
      var k :| 0 <= k < |log| && log[k].Wrote? && env.KeyOf(log[k].event) == key;
      assert (log + [a])[k] == log[k];
    }
  }

  lemma {:induction false} AccountsIsStable(env: Env, ok: ChangeEvent -> bool)
    ensures Stable(env, ok, p => Accounts(env, ok, p))
  {
    forall p, ev | ok(ev) && Accounts(env, ok, p)
      ensures env.KeyOf(ev) in p.seen ==> Accounts(env, ok, Suppress(p, ev))
      ensures env.KeyOf(ev) !in p.seen ==> Accounts(env, ok, Accept(env, p, ev)) && Accounts(env, ok, Reject(p, ev))
    {
      WroteKeyAppend(env, p.log, Suppressed(ev));
      WroteKeyAppend(env, p.log, Failed(ev));
      WroteKeyAppend(env, p.log, Wrote(ev));
    }
  }

  ghost predicate PreparesOnly(ok: ChangeEvent -> bool, ms: seq<Move>) {
    forall i | 0 <= i < |ms| && ms[i].Prepare? :: All(ok, ms[i].events)
  }

  lemma {:induction false} MovesAccount(env: Env, cfg: Config, log: LogState, w: nat, ms: seq<Move>,
                                        ok: ChangeEvent -> bool)
    requires cfg.Valid() && PreparesOnly(ok, ms)
    ensures var s := Moves(env, cfg, Start(log, w), ms);
            Accounts(env, ok, s.d.p) && (s.stage.Prepared? ==> All(ok, s.stage.events))
  {
    if ms == [] {
    } else {
      var n := |ms| - 1;
      MovesAccount(env, cfg, log, w, ms[..n], ok);
      var s := Moves(env, cfg, Start(log, w), ms[..n]);
      if ms[n].Deliver? && s.stage.Prepared? {
        AccountsIsStable(env, ok);
        EventsKeep(env, ok, p => Accounts(env, ok, p), cfg, s.d, s.stage.events);
      }
    }
  }

  /** When delivery keys name positions, as they do for keyless events and for rows
      changed once, every entry up to the committed position was really written. */
  lemma {:induction false} CommittedMeansWritten(env: Env, cfg: Config, log: LogState, w: nat, carried: nat,
                                                 ms: seq<Move>, ok: ChangeEvent -> bool, e: LogEntry)
    requires cfg.Valid() && cfg.maxAttempts >= 1 && carried <= w && Admissible(env, cfg, log, w, carried, ms)
    requires PreparesOnly(ok, ms) && KeysNamePositions(env, ok)
    requires var s := Moves(env, cfg, Start(log, w), ms);
             e in s.log.entries && w < e.seqNo <= Max(s.offs.committed, s.pos)
    ensures WrittenAt(Moves(env, cfg, Start(log, w), ms).d.p.log, e.seqNo)
  {
    var p := Moves(env, cfg, Start(log, w), ms).d.p;
    CommittedNeverOutrunsDelivery(env, cfg, log, w, carried, ms);
    MovesAccount(env, cfg, log, w, ms, ok);
    var k :| 0 <= k < |p.log| && !p.log[k].Failed? && p.log[k].event.sourcePos == e.seqNo;
    assert WroteKey(env, p.log, env.KeyOf(p.log[k].event));
    var j :| 0 <= j < |p.log| && p.log[j].Wrote? && env.KeyOf(p.log[j].event) == env.KeyOf(p.log[k].event);
    assert p.log[j].event.sourcePos == e.seqNo;
  }
}
