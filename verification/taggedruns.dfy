/** Transactions through the runner: when a turn of the loop keeps every passed entry
    handled, for a sink that accepts everything and for every sink. */
module TaggedRuns {
  import opened Model
  import opened Txn
  import opened Delivery
  import opened Invariants
  import opened Conservation
  import opened Source
  import opened Acknowledged
  import opened TxnPrefix
  import opened TxnFailure
  import opened Pipeline
  import Offset

  lemma {:induction false} HandledEventIsHandledAt(log: seq<Action>, n: nat, ev: ChangeEvent)
    requires n <= |log| && ev in HandledEvents(log[n..])
    ensures HandledAt(log, ev.sourcePos)
    decreases |log|
  {
    var part := log[n..];
    if part == [] {
    } else {
      var m := |log| - 1;
      assert log[m] == part[|part| - 1] && part[..|part| - 1] == log[..m][n..];
      if !log[m].Failed? && log[m].event == ev {
      } else {
        HandledEventIsHandledAt(log[..m], n, ev);
        var k :| 0 <= k < m && !log[..m][k].Failed? && log[..m][k].event.sourcePos == ev.sourcePos;
        assert log[k] == log[..m][k];
      }
    }
  }

  lemma {:induction false} HandledAtIsHandledEvent(log: seq<Action>, n: nat, k: nat)
    requires n <= k < |log| && !log[k].Failed?
    ensures log[k].event in HandledEvents(log[n..])
    decreases |log|
  {
    var m, part := |log| - 1, log[n..];
    assert log[m] == part[|part| - 1] && part[..|part| - 1] == log[..m][n..];
    if k == m {
    } else {
      HandledAtIsHandledEvent(log[..m], n, k);
    }
  }

  // ----- A sink that accepts everything -----

  /** A transaction about to be delivered whose first entry lies above the watermark
      and was not handled yet. */
  ghost predicate AboutToDeliver(s: Sys, w: nat, txn: string) {
    && s.stage.Prepared? && Transaction(s.stage.events, txn) && Safe(s, w)
    && Spans(s.log.entries, s.pos, s.stage.events)
    && var first := s.stage.events[0];
       && w < first.sourcePos && !HandledAt(s.d.p.log, first.sourcePos)
       && (exists e :: e in s.log.entries && e.seqNo == first.sourcePos)
       && forall i | 1 <= i < |s.stage.events| :: s.stage.events[i].sourcePos != first.sourcePos
  }

  lemma {:induction false} FreshTurnIsSafe(env: Env, cfg: Config, s: Sys, w: nat, txn: string)
    requires cfg.Valid() && cfg.maxAttempts >= 1 && (forall i :: env.accepts(i))
    requires AboutToDeliver(s, w, txn) && Expected(s.d.p.next, txn) == 1
    ensures Safe(AfterTurn(env, cfg, s), w)
  {
    var events, t := s.stage.events, AfterTurn(env, cfg, s);
    WholeIffTransactionFresh(env, cfg, s.d, events, txn);
    DispatcherConserves(env, cfg, s.d, events);
    AckedWithinBatch(env, cfg, s.d, events);
    forall e | e in t.log.entries && w < e.seqNo <= Max(t.offs.committed, t.pos)
      ensures HandledAt(t.d.p.log, e.seqNo)
    {
      if e.seqNo <= Max(s.offs.committed, s.pos) {
        CoveredGrows(s.log.entries, w, Max(s.offs.committed, s.pos), s.d.p.log, t.d.p.log);
      } else {
        var ev :| ev in events && ev.sourcePos == e.seqNo;
        HandledEventIsHandledAt(t.d.p.log, |s.d.p.log|, ev);
      }
    }
  }

  lemma {:induction false} ResumedTurnIsUnsafe(env: Env, cfg: Config, s: Sys, w: nat, txn: string)
    requires cfg.Valid() && cfg.maxAttempts >= 1 && (forall i :: env.accepts(i))
    requires AboutToDeliver(s, w, txn) && Expected(s.d.p.next, txn) != 1
    ensures !Safe(AfterTurn(env, cfg, s), w)
  {
    var events := s.stage.events;
    WholeIffTransactionFresh(env, cfg, s.d, events, txn);
    FirstStaysUnhandled(env, cfg, s.d, events, txn);
    assert events[0] in events;
    var e :| e in s.log.entries && e.seqNo == events[0].sourcePos;
    assert e in AfterTurn(env, cfg, s).log.entries && AfterTurn(env, cfg, s).pos == MaxPos(events);
  }

  lemma {:induction false} FirstStaysUnhandled(env: Env, cfg: Config, d: DState, events: seq<ChangeEvent>, txn: string)
    requires cfg.Valid() && Transaction(events, txn) && Expected(d.p.next, txn) != 1
    requires !HandledAt(d.p.log, events[0].sourcePos)
    requires forall i | 1 <= i < |events| :: events[i].sourcePos != events[0].sourcePos
    ensures !HandledAt(DeliverEvents(env, cfg, d, events).d.p.log, events[0].sourcePos)
  {
    var log := DeliverEvents(env, cfg, d, events).d.p.log;
    ResumedTransactionIsHeld(env, cfg, d, events, txn);
    DispatcherConserves(env, cfg, d, events);
    AckedWithinBatch(env, cfg, d, events);
    forall k | |d.p.log| <= k < |log|
      ensures log[k].event.sourcePos != events[0].sourcePos
    {
      OtherPosition(events, log[k].event);
    }
    StillUnhandled(d.p.log, log, events[0].sourcePos);
  }

  lemma OtherPosition(events: seq<ChangeEvent>, ev: ChangeEvent)
    requires events != [] && ev in events && ev != events[0]
    requires forall i | 1 <= i < |events| :: events[i].sourcePos != events[0].sourcePos
    ensures ev.sourcePos != events[0].sourcePos
  {
  }

  lemma StillUnhandled(log: seq<Action>, more: seq<Action>, pos: nat)
    requires log <= more && !HandledAt(log, pos)
    requires forall k | |log| <= k < |more| :: more[k].event.sourcePos != pos
    ensures !HandledAt(more, pos)
  {
    assert forall k | 0 <= k < |log| :: log[k] == more[k];
  }

  /** For tagged streams the claim can fail even with a sink that accepts every
      write: a turn that delivers a batch of one transaction keeps the state safe
      exactly when the order tracker still expects the transaction's start. A batch
      that continues or replays a transaction is skipped, and the runner passes it. */
  lemma {:induction false} TaggedTurnSafeIff(env: Env, cfg: Config, s: Sys, w: nat, txn: string)
    requires cfg.Valid() && cfg.maxAttempts >= 1 && (forall i :: env.accepts(i))
    requires AboutToDeliver(s, w, txn)
    ensures Safe(Next(env, cfg, Next(env, cfg, Next(env, cfg, s, Deliver), Advance), Record), w)
            <==> Expected(s.d.p.next, txn) == 1
  {
    AfterTurnIsMoves(env, cfg, s);
    if Expected(s.d.p.next, txn) == 1 {
      FreshTurnIsSafe(env, cfg, s, w, txn);
    } else {
      ResumedTurnIsUnsafe(env, cfg, s, w, txn);
    }
  }

  const FIRST_HALF := ChangeEvent(1, "t", OpInsert, [], "", "T", 1, 1, 0, 1)
  const SECOND_HALF := ChangeEvent(2, "t", OpInsert, [], "", "T", 1, 1, 0, 2)
  const SPLIT_LOG := LogState([LogEntry(1, "t", OpInsert, map[], "T", 0), LogEntry(2, "t", OpInsert, map[], "T", 0)], 2)

  lemma {:induction false} SplitLogReads()
    ensures ReadSpec(SPLIT_LOG.entries, 0, 1) == Ok(Read([SPLIT_LOG.entries[0]], 1))
    ensures ReadSpec(SPLIT_LOG.entries, 1, 1) == Ok(Read([SPLIT_LOG.entries[1]], 2))
    ensures LogValid(SPLIT_LOG)
  {
    var es := SPLIT_LOG.entries;
    assert es[..1][..0] == [] && es[..1] == [es[0]] && After([], 0) == [] && After([], 1) == [];
    assert After(es[..1], 0) == [es[0]] && After(es[..1], 1) == [];
    assert After(es, 0) == [es[0], es[1]] && After(es, 1) == [es[1]];
    assert [es[0], es[1]][..1] == [es[0]];
  }

  lemma {:induction false} FirstHalfDelivered(env: Env, cfg: Config)
    requires cfg.Valid() && cfg.maxAttempts >= 1 && (forall i :: env.accepts(i))
    ensures var r := DeliverEvents(env, cfg, DState(INITIAL, []), [FIRST_HALF]);
            && r.verdict == Delivered && r.acked <= 1 && Expected(r.d.p.next, "T") == 2
            && HandledAt(r.d.p.log, 1) && !HandledAt(r.d.p.log, 2)
  {
    var d := DState(INITIAL, []);
    var r := DeliverEvents(env, cfg, d, [FIRST_HALF]);
    OneEventBatch(FIRST_HALF);
    WholeIffTransactionFresh(env, cfg, d, [FIRST_HALF], "T");
    var h := TransactionPrefix(env, cfg, d, [FIRST_HALF], "T");
    assert |[FIRST_HALF][..h]| == h;
    AckedWithinBatch(env, cfg, d, [FIRST_HALF]);
    assert FIRST_HALF in [FIRST_HALF];
    HandledEventIsHandledAt(r.d.p.log, 0, FIRST_HALF);
    StillUnhandled([], r.d.p.log, 2);
  }

  lemma {:induction false} FirstTurn(env: Env, cfg: Config)
    requires cfg.Valid() && cfg.maxAttempts >= 1 && (forall i :: env.accepts(i))
    ensures var r := DeliverEvents(env, cfg, DState(INITIAL, []), [FIRST_HALF]);
            var s := Moves(env, cfg, Start(SPLIT_LOG, 0), TurnMoves(1, [FIRST_HALF]));
            && s.log == SPLIT_LOG && s.pos == 1 && s.stage == Idle && s.d == r.d && s.offs.committed <= 1
  {
    SplitLogReads();
    OneEventBatch(FIRST_HALF);
    FirstHalfDelivered(env, cfg);
    var s0 := Start(SPLIT_LOG, 0);
    assert [] + TurnMoves(1, [FIRST_HALF]) == TurnMoves(1, [FIRST_HALF]);
    TurnIs(env, cfg, s0, [], 1, [FIRST_HALF]);
    var s2 := Next(env, cfg, Next(env, cfg, s0, Fetch(1)), Prepare([FIRST_HALF]));
    assert s2 == s0.(stage := Prepared([FIRST_HALF]));
    AfterTurnIsMoves(env, cfg, s2);
  }

  /** After the first half of the transaction: the state in which the second half is
      about to be delivered, with the tracker past the transaction's start. */
  lemma {:induction false} SecondHalfIsHeld(env: Env, cfg: Config)
    requires cfg.Valid() && cfg.maxAttempts >= 1 && (forall i :: env.accepts(i))
    ensures var s := Next(env, cfg, Next(env, cfg, Moves(env, cfg, Start(SPLIT_LOG, 0), TurnMoves(1, [FIRST_HALF])),
                                         Fetch(1)), Prepare([SECOND_HALF]));
            AboutToDeliver(s, 0, "T") && Expected(s.d.p.next, "T") == 2 && s.stage.events == [SECOND_HALF]
  {
    SplitLogReads();
    OneEventBatch(SECOND_HALF);
    FirstTurn(env, cfg);
    FirstHalfDelivered(env, cfg);
    var s := Moves(env, cfg, Start(SPLIT_LOG, 0), TurnMoves(1, [FIRST_HALF]));
    var t := Next(env, cfg, Next(env, cfg, s, Fetch(1)), Prepare([SECOND_HALF]));
    assert t == s.(stage := Prepared([SECOND_HALF]));
    assert SECOND_HALF in [SECOND_HALF];
    assert SPLIT_LOG.entries[1] in t.log.entries;
  }

  /** A transaction read in two batches, every write accepted, no failure at all: the
      runner ends past the second entry without having handled it. */
  lemma {:induction false} SplitTransactionLosesEntry(env: Env, cfg: Config)
    requires cfg.Valid() && cfg.maxAttempts >= 1 && (forall i :: env.accepts(i))
    ensures !Safe(Moves(env, cfg, Start(SPLIT_LOG, 0), TurnMoves(1, [FIRST_HALF]) + TurnMoves(1, [SECOND_HALF])), 0)
    ensures Sequenced([FIRST_HALF.(txnSeq := 0)]) == [FIRST_HALF]
            && Sequenced([SECOND_HALF.(txnSeq := 0)]) == [SECOND_HALF]
  {
    SecondHalfIsHeld(env, cfg);
    var turn := TurnMoves(1, [FIRST_HALF]);
    TurnIs(env, cfg, Start(SPLIT_LOG, 0), turn, 1, [SECOND_HALF]);
    var s := Next(env, cfg, Next(env, cfg, Moves(env, cfg, Start(SPLIT_LOG, 0), turn), Fetch(1)),
      Prepare([SECOND_HALF]));
    TaggedTurnSafeIff(env, cfg, s, 0, "T");
    assert TagAll([FIRST_HALF.(txnSeq := 0)][..0]) == Tagging([], "", 0);
    assert TagAll([SECOND_HALF.(txnSeq := 0)][..0]) == Tagging([], "", 0);
  }

  // ----- A failed transaction and what is read again -----

  /** The runner is going to read the entry at `pos`. */
  ghost predicate WillRead(s: Sys, pos: nat) {
    exists e :: e in After(s.log.entries, s.pos) && e.seqNo == pos
  }

  ghost predicate HasEntry(entries: seq<LogEntry>, pos: nat) {
    exists e :: e in entries && e.seqNo == pos
  }

  ghost predicate Backed(s: Sys, events: seq<ChangeEvent>) {
    forall i | 0 <= i < |events| :: HasEntry(s.log.entries, events[i].sourcePos)
  }

  lemma {:induction false} WillReadIff(s: Sys, pos: nat)
    requires HasEntry(s.log.entries, pos)
    ensures WillRead(s, pos) <==> pos > s.pos
  {
    AfterMembers(s.log.entries, s.pos);
  }

  /** After a failure at event `k`: the larger of the old replay position and the
      transaction sequence that opens the event's group. */
  function RetryFrom(s: Sys, size: nat, k: nat): nat
    requires size > 0
  {
    Max(s.offs.replayFrom, GroupStart(size, k) + 1)
  }

  ghost predicate FreshTransaction(cfg: Config, s: Sys, txn: string)
    requires cfg.Valid()
  {
    && s.stage.Prepared? && Transaction(s.stage.events, txn) && Expected(s.d.p.next, txn) == 1
    && cfg.maxAttempts >= 1
  }

  ghost function TurnCourse(hash: string -> nat, cfg: Config, s: Sys, txn: string): Course
    requires cfg.Valid() && s.stage.Prepared? && s.stage.events != []
  {
    CourseOf(hash, cfg, s.d, s.stage.events, txn)
  }

  /** After a fresh transaction exhausted its retries, the runner goes on from a place
      made of a transaction sequence: the first event not delivered is read again
      exactly when its position lies above that. */
  lemma {:induction false} FailedTransactionIsReread(env: Env, cfg: Config, s: Sys, txn: string, k: nat)
    requires cfg.Valid() && FreshTransaction(cfg, s, txn) && Backed(s, s.stage.events)
    requires FailsAt(env, cfg, s.d, s.stage.events, k)
    ensures var t, events, size := Next(env, cfg, s, Deliver), s.stage.events, SizeOf(cfg, s.stage.events);
            && t.pos == t.offs.replayFrom == RetryFrom(s, size, k)
            && (WillRead(t, events[k].sourcePos) <==> events[k].sourcePos > RetryFrom(s, size, k))
  {
    var t, events := Next(env, cfg, s, Deliver), s.stage.events;
    FailureRollsBack(env, cfg, s, txn, k);
    WillReadIff(t, events[k].sourcePos);
  }

  lemma {:induction false} FailureRollsBack(env: Env, cfg: Config, s: Sys, txn: string, k: nat)
    requires cfg.Valid() && FreshTransaction(cfg, s, txn) && FailsAt(env, cfg, s.d, s.stage.events, k)
    ensures var t := Next(env, cfg, s, Deliver);
            t.log == s.log && t.pos == t.offs.replayFrom == RetryFrom(s, SizeOf(cfg, s.stage.events), k)
  {
    var r := DeliverEvents(env, cfg, s.d, s.stage.events);
    var h := ErrorRollsBack(env, cfg, s.d, s.stage.events, txn, r);
    SameStop(s.stage.events, h, k);
    ErrorGoesOn(env, cfg, s, r);
  }

  lemma ErrorGoesOn(env: Env, cfg: Config, s: Sys, r: DeliverResult)
    requires cfg.Valid() && s.stage.Prepared? && r == DeliverEvents(env, cfg, s.d, s.stage.events)
    requires r.verdict == SinkError
    ensures var t := Next(env, cfg, s, Deliver);
            t.log == s.log && t.pos == t.offs.replayFrom == Max(s.offs.replayFrom, r.rollback.value)
  {
  }

  /** Every failure with this sink is followed by reading its first undelivered event. */
  ghost predicate Rereads(env: Env, cfg: Config, s: Sys)
    requires cfg.Valid() && s.stage.Prepared?
  {
    forall k: nat | FailsAt(env, cfg, s.d, s.stage.events, k) ::
      WillRead(Next(env, cfg, s, Deliver), s.stage.events[k].sourcePos)
  }

  /** Where a failure is possible, the event's position lies above the place the runner
      goes on from. */
  ghost predicate PositionsOutrunSequences(cfg: Config, s: Sys, c: Course)
    requires c.size > 0
  {
    forall k: nat | c.CanFail(cfg.maxAttempts, k) :: c.events[k].sourcePos > RetryFrom(s, c.size, k)
  }

  /** A rollback passes a transaction sequence where a source position is expected. For
      every sink and context the first undelivered event of a failed fresh transaction
      is read again, if and only if every event that a failure can stop at lies above
      the sequence that opens its group and above the old replay position. */
  lemma {:induction false} RereadForEverySinkIff(hash: string -> nat, cfg: Config, s: Sys, txn: string)
    requires cfg.Valid() && FreshTransaction(cfg, s, txn) && Backed(s, s.stage.events)
    ensures (forall accepts: nat -> bool, cancelled: nat -> bool :: Rereads(Env(hash, accepts, cancelled), cfg, s))
            <==> PositionsOutrunSequences(cfg, s, TurnCourse(hash, cfg, s, txn))
  {
    var c := TurnCourse(hash, cfg, s, txn);
    if PositionsOutrunSequences(cfg, s, c) {
      forall accepts: nat -> bool, cancelled: nat -> bool
        ensures Rereads(Env(hash, accepts, cancelled), cfg, s)
      {
        OutrunRereads(Env(hash, accepts, cancelled), cfg, s, txn);
      }
    } else {
      var k: nat :| c.CanFail(cfg.maxAttempts, k) && c.events[k].sourcePos <= RetryFrom(s, c.size, k);
      FailsAtIff(cfg, s.d, c, k);
      var accepts: nat -> bool, cancelled: nat -> bool :| FailsAt(Env(hash, accepts, cancelled), cfg, s.d, c.events, k);
      FailedTransactionIsReread(Env(hash, accepts, cancelled), cfg, s, txn, k);
      assert !Rereads(Env(hash, accepts, cancelled), cfg, s);
    }
  }

  lemma {:induction false} OutrunRereads(env: Env, cfg: Config, s: Sys, txn: string)
    requires cfg.Valid() && FreshTransaction(cfg, s, txn) && Backed(s, s.stage.events)
    requires PositionsOutrunSequences(cfg, s, TurnCourse(env.hash, cfg, s, txn))
    ensures Rereads(env, cfg, s)
  {
    forall k: nat | FailsAt(env, cfg, s.d, s.stage.events, k)
      ensures WillRead(Next(env, cfg, s, Deliver), s.stage.events[k].sourcePos)
    {
      FailsOnlyWhereItCan(env, cfg, s.d, TurnCourse(env.hash, cfg, s, txn), k);
      FailedTransactionIsReread(env, cfg, s, txn, k);
    }
  }

  /** With new and distinct keys a failure can stop at every event. */
  lemma {:induction false} NewKeysCanFail(c: Course, maxAttempts: int, k: nat)
    requires c.Valid() && c.origin <= k < |c.events|
    requires forall i | 0 <= i < |c.events| :: c.KeyAt(i) !in c.known
    requires forall i, j | 0 <= i < j < |c.events| :: c.KeyAt(i) != c.KeyAt(j)
    ensures c.CanFail(maxAttempts, k)
  {
    MarkedAre(c, k);
    MarkedAre(c, c.origin);
    assert c.New(c.origin) && c.Opens(c.origin);
  }

  lemma {:induction false} MarkedAre(c: Course, h: nat)
    requires h <= |c.events|
    ensures forall x | x in c.Marked(h) :: x in c.known || exists i :: 0 <= i < h && c.KeyAt(i) == x
  {
    if h == 0 {
    } else {
      MarkedAre(c, h - 1);
    }
  }

  // ----- A turn with any sink -----

  /** A transaction read for the first time and about to be delivered. */
  ghost predicate FirstRead(s: Sys, w: nat, txn: string) {
    && s.stage.Prepared? && Transaction(s.stage.events, txn) && Safe(s, w)
    && Spans(s.log.entries, s.pos, s.stage.events) && Backed(s, s.stage.events) && Climbing(s.stage.events)
    && s.offs.replayFrom <= s.pos < s.stage.events[0].sourcePos && w < s.stage.events[0].sourcePos
    && forall i | 0 <= i < |s.stage.events| :: !HandledAt(s.d.p.log, s.stage.events[i].sourcePos)
  }

  lemma ClimbingMax(events: seq<ChangeEvent>)
    requires events != [] && Climbing(events)
    ensures forall i | 0 <= i < |events| :: events[i].sourcePos <= MaxPos(events)
    ensures MaxPos(events) == events[|events| - 1].sourcePos
  {
    assert forall i | 0 <= i < |events| :: events[i] in events;
    MaxPosUnique(events, MaxPos(events), events[|events| - 1].sourcePos);
  }

  /** `t` is reached from `s` by handling exactly the first `h` events of the stage. */
  ghost predicate HandledFirst(s: Sys, t: Sys, h: nat)
    requires s.stage.Prepared?
  {
    && t.log == s.log && s.d.p.log <= t.d.p.log && h <= |s.stage.events|
    && Since(|s.d.p.log|, t.d.p) == s.stage.events[..h]
    && (h == |s.stage.events| ==> Max(t.offs.committed, t.pos) <= MaxPos(s.stage.events))
  }

  lemma {:induction false} UndeliveredStaysUnhandled(s: Sys, t: Sys, w: nat, txn: string, h: nat)
    requires FirstRead(s, w, txn) && HandledFirst(s, t, h) && h < |s.stage.events|
    ensures !HandledAt(t.d.p.log, s.stage.events[h].sourcePos)
  {
    var pos, n, log := s.stage.events[h].sourcePos, |s.d.p.log|, t.d.p.log;
    forall k | 0 <= k < |log| && !log[k].Failed?
      ensures log[k].event.sourcePos != pos
    {
      if k < n {
        assert log[k] == s.d.p.log[k];
      } else {
        HandledAtIsHandledEvent(log, n, k);
        assert log[k].event in s.stage.events[..h];
      }
    }
  }

  lemma {:induction false} EarlierIsHandled(events: seq<ChangeEvent>, n: nat, p: Progress, h: nat, ev: ChangeEvent)
    requires Climbing(events) && ev in events && h <= |events| && n <= |p.log| && Since(n, p) == events[..h]
    requires h < |events| ==> ev.sourcePos < events[h].sourcePos
    ensures HandledAt(p.log, ev.sourcePos)
  {
    var i :| 0 <= i < |events| && events[i] == ev;
    assert i < h;
    assert events[..h][i] == ev;
    HandledEventIsHandledAt(p.log, n, ev);
  }

  lemma {:induction false} PassedIsHandled(s: Sys, t: Sys, w: nat, txn: string, h: nat, e: LogEntry)
    requires FirstRead(s, w, txn) && HandledFirst(s, t, h) && e in t.log.entries && w < e.seqNo
    requires if h == |s.stage.events| then e.seqNo <= MaxPos(s.stage.events) else e.seqNo < s.stage.events[h].sourcePos
    ensures HandledAt(t.d.p.log, e.seqNo)
  {
    var events, to := s.stage.events, Max(s.offs.committed, s.pos);
    ClimbingMax(events);
    if e.seqNo <= to {
      CoveredGrows(s.log.entries, w, to, s.d.p.log, t.d.p.log);
    } else {
      var ev :| ev in events && ev.sourcePos == e.seqNo;
      EarlierIsHandled(events, |s.d.p.log|, t.d.p, h, ev);
    }
  }

  /** Having handled the first `h` events of a transaction read for the first time, the
      pipeline is safe exactly when it has not passed the next one. */
  lemma {:induction false} SafeIffNotPassed(s: Sys, t: Sys, w: nat, txn: string, h: nat)
    requires FirstRead(s, w, txn) && HandledFirst(s, t, h)
    ensures Safe(t, w) <==>
              (h == |s.stage.events| || s.stage.events[h].sourcePos > Max(t.offs.committed, t.pos))
  {
    var events, to := s.stage.events, Max(t.offs.committed, t.pos);
    if h < |events| && events[h].sourcePos <= to {
      UndeliveredStaysUnhandled(s, t, w, txn, h);
      assert HasEntry(s.log.entries, events[h].sourcePos);
      var e :| e in s.log.entries && e.seqNo == events[h].sourcePos;
    } else {
      forall e | e in t.log.entries && w < e.seqNo <= to
        ensures HandledAt(t.d.p.log, e.seqNo)
      {
        PassedIsHandled(s, t, w, txn, h, e);
      }
    }
  }

  /** Before a first read nothing of the transaction is committed. */
  lemma FirstReadIsAhead(s: Sys, w: nat, txn: string)
    requires FirstRead(s, w, txn)
    ensures Max(s.offs.committed, s.pos) < s.stage.events[0].sourcePos
  {
    assert HasEntry(s.log.entries, s.stage.events[0].sourcePos);
    var e :| e in s.log.entries && e.seqNo == s.stage.events[0].sourcePos;
  }

  /** The place the runner goes on from after a call that ended with `verdict`. */
  function GoesOnFrom(cfg: Config, s: Sys, verdict: Verdict, h: nat): nat
    requires cfg.Valid() && s.stage.Prepared? && s.stage.events != []
  {
    match verdict
    case Delivered => MaxPos(s.stage.events)
    case SinkError => RetryFrom(s, SizeOf(cfg, s.stage.events), h)
    case Cancelled => s.offs.replayFrom
  }

  lemma {:induction false} TurnGoesOn(env: Env, cfg: Config, s: Sys, h: nat, r: DeliverResult)
    requires cfg.Valid() && s.stage.Prepared? && s.stage.events != []
             && r == DeliverEvents(env, cfg, s.d, s.stage.events)
    requires r.acked <= MaxPos(s.stage.events)
    requires r.rollback.Some? ==> r.rollback.value == GroupStart(SizeOf(cfg, s.stage.events), h) + 1
    ensures var t := AfterTurn(env, cfg, s);
            && t.log == s.log && t.d == r.d && t.pos == GoesOnFrom(cfg, s, r.verdict, h)
            && Max(t.offs.committed, t.pos) == Max(s.offs.committed, t.pos)
  {
  }

  /** How a turn over a transaction ends: the events it handled and where it goes on. */
  lemma {:induction false} TurnHandles(env: Env, cfg: Config, s: Sys, w: nat, txn: string, r: DeliverResult)
    returns (h: nat)
    requires cfg.Valid() && cfg.maxAttempts >= 1 && FirstRead(s, w, txn) && Expected(s.d.p.next, txn) == 1
    requires r == DeliverEvents(env, cfg, s.d, s.stage.events)
    ensures HandledFirst(s, AfterTurn(env, cfg, s), h)
    ensures r.verdict == SinkError ==> FailsAt(env, cfg, s.d, s.stage.events, h)
    ensures Safe(AfterTurn(env, cfg, s), w) <==>
              h == |s.stage.events| || s.stage.events[h].sourcePos > GoesOnFrom(cfg, s, r.verdict, h)
  {
    h := TransactionPrefix(env, cfg, s.d, s.stage.events, txn);
    StartInCall(TurnCourse(env.hash, cfg, s, txn), h);
    DispatcherConserves(env, cfg, s.d, s.stage.events);
    AckedWithinBatch(env, cfg, s.d, s.stage.events);
    TurnGoesOn(env, cfg, s, h, r);
    TurnIsSafeIff(s, AfterTurn(env, cfg, s), w, txn, h);
  }

  lemma {:induction false} TurnIsSafeIff(s: Sys, t: Sys, w: nat, txn: string, h: nat)
    requires FirstRead(s, w, txn) && Max(t.offs.committed, t.pos) == Max(s.offs.committed, t.pos)
    requires t.log == s.log && s.d.p.log <= t.d.p.log && h <= |s.stage.events|
    requires Since(|s.d.p.log|, t.d.p) == s.stage.events[..h]
    requires h == |s.stage.events| ==> t.pos <= MaxPos(s.stage.events)
    ensures HandledFirst(s, t, h)
    ensures Safe(t, w) <==> h == |s.stage.events| || s.stage.events[h].sourcePos > t.pos
  {
    FirstReadIsAhead(s, w, txn);
    ClimbingMax(s.stage.events);
    SafeIffNotPassed(s, t, w, txn, h);
  }

  /** What makes a turn safe for every sink. */
  ghost predicate TurnIsGuarded(hash: string -> nat, cfg: Config, s: Sys, txn: string)
    requires cfg.Valid() && s.stage.Prepared? && s.stage.events != []
  {
    && Expected(s.d.p.next, txn) == 1 && Keepsafe(cfg, TurnCourse(hash, cfg, s, txn))
    && PositionsOutrunSequences(cfg, s, TurnCourse(hash, cfg, s, txn))
  }

  lemma {:induction false} GuardedTurnIsSafe(env: Env, cfg: Config, s: Sys, w: nat, txn: string)
    requires cfg.Valid() && FirstRead(s, w, txn) && TurnIsGuarded(env.hash, cfg, s, txn)
    ensures Safe(AfterTurn(env, cfg, s), w)
  {
    var c, events := TurnCourse(env.hash, cfg, s, txn), s.stage.events;
    var r := DeliverEvents(env, cfg, s.d, events);
    var h := TurnHandles(env, cfg, s, w, txn, r);
    match r.verdict
    case Delivered =>
      SafeSucceedsWhole(env, cfg, s.d, events, txn);
      assert |events[..h]| == |events|;
    case SinkError =>
      FailsOnlyWhereItCan(env, cfg, s.d, c, h);
    case Cancelled =>
  }

  /** A turn that succeeds with less than the whole, or fails below the place it goes
      on from. */
  lemma {:induction false} StoppedTurnIsUnsafe(env: Env, cfg: Config, s: Sys, w: nat, txn: string, k: nat,
                                               r: DeliverResult)
    requires cfg.Valid() && cfg.maxAttempts >= 1 && FirstRead(s, w, txn) && Expected(s.d.p.next, txn) == 1
    requires k < |s.stage.events| && r == DeliverEvents(env, cfg, s.d, s.stage.events)
    requires |s.d.p.log| <= |r.d.p.log| && Since(|s.d.p.log|, r.d.p) == s.stage.events[..k]
    requires s.stage.events[k].sourcePos <= GoesOnFrom(cfg, s, r.verdict, k)
    ensures !Safe(AfterTurn(env, cfg, s), w)
  {
    var h := TurnHandles(env, cfg, s, w, txn, r);
    assert |s.stage.events[..h]| == |s.stage.events[..k]|;
  }

  lemma {:induction false} DroppedTurnIsUnsafe(cfg: Config, s: Sys, w: nat, txn: string, c: Course, j: nat)
    returns (env: Env)
    requires cfg.Valid() && cfg.maxAttempts >= 2 && FirstRead(s, w, txn) && Expected(s.d.p.next, txn) == 1
    requires c == TurnCourse(c.hash, cfg, s, txn) && c.Exposed(j)
    ensures env.hash == c.hash && !Safe(AfterTurn(env, cfg, s), w)
  {
    env := HalfGroupIsDropped(cfg, s.d, c, j);
    ClimbingMax(c.events);
    StoppedTurnIsUnsafe(env, cfg, s, w, txn, j, DeliverEvents(env, cfg, s.d, c.events));
  }

  lemma {:induction false} SkippingTurnIsUnsafe(cfg: Config, s: Sys, w: nat, txn: string, c: Course, k: nat)
    returns (env: Env)
    requires cfg.Valid() && cfg.maxAttempts >= 1 && FirstRead(s, w, txn) && Expected(s.d.p.next, txn) == 1
    requires c == TurnCourse(c.hash, cfg, s, txn)
    requires c.CanFail(cfg.maxAttempts, k) && c.events[k].sourcePos <= RetryFrom(s, c.size, k)
    ensures env.hash == c.hash && !Safe(AfterTurn(env, cfg, s), w)
  {
    FailsAtIff(cfg, s.d, c, k);
    var accepts: nat -> bool, cancelled: nat -> bool :| FailsAt(Env(c.hash, accepts, cancelled), cfg, s.d, c.events, k);
    env := Env(c.hash, accepts, cancelled);
    StoppedTurnIsUnsafe(env, cfg, s, w, txn, k, DeliverEvents(env, cfg, s.d, c.events));
  }

  lemma {:induction false} IdleTurnIsUnsafe(env: Env, cfg: Config, s: Sys, w: nat, txn: string)
    requires cfg.Valid() && cfg.maxAttempts < 1 && FirstRead(s, w, txn)
    ensures !Safe(AfterTurn(env, cfg, s), w)
  {
    NothingDone(env, cfg, s.d, s.stage.events);
    ClimbingMax(s.stage.events);
    assert s.d.p.log[|s.d.p.log|..] == [] && s.stage.events[..0] == [];
    SafeIffNotPassed(s, AfterTurn(env, cfg, s), w, txn, 0);
  }

  lemma {:induction false} UnguardedTurnIsUnsafe(hash: string -> nat, cfg: Config, s: Sys, w: nat, txn: string)
    returns (env: Env)
    requires cfg.Valid() && FirstRead(s, w, txn) && !TurnIsGuarded(hash, cfg, s, txn)
    ensures env.hash == hash && !Safe(AfterTurn(env, cfg, s), w)
  {
    var c := TurnCourse(hash, cfg, s, txn);
    env := Env(hash, i => true, i => false);
    if cfg.maxAttempts < 1 {
      IdleTurnIsUnsafe(env, cfg, s, w, txn);
    } else if Expected(s.d.p.next, txn) != 1 {
      assert HasEntry(s.log.entries, s.stage.events[0].sourcePos);
      ResumedTurnIsUnsafe(env, cfg, s, w, txn);
    } else if !Keepsafe(cfg, c) {
      var j: nat :| c.Exposed(j);
      env := DroppedTurnIsUnsafe(cfg, s, w, txn, c, j);
    } else {
      var k: nat :| c.CanFail(cfg.maxAttempts, k) && c.events[k].sourcePos <= RetryFrom(s, c.size, k);
      env := SkippingTurnIsUnsafe(cfg, s, w, txn, c, k);
    }
  }

  /** A turn of the loop over a transaction read for the first time leaves no passed
      entry unhandled, whatever the sink and the context do, if and only if the tracker
      expects the transaction's start, an attempt is made, with several attempts every
      event whose key is new opens a group, and every event that a failure can stop at
      lies above the sequence that opens its group. */
  lemma {:induction false} TurnSafeForEverySinkIff(hash: string -> nat, cfg: Config, s: Sys, w: nat, txn: string)
    requires cfg.Valid() && FirstRead(s, w, txn)
    ensures (forall accepts: nat -> bool, cancelled: nat -> bool ::
               Safe(AfterTurn(Env(hash, accepts, cancelled), cfg, s), w))
            <==> TurnIsGuarded(hash, cfg, s, txn)
  {
    if TurnIsGuarded(hash, cfg, s, txn) {
      forall accepts: nat -> bool, cancelled: nat -> bool
        ensures Safe(AfterTurn(Env(hash, accepts, cancelled), cfg, s), w)
      {
        GuardedTurnIsSafe(Env(hash, accepts, cancelled), cfg, s, w, txn);
      }
    } else {
      var env := UnguardedTurnIsUnsafe(hash, cfg, s, w, txn);
      assert !Safe(AfterTurn(Env(hash, env.accepts, env.cancelled), cfg, s), w);
    }
  }

  // ----- Whole runs -----

  /** The delivery about to be made passes nothing unhandled, whatever the sink does: it
      is of untagged events, or of one transaction read for the first time whose turn is
      guarded. */
  ghost predicate GuardedDelivery(hash: string -> nat, cfg: Config, s: Sys, w: nat)
    requires cfg.Valid() && s.stage.Prepared?
  {
    || (cfg.maxAttempts >= 1 && UntaggedBatch(s.stage.events, w))
    || exists txn :: FirstRead(s, w, txn) && TurnIsGuarded(hash, cfg, s, txn)
  }

  /** What was handled before a failure covers the log below the first undelivered event. */
  lemma {:induction false} CoveredBelow(s: Sys, t: Sys, w: nat, txn: string, h: nat, to: nat)
    requires FirstRead(s, w, txn) && HandledFirst(s, t, h) && h < |s.stage.events| && to < s.stage.events[h].sourcePos
    ensures Covered(s.log.entries, w, to, t.d.p.log)
  {
    forall e | e in s.log.entries && w < e.seqNo <= to
      ensures HandledAt(t.d.p.log, e.seqNo)
    {
      PassedIsHandled(s, t, w, txn, h, e);
    }
  }

  /** A guarded failure asks for a place below the first undelivered event. */
  lemma {:induction false} GuardedStop(env: Env, cfg: Config, s: Sys, txn: string, r: DeliverResult)
    returns (h: nat)
    requires cfg.Valid() && s.stage.Prepared? && Transaction(s.stage.events, txn)
    requires TurnIsGuarded(env.hash, cfg, s, txn)
    requires r == DeliverEvents(env, cfg, s.d, s.stage.events) && r.rollback.Some?
    ensures h < |s.stage.events| && |s.d.p.log| <= |r.d.p.log| && Since(|s.d.p.log|, r.d.p) == s.stage.events[..h]
    ensures Max(s.offs.replayFrom, r.rollback.value) < s.stage.events[h].sourcePos
  {
    var c := TurnCourse(env.hash, cfg, s, txn);
    h := ErrorRollsBack(env, cfg, s.d, s.stage.events, txn, r);
    FailsOnlyWhereItCan(env, cfg, s.d, c, h);
    assert c.events[h].sourcePos > RetryFrom(s, c.size, h);
  }

  lemma {:induction false} GuardedRollback(env: Env, cfg: Config, s: Sys, w: nat, txn: string, r: DeliverResult)
    requires cfg.Valid() && FirstRead(s, w, txn) && TurnIsGuarded(env.hash, cfg, s, txn)
    requires r == DeliverEvents(env, cfg, s.d, s.stage.events) && r.rollback.Some?
    ensures var to := Max(s.offs.replayFrom, r.rollback.value);
            to <= MaxPos(s.stage.events) && Covered(s.log.entries, w, to, r.d.p.log)
  {
    var h := GuardedStop(env, cfg, s, txn, r);
    DispatcherConserves(env, cfg, s.d, s.stage.events);
    ClimbingMax(s.stage.events);
    CoveredBelow(s, s.(d := r.d), w, txn, h, Max(s.offs.replayFrom, r.rollback.value));
  }

  lemma {:induction false} GuardedFailureKeeps(env: Env, cfg: Config, s: Sys, w: nat, txn: string)
    requires cfg.Valid() && Inv(s, w) && FirstRead(s, w, txn) && TurnIsGuarded(env.hash, cfg, s, txn)
    requires DeliverEvents(env, cfg, s.d, s.stage.events).verdict != Delivered
    ensures Inv(Delivering(env, cfg, s, s.stage.events), w)
  {
    var r := DeliverEvents(env, cfg, s.d, s.stage.events);
    if r.rollback.Some? {
      GuardedRollback(env, cfg, s, w, txn, r);
    }
    FailureKeeps(env, cfg, s, w);
  }

  lemma {:induction false} GuardedSuccessKeeps(env: Env, cfg: Config, s: Sys, w: nat, txn: string)
    requires cfg.Valid() && Inv(s, w) && FirstRead(s, w, txn) && TurnIsGuarded(env.hash, cfg, s, txn)
    requires DeliverEvents(env, cfg, s.d, s.stage.events).verdict == Delivered
    ensures Inv(Delivering(env, cfg, s, s.stage.events), w)
  {
    var events := s.stage.events;
    var log := DeliverEvents(env, cfg, s.d, events).d.p.log;
    SafeSucceedsWhole(env, cfg, s.d, events, txn);
    forall ev | ev in events
      ensures HandledAt(log, ev.sourcePos)
    {
      HandledEventIsHandledAt(log, |s.d.p.log|, ev);
    }
    SuccessKeeps(env, cfg, s, w);
  }

  lemma {:induction false} GuardedDeliveryKeeps(env: Env, cfg: Config, s: Sys, w: nat)
    requires cfg.Valid() && Inv(s, w) && s.stage.Prepared? && GuardedDelivery(env.hash, cfg, s, w)
    ensures Inv(Delivering(env, cfg, s, s.stage.events), w)
  {
    if txn :| FirstRead(s, w, txn) && TurnIsGuarded(env.hash, cfg, s, txn) {
      if DeliverEvents(env, cfg, s.d, s.stage.events).verdict == Delivered {
        GuardedSuccessKeeps(env, cfg, s, w, txn);
      } else {
        GuardedFailureKeeps(env, cfg, s, w, txn);
      }
    } else {
      UntaggedDeliverKeeps(env, cfg, s, w);
    }
  }

  /** A run whose appends are fresh for the log they meet and whose deliveries are guarded. */
  ghost predicate GuardedRun(env: Env, cfg: Config, s: Sys, ms: seq<Move>, w: nat)
    requires cfg.Valid()
  {
    ms == [] ||
    var n := |ms| - 1;
    var t := Moves(env, cfg, s, ms[..n]);
    && GuardedRun(env, cfg, s, ms[..n], w)
    && (ms[n].Append? ==> FreshFor(t.log, ms[n].entries))
    && (ms[n].Deliver? && t.stage.Prepared? ==> GuardedDelivery(env.hash, cfg, t, w))
  }

  lemma {:induction false} GuardedRunKeeps(env: Env, cfg: Config, log: LogState, w: nat, ms: seq<Move>)
    requires cfg.Valid() && LogValid(log) && w <= log.pos && GuardedRun(env, cfg, Start(log, w), ms, w)
    ensures Inv(Moves(env, cfg, Start(log, w), ms), w)
  {
    if ms == [] {
    } else {
      var n := |ms| - 1;
      var t := Moves(env, cfg, Start(log, w), ms[..n]);
      GuardedRunKeeps(env, cfg, log, w, ms[..n]);
      if ms[n].Deliver? && t.stage.Prepared? {
        GuardedDeliveryKeeps(env, cfg, t, w);
      }
      NextKeeps(env, cfg, t, w, ms[n]);
    }
  }

  lemma {:induction false} GuardedFront(env: Env, cfg: Config, s: Sys, ms: seq<Move>, w: nat, n: nat)
    requires cfg.Valid() && n <= |ms| && GuardedRun(env, cfg, s, ms, w)
    ensures GuardedRun(env, cfg, s, ms[..n], w)
    decreases |ms|
  {
    if n == |ms| {
      assert ms[..n] == ms;
    } else {
      GuardedFront(env, cfg, s, ms[..|ms| - 1], w, n);
      assert ms[..|ms| - 1][..n] == ms[..n];
    }
  }

  /** Every state of a run whose deliveries are all guarded is safe, in any interleaving
      of appends, turns, failures, checkpoints and restarts: transactions and untagged
      batches alike, no entry above the watermark is passed unhandled. */
  lemma {:induction false} GuardedRunIsSafe(env: Env, cfg: Config, log: LogState, w: nat, ms: seq<Move>, n: nat)
    requires cfg.Valid() && LogValid(log) && w <= log.pos && n <= |ms|
    requires GuardedRun(env, cfg, Start(log, w), ms, w)
    ensures Safe(Moves(env, cfg, Start(log, w), ms[..n]), w)
  {
    GuardedFront(env, cfg, Start(log, w), ms, w, n);
    GuardedRunKeeps(env, cfg, log, w, ms[..n]);
  }
}
