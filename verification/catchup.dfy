/** Progress: with a sink that accepts everything the runner's turns reach the end of the
    log, and the committed position is the highest one written. */
module CatchUp {
  import opened Model
  import opened Delivery
  import opened Invariants
  import opened Conservation
  import opened Source
  import opened Acknowledged
  import opened Pipeline

  /** A turn over fetched entries, prepared as these events. */
  ghost predicate TurnedWith(env: Env, cfg: Config, s: Sys, entries: seq<LogEntry>, events: seq<ChangeEvent>, t: Sys)
    requires cfg.Valid()
  {
    OneToOne(entries, events) && t == AfterTurn(env, cfg, s.(stage := Prepared(events)))
  }

  /** A turn of the loop from an idle runner, with nothing interleaved and every entry
      preparable; with nothing to read nothing happens. */
  ghost predicate Turned(env: Env, cfg: Config, s: Sys, limit: nat, t: Sys)
    requires cfg.Valid()
  {
    match ReadSpec(s.log.entries, s.pos, limit)
    case Err(_) => t == s
    case Ok(r) => exists events :: TurnedWith(env, cfg, s, r.entries, events, t)
  }

  ghost predicate TurnedAt(env: Env, cfg: Config, limit: nat, states: seq<Sys>, i: nat)
    requires cfg.Valid() && 0 < i < |states|
  {
    Turned(env, cfg, states[i - 1], limit, states[i])
  }

  ghost predicate TurnRun(env: Env, cfg: Config, limit: nat, states: seq<Sys>)
    requires cfg.Valid()
  {
    states != [] && forall i | 0 < i < |states| :: TurnedAt(env, cfg, limit, states, i)
  }

  ghost predicate NoTransactions(entries: seq<LogEntry>) {
    forall e | e in entries :: e.txnId == ""
  }

  /** Idle at a position of an ascending untagged log, before a sink that accepts
      everything from here on. */
  ghost predicate Ready(env: Env, s: Sys) {
    && s.stage.Idle? && LogValid(s.log) && s.pos <= s.log.pos && NoTransactions(s.log.entries)
    && AcceptsFrom(env, s.d.p.calls)
  }

  function Unread(s: Sys): nat { |After(s.log.entries, s.pos)| }

  /** The actions that `t` has logged beyond `s`. */
  function Since(s: Sys, t: Sys): seq<Action>
    requires |s.d.p.log| <= |t.d.p.log|
  {
    t.d.p.log[|s.d.p.log|..]
  }

  /** From `s` to `t` the log stayed, all that was passed was handled, and the committed
      position rose to the highest position written since. */
  ghost predicate Progressed(s: Sys, t: Sys) {
    && t.log == s.log && s.pos <= t.pos && s.d.p.log <= t.d.p.log
    && Covered(t.log.entries, s.pos, t.pos, t.d.p.log)
    && t.offs.committed == Max(s.offs.committed, Highest(Since(s, t)))
  }

  lemma {:induction false} EntriesArePlain(log: LogState, es: seq<LogEntry>, events: seq<ChangeEvent>, k: nat)
    requires LogValid(log) && NoTransactions(log.entries) && OneToOne(es, events)
    requires k + |es| <= |log.entries| && es == log.entries[k..k + |es|]
    ensures PlainBatch(events)
  {
    forall i, j | 0 <= i < j < |events|
      ensures events[i].sourcePos <= events[j].sourcePos
    {
      assert StandsFor(events[i], es[i]) && StandsFor(events[j], es[j]);
      assert Precedes(log.entries, k + i, k + j);
    }
    forall i | 0 <= i < |events|
      ensures events[i].txnId == "" && events[i].sourcePos > 0
    {
      assert StandsFor(events[i], es[i]) && es[i] == log.entries[k + i] && log.entries[k + i] in log.entries;
    }
  }

  lemma {:induction false} AfterFrom(entries: seq<LogEntry>, pos: nat, k: nat)
    requires k <= |entries| && forall i | 0 <= i < |entries| :: entries[i].seqNo > pos <==> i >= k
    ensures |After(entries, pos)| == |entries| - k
  {
    AfterNone(entries[..k], pos);
    AfterAll(entries[k..], pos);
    AfterConcat(entries[..k], entries[k..], pos);
    assert entries == entries[..k] + entries[k..];
  }

  lemma AscendsPast(entries: seq<LogEntry>, j: nat)
    requires Ascending(entries) && j < |entries|
    ensures forall i | 0 <= i < |entries| :: entries[i].seqNo > entries[j].seqNo <==> i >= j + 1
  {
    forall i | 0 <= i < |entries|
      ensures entries[i].seqNo > entries[j].seqNo <==> i >= j + 1
    {
      assert if i < j then Precedes(entries, i, j) else i > j ==> Precedes(entries, j, i);
    }
  }

  /** What is left when the unread entries are read in steps. */
  function Left(unread: nat, step: nat): nat {
    if unread <= step then 0 else unread - step
  }

  /** A read takes the next unread entries, and ends at the last of them. */
  lemma {:induction false} ReadShrinks(log: LogState, pos: nat, limit: nat, es: seq<LogEntry>) returns (k: nat)
    requires LogValid(log) && ReadSpec(log.entries, pos, limit).Ok?
    requires es == ReadSpec(log.entries, pos, limit).value.entries
    ensures es != [] && k + |es| <= |log.entries| && es == log.entries[k..k + |es|]
    ensures pos < es[|es| - 1].seqNo <= log.pos
    ensures |After(log.entries, es[|es| - 1].seqNo)| == Left(|After(log.entries, pos)|, Max(limit, 1))
  {
    k := ReadTakesNext(log.entries, pos, limit);
    var n, last := |es|, es[|es| - 1];
    AfterFrom(log.entries, pos, k);
    assert log.entries[k + n - 1] == last;
    AscendsPast(log.entries, k + n - 1);
    AfterFrom(log.entries, last.seqNo, k + n);
    LogBound(log, last);
  }

  /** One turn with something to read. */
  lemma {:induction false} TurnProgresses(env: Env, cfg: Config, s: Sys, limit: nat, es: seq<LogEntry>,
                                          events: seq<ChangeEvent>, t: Sys)
    requires cfg.Valid() && cfg.maxAttempts >= 1 && Ready(env, s) && ReadSpec(s.log.entries, s.pos, limit).Ok?
    requires es == ReadSpec(s.log.entries, s.pos, limit).value.entries && TurnedWith(env, cfg, s, es, events, t)
    ensures Ready(env, t) && Progressed(s, t) && Unread(t) == Left(Unread(s), Max(limit, 1))
    ensures es != [] && t.pos == es[|es| - 1].seqNo && t.offs.readWatermark == Max(s.offs.readWatermark, t.pos)
    ensures t.offs.committed == Max(s.offs.committed, LastNew(env, s.d.p.seen, events))
  {
    var k := ReadShrinks(s.log, s.pos, limit, es);
    EntriesArePlain(s.log, es, events, k);
    FetchKeeps(s.log, s.pos, limit, es);
    PreparedMax(es, events);
    DeliveredTurn(env, cfg, s, events, t);
    TurnCovers(env, cfg, s, es, events);
  }

  /** What a turn that delivers a plain batch does to the state. */
  lemma {:induction false} DeliveredTurn(env: Env, cfg: Config, s: Sys, events: seq<ChangeEvent>, t: Sys)
    requires cfg.Valid() && cfg.maxAttempts >= 1 && AcceptsFrom(env, s.d.p.calls) && PlainBatch(events)
    requires t == AfterTurn(env, cfg, s.(stage := Prepared(events)))
    ensures var r, m := DeliverEvents(env, cfg, s.d, events), MaxPos(events);
            && r.verdict == Delivered && AcceptsFrom(env, r.d.p.calls) && |s.d.p.log| <= |r.d.p.log|
            && t.log == s.log && t.stage == Idle && t.pos == m && t.d == r.d
            && t.offs.readWatermark == Max(s.offs.readWatermark, m)
            && t.offs.committed == Max(s.offs.committed, Highest(Since(s, t)))
            && t.offs.committed == Max(s.offs.committed, LastNew(env, s.d.p.seen, events))
  {
    AcceptedAcksLastNew(env, cfg, s.d, events);
  }

  lemma {:induction false} TurnCovers(env: Env, cfg: Config, s: Sys, es: seq<LogEntry>, events: seq<ChangeEvent>)
    requires cfg.Valid() && cfg.maxAttempts >= 1 && OneToOne(es, events) && FetchedOk(s.log, s.pos, es)
    requires UntaggedEvents(events) && DeliverEvents(env, cfg, s.d, events).verdict == Delivered
    ensures var q := DeliverEvents(env, cfg, s.d, events).d.p;
            s.d.p.log <= q.log && Covered(s.log.entries, s.pos, es[|es| - 1].seqNo, q.log)
  {
    var q := DeliverEvents(env, cfg, s.d, events).d.p;
    UntaggedSuccessIsComplete(env, cfg, s.d, events);
    DispatcherConserves(env, cfg, s.d, events);
    forall e | e in s.log.entries && s.pos < e.seqNo <= es[|es| - 1].seqNo
      ensures HandledAt(q.log, e.seqNo)
    {
      var i :| 0 <= i < |es| && es[i] == e;
      assert StandsFor(events[i], es[i]) && events[i] in events;
      DoneIsHandled(env, s.d.p, q, events, events[i]);
    }
  }

  lemma {:induction false} ProgressJoins(s: Sys, t: Sys, u: Sys)
    requires Progressed(s, t) && Progressed(t, u)
    ensures Progressed(s, u)
  {
    CoveredGrows(t.log.entries, s.pos, t.pos, t.d.p.log, u.d.p.log);
    HighestConcat(Since(s, t), Since(t, u));
    assert Since(s, u) == Since(s, t) + Since(t, u);
  }

  lemma NoProgress(s: Sys)
    ensures Progressed(s, s)
  {
    assert Since(s, s) == [];
  }

  /** With nothing left to read the runner is at the end of the log. */
  lemma {:induction false} AllRead(log: LogState, pos: nat)
    requires LogValid(log) && pos <= log.pos && After(log.entries, pos) == []
    ensures pos == log.pos
  {
    AfterMembers(log.entries, pos);
    if log.entries != [] {
      assert log.entries[|log.entries| - 1] in log.entries;
    }
  }

  /** Any turn of the loop. */
  lemma {:induction false} AnyTurnProgresses(env: Env, cfg: Config, s: Sys, limit: nat, t: Sys)
    requires cfg.Valid() && cfg.maxAttempts >= 1 && Ready(env, s) && Turned(env, cfg, s, limit, t)
    ensures Ready(env, t) && Progressed(s, t) && Unread(t) == Left(Unread(s), Max(limit, 1))
  {
    match ReadSpec(s.log.entries, s.pos, limit)
    case Err(_) => NoProgress(s);
    case Ok(r) =>
      var events :| TurnedWith(env, cfg, s, r.entries, events, t);
      TurnProgresses(env, cfg, s, limit, r.entries, events, t);
  }

  lemma LeftAgain(unread: nat, i: nat, step: nat)
    ensures Left(Left(unread, i * step), step) == Left(unread, (i + 1) * step)
  {
    assert (i + 1) * step == i * step + step;
  }

  /** What that many turns come to. */
  ghost predicate Reached(env: Env, s: Sys, turns: nat, step: nat, t: Sys) {
    Ready(env, t) && Progressed(s, t) && Unread(t) == Left(Unread(s), turns * step)
  }

  lemma {:induction false} OneMoreTurn(env: Env, cfg: Config, s: Sys, turns: nat, limit: nat, t: Sys, u: Sys)
    requires cfg.Valid() && cfg.maxAttempts >= 1 && Reached(env, s, turns, Max(limit, 1), t)
    requires Turned(env, cfg, t, limit, u)
    ensures Reached(env, s, turns + 1, Max(limit, 1), u)
  {
    AnyTurnProgresses(env, cfg, t, limit, u);
    ProgressJoins(s, t, u);
    LeftAgain(Unread(s), turns, Max(limit, 1));
  }

  lemma {:induction false} RunReaches(env: Env, cfg: Config, limit: nat, states: seq<Sys>, n: nat)
    requires cfg.Valid() && cfg.maxAttempts >= 1 && TurnRun(env, cfg, limit, states) && Ready(env, states[0])
    requires n < |states|
    ensures Reached(env, states[0], n, Max(limit, 1), states[n])
  {
    if n == 0 {
      NoProgress(states[0]);
    } else {
      RunReaches(env, cfg, limit, states, n - 1);
      assert TurnedAt(env, cfg, limit, states, n);
      OneMoreTurn(env, cfg, states[0], n - 1, limit, states[n - 1], states[n]);
    }
  }

  /** However the turns' entries are prepared, enough turns for the unread entries bring the
      runner to the end of the log: every entry passed has been handled, and the committed
      position is the highest written since the start, or the old one if that is higher. */
  lemma {:induction false} TurnsCatchUp(env: Env, cfg: Config, limit: nat, states: seq<Sys>)
    requires cfg.Valid() && cfg.maxAttempts >= 1 && TurnRun(env, cfg, limit, states) && Ready(env, states[0])
    ensures var s, t := states[0], states[|states| - 1];
            && Progressed(s, t)
            && (t.pos == s.log.pos <==> Unread(s) <= (|states| - 1) * Max(limit, 1))
  {
    var s, t := states[0], states[|states| - 1];
    RunReaches(env, cfg, limit, states, |states| - 1);
    if Unread(t) == 0 {
      AllRead(t.log, t.pos);
    } else {
      AfterMembers(t.log.entries, t.pos);
      assert After(t.log.entries, t.pos)[0] in After(t.log.entries, t.pos);
      LogBound(t.log, After(t.log.entries, t.pos)[0]);
    }
  }
}
