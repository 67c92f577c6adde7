/** The dispatcher feeding the in-memory sink: what the target's rows are after a run. */
module TargetRuns {
  import opened Model
  import opened Delivery
  import opened Invariants
  import opened Conservation
  import opened Source
  import opened Oracles
  import opened KeptChanges
  import opened KeptRuns
  import Target = Sink

  /** The in-memory sink behind the dispatcher: the snapshot loaded at the start, the
      tables switched to fail, and what happens around each write attempt. */
  datatype Feed = Feed(
    hash: string -> nat, hasTimeout: bool, fates: nat -> Target.Fate, rows: seq<SnapshotRow>, failTable: set<string>)
  {
    function Start(): Target.State {
      Target.SnapshotLoaded(hash, Target.EMPTY, rows).(failTable := failTable)
    }
  }

  function WriteAt(f: Feed, s: Target.State, log: seq<Action>, ev: ChangeEvent): Target.WriteResult {
    Target.Written(f.hash, f.hasTimeout, s, ev, f.fates(Attempted(log)))
  }

  /** The sink after the write attempts of the log. */
  function Fed(f: Feed, log: seq<Action>): Target.State {
    if log == [] then f.Start()
    else
      var before, a := log[..|log| - 1], log[|log| - 1];
      if a.Suppressed? then Fed(f, before) else WriteAt(f, Fed(f, before), before, a.event).s
  }

  /** The dispatcher got the in-memory sink's answers. */
  ghost predicate Agrees(f: Feed, log: seq<Action>) {
    log == [] ||
    var before, a := log[..|log| - 1], log[|log| - 1];
    Agrees(f, before) && (!a.Suppressed? ==> (a.Wrote? <==> WriteAt(f, Fed(f, before), before, a.event).r.Ok?))
  }

  // ----- The start -----

  lemma {:induction false} LoadedStart(hash: string -> nat, rows: seq<SnapshotRow>)
    ensures var s := Target.SnapshotLoaded(hash, Target.EMPTY, rows);
            Target.IsReplay(s) && s.order == [] && forall e | e in s.history :: Target.Settled(e)
  {
    Target.LoadKeepsReplay(hash, Target.EMPTY, rows);
    if rows == [] {
    } else {
      LoadedStart(hash, rows[..|rows| - 1]);
    }
  }

  lemma StartIsLoaded(f: Feed)
    ensures Target.IsReplay(f.Start()) && f.Start().order == []
    ensures forall e | e in f.Start().history :: Target.Settled(e)
  {
    LoadedStart(f.hash, f.rows);
  }

  // ----- Applied and written -----

  function Id(f: Feed, e: ChangeEvent): nat {
    f.hash(DeliveryIdentity(e))
  }

  /** The guard once the events are applied. */
  function Guarded(f: Feed, events: seq<ChangeEvent>): set<nat> {
    if events == [] then f.Start().guard else Guarded(f, events[..|events| - 1]) + {Id(f, events[|events| - 1])}
  }

  /** No event's hashed identity is that of an earlier one or of a snapshot row. */
  ghost predicate FreshIds(f: Feed, events: seq<ChangeEvent>) {
    events == [] ||
    var n := |events| - 1;
    FreshIds(f, events[..n]) && Id(f, events[n]) !in Guarded(f, events[..n])
  }

  /** What an answered write attempt does to the guard and the applied order. */
  lemma WriteStep(f: Feed, s: Target.State, log: seq<Action>, ev: ChangeEvent)
    ensures var w := WriteAt(f, s, log, ev);
            if w.r.Err? then w.s.order == s.order && w.s.guard == s.guard
            else && w.s.guard == s.guard + {Id(f, ev)}
                 && w.s.order == if Id(f, ev) in s.guard then s.order else s.order + [ev]
  {
  }

  lemma {:induction false} WrittenAppend(f: Feed, events: seq<ChangeEvent>, ev: ChangeEvent)
    ensures Guarded(f, events + [ev]) == Guarded(f, events) + {Id(f, ev)}
    ensures FreshIds(f, events + [ev]) <==> FreshIds(f, events) && Id(f, ev) !in Guarded(f, events)
  {
    assert (events + [ev])[..|events|] == events;
  }

  /** The sink applies exactly the events the dispatcher counts as written, in their
      order, if and only if their identities are fresh: otherwise it acknowledges one
      without applying it. */
  lemma {:induction false} AppliedAreWrittenIff(f: Feed, log: seq<Action>)
    requires Agrees(f, log)
    ensures Fed(f, log).guard == Guarded(f, Writes(log))
    ensures |Fed(f, log).order| <= |Writes(log)|
    ensures Fed(f, log).order == Writes(log) <==> FreshIds(f, Writes(log))
  {
    if log == [] {
      StartIsLoaded(f);
    } else {
      var before, a := log[..|log| - 1], log[|log| - 1];
      assert before + [a] == log;
      WritesAppend(before, a);
      AppliedAreWrittenIff(f, before);
      WriteStep(f, Fed(f, before), before, a.event);
      if a.Wrote? {
        WrittenAppend(f, Writes(before), a.event);
        AppendSame(Writes(before), Fed(f, before).order, a.event);
      }
    }
  }

  lemma AppendSame(writes: seq<ChangeEvent>, order: seq<ChangeEvent>, ev: ChangeEvent)
    ensures order + [ev] == writes + [ev] <==> order == writes
  {
    if order + [ev] == writes + [ev] {
      assert (order + [ev])[..|order|] == (writes + [ev])[..|order|];
    }
  }

  // ----- Failed writes made good -----

  /** Every event whose write ever failed has a delivered key: itself or another change
      of its row was delivered. */
  ghost predicate Drained(env: Env, p: Progress) {
    forall k | 0 <= k < |p.log| && p.log[k].Failed? :: env.KeyOf(p.log[k].event) in p.seen
  }

  /** Equal delivery keys of acceptable events mean the same row of the target. */
  ghost predicate KeysNameRows(env: Env, ok: ChangeEvent -> bool) {
    forall a, b | ok(a) && ok(b) && env.KeyOf(a) == env.KeyOf(b) :: SameRow(a, b)
  }

  predicate SameRow(a: ChangeEvent, b: ChangeEvent) {
    a.table == b.table && Target.RowKey(a) == Target.RowKey(b)
  }

  /** Writes are attempted of new keys only, and of acceptable events. */
  ghost predicate NewKeysOnly(env: Env, ok: ChangeEvent -> bool, log: seq<Action>) {
    log == [] ||
    var before, a := log[..|log| - 1], log[|log| - 1];
    && NewKeysOnly(env, ok, before) && ok(a.event)
    && (!a.Suppressed? ==> env.KeyOf(a.event) !in Keys(env, Writes(before)))
  }

  ghost predicate Orderly(env: Env, ok: ChangeEvent -> bool, p: Progress) {
    Once(env, p) && NewKeysOnly(env, ok, p.log)
  }

  lemma {:induction false} OrderlyIsStable(env: Env, ok: ChangeEvent -> bool)
    ensures Stable(env, ok, p => Orderly(env, ok, p))
  {
    OnceIsStable(env);
    forall p, ev | ok(ev) && Orderly(env, ok, p)
      ensures env.KeyOf(ev) in p.seen ==> Orderly(env, ok, Suppress(p, ev))
      ensures env.KeyOf(ev) !in p.seen ==> Orderly(env, ok, Accept(env, p, ev)) && Orderly(env, ok, Reject(p, ev))
    {
      OrderlyStep(env, ok, p, ev);
    }
  }

  lemma {:induction false} OrderlyStep(env: Env, ok: ChangeEvent -> bool, p: Progress, ev: ChangeEvent)
    requires ok(ev) && Orderly(env, ok, p)
    ensures env.KeyOf(ev) in p.seen ==> Orderly(env, ok, Suppress(p, ev))
    ensures env.KeyOf(ev) !in p.seen ==> Orderly(env, ok, Accept(env, p, ev)) && Orderly(env, ok, Reject(p, ev))
  {
    assert (p.log + [Suppressed(ev)])[..|p.log|] == p.log;
    assert (p.log + [Failed(ev)])[..|p.log|] == p.log;
    assert (p.log + [Wrote(ev)])[..|p.log|] == p.log;
    WritesAppend(p.log, Suppressed(ev));
    WritesAppend(p.log, Failed(ev));
    if env.KeyOf(ev) !in p.seen {
      AcceptKeepsOnce(env, p, ev);
    }
  }

  /** The effect at `i`, if late-cancelled, is of an acceptable event that failed, and
      once its key is delivered a settled effect on the row follows. */
  ghost predicate MadeGood(env: Env, ok: ChangeEvent -> bool, f: Feed, log: seq<Action>, i: nat)
    requires i < |Fed(f, log).history|
  {
    var h := Fed(f, log).history;
    !Target.Settled(h[i]) ==>
      && ok(h[i].event) && (exists k :: 0 <= k < |log| && log[k] == Failed(h[i].event))
      && (env.KeyOf(h[i].event) in Keys(env, Writes(log)) ==> SettledAfter(h, i))
  }

  ghost predicate SettledAfter(h: seq<Target.Effect>, i: nat)
    requires i < |h|
  {
    exists j :: i < j < |h| && Target.Settled(h[j]) && Target.Touches(h[j], Target.TableOf(h[i]), Target.KeyOf(h[i]))
  }

  ghost predicate AllMadeGood(env: Env, ok: ChangeEvent -> bool, f: Feed, log: seq<Action>) {
    forall i | 0 <= i < |Fed(f, log).history| :: MadeGood(env, ok, f, log, i)
  }

  lemma SettledAfterGrows(h: seq<Target.Effect>, more: seq<Target.Effect>, i: nat)
    requires h <= more && i < |h| && SettledAfter(h, i)
    ensures SettledAfter(more, i)
  {
    var j :| i < j < |h| && Target.Settled(h[j]) && Target.Touches(h[j], Target.TableOf(h[i]), Target.KeyOf(h[i]));
    assert more[j] == h[j] && more[i] == h[i];
  }

  /** What one write attempt adds to the history. */
  lemma {:induction false} HistoryStep(f: Feed, log: seq<Action>, a: Action)
    requires Agrees(f, log + [a])
    ensures var h, g := Fed(f, log).history, Fed(f, log + [a]).history;
            match a
            case Suppressed(_) => g == h
            case Failed(ev) => g == h || g == h + [Target.Changed(ev, false)]
            case Wrote(ev) => g == if Id(f, ev) in Fed(f, log).guard then h else h + [Target.Changed(ev, true)]
  {
    assert (log + [a])[..|log|] == log;
  }

  lemma {:induction false} EffectsAreMadeGood(env: Env, ok: ChangeEvent -> bool, f: Feed, log: seq<Action>)
    requires Agrees(f, log) && NewKeysOnly(env, ok, log) && KeysNameRows(env, ok) && FreshIds(f, Writes(log))
    ensures AllMadeGood(env, ok, f, log)
  {
    if log == [] {
      StartIsLoaded(f);
    } else {
      var before, a := log[..|log| - 1], log[|log| - 1];
      assert before + [a] == log;
      WritesAppend(before, a);
      WrittenAppend(f, Writes(before), a.event);
      EffectsAreMadeGood(env, ok, f, before);
      AppliedAreWrittenIff(f, before);
      HistoryStep(f, before, a);
      forall i | 0 <= i < |Fed(f, log).history|
        ensures MadeGood(env, ok, f, log, i)
      {
        OneMadeGood(env, ok, f, before, a, i);
      }
    }
  }

  lemma {:induction false} OneMadeGood(env: Env, ok: ChangeEvent -> bool, f: Feed, log: seq<Action>, a: Action, i: nat)
    requires AllMadeGood(env, ok, f, log) && ok(a.event) && KeysNameRows(env, ok)
    requires !a.Suppressed? ==> env.KeyOf(a.event) !in Keys(env, Writes(log))
    requires var h, g := Fed(f, log).history, Fed(f, log + [a]).history;
             match a
             case Suppressed(_) => g == h
             case Failed(ev) => g == h || g == h + [Target.Changed(ev, false)]
             case Wrote(ev) => g == h + [Target.Changed(ev, true)]
    requires i < |Fed(f, log + [a]).history|
    ensures MadeGood(env, ok, f, log + [a], i)
  {
    var h, g := Fed(f, log).history, Fed(f, log + [a]).history;
    WritesAppend(log, a);
    if i < |h| && !Target.Settled(h[i]) {
      assert MadeGood(env, ok, f, log, i);
      var k :| 0 <= k < |log| && log[k] == Failed(h[i].event);
      assert (log + [a])[k] == log[k];
      if env.KeyOf(h[i].event) in Keys(env, Writes(log)) {
        SettledAfterGrows(h, g, i);
      } else if a.Wrote? {
        KeysAppend(env, Writes(log), a.event);
        if env.KeyOf(h[i].event) == env.KeyOf(a.event) {
          assert SameRow(h[i].event, a.event);
          assert Target.Settled(g[|h|]) && Target.Touches(g[|h|], Target.TableOf(h[i]), Target.KeyOf(h[i]));
        }
      }
    } else if i == |h| {
      assert (log + [a])[|log|] == a;
    }
  }

  // ----- The rows -----

  function Changes(events: seq<ChangeEvent>): seq<Target.Effect> {
    if events == [] then [] else Changes(events[..|events| - 1]) + [Target.Changed(events[|events| - 1], true)]
  }

  lemma SettledStep(h: seq<Target.Effect>, e: Target.Effect)
    ensures Target.SettledPart(h + [e]) ==
            if Target.Settled(e) then Target.SettledPart(h) + [e] else Target.SettledPart(h)
  {
    assert (h + [e])[..|h|] == h;
  }

  lemma ChangesStep(start: seq<Target.Effect>, events: seq<ChangeEvent>, ev: ChangeEvent)
    ensures start + Changes(events + [ev]) == (start + Changes(events)) + [Target.Changed(ev, true)]
  {
    assert (events + [ev])[..|events|] == events;
  }

  /** Without the late-cancelled effects the history is the start and the writes. */
  lemma {:induction false} SettledHistory(f: Feed, log: seq<Action>)
    requires Agrees(f, log) && FreshIds(f, Writes(log))
    ensures Target.SettledPart(Fed(f, log).history) == f.Start().history + Changes(Writes(log))
  {
    if log == [] {
      StartIsLoaded(f);
      AllSettled(f.Start().history);
    } else {
      var before, a := log[..|log| - 1], log[|log| - 1];
      assert before + [a] == log;
      WritesAppend(before, a);
      WrittenAppend(f, Writes(before), a.event);
      SettledHistory(f, before);
      AppliedAreWrittenIff(f, before);
      HistoryStep(f, before, a);
      SettledStep(Fed(f, before).history, Target.Changed(a.event, a.Wrote?));
      ChangesStep(f.Start().history, Writes(before), a.event);
    }
  }

  lemma {:induction false} AllSettled(h: seq<Target.Effect>)
    requires forall e | e in h :: Target.Settled(e)
    ensures Target.SettledPart(h) == h
  {
    if h == [] {
    } else {
      assert h[|h| - 1] in h;
      AllSettled(h[..|h| - 1]);
    }
  }

  lemma {:induction false} FedKeepsReplay(f: Feed, log: seq<Action>)
    ensures Target.IsReplay(Fed(f, log))
  {
    if log == [] {
      StartIsLoaded(f);
    } else {
      var before, a := log[..|log| - 1], log[|log| - 1];
      FedKeepsReplay(f, before);
      Target.WriteKeepsReplay(f.hash, f.hasTimeout, Fed(f, before), a.event, f.fates(Attempted(before)));
    }
  }

  lemma {:induction false} DrainedIsRepaired(env: Env, ok: ChangeEvent -> bool, f: Feed, p: Progress)
    requires AllMadeGood(env, ok, f, p.log) && Drained(env, p) && p.seen == Keys(env, Writes(p.log))
    ensures Target.Repaired(Fed(f, p.log).history)
  {
    var h := Fed(f, p.log).history;
    forall i | 0 <= i < |h| && !Target.Settled(h[i])
      ensures exists j :: i < j < |h| && Target.Settled(h[j])
                          && Target.Touches(h[j], Target.TableOf(h[i]), Target.KeyOf(h[i]))
    {
      assert MadeGood(env, ok, f, p.log, i);
      var k :| 0 <= k < |p.log| && p.log[k] == Failed(h[i].event);
      assert SettledAfter(h, i);
    }
  }

  /** The dispatcher's calls with the in-memory sink behind it, the snapshot loaded. */
  ghost predicate Fits(env: Env, cfg: Config, calls: seq<Call>, ok: ChangeEvent -> bool, f: Feed)
    requires cfg.Valid()
  {
    && (forall i | 0 <= i < |calls| :: CallOk(ok, calls[i])) && KeysNameRows(env, ok)
    && Agrees(f, Run(env, cfg, calls).p.log) && FreshIds(f, Writes(Run(env, cfg, calls).p.log))
  }

  /** However writes fail, time out or are cancelled late: when every failed event's key
      was delivered in the end, each late-cancelled effect was made good, and the rows
      are the replay of the snapshot and of one change per delivered key. */
  lemma {:induction false} DrainedRowsAreWrites(env: Env, cfg: Config, calls: seq<Call>, ok: ChangeEvent -> bool,
                                                f: Feed)
    requires cfg.Valid() && Fits(env, cfg, calls, ok, f) && Drained(env, Run(env, cfg, calls).p)
    ensures var p := Run(env, cfg, calls).p;
            var s := Fed(f, p.log);
            && Target.Repaired(s.history) && s.order == Writes(p.log)
            && Target.SameRows(s.rows, Target.Replay(f.Start().history + Changes(Writes(p.log))))
            && DistinctKeys(env, Writes(p.log)) && Keys(env, Writes(p.log)) == p.seen
  {
    var p := Run(env, cfg, calls).p;
    OrderlyIsStable(env, ok);
    assert Once(env, INITIAL);
    RunKeeps(env, ok, q => Orderly(env, ok, q), cfg, calls);
    EffectsAreMadeGood(env, ok, f, p.log);
    DrainedIsRepaired(env, ok, f, p);
    AppliedAreWrittenIff(f, p.log);
    FedKeepsReplay(f, p.log);
    SettledHistory(f, p.log);
    RepairedRows(Fed(f, p.log));
  }

  lemma {:induction false} RepairedRows(s: Target.State)
    requires Target.IsReplay(s) && Target.Repaired(s.history)
    ensures Target.SameRows(s.rows, Target.Replay(Target.SettledPart(s.history)))
  {
    forall t, k
      ensures Target.Lookup(s.rows, t, k) == Target.Lookup(Target.Replay(Target.SettledPart(s.history)), t, k)
    {
      Target.RowOfSettledPart(s.history, t, k);
    }
  }

  // ----- Runs that end in success -----

  ghost predicate InCall(calls: seq<Call>, i: nat, e: ChangeEvent) {
    i < |calls| && e in EventsOfCall(calls[i])
  }

  ghost predicate InSomeCall(calls: seq<Call>, e: ChangeEvent) {
    exists i :: InCall(calls, i, e)
  }

  ghost predicate GoesThrough(env: Env, cfg: Config, calls: seq<Call>, e: ChangeEvent)
    requires cfg.Valid()
  {
    exists j :: InCall(calls, j, e) && Succeeded(env, cfg, calls, j)
  }

  /** Untagged batches, each event of which is in some call that succeeds. */
  ghost predicate AllGoThrough(env: Env, cfg: Config, calls: seq<Call>)
    requires cfg.Valid()
  {
    UntaggedBatches(calls) && forall e | InSomeCall(calls, e) :: GoesThrough(env, cfg, calls, e)
  }

  lemma {:induction false} SucceededMarks(env: Env, cfg: Config, calls: seq<Call>, j: nat, e: ChangeEvent)
    requires cfg.Valid() && cfg.maxAttempts >= 1 && j < |calls| && Succeeded(env, cfg, calls, j)
    requires calls[j].Batched? && UntaggedEvents(calls[j].events) && e in calls[j].events
    ensures env.KeyOf(e) in Run(env, cfg, calls).p.seen
  {
    var to := calls[..j + 1];
    assert to[..j] == calls[..j] && to[j] == calls[j];
    SuccessMarksExactly(env, cfg, Run(env, cfg, calls[..j]), calls[j].events);
    DeliveredKeyNeverWrittenAgain(env, cfg, calls, j + 1);
  }

  ghost predicate ActsOn(ok: ChangeEvent -> bool, p: Progress) {
    forall k | 0 <= k < |p.log| :: ok(p.log[k].event)
  }

  lemma {:induction false} ActionsAreOfCalls(env: Env, cfg: Config, calls: seq<Call>)
    requires cfg.Valid() && forall i | 0 <= i < |calls| :: calls[i].Batched?
    ensures ActsOn(e => InSomeCall(calls, e), Run(env, cfg, calls).p)
  {
    var ok := (e: ChangeEvent) => InSomeCall(calls, e);
    forall i | 0 <= i < |calls|
      ensures CallOk(ok, calls[i])
    {
      assert forall k | 0 <= k < |calls[i].events| :: InCall(calls, i, calls[i].events[k]);
    }
    RunKeeps(env, ok, p => ActsOn(ok, p), cfg, calls);
  }

  lemma {:induction false} SuccessfulRunIsDrained(env: Env, cfg: Config, calls: seq<Call>)
    requires cfg.Valid() && cfg.maxAttempts >= 1 && AllGoThrough(env, cfg, calls)
    ensures Drained(env, Run(env, cfg, calls).p)
  {
    var p := Run(env, cfg, calls).p;
    ActionsAreOfCalls(env, cfg, calls);
    forall k | 0 <= k < |p.log| && p.log[k].Failed?
      ensures env.KeyOf(p.log[k].event) in p.seen
    {
      var e := p.log[k].event;
      assert InSomeCall(calls, e) && GoesThrough(env, cfg, calls, e);
      var j :| InCall(calls, j, e) && Succeeded(env, cfg, calls, j);
      SucceededMarks(env, cfg, calls, j, e);
    }
  }

  // ----- The target after a run -----

  /** Untagged batches that all succeed, each keeping its first changes. */
  ghost predicate SmoothRun(env: Env, cfg: Config, calls: seq<Call>)
    requires cfg.Valid()
  {
    UntaggedBatches(calls) && AllSucceed(env, cfg, calls) && RunKeepsFirst(env.hash, cfg, calls)
  }

  lemma {:induction false} SmoothIsDrained(env: Env, cfg: Config, calls: seq<Call>)
    requires cfg.Valid() && SmoothRun(env, cfg, calls)
    ensures Drained(env, Run(env, cfg, calls).p)
  {
    if cfg.maxAttempts < 1 {
      NoAttemptWritesNothing(env, cfg, calls);
    } else {
      forall e | InSomeCall(calls, e)
        ensures GoesThrough(env, cfg, calls, e)
      {
        var i :| InCall(calls, i, e);
        assert Succeeded(env, cfg, calls, i);
      }
      SuccessfulRunIsDrained(env, cfg, calls);
    }
  }

  /** The target after such a run: the snapshot with the first change of every delivery
      key on top, however many changes followed. */
  lemma {:induction false} RowsAreFirstChanges(env: Env, cfg: Config, calls: seq<Call>, ok: ChangeEvent -> bool,
                                               f: Feed)
    requires cfg.Valid() && SmoothRun(env, cfg, calls) && Fits(env, cfg, calls, ok, f)
    ensures var s, kept := Fed(f, Run(env, cfg, calls).p.log), FirstChanges(env, {}, AllEvents(calls));
            s.order == kept && Target.SameRows(s.rows, Target.Replay(f.Start().history + Changes(kept)))
  {
    SmoothIsDrained(env, cfg, calls);
    FirstChangesAreWritten(env, cfg, calls);
    DrainedRowsAreWrites(env, cfg, calls, ok, f);
  }

  // ----- Every in-memory sink is one of the oracles -----

  /** The in-memory sink's answer to attempt `k` of the log. */
  ghost predicate AnswersOk(f: Feed, log: seq<Action>, k: nat) {
    exists m: nat :: AttemptAt(log, m, k) && WriteAt(f, Fed(f, log[..m]), log[..m], log[m].event).r.Ok?
  }

  /** The sink that gives these answers, one after the other. */
  function Following(hash: string -> nat, answers: seq<bool>, cancelled: nat -> bool): Env {
    Env(hash, (i: nat) => i < |answers| && answers[i], cancelled)
  }

  /** The first `n` answers of the in-memory sink, each to the attempt that the answers
      before it lead to. */
  ghost function Answers(f: Feed, hash: string -> nat, cancelled: nat -> bool, cfg: Config, calls: seq<Call>,
                         n: nat): (answers: seq<bool>)
    requires cfg.Valid()
    ensures |answers| == n
  {
    if n == 0 then []
    else
      var before := Answers(f, hash, cancelled, cfg, calls, n - 1);
      before + [AnswersOk(f, Run(Following(hash, before, cancelled), cfg, calls).p.log, n - 1)]
  }

  /** The oracle made of all these answers. */
  ghost function OracleOf(f: Feed, hash: string -> nat, cancelled: nat -> bool, cfg: Config, calls: seq<Call>): Env
    requires cfg.Valid()
  {
    Env(hash, (i: nat) => Answers(f, hash, cancelled, cfg, calls, i + 1)[i], cancelled)
  }

  lemma {:induction false} AnswersStay(f: Feed, hash: string -> nat, cancelled: nat -> bool, cfg: Config,
                                       calls: seq<Call>, n: nat, i: nat)
    requires cfg.Valid() && i < n
    ensures Answers(f, hash, cancelled, cfg, calls, n)[i] == OracleOf(f, hash, cancelled, cfg, calls).accepts(i)
  {
    if i == n - 1 {
    } else {
      AnswersStay(f, hash, cancelled, cfg, calls, n - 1, i);
    }
  }

  /** Attempt `m` of the run with that oracle got the in-memory sink's answer. */
  lemma {:induction false} AnsweredAsFed(f: Feed, hash: string -> nat, cancelled: nat -> bool, cfg: Config,
                                         calls: seq<Call>, m: nat)
    requires cfg.Valid()
    requires m < |Run(OracleOf(f, hash, cancelled, cfg, calls), cfg, calls).p.log|
    requires !Run(OracleOf(f, hash, cancelled, cfg, calls), cfg, calls).p.log[m].Suppressed?
    ensures var log := Run(OracleOf(f, hash, cancelled, cfg, calls), cfg, calls).p.log;
            log[m].Wrote? <==> WriteAt(f, Fed(f, log[..m]), log[..m], log[m].event).r.Ok?
  {
    var a := OracleOf(f, hash, cancelled, cfg, calls);
    var log := Run(a, cfg, calls).p.log;
    var k := Attempted(log[..m]);
    var answers := Answers(f, hash, cancelled, cfg, calls, k);
    var b := Following(hash, answers, cancelled);
    var other := Run(b, cfg, calls).p.log;
    forall i | 0 <= i < k
      ensures a.accepts(i) == b.accepts(i)
    {
      AnswersStay(f, hash, cancelled, cfg, calls, k, i);
    }
    RunAgrees(a, b, k, cfg, calls);
    AttemptCounts(log, m, k);
    var n: nat :| ForkAt(a, k, log, other, n);
    AttemptIsUnique(log, m, n, k);
    AnswerIs(f, other, m, k);
  }

  lemma AnswerIs(f: Feed, log: seq<Action>, m: nat, k: nat)
    requires AttemptAt(log, m, k)
    ensures AnswersOk(f, log, k) <==> WriteAt(f, Fed(f, log[..m]), log[..m], log[m].event).r.Ok?
  {
    forall n: nat | AttemptAt(log, n, k)
      ensures n == m
    {
      AttemptIsUnique(log, m, n, k);
    }
  }

  lemma {:induction false} AgreesFront(f: Feed, log: seq<Action>, n: nat)
    requires n <= |log|
    requires forall m | 0 <= m < |log| && !log[m].Suppressed? ::
               log[m].Wrote? <==> WriteAt(f, Fed(f, log[..m]), log[..m], log[m].event).r.Ok?
    ensures Agrees(f, log[..n])
  {
    if n == 0 {
    } else {
      AgreesFront(f, log, n - 1);
      assert log[..n][..n - 1] == log[..n - 1] && log[..n][n - 1] == log[n - 1];
    }
  }

  /** Whatever the snapshot, the failing tables, the fates of the writes, the
      dispatcher's hash and the cancellations: some oracle gives the dispatcher exactly
      the in-memory sink's answers, so what holds for every oracle holds for it. */
  lemma {:induction false} EveryFeedIsAnOracle(f: Feed, hash: string -> nat, cancelled: nat -> bool, cfg: Config,
                                               calls: seq<Call>)
    requires cfg.Valid()
    ensures exists accepts: nat -> bool :: Agrees(f, Run(Env(hash, accepts, cancelled), cfg, calls).p.log)
  {
    var a := OracleOf(f, hash, cancelled, cfg, calls);
    var log := Run(a, cfg, calls).p.log;
    forall m | 0 <= m < |log| && !log[m].Suppressed?
      ensures log[m].Wrote? <==> WriteAt(f, Fed(f, log[..m]), log[..m], log[m].event).r.Ok?
    {
      AnsweredAsFed(f, hash, cancelled, cfg, calls, m);
    }
    AgreesFront(f, log, |log|);
    assert log[..|log|] == log;
    assert Agrees(f, Run(Env(hash, a.accepts, cancelled), cfg, calls).p.log);
  }
}
