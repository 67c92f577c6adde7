/** The offset store, the delivery coordinator's sequencing and checkpointing. */
module Offset {
  import opened Model

  datatype SyncPhase = PhaseFull | PhaseIncremental

  datatype Offsets = Offsets(
    committed: nat, readWatermark: nat, persisted: nat, replayFrom: nat, phase: SyncPhase)

  function Fresh(initial: nat): Offsets {
    Offsets(initial, 0, initial, initial, PhaseFull)
  }

  function Advanced(s: Offsets, pos: nat): Offsets { s.(committed := Max(s.committed, pos)) }

  function Recorded(s: Offsets, pos: nat): Offsets { s.(readWatermark := Max(s.readWatermark, pos)) }

  function RolledBack(s: Offsets, pos: nat): Offsets { s.(replayFrom := Max(s.replayFrom, pos)) }

  function Persisted(s: Offsets): Offsets { s.(persisted := s.committed) }

  function Restored(s: Offsets): Offsets { s.(committed := s.persisted, readWatermark := s.persisted) }

  class Store {
    var committed: nat
    var readWatermark: nat
    var persisted: nat
    var replayFrom: nat
    var phase: SyncPhase

    ghost function State(): Offsets
      reads this
    {
      Offsets(committed, readWatermark, persisted, replayFrom, phase)
    }

    constructor (initial: nat)
      ensures State() == Fresh(initial)
    {
      committed, readWatermark, persisted, replayFrom := initial, 0, initial, initial;
      phase := PhaseFull;
    }

    method Advance(pos: nat)
      modifies this
      ensures State() == Advanced(old(State()), pos)
    {
      if pos > committed {
        committed := pos;
      }
    }

    method RecordRead(pos: nat)
      modifies this
      ensures State() == Recorded(old(State()), pos)
    {
      if pos > readWatermark {
        readWatermark := pos;
      }
    }

    method Rollback(pos: nat)
      modifies this
      ensures State() == RolledBack(old(State()), pos)
    {
      if pos < replayFrom {
        return;
      }
      replayFrom := pos;
    }

    method PersistCheckpoint()
      modifies this
      ensures State() == Persisted(old(State()))
    {
      persisted := committed;
    }

    method Restore() returns (pos: nat)
      modifies this
      ensures State() == Restored(old(State()))
      ensures pos == committed == readWatermark == persisted == old(persisted)
    {
      committed := persisted;
      readWatermark := persisted;
      pos := committed;
    }

    method SetPhase(phase: SyncPhase)
      modifies this
      ensures State() == old(State()).(phase := phase)
    {
      this.phase := phase;
    }
  }

  // ----- The store over runs -----

  /** The atomic steps other components take on the store. A successful batch is
      two of them, `Acknowledge` and `Record`, and others may come between. */
  datatype Step =
    | FullDone(watermark: nat)
    | Acknowledge(acked: nat, maxPos: nat)
    | Record
    | Failure(rollback: Option<nat>)
    | Persist
    | Restart

  /** `owed` is the position a batch has yet to record as read. */
  datatype Run = Run(s: Offsets, owed: Option<nat>)

  predicate Enabled(r: Run, step: Step) {
    match step
    case FullDone(_) => r.owed.None?
    case Acknowledge(acked, maxPos) => r.owed.None? && acked <= maxPos
    case Record => r.owed.Some?
    case Failure(_) => r.owed.None?
    case Persist => true
    case Restart => true
  }

  /** One step; a step that is not enabled does nothing. */
  function Next(r: Run, step: Step): Run {
    if !Enabled(r, step) then r
    else
    match step
    case FullDone(w) => Run(Advanced(Recorded(r.s, w), w).(phase := PhaseIncremental), None)
    case Acknowledge(acked, maxPos) => Run(Advanced(r.s, acked), Some(maxPos))
    case Record => Run(Recorded(r.s, r.owed.value), None)
    case Failure(rollback) => if rollback.Some? then Run(RolledBack(r.s, rollback.value), None) else r
    case Persist => Run(Persisted(r.s), r.owed)
    case Restart => Run(Restored(r.s), r.owed)
  }

  function NextAll(r: Run, steps: seq<Step>): Run {
    if steps == [] then r else Next(NextAll(r, steps[..|steps| - 1]), steps[|steps| - 1])
  }

  ghost predicate InOrder(r: Run) {
    && r.s.persisted <= r.s.committed
    && r.s.committed <= if r.owed.Some? then Max(r.s.readWatermark, r.owed.value) else r.s.readWatermark
  }

  /** Starting at 0, at every batch boundary of every run the positions are ordered:
      persisted, committed, read. A start above 0 breaks this before any step. */
  lemma {:induction false} PositionsStayOrdered(initial: nat, steps: seq<Step>)
    ensures initial == 0 ==> InOrder(NextAll(Run(Fresh(initial), None), steps))
    ensures initial > 0 && steps == [] ==> !InOrder(NextAll(Run(Fresh(initial), None), steps))
  {
    if steps == [] {
    } else {
      PositionsStayOrdered(initial, steps[..|steps| - 1]);
    }
  }

  /** `b` is reached from `a` without the commit position having been restored. */
  ghost predicate Grew(a: Offsets, b: Offsets) {
    a.committed <= b.committed && a.replayFrom <= b.replayFrom && a.readWatermark <= b.readWatermark
  }

  /** Only a restart lowers the committed position, and then to the persisted one;
      the replay position is never lowered. */
  lemma {:induction false} CommittedFallsOnlyOnRestart(r: Run, steps: seq<Step>)
    ensures r.s.replayFrom <= NextAll(r, steps).s.replayFrom
    ensures (forall i | 0 <= i < |steps| :: !steps[i].Restart?) ==> Grew(r.s, NextAll(r, steps).s)
    ensures steps != [] && steps[|steps| - 1].Restart? ==>
              NextAll(r, steps).s.committed == NextAll(r, steps[..|steps| - 1]).s.persisted ==
                NextAll(r, steps).s.persisted
  {
    if steps == [] {
    } else {
      CommittedFallsOnlyOnRestart(r, steps[..|steps| - 1]);
    }
  }

  /** Step `i` is the last checkpoint of the run. */
  ghost predicate LastPersist(steps: seq<Step>, i: nat) {
    i < |steps| && steps[i].Persist? && forall j | i < j < |steps| :: !steps[j].Persist?
  }

  lemma {:induction false} PersistedAtLast(r: Run, steps: seq<Step>, i: nat)
    requires LastPersist(steps, i)
    ensures NextAll(r, steps).s.persisted == NextAll(r, steps[..i]).s.committed
  {
    var n := |steps| - 1;
    if i < n {
      assert steps[..n][..i] == steps[..i];
      PersistedAtLast(r, steps[..n], i);
    }
  }

  /** A restart goes on from the last checkpoint: the committed and the read position are
      what was committed then, whatever came since; the replay position and the phase stay. */
  lemma {:induction false} RestartResumes(r: Run, steps: seq<Step>, i: nat)
    requires LastPersist(steps, i)
    ensures var before, after := NextAll(r, steps).s, NextAll(r, steps + [Restart]).s;
            && after.committed == after.readWatermark == after.persisted == NextAll(r, steps[..i]).s.committed
            && after.replayFrom == before.replayFrom && after.phase == before.phase
  {
    PersistedAtLast(r, steps, i);
    assert (steps + [Restart])[..|steps|] == steps;
  }

  // ----- What the positions are -----

  /** Step `i` of the run took effect. */
  predicate TookEffect(r: Run, steps: seq<Step>, i: nat) {
    i < |steps| && Enabled(NextAll(r, steps[..i]), steps[i])
  }

  /** The positions that a step commits, asks to replay from, and records as read. */
  function CommitOf(step: Step): nat {
    match step
    case Acknowledge(acked, _) => acked
    case FullDone(watermark) => watermark
    case _ => 0
  }

  function RollbackOf(step: Step): nat {
    if step.Failure? && step.rollback.Some? then step.rollback.value else 0
  }

  function ReadBy(r: Run, steps: seq<Step>, i: nat): nat
    requires TookEffect(r, steps, i)
  {
    match steps[i]
    case FullDone(watermark) => watermark
    case Record => NextAll(r, steps[..i]).owed.value
    case _ => 0
  }

  /** The positions after the run are within reach of every step that took effect. */
  ghost predicate Covers(r: Run, steps: seq<Step>, i: nat, end: Offsets) {
    TookEffect(r, steps, i) ==>
      && CommitOf(steps[i]) <= end.committed && ReadBy(r, steps, i) <= end.readWatermark
      && RollbackOf(steps[i]) <= end.replayFrom
  }

  ghost predicate CommittedAt(r: Run, steps: seq<Step>, i: nat, pos: nat) {
    TookEffect(r, steps, i) && CommitOf(steps[i]) == pos
  }

  ghost predicate ReadAt(r: Run, steps: seq<Step>, i: nat, pos: nat) {
    TookEffect(r, steps, i) && ReadBy(r, steps, i) == pos
  }

  ghost predicate ReplayAt(r: Run, steps: seq<Step>, i: nat, pos: nat) {
    TookEffect(r, steps, i) && RollbackOf(steps[i]) == pos
  }

  lemma {:induction false} SameBefore(r: Run, steps: seq<Step>, n: nat, i: nat)
    requires i < n <= |steps|
    ensures TookEffect(r, steps[..n], i) <==> TookEffect(r, steps, i)
    ensures TookEffect(r, steps, i) ==>
              steps[..n][i] == steps[i] && ReadBy(r, steps[..n], i) == ReadBy(r, steps, i)
  {
    assert steps[..n][..i] == steps[..i];
  }

  /** Each position is one that it started with or that a step brought. */
  ghost predicate Brought(r: Run, steps: seq<Step>, end: Offsets) {
    && (end.committed == r.s.committed || exists i: nat :: CommittedAt(r, steps, i, end.committed))
    && (end.readWatermark == r.s.readWatermark || exists i: nat :: ReadAt(r, steps, i, end.readWatermark))
    && (end.replayFrom == r.s.replayFrom || exists i: nat :: ReplayAt(r, steps, i, end.replayFrom))
  }

  lemma {:induction false} BroughtStays(r: Run, steps: seq<Step>, n: nat, end: Offsets)
    requires n <= |steps| && Brought(r, steps[..n], end)
    ensures Brought(r, steps, end)
  {
    if i: nat :| CommittedAt(r, steps[..n], i, end.committed) {
      SameBefore(r, steps, n, i);
      assert CommittedAt(r, steps, i, end.committed);
    }
    if i: nat :| ReadAt(r, steps[..n], i, end.readWatermark) {
      SameBefore(r, steps, n, i);
      assert ReadAt(r, steps, i, end.readWatermark);
    }
    if i: nat :| ReplayAt(r, steps[..n], i, end.replayFrom) {
      SameBefore(r, steps, n, i);
      assert ReplayAt(r, steps, i, end.replayFrom);
    }
  }

  /** Between restarts the committed position, the read watermark and the replay position
      are exactly the highest of where they started and of what the steps brought. */
  lemma {:induction false} PositionsAreHighest(r: Run, steps: seq<Step>)
    requires forall i | 0 <= i < |steps| :: !steps[i].Restart?
    ensures var end := NextAll(r, steps).s;
            && Grew(r.s, end) && Brought(r, steps, end) && forall i: nat :: Covers(r, steps, i, end)
  {
    if steps == [] {
    } else {
      var n := |steps| - 1;
      var before, end := NextAll(r, steps[..n]), NextAll(r, steps).s;
      PositionsAreHighest(r, steps[..n]);
      BroughtStays(r, steps, n, before.s);
      forall i: nat
        ensures Covers(r, steps, i, end)
      {
        assert Covers(r, steps[..n], i, before.s);
        LastStepCovers(r, steps, n, i);
      }
      LastStepBrings(r, steps, n);
    }
  }

  lemma {:induction false} LastStepCovers(r: Run, steps: seq<Step>, n: nat, i: nat)
    requires |steps| == n + 1 && !steps[n].Restart? && Covers(r, steps[..n], i, NextAll(r, steps[..n]).s)
    ensures Covers(r, steps, i, NextAll(r, steps).s)
  {
    if i < n {
      SameBefore(r, steps, n, i);
    }
  }

  lemma {:induction false} LastStepBrings(r: Run, steps: seq<Step>, n: nat)
    requires |steps| == n + 1 && !steps[n].Restart? && Brought(r, steps, NextAll(r, steps[..n]).s)
    ensures Brought(r, steps, NextAll(r, steps).s)
  {
    var before, end := NextAll(r, steps[..n]), NextAll(r, steps).s;
    if end.committed != before.s.committed {
      assert CommittedAt(r, steps, n, end.committed);
    }
    if end.readWatermark != before.s.readWatermark {
      assert ReadAt(r, steps, n, end.readWatermark);
    }
    if end.replayFrom != before.s.replayFrom {
      assert ReplayAt(r, steps, n, end.replayFrom);
    }
  }

  // ----- Checkpoints -----

  /** Steps of other components that can come inside a checkpoint write. */
  ghost predicate Interleaves(steps: seq<Step>) {
    forall i | 0 <= i < |steps| :: !steps[i].Restart? && !steps[i].Persist?
  }

  /** No step that takes effect commits a position above `bound`. */
  ghost predicate CommitsWithin(r: Run, steps: seq<Step>, bound: nat) {
    steps == [] ||
    var n := |steps| - 1;
    CommitsWithin(r, steps[..n], bound) && (Enabled(NextAll(r, steps[..n]), steps[n]) ==> CommitOf(steps[n]) <= bound)
  }

  lemma {:induction false} CommitsDecide(r: Run, steps: seq<Step>)
    requires Interleaves(steps)
    ensures NextAll(r, steps).s.persisted == r.s.persisted
    ensures r.s.committed <= NextAll(r, steps).s.committed
    ensures NextAll(r, steps).s.committed == r.s.committed <==> CommitsWithin(r, steps, r.s.committed)
  {
    if steps == [] {
    } else {
      var n := |steps| - 1;
      CommitsDecide(r, steps[..n]);
    }
  }

  lemma {:induction false} StepsConcat(r: Run, a: seq<Step>, b: seq<Step>)
    ensures NextAll(r, a + b) == NextAll(NextAll(r, a), b)
  {
    if b == [] {
      assert a + b == a;
    } else {
      StepsConcat(r, a, b[..|b| - 1]);
      assert (a + b)[..|a + b| - 1] == a + b[..|b| - 1];
    }
  }

  /** A checkpoint write persists, reads the committed position and assigns it to
      `last`, and anything but a restart may come before and after the read: at the
      end the persisted position is at most `last` and `last` at most the committed
      one, either equal exactly when nothing committed higher on its side. */
  lemma {:induction false} CheckpointBrackets(r: Run, before: seq<Step>, after: seq<Step>)
    requires Interleaves(before) && Interleaves(after)
    ensures var read := NextAll(Next(r, Persist), before);
            var last, end := read.s.committed, NextAll(Next(r, Persist), before + after).s;
            && end.persisted <= last <= end.committed
            && (last == end.persisted <==> CommitsWithin(Next(r, Persist), before, r.s.committed))
            && (last == end.committed <==> CommitsWithin(read, after, last))
  {
    CommitsDecide(Next(r, Persist), before);
    CommitsDecide(NextAll(Next(r, Persist), before), after);
    StepsConcat(Next(r, Persist), before, after);
  }

  class CheckpointManager {
    const store: Store
    var last: nat

    constructor (store: Store)
      ensures this.store == store && last == 0
    {
      this.store := store;
      last := 0;
    }

    method Write()
      modifies this, store
      ensures store.State() == Persisted(old(store.State()))
      ensures last == store.persisted == store.committed
    {
      store.PersistCheckpoint();
      last := store.committed;
    }
  }
}
