/** Which changes whole runs write: the first per delivery key, for every sink, exactly
    when every batch keeps its first changes. */
module KeptRuns {
  import opened Model
  import opened Delivery
  import opened Invariants
  import opened Conservation
  import opened Oracles
  import opened KeptChanges

  // ----- Runs of batches -----

  function EventsOfCall(c: Call): seq<ChangeEvent> {
    if c.Batched? then c.events else []
  }

  function AllEvents(calls: seq<Call>): seq<ChangeEvent> {
    if calls == [] then [] else AllEvents(calls[..|calls| - 1]) + EventsOfCall(calls[|calls| - 1])
  }

  ghost predicate UntaggedBatches(calls: seq<Call>) {
    forall i | 0 <= i < |calls| :: calls[i].Batched? && UntaggedEvents(calls[i].events)
  }

  /** Call `i` of the run succeeded. */
  ghost predicate Succeeded(env: Env, cfg: Config, calls: seq<Call>, i: nat)
    requires cfg.Valid() && i < |calls|
  {
    CallResult(env, cfg, Run(env, cfg, calls[..i]), calls[i]).verdict == Delivered
  }

  ghost predicate AllSucceed(env: Env, cfg: Config, calls: seq<Call>)
    requires cfg.Valid()
  {
    forall i | 0 <= i < |calls| :: Succeeded(env, cfg, calls, i)
  }

  ghost function KeySet(hash: string -> nat, events: seq<ChangeEvent>): set<nat> {
    set i | 0 <= i < |events| :: hash(TableKey(events[i]))
  }

  /** Call `i` keeps its first changes when the keys of the calls before it are known. */
  ghost predicate CallKeepsFirst(hash: string -> nat, cfg: Config, calls: seq<Call>, i: nat)
    requires cfg.Valid() && i < |calls|
  {
    KeepsFirst(hash, cfg, KeySet(hash, AllEvents(calls[..i])), EventsOfCall(calls[i]))
  }

  ghost predicate RunKeepsFirst(hash: string -> nat, cfg: Config, calls: seq<Call>)
    requires cfg.Valid()
  {
    forall i | 0 <= i < |calls| :: CallKeepsFirst(hash, cfg, calls, i)
  }

  /** What a run has written: the first changes of its events. */
  ghost predicate WroteFirst(env: Env, calls: seq<Call>, p: Progress) {
    p.seen == Keys(env, AllEvents(calls)) && Writes(p.log) == FirstChanges(env, {}, AllEvents(calls))
  }

  lemma {:induction false} RunFront(env: Env, cfg: Config, calls: seq<Call>, n: nat)
    requires cfg.Valid() && n <= |calls|
    ensures AllSucceed(env, cfg, calls) ==> AllSucceed(env, cfg, calls[..n])
    ensures RunKeepsFirst(env.hash, cfg, calls) ==> RunKeepsFirst(env.hash, cfg, calls[..n])
  {
    forall i | 0 <= i < n
      ensures Succeeded(env, cfg, calls, i) <==> Succeeded(env, cfg, calls[..n], i)
      ensures CallKeepsFirst(env.hash, cfg, calls, i) <==> CallKeepsFirst(env.hash, cfg, calls[..n], i)
    {
      assert calls[..n][..i] == calls[..i] && calls[..n][i] == calls[i];
    }
  }

  lemma {:induction false} NextRun(env: Env, cfg: Config, calls: seq<Call>, i: nat)
    requires cfg.Valid() && i < |calls|
    ensures Run(env, cfg, calls[..i + 1]) == CallResult(env, cfg, Run(env, cfg, calls[..i]), calls[i]).d
  {
    assert calls[..i + 1][..i] == calls[..i];
  }

  lemma {:induction false} NextCallWritesFirst(env: Env, cfg: Config, calls: seq<Call>, c: Call, d: DState)
    requires cfg.Valid() && c.Batched? && UntaggedEvents(c.events) && WroteFirst(env, calls, d.p)
    requires KeepsFirst(env.hash, cfg, KeySet(env.hash, AllEvents(calls)), c.events)
    requires CallResult(env, cfg, d, c).verdict == Delivered
    ensures WroteFirst(env, calls + [c], CallResult(env, cfg, d, c).d.p)
  {
    var before := AllEvents(calls);
    assert KeySet(env.hash, before) == Keys(env, before) == {} + Keys(env, before);
    CallWritesFirst(env, cfg, d, c.events);
    FirstChangesConcat(env, {}, before, c.events);
    KeysConcat(env, before, c.events);
    assert (calls + [c])[..|calls|] == calls;
  }

  lemma {:induction false} LastCallWritesFirst(env: Env, cfg: Config, calls: seq<Call>, n: nat, d: DState)
    requires cfg.Valid() && |calls| == n + 1 && calls[n].Batched? && UntaggedEvents(calls[n].events)
    requires CallResult(env, cfg, d, calls[n]).verdict == Delivered && CallKeepsFirst(env.hash, cfg, calls, n)
    requires WroteFirst(env, calls[..n], d.p)
    ensures WroteFirst(env, calls, CallResult(env, cfg, d, calls[n]).d.p)
  {
    NextCallWritesFirst(env, cfg, calls[..n], calls[n], d);
    assert calls[..n] + [calls[n]] == calls;
  }

  /** In a run of successful untagged batches each of which keeps its first changes,
      whatever failed on the way, exactly the first change per delivery key is written. */
  lemma {:induction false} FirstChangesAreWritten(env: Env, cfg: Config, calls: seq<Call>)
    requires cfg.Valid() && UntaggedBatches(calls) && AllSucceed(env, cfg, calls)
    requires RunKeepsFirst(env.hash, cfg, calls)
    ensures WroteFirst(env, calls, Run(env, cfg, calls).p)
  {
    if calls == [] {
    } else {
      var n := |calls| - 1;
      RunFront(env, cfg, calls, n);
      FirstChangesAreWritten(env, cfg, calls[..n]);
      assert Succeeded(env, cfg, calls, n) && CallKeepsFirst(env.hash, cfg, calls, n);
      LastCallWritesFirst(env, cfg, calls, n, Run(env, cfg, calls[..n]));
      NextRun(env, cfg, calls, n);
      assert calls[..n + 1] == calls;
    }
  }

  // ----- A run with one refusal -----

  lemma {:induction false} AcceptedCall(env: Env, cfg: Config, d: DState, c: Call)
    requires cfg.Valid() && c.Batched? && AcceptsFrom(env, d.p.calls)
    ensures CallResult(env, cfg, d, c).verdict == Delivered && CallResult(env, cfg, d, c).d.p.calls >= d.p.calls
  {
    if c.events != [] && cfg.maxAttempts >= 1 {
      AcceptedPass(env, d.p, Groups(cfg, c.events));
    }
  }

  lemma {:induction false} CallsGrow(env: Env, cfg: Config, calls: seq<Call>, m: nat, n: nat)
    requires cfg.Valid() && m <= n <= |calls|
    ensures Run(env, cfg, calls[..m]).p.calls <= Run(env, cfg, calls[..n]).p.calls
  {
    var p, front := Run(env, cfg, calls[..m]).p, calls[..n];
    assert front[..m] == calls[..m];
    ExtendsIsStable(env, p);
    RunKeepsFrom(env, e => true, q => Extends(p, q), cfg, front, m);
  }

  /** From a point on after which the sink accepts everything, all calls succeed. */
  lemma {:induction false} AcceptedSucceeds(env: Env, cfg: Config, calls: seq<Call>, m: nat, n: nat)
    requires cfg.Valid() && m <= n < |calls| && calls[n].Batched?
    requires AcceptsFrom(env, Run(env, cfg, calls[..m]).p.calls)
    ensures Succeeded(env, cfg, calls, n)
  {
    CallsGrow(env, cfg, calls, m, n);
    AcceptedCall(env, cfg, Run(env, cfg, calls[..n]), calls[n]);
  }

  /** The sink that refuses call `c` only takes the dispatcher to that call as the one
      that accepts everything does. */
  lemma {:induction false} SameBeforeRefusal(a: Env, b: Env, cfg: Config, calls: seq<Call>, c: nat)
    requires cfg.Valid() && SameUntil(a, b, c) && Run(a, cfg, calls).p.calls <= c
    ensures Run(b, cfg, calls) == Run(a, cfg, calls)
  {
    RunAgrees(a, b, c, cfg, calls);
    RunCounts(a, cfg, calls);
    NoFork(a, c, Run(a, cfg, calls).p.log, Run(b, cfg, calls).p.log);
  }

  lemma NoFork(a: Env, c: nat, p: seq<Action>, q: seq<Action>)
    requires Attempted(p) <= c
    ensures !Forks(a, c, p, q)
  {
    if m: nat :| ForkAt(a, c, p, q, m) {
      AttemptCounts(p, m, c);
    }
  }

  /** A call whose log is short enough goes the same way with both sinks. */
  lemma {:induction false} SameCallBeforeRefusal(a: Env, b: Env, cfg: Config, calls: seq<Call>, i: nat, c: nat)
    requires cfg.Valid() && SameUntil(a, b, c) && i < |calls| && Succeeded(a, cfg, calls, i)
    requires Run(a, cfg, calls[..i + 1]).p.calls <= c
    ensures Succeeded(b, cfg, calls, i)
  {
    var d := Run(a, cfg, calls[..i]);
    CallsGrow(a, cfg, calls, i, i + 1);
    NextRun(a, cfg, calls, i);
    SameBeforeRefusal(a, b, cfg, calls[..i], c);
    RunCounts(a, cfg, calls[..i]);
    RunCounts(a, cfg, calls[..i + 1]);
    CallAgrees(a, b, c, cfg, d, calls[i]);
    NoFork(a, c, CallResult(a, cfg, d, calls[i]).d.p.log, CallResult(b, cfg, d, calls[i]).d.p.log);
  }

  lemma {:induction false} EarlierSucceeds(a: Env, b: Env, cfg: Config, calls: seq<Call>, i: nat, j: nat)
    requires cfg.Valid() && j < i < |calls| && UntaggedBatches(calls) && AcceptsFrom(a, 0)
    requires SameUntil(a, b, Run(a, cfg, calls[..i]).p.calls)
    ensures Succeeded(b, cfg, calls, j)
  {
    AcceptedSucceeds(a, cfg, calls, 0, j);
    CallsGrow(a, cfg, calls, j + 1, i);
    SameCallBeforeRefusal(a, b, cfg, calls, j, Run(a, cfg, calls[..i]).p.calls);
  }

  /** With one refusal, at the first write of batch `i`, all calls still succeed. */
  lemma {:induction false} AllSucceedAround(a: Env, b: Env, cfg: Config, calls: seq<Call>, i: nat, d: DState)
    requires cfg.Valid() && i < |calls| && UntaggedBatches(calls) && d == Run(a, cfg, calls[..i])
    requires AcceptsFrom(a, 0) && SameUntil(a, b, d.p.calls) && AcceptsFrom(b, d.p.calls + 1)
    requires var r := CallResult(b, cfg, d, calls[i]); r.verdict == Delivered && r.d.p.calls > d.p.calls
    ensures Run(b, cfg, calls[..i]) == d && AllSucceed(b, cfg, calls)
  {
    SameBeforeRefusal(a, b, cfg, calls[..i], d.p.calls);
    NextRun(b, cfg, calls, i);
    forall j | 0 <= j < |calls|
      ensures Succeeded(b, cfg, calls, j)
    {
      if j < i {
        EarlierSucceeds(a, b, cfg, calls, i, j);
      } else if j > i {
        AcceptedSucceeds(b, cfg, calls, i + 1, j);
      }
    }
  }

  /** The sink that accepts everything, and the same but for its answer to call `c`. */
  function AcceptsAll(hash: string -> nat): Env {
    Env(hash, i => true, i => false)
  }

  function Refusing(env: Env, c: nat): Env {
    env.(accepts := i => i != c)
  }

  // ----- What was written stays written -----

  lemma {:induction false} WritesPrefix(log: seq<Action>, more: seq<Action>)
    requires log <= more
    ensures Writes(log) <= Writes(more)
  {
    if log == more {
    } else {
      WritesPrefix(log, more[..|more| - 1]);
    }
  }

  lemma {:induction false} EventsPrefix(calls: seq<Call>, n: nat)
    requires n <= |calls|
    ensures AllEvents(calls[..n]) <= AllEvents(calls)
  {
    if n == |calls| {
      assert calls[..n] == calls;
    } else {
      EventsPrefix(calls[..|calls| - 1], n);
      assert calls[..|calls| - 1][..n] == calls[..n];
    }
  }

  lemma {:induction false} FirstChangesPrefix(env: Env, a: seq<ChangeEvent>, b: seq<ChangeEvent>)
    requires a <= b
    ensures FirstChanges(env, {}, a) <= FirstChanges(env, {}, b)
  {
    FirstChangesConcat(env, {}, a, b[|a|..]);
    assert b == a + b[|a|..];
  }

  lemma DifferStays(a: seq<ChangeEvent>, b: seq<ChangeEvent>, more: seq<ChangeEvent>, others: seq<ChangeEvent>)
    requires Differ(a, b) && a <= more && b <= others
    ensures Differ(more, others)
  {
    var k: nat :| DifferAt(a, b, k);
    assert DifferAt(more, others, k);
  }

  /** What differs from the first changes after call `i` differs at the end. */
  lemma {:induction false} NeverMadeGood(env: Env, cfg: Config, calls: seq<Call>, n: nat)
    requires cfg.Valid() && n <= |calls|
    requires Differ(Writes(Run(env, cfg, calls[..n]).p.log), FirstChanges(env, {}, AllEvents(calls[..n])))
    ensures !WroteFirst(env, calls, Run(env, cfg, calls).p)
  {
    var p, q := Run(env, cfg, calls[..n]).p, Run(env, cfg, calls).p;
    ExtendsIsStable(env, p);
    RunKeepsFrom(env, e => true, t => Extends(p, t), cfg, calls, n);
    WritesPrefix(p.log, q.log);
    EventsPrefix(calls, n);
    FirstChangesPrefix(env, AllEvents(calls[..n]), AllEvents(calls));
    DifferStays(Writes(p.log), FirstChanges(env, {}, AllEvents(calls[..n])), Writes(q.log),
                FirstChanges(env, {}, AllEvents(calls)));
  }

  lemma {:induction false} FirstFailingCall(hash: string -> nat, cfg: Config, calls: seq<Call>, k: nat)
    returns (i: nat)
    requires cfg.Valid() && k < |calls| && !CallKeepsFirst(hash, cfg, calls, k)
    ensures i <= k && !CallKeepsFirst(hash, cfg, calls, i) && RunKeepsFirst(hash, cfg, calls[..i])
  {
    if m :| 0 <= m < k && !CallKeepsFirst(hash, cfg, calls, m) {
      i := FirstFailingCall(hash, cfg, calls, m);
    } else {
      i := k;
      forall j | 0 <= j < i
        ensures CallKeepsFirst(hash, cfg, calls[..i], j)
      {
        assert calls[..i][..j] == calls[..j] && calls[..i][j] == calls[j];
        assert CallKeepsFirst(hash, cfg, calls, j);
      }
    }
  }

  lemma {:induction false} OwnEventsDiffer(calls: seq<Call>, i: nat)
    requires i < |calls| && NoRepeats(AllEvents(calls))
    ensures NoRepeats(EventsOfCall(calls[i]))
  {
    EventsPrefix(calls, i + 1);
    assert calls[..i + 1][..i] == calls[..i];
    NoRepeatsTail(AllEvents(calls[..i]), EventsOfCall(calls[i]));
  }

  /** The sink accepts everything before the first batch that can lose a first change,
      so the dispatcher meets it with exactly the keys of the calls before. */
  lemma {:induction false} AcceptedFront(hash: string -> nat, cfg: Config, calls: seq<Call>, i: nat)
    requires cfg.Valid() && i < |calls| && UntaggedBatches(calls) && RunKeepsFirst(hash, cfg, calls[..i])
    ensures var a := AcceptsAll(hash);
            && WroteFirst(a, calls[..i], Run(a, cfg, calls[..i]).p)
            && Run(a, cfg, calls[..i]).p.seen == KeySet(hash, AllEvents(calls[..i]))
  {
    var a := AcceptsAll(hash);
    forall j | 0 <= j < i
      ensures Succeeded(a, cfg, calls, j)
    {
      AcceptedSucceeds(a, cfg, calls, 0, j);
    }
    RunFrontSucceeds(a, cfg, calls, i);
    FirstChangesAreWritten(a, cfg, calls[..i]);
  }

  lemma {:induction false} RunFrontSucceeds(env: Env, cfg: Config, calls: seq<Call>, n: nat)
    requires cfg.Valid() && n <= |calls| && forall i | 0 <= i < n :: Succeeded(env, cfg, calls, i)
    ensures AllSucceed(env, cfg, calls[..n])
  {
    forall i | 0 <= i < n
      ensures Succeeded(env, cfg, calls[..n], i)
    {
      assert calls[..n][..i] == calls[..i] && calls[..n][i] == calls[i];
      assert Succeeded(env, cfg, calls, i);
    }
  }

  /** When call `i` does not write its first changes on top of those of the calls before,
      the run so far has not written the first changes of all. */
  lemma {:induction false} CallLosesFirst(env: Env, cfg: Config, calls: seq<Call>, i: nat)
    requires cfg.Valid() && i < |calls| && calls[i].Batched?
    requires WroteFirst(env, calls[..i], Run(env, cfg, calls[..i]).p)
    requires var d := Run(env, cfg, calls[..i]);
             Differ(Writes(CallResult(env, cfg, d, calls[i]).d.p.log),
                    Writes(d.p.log) + FirstChanges(env, d.p.seen, calls[i].events))
    ensures Differ(Writes(Run(env, cfg, calls[..i + 1]).p.log), FirstChanges(env, {}, AllEvents(calls[..i + 1])))
  {
    var before := AllEvents(calls[..i]);
    NextRun(env, cfg, calls, i);
    assert calls[..i + 1][..i] == calls[..i];
    FirstChangesConcat(env, {}, before, calls[i].events);
    assert {} + Keys(env, before) == Run(env, cfg, calls[..i]).p.seen;
  }

  lemma {:induction false} SomeSinkLosesFirst(hash: string -> nat, cfg: Config, calls: seq<Call>, i: nat)
    returns (env: Env)
    requires cfg.Valid() && cfg.maxAttempts >= 1 && i < |calls| && UntaggedBatches(calls)
    requires NoRepeats(AllEvents(calls)) && RunKeepsFirst(hash, cfg, calls[..i]) && !CallKeepsFirst(hash, cfg, calls, i)
    ensures env.hash == hash && AllSucceed(env, cfg, calls) && !WroteFirst(env, calls, Run(env, cfg, calls).p)
  {
    var a, events := AcceptsAll(hash), calls[i].events;
    var d := Run(a, cfg, calls[..i]);
    env := Refusing(a, d.p.calls);
    AcceptedFront(hash, cfg, calls, i);
    OwnEventsDiffer(calls, i);
    RefusedGroupIsOvertaken(env, cfg, d, events);
    AllSucceedAround(a, env, cfg, calls, i, d);
    SameFirstChanges(a, env, {}, AllEvents(calls[..i]));
    CallLosesFirst(env, cfg, calls, i);
    NeverMadeGood(env, cfg, calls, i + 1);
  }

  /** First changes depend on the hash only. */
  lemma {:induction false} SameFirstChanges(a: Env, b: Env, known: set<nat>, events: seq<ChangeEvent>)
    requires a.hash == b.hash
    ensures Keys(a, events) == Keys(b, events) && FirstChanges(a, known, events) == FirstChanges(b, known, events)
  {
    assert Keys(a, events) == KeySet(a.hash, events) == Keys(b, events);
    if events == [] {
    } else {
      SameFirstChanges(a, b, known, events[..|events| - 1]);
    }
  }

  /** Without an attempt nothing is written. */
  lemma {:induction false} NoAttemptWritesNothing(env: Env, cfg: Config, calls: seq<Call>)
    requires cfg.Valid() && cfg.maxAttempts < 1 && UntaggedBatches(calls)
    ensures Run(env, cfg, calls).p == INITIAL && AllSucceed(env, cfg, calls)
  {
    if calls == [] {
    } else {
      var n := |calls| - 1;
      NoAttemptWritesNothing(env, cfg, calls[..n]);
      forall i | 0 <= i < |calls|
        ensures Succeeded(env, cfg, calls, i)
      {
        assert i < n ==> calls[..n][..i] == calls[..i] && Succeeded(env, cfg, calls[..n], i);
      }
    }
  }

  lemma {:induction false} OwnEventsAreAmongAll(calls: seq<Call>, i: nat)
    requires i < |calls|
    ensures forall e | e in EventsOfCall(calls[i]) :: e in AllEvents(calls)
  {
    EventsPrefix(calls, i + 1);
    assert calls[..i + 1][..i] == calls[..i];
    forall e | e in EventsOfCall(calls[i])
      ensures e in AllEvents(calls)
    {
      assert e in AllEvents(calls[..i + 1]);
    }
  }

  lemma {:induction false} NoAttemptLosesFirst(env: Env, cfg: Config, calls: seq<Call>, i: nat)
    requires cfg.Valid() && cfg.maxAttempts < 1 && i < |calls| && UntaggedBatches(calls)
    requires !CallKeepsFirst(env.hash, cfg, calls, i)
    ensures AllSucceed(env, cfg, calls) && !WroteFirst(env, calls, Run(env, cfg, calls).p)
  {
    NoAttemptWritesNothing(env, cfg, calls);
    var e :| e in EventsOfCall(calls[i]);
    OwnEventsAreAmongAll(calls, i);
    var k :| 0 <= k < |AllEvents(calls)| && AllEvents(calls)[k] == e;
    assert env.KeyOf(e) in Keys(env, AllEvents(calls));
  }

  /** The run, if all its calls succeed, writes exactly the first changes. */
  ghost predicate SuccessWritesFirst(env: Env, cfg: Config, calls: seq<Call>)
    requires cfg.Valid()
  {
    AllSucceed(env, cfg, calls) ==> WroteFirst(env, calls, Run(env, cfg, calls).p)
  }

  /** Runs of untagged batches of different events: when all calls succeed, exactly the
      first change per delivery key has been written, whatever the sink and the context
      do, if and only if every batch keeps its first changes. */
  lemma {:induction false} FirstKeptInRunsIff(hash: string -> nat, cfg: Config, calls: seq<Call>)
    requires cfg.Valid() && UntaggedBatches(calls) && NoRepeats(AllEvents(calls))
    ensures (forall accepts: nat -> bool, cancelled: nat -> bool ::
               SuccessWritesFirst(Env(hash, accepts, cancelled), cfg, calls))
            <==> RunKeepsFirst(hash, cfg, calls)
  {
    if RunKeepsFirst(hash, cfg, calls) {
      forall accepts: nat -> bool, cancelled: nat -> bool
        ensures SuccessWritesFirst(Env(hash, accepts, cancelled), cfg, calls)
      {
        if AllSucceed(Env(hash, accepts, cancelled), cfg, calls) {
          FirstChangesAreWritten(Env(hash, accepts, cancelled), cfg, calls);
        }
      }
    } else {
      var k :| 0 <= k < |calls| && !CallKeepsFirst(hash, cfg, calls, k);
      var i := FirstFailingCall(hash, cfg, calls, k);
      var env := AcceptsAll(hash);
      if cfg.maxAttempts < 1 {
        NoAttemptLosesFirst(env, cfg, calls, i);
      } else {
        env := SomeSinkLosesFirst(hash, cfg, calls, i);
      }
      assert !SuccessWritesFirst(Env(hash, env.accepts, env.cancelled), cfg, calls);
    }
  }
}
