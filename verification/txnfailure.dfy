/** What the sink can do to a fresh transaction: when success means the whole of it,
    and at which events a call can end in an error. */
module TxnFailure {
  import opened Model
  import opened Delivery
  import opened TxnPrefix

  // ----- A pass stops at the first refused event -----

  ghost predicate FirstRefused(env: Env, c: Course, base: nat, from: nat, x: nat) {
    from <= x && c.Refused(env, base, x) && ClearTo(env, c, base, from, x)
  }

  lemma StopIsUnique(env: Env, c: Course, base: nat, from: nat, h: nat, x: nat)
    requires FirstRefused(env, c, base, from, x) && from <= h && ClearTo(env, c, base, from, h)
    ensures h <= x && (c.Refused(env, base, h) ==> h == x)
  {
  }

  lemma {:induction false} PassStopsAt(env: Env, c: Course, base: nat, p: Progress, pending: seq<Group>, from: nat,
                                       x: nat)
    requires env.hash == c.hash && c.Valid() && Covers(c, pending, from) && At(c, base, p, from)
    requires FirstRefused(env, c, base, from, x)
    ensures PassStops(env, c, base, pending, from, x, Pass(env, p, pending)) && Pass(env, p, pending).failed.Some?
  {
    var h := PassPrefix(env, c, base, p, pending, from);
    StopIsUnique(env, c, base, from, h, x);
  }

  // ----- When success means the whole transaction -----

  /** A call that returns no error has handled the whole transaction. */
  ghost predicate SuccessIsWhole(env: Env, cfg: Config, d: DState, events: seq<ChangeEvent>)
    requires cfg.Valid()
  {
    var r := DeliverEvents(env, cfg, d, events);
    r.verdict == Delivered ==> |d.p.log| <= |r.d.p.log| && Since(|d.p.log|, r.d.p) == events
  }

  /** An attempt is made, and either it is the only one or no event can be refused
      while its group is under way. */
  ghost predicate Keepsafe(cfg: Config, c: Course)
    requires c.size > 0
  {
    cfg.maxAttempts >= 1 && (cfg.maxAttempts == 1 || c.Shielded())
  }

  lemma {:induction false} SafeSucceedsWhole(env: Env, cfg: Config, d: DState, events: seq<ChangeEvent>, txn: string)
    requires cfg.Valid() && Transaction(events, txn) && Expected(d.p.next, txn) == 1
    requires Keepsafe(cfg, CourseOf(env.hash, cfg, d, events, txn))
    ensures SuccessIsWhole(env, cfg, d, events)
  {
    var c := CourseOf(env.hash, cfg, d, events, txn);
    var h, b := CallStops(env, cfg, d, c);
    assert events[..|events|] == events;
  }

  /** The sink that refuses only one call. */
  function RefusesOne(hash: string -> nat, call: nat): Env {
    Env(hash, i => i != call, i => false)
  }

  lemma {:induction false} OneRefusal(c: Course, base: nat, j: nat)
    requires c.New(j)
    ensures FirstRefused(RefusesOne(c.hash, base + c.Attempts(j)), c, base, 0, j)
  {
    var env := RefusesOne(c.hash, base + c.Attempts(j));
    forall i | 0 <= i < j
      ensures !c.Refused(env, base, i)
    {
      AttemptsGrow(c, i, j);
    }
  }

  /** The call reports success with exactly the first `k` events delivered. */
  ghost predicate DropsFrom(env: Env, cfg: Config, d: DState, events: seq<ChangeEvent>, k: nat)
    requires cfg.Valid()
  {
    var r := DeliverEvents(env, cfg, d, events);
    r.verdict == Delivered && k < |events| && |d.p.log| <= |r.d.p.log| && Since(|d.p.log|, r.d.p) == events[..k]
  }

  /** The failure: a write is refused while its group is under way, the tracker moves
      past the group's start, the retry holds every group back, and the call reports
      success with the rest of the transaction undelivered. */
  lemma {:induction false} HalfGroupIsDropped(cfg: Config, d: DState, c: Course, j: nat) returns (env: Env)
    requires cfg.Valid() && c.Valid() && c == CourseOf(c.hash, cfg, d, c.events, c.txn)
    requires Expected(d.p.next, c.txn) == 1 && cfg.maxAttempts >= 2 && c.Exposed(j)
    ensures env.hash == c.hash && DropsFrom(env, cfg, d, c.events, j)
  {
    GroupsCover(cfg, c);
    StartsAtZero(c, d);
    OneRefusal(c, d.p.calls, j);
    env := RefusesOne(c.hash, d.p.calls + c.Attempts(j));
    var groups := Groups(cfg, c.events);
    DrainDrops(env, c, d.p.calls, d.p, groups, 0, j, cfg.maxAttempts, Drain(env, d.p, groups, 1, cfg.maxAttempts));
  }

  lemma {:induction false} DrainDrops(env: Env, c: Course, base: nat, p: Progress, groups: seq<Group>, from: nat,
                                      j: nat, maxAttempts: int, r: DrainResult)
    requires env.hash == c.hash && c.Valid() && Covers(c, groups, from) && groups != [] && At(c, base, p, from)
    requires FirstRefused(env, c, base, from, j) && c.Exposed(j) && (forall i :: !env.cancelled(i)) && maxAttempts >= 2
    requires r == Drain(env, p, groups, 1, maxAttempts)
    ensures r.verdict == Delivered && At(c, base + 1, r.p, j)
  {
    PassStopsAt(env, c, base, p, groups, from, j);
    var s := Pass(env, p, groups);
    StoppedWhere(c, base + 1, s.p, s.next, j);
    StuckDrain(env, c, base + 1, s.p, s.next, j, 2, maxAttempts);
  }

  /** For a fresh transaction, whatever was delivered before: a nil error means the
      whole transaction was delivered, whatever the sink and the context do, if and
      only if an attempt is made and, where there are several, every event whose key
      is new opens a group. */
  lemma {:induction false} SuccessIsWholeIff(hash: string -> nat, cfg: Config, d: DState, events: seq<ChangeEvent>,
                                             txn: string)
    requires cfg.Valid() && Transaction(events, txn) && Expected(d.p.next, txn) == 1
    ensures (forall accepts: nat -> bool, cancelled: nat -> bool ::
               SuccessIsWhole(Env(hash, accepts, cancelled), cfg, d, events))
            <==> Keepsafe(cfg, CourseOf(hash, cfg, d, events, txn))
  {
    var c := CourseOf(hash, cfg, d, events, txn);
    if Keepsafe(cfg, c) {
      forall accepts: nat -> bool, cancelled: nat -> bool
        ensures SuccessIsWhole(Env(hash, accepts, cancelled), cfg, d, events)
      {
        SafeSucceedsWhole(Env(hash, accepts, cancelled), cfg, d, events, txn);
      }
    } else {
      var env := RefusesOne(hash, 0);
      if cfg.maxAttempts < 1 {
        assert d.p.log[|d.p.log|..] == [];
      } else {
        var j: nat :| c.Exposed(j);
        env := HalfGroupIsDropped(cfg, d, c, j);
        assert |events[..j]| != |events|;
      }
      assert !SuccessIsWhole(Env(hash, env.accepts, env.cancelled), cfg, d, events);
    }
  }

  /** Settings that are safe for every transaction: one attempt, or no group that
      holds two events. */
  predicate SafeConfig(cfg: Config, events: seq<ChangeEvent>) {
    && cfg.maxAttempts >= 1
    && (cfg.maxAttempts == 1 || |events| == 1 || cfg.groupSize == Some(1))
  }

  lemma {:induction false} GroupsOfOne(i: nat)
    ensures GroupStart(1, i) == i
  {
    if i == 0 {
    } else {
      GroupsOfOne(i - 1);
    }
  }

  lemma {:induction false} SafeConfigSucceedsWhole(env: Env, cfg: Config, d: DState, events: seq<ChangeEvent>,
                                                   txn: string)
    requires cfg.Valid() && Transaction(events, txn) && Expected(d.p.next, txn) == 1 && SafeConfig(cfg, events)
    ensures SuccessIsWhole(env, cfg, d, events)
  {
    var c := CourseOf(env.hash, cfg, d, events, txn);
    forall j: nat
      ensures cfg.maxAttempts == 1 || !c.Exposed(j)
    {
      if c.size == 1 {
        GroupsOfOne(j);
      }
    }
    SafeSucceedsWhole(env, cfg, d, events, txn);
  }

  // ----- Where a call can end in an error -----

  /** All attempts fail, and event `k` is the first not delivered. */
  ghost predicate FailsAt(env: Env, cfg: Config, d: DState, events: seq<ChangeEvent>, k: nat)
    requires cfg.Valid()
  {
    var r := DeliverEvents(env, cfg, d, events);
    r.verdict == SinkError && k < |events| && |d.p.log| <= |r.d.p.log| && Since(|d.p.log|, r.d.p) == events[..k]
  }

  /** The sink that refuses the calls from `low` to `high` and the call `last`. */
  function RefusesUntil(hash: string -> nat, low: nat, high: nat, last: nat): Env {
    Env(hash, i => !(low <= i < high) && i != last, i => false)
  }

  /** The next `tries` passes fail at event `s`, and the one after them at event `k`. */
  ghost predicate RefusedInTurn(env: Env, c: Course, base: nat, tries: nat, from: nat, s: nat, k: nat)
    decreases tries
  {
    if tries == 0 then FirstRefused(env, c, base, from, k)
    else FirstRefused(env, c, base, from, s) && RefusedInTurn(env, c, base + 1, tries - 1, s, s, k)
  }

  /** Groups to deliver from event `h` on, with everything before it handled. */
  ghost predicate Ready(c: Course, base: nat, p: Progress, pending: seq<Group>, h: nat)
    requires c.size > 0
  {
    pending != [] && Covers(c, pending, h) && At(c, base, p, h)
  }

  lemma {:induction false} LastAttemptFails(env: Env, c: Course, base: nat, p: Progress, pending: seq<Group>, from: nat,
                                            x: nat, maxAttempts: int, r: DrainResult)
    requires env.hash == c.hash && c.Valid() && Ready(c, base, p, pending, from) && FirstRefused(env, c, base, from, x)
    requires r == Drain(env, p, pending, maxAttempts, maxAttempts)
    ensures r.verdict == SinkError && At(c, base + 1, r.p, x)
  {
    PassStopsAt(env, c, base, p, pending, from, x);
  }

  /** An attempt that is not the last fails at the start of a group: the next one goes on
      from there. */
  lemma {:induction false} AttemptFails(env: Env, c: Course, base: nat, p: Progress, pending: seq<Group>, from: nat,
                                        x: nat, attempt: int, maxAttempts: int, r: DrainResult)
    returns (q: Progress, next: seq<Group>)
    requires env.hash == c.hash && c.Valid() && (forall i :: !env.cancelled(i)) && attempt < maxAttempts
    requires Ready(c, base, p, pending, from) && FirstRefused(env, c, base, from, x) && c.Opens(x)
    requires r == Drain(env, p, pending, attempt, maxAttempts)
    ensures Ready(c, base + 1, q, next, x)
    ensures var s := Drain(env, q, next, attempt + 1, maxAttempts); r.verdict == s.verdict && r.p == s.p
  {
    var t := Pass(env, p, pending);
    q, next := t.p, t.next;
    PassStopsAt(env, c, base, p, pending, from, x);
    StoppedWhere(c, base + 1, t.p, t.next, x);
  }

  lemma {:induction false} DrainFailsAt(env: Env, c: Course, base: nat, p: Progress, pending: seq<Group>, h: nat,
                                        s: nat, k: nat, attempt: int, maxAttempts: int, tries: nat, r: DrainResult)
    requires env.hash == c.hash && c.Valid() && (forall i :: !env.cancelled(i))
    requires Ready(c, base, p, pending, h) && c.Opens(s) && RefusedInTurn(env, c, base, tries, h, s, k)
    requires attempt + tries == maxAttempts && r == Drain(env, p, pending, attempt, maxAttempts)
    ensures r.verdict == SinkError && At(c, base + tries + 1, r.p, k)
    decreases tries
  {
    if tries == 0 {
      LastAttemptFails(env, c, base, p, pending, h, k, attempt, r);
    } else {
      var q, next := AttemptFails(env, c, base, p, pending, h, s, attempt, maxAttempts, r);
      var rest := Drain(env, q, next, attempt + 1, maxAttempts);
      DrainFailsAt(env, c, base + 1, q, next, s, s, k, attempt + 1, maxAttempts, tries - 1, rest);
    }
  }

  /** `env` refuses the calls from `low` to `high` and the call `last`. */
  ghost predicate Refuses(env: Env, low: nat, high: nat, last: nat) {
    forall i: nat :: env.accepts(i) <==> !(low <= i < high) && i != last
  }

  lemma {:induction false} RefusesLater(env: Env, c: Course, low: nat, base: nat, tries: nat, s: nat, k: nat)
    requires c.New(s) && c.New(k) && s <= k && low <= base + c.Attempts(s)
    requires Refuses(env, low, base + tries + c.Attempts(s), base + tries + c.Attempts(k))
    ensures RefusedInTurn(env, c, base, tries, s, s, k)
    decreases tries
  {
    if tries == 0 {
      forall i | s <= i < k
        ensures !c.Refused(env, base, i)
      {
        AttemptsGrow(c, i, k);
        if s < i {
          AttemptsGrow(c, s, i);
        }
      }
    } else {
      RefusesLater(env, c, low, base + 1, tries - 1, s, k);
    }
  }

  /** The calls that the chosen sink refuses are made for event `s`, in all attempts but
      the last, and then for event `k`. */
  lemma {:induction false} RefusesInTurn(env: Env, c: Course, base: nat, tries: nat, s: nat, k: nat)
    requires c.New(s) && c.New(k) && s <= k
    requires Refuses(env, base + c.Attempts(s), base + tries + c.Attempts(s), base + tries + c.Attempts(k))
    ensures RefusedInTurn(env, c, base, tries, 0, s, k)
  {
    if s < k {
      AttemptsGrow(c, s, k);
    }
    forall i | 0 <= i < if tries == 0 then k else s
      ensures !c.Refused(env, base, i)
    {
      AttemptsGrow(c, i, if tries == 0 then k else s);
    }
    if tries > 0 {
      RefusesLater(env, c, base + c.Attempts(s), base + 1, tries - 1, s, k);
    }
  }

  lemma {:induction false} CallFailsAt(env: Env, cfg: Config, d: DState, c: Course, s: nat, k: nat)
    requires cfg.Valid() && c.Valid() && c == CourseOf(env.hash, cfg, d, c.events, c.txn)
    requires Expected(d.p.next, c.txn) == 1 && cfg.maxAttempts >= 1 && (forall i :: !env.cancelled(i))
    requires c.Opens(s) && c.New(k) && RefusedInTurn(env, c, d.p.calls, cfg.maxAttempts - 1, 0, s, k)
    ensures FailsAt(env, cfg, d, c.events, k)
  {
    GroupsCover(cfg, c);
    StartsAtZero(c, d);
    var groups := Groups(cfg, c.events);
    DrainFailsAt(env, c, d.p.calls, d.p, groups, 0, s, k, 1, cfg.maxAttempts, cfg.maxAttempts - 1,
                 Drain(env, d.p, groups, 1, cfg.maxAttempts));
  }

  lemma {:induction false} CanFailFails(cfg: Config, d: DState, c: Course, s: nat, k: nat) returns (env: Env)
    requires cfg.Valid() && c.Valid() && c == CourseOf(c.hash, cfg, d, c.events, c.txn)
    requires Expected(d.p.next, c.txn) == 1 && cfg.maxAttempts >= 1
    requires c.New(k) && s <= k && if cfg.maxAttempts == 1 then s == k else c.New(s) && c.Opens(s)
    ensures env.hash == c.hash && FailsAt(env, cfg, d, c.events, k)
  {
    var tries := cfg.maxAttempts - 1;
    var calls := d.p.calls;
    env := RefusesUntil(c.hash, calls + c.Attempts(s), calls + tries + c.Attempts(s), calls + tries + c.Attempts(k));
    RefusesInTurn(env, c, d.p.calls, tries, s, k);
    if tries == 0 {
      assert RefusedInTurn(env, c, d.p.calls, 0, 0, 0, k);
      CallFailsAt(env, cfg, d, c, 0, k);
    } else {
      CallFailsAt(env, cfg, d, c, s, k);
    }
  }

  lemma {:induction false} FailsOnlyWhereItCan(env: Env, cfg: Config, d: DState, c: Course, k: nat)
    requires cfg.Valid() && c.Valid() && c == CourseOf(env.hash, cfg, d, c.events, c.txn)
    requires Expected(d.p.next, c.txn) == 1 && FailsAt(env, cfg, d, c.events, k)
    ensures c.CanFail(cfg.maxAttempts, k)
  {
    var h := TransactionPrefix(env, cfg, d, c.events, c.txn);
    SameStop(c.events, h, k);
  }

  lemma SameStop(events: seq<ChangeEvent>, h: nat, k: nat)
    requires h <= |events| && k <= |events| && events[..h] == events[..k]
    ensures h == k
  {
    assert |events[..h]| == h && |events[..k]| == k;
  }

  /** Some sink and context end a call with a fresh transaction in an error after
      exactly the first `k` events, if and only if event `k`'s key is new and, where
      there are several attempts, some event up to it with a new key opens a group. */
  lemma {:induction false} FailsAtIff(cfg: Config, d: DState, c: Course, k: nat)
    requires cfg.Valid() && cfg.maxAttempts >= 1 && c.Valid() && c == CourseOf(c.hash, cfg, d, c.events, c.txn)
    requires Expected(d.p.next, c.txn) == 1
    ensures (exists accepts: nat -> bool, cancelled: nat -> bool ::
               FailsAt(Env(c.hash, accepts, cancelled), cfg, d, c.events, k))
            <==> c.CanFail(cfg.maxAttempts, k)
  {
    forall accepts: nat -> bool, cancelled: nat -> bool | FailsAt(Env(c.hash, accepts, cancelled), cfg, d, c.events, k)
      ensures c.CanFail(cfg.maxAttempts, k)
    {
      FailsOnlyWhereItCan(Env(c.hash, accepts, cancelled), cfg, d, c, k);
    }
    if c.CanFail(cfg.maxAttempts, k) {
      var s: nat := k;
      if cfg.maxAttempts > 1 {
        s :| s <= k && c.New(s) && c.Opens(s);
      }
      var env := CanFailFails(cfg, d, c, s, k);
      assert FailsAt(Env(c.hash, env.accepts, env.cancelled), cfg, d, c.events, k);
    }
  }
}
