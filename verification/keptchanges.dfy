/** Which change of a row is written: the first, for every sink, exactly when no more
    than one group can be refused. */
module KeptChanges {
  import opened Model
  import opened Delivery
  import opened Invariants
  import opened Conservation
  import Txn

  // ----- Which change of a row is kept -----

  /** The events whose keys are neither known nor those of earlier ones. */
  ghost function FirstChanges(env: Env, known: set<nat>, events: seq<ChangeEvent>): seq<ChangeEvent> {
    if events == [] then []
    else
      var n := |events| - 1;
      var before := FirstChanges(env, known, events[..n]);
      if env.KeyOf(events[n]) in known + Keys(env, events[..n]) then before else before + [events[n]]
  }

  lemma {:induction false} KeysConcat(env: Env, a: seq<ChangeEvent>, b: seq<ChangeEvent>)
    ensures Keys(env, a + b) == Keys(env, a) + Keys(env, b)
  {
    if b == [] {
      assert a + b == a;
    } else {
      var n := |b| - 1;
      KeysConcat(env, a, b[..n]);
      KeysAppend(env, a + b[..n], b[n]);
      KeysAppend(env, b[..n], b[n]);
      assert a + b == (a + b[..n]) + [b[n]] && b == b[..n] + [b[n]];
    }
  }

  lemma {:induction false} FirstChangesConcat(env: Env, known: set<nat>, a: seq<ChangeEvent>, b: seq<ChangeEvent>)
    ensures FirstChanges(env, known, a + b) ==
            FirstChanges(env, known, a) + FirstChanges(env, known + Keys(env, a), b)
  {
    if b == [] {
      assert a + b == a;
    } else {
      FirstChangesConcat(env, known, a, b[..|b| - 1]);
      KeysConcat(env, a, b[..|b| - 1]);
      assert (a + b)[..|a + b| - 1] == a + b[..|b| - 1];
    }
  }

  /** Of the group's events the first `m` are settled, the first changes among them
      written on top of `writes`. */
  ghost predicate UpTo(env: Env, known: set<nat>, writes: seq<ChangeEvent>, events: seq<ChangeEvent>, p: Progress,
                       m: nat)
  {
    && m <= |events| && p.seen == known + Keys(env, events[..m])
    && Writes(p.log) == writes + FirstChanges(env, known, events[..m])
  }

  lemma {:induction false} KnownStep(env: Env, known: set<nat>, events: seq<ChangeEvent>, m: nat)
    requires m < |events|
    ensures known + Keys(env, events[..m + 1]) == known + Keys(env, events[..m]) + {env.KeyOf(events[m])}
    ensures FirstChanges(env, known, events[..m + 1]) ==
            if env.KeyOf(events[m]) in known + Keys(env, events[..m]) then FirstChanges(env, known, events[..m])
            else FirstChanges(env, known, events[..m]) + [events[m]]
  {
    assert events[..m + 1][..m] == events[..m] && events[..m + 1] == events[..m] + [events[m]];
    KeysAppend(env, events[..m], events[m]);
  }

  lemma {:induction false} SuppressUpTo(env: Env, known: set<nat>, writes: seq<ChangeEvent>, events: seq<ChangeEvent>,
                                        p: Progress, h: nat, m: nat)
    requires UpTo(env, known, writes, events, p, m) && h <= m && h < |events| && env.KeyOf(events[h]) in p.seen
    ensures UpTo(env, known, writes, events, Suppress(p, events[h]), if h == m then m + 1 else m)
  {
    WritesAppend(p.log, Suppressed(events[h]));
    if h == m {
      KnownStep(env, known, events, m);
    }
  }

  lemma {:induction false} NewIsNext(env: Env, known: set<nat>, writes: seq<ChangeEvent>, events: seq<ChangeEvent>,
                                     p: Progress, h: nat, m: nat)
    requires UpTo(env, known, writes, events, p, m) && h <= m && h < |events| && env.KeyOf(events[h]) !in p.seen
    ensures h == m
  {
    assert forall i | 0 <= i < m :: events[..m][i] == events[i] && env.KeyOf(events[i]) in p.seen;
  }

  lemma {:induction false} AcceptUpTo(env: Env, known: set<nat>, writes: seq<ChangeEvent>, events: seq<ChangeEvent>,
                                      p: Progress, m: nat)
    requires UpTo(env, known, writes, events, p, m) && m < |events| && env.KeyOf(events[m]) !in p.seen
    ensures UpTo(env, known, writes, events, Accept(env, p, events[m]), m + 1)
  {
    KnownStep(env, known, events, m);
    WritesAppend(p.log, Wrote(events[m]));
  }

  /** Delivering a group from event `h` on, one event at a time. */
  lemma {:induction false} UnfoldGroup(env: Env, p: Progress, g: Group, h: nat, acked: nat, r: GroupResult)
    requires h < |g.events| && r == DeliverSuffix(env, p, g, g.events[h..], acked)
    ensures var ev := g.events[h];
            if env.KeyOf(ev) in p.seen then r == DeliverSuffix(env, Suppress(p, ev), g, g.events[h + 1..], acked)
            else if env.accepts(p.calls) then
              r == DeliverSuffix(env, Accept(env, p, ev), g, g.events[h + 1..], ev.sourcePos)
            else !r.ok && r.p.seen == p.seen && r.p.log == p.log + [Failed(ev)]
  {
    assert g.events[h..][0] == g.events[h] && g.events[h..][1..] == g.events[h + 1..];
  }

  /** An event that is not refused is settled, and the rest of the group goes on. */
  lemma {:induction false} StepUpTo(env: Env, known: set<nat>, writes: seq<ChangeEvent>, p: Progress, g: Group, h: nat,
                                    m: nat, acked: nat, r: GroupResult)
    returns (q: Progress, n: nat, pos: nat)
    requires UpTo(env, known, writes, g.events, p, m) && h <= m && h < |g.events|
    requires env.KeyOf(g.events[h]) in p.seen || env.accepts(p.calls)
    requires r == DeliverSuffix(env, p, g, g.events[h..], acked)
    ensures UpTo(env, known, writes, g.events, q, n) && m <= n && h + 1 <= n
    ensures r == DeliverSuffix(env, q, g, g.events[h + 1..], pos)
  {
    var ev := g.events[h];
    UnfoldGroup(env, p, g, h, acked, r);
    if env.KeyOf(ev) in p.seen {
      SuppressUpTo(env, known, writes, g.events, p, h, m);
      q, n, pos := Suppress(p, ev), if h == m then m + 1 else m, acked;
    } else {
      NewIsNext(env, known, writes, g.events, p, h, m);
      AcceptUpTo(env, known, writes, g.events, p, m);
      q, n, pos := Accept(env, p, ev), m + 1, ev.sourcePos;
    }
  }

  lemma {:induction false} RefusedUpTo(env: Env, known: set<nat>, writes: seq<ChangeEvent>, p: Progress, g: Group,
                                       h: nat, m: nat, acked: nat, r: GroupResult)
    requires UpTo(env, known, writes, g.events, p, m) && h < |g.events|
    requires env.KeyOf(g.events[h]) !in p.seen && !env.accepts(p.calls)
    requires r == DeliverSuffix(env, p, g, g.events[h..], acked)
    ensures UpTo(env, known, writes, g.events, r.p, m) && !r.ok && r.p.seen == p.seen
  {
    UnfoldGroup(env, p, g, h, acked, r);
    WritesAppend(p.log, Failed(g.events[h]));
  }

  lemma {:induction false} GroupUpTo(env: Env, known: set<nat>, writes: seq<ChangeEvent>, p: Progress, g: Group, h: nat,
                                     m: nat, acked: nat, r: GroupResult)
    returns (k: nat)
    requires UpTo(env, known, writes, g.events, p, m) && h <= m && r == DeliverSuffix(env, p, g, g.events[h..], acked)
    ensures m <= k && UpTo(env, known, writes, g.events, r.p, k)
    ensures if r.ok then k == |g.events| else k < |g.events| && env.KeyOf(g.events[k]) !in r.p.seen
    decreases |g.events| - h
  {
    k := m;
    if h == |g.events| {
    } else if env.KeyOf(g.events[h]) in p.seen || env.accepts(p.calls) {
      var q, n, pos := StepUpTo(env, known, writes, p, g, h, m, acked, r);
      k := GroupUpTo(env, known, writes, q, g, h + 1, n, pos, r);
    } else {
      NewIsNext(env, known, writes, g.events, p, h, m);
      RefusedUpTo(env, known, writes, p, g, h, m, acked, r);
    }
  }

  /** A call from `p` to `q` has settled the events by writing their first changes. */
  ghost predicate WritesFirst(env: Env, p: Progress, events: seq<ChangeEvent>, q: Progress) {
    && q.seen == p.seen + Keys(env, events)
    && Writes(q.log) == Writes(p.log) + FirstChanges(env, p.seen, events)
  }

  lemma {:induction false} WritesFirstThen(env: Env, p: Progress, a: seq<ChangeEvent>, q: Progress,
                                           b: seq<ChangeEvent>, r: Progress)
    requires WritesFirst(env, p, a, q) && WritesFirst(env, q, b, r)
    ensures WritesFirst(env, p, a + b, r)
  {
    KeysConcat(env, a, b);
    assert r.seen == p.seen + Keys(env, a + b);
    FirstChangesConcat(env, p.seen, a, b);
    Regrouped(Writes(p.log), FirstChanges(env, p.seen, a), FirstChanges(env, q.seen, b));
  }

  lemma Regrouped(a: seq<ChangeEvent>, b: seq<ChangeEvent>, c: seq<ChangeEvent>)
    ensures (a + b) + c == a + (b + c)
  {
  }

  // ----- Passes over untagged groups -----

  /** A pass in which nothing is refused writes the first changes of its groups. */
  lemma {:induction false} PassWritesFirst(env: Env, p: Progress, pending: seq<Group>)
    requires Untagged(pending) && Pass(env, p, pending).failed.None?
    ensures WritesFirst(env, p, GroupEvents(pending), Pass(env, p, pending).p)
    decreases |pending|
  {
    if pending == [] {
    } else {
      var g := pending[0];
      assert g in pending;
      var d := Delivery.DeliverGroup(env, p, g);
      assert g.events[0..] == g.events && g.events[..|g.events|] == g.events;
      var k := GroupUpTo(env, p.seen, Writes(p.log), p, g, 0, 0, 0, d);
      PassWritesFirst(env, d.p, pending[1..]);
      WritesFirstThen(env, p, g.events, d.p, GroupEvents(pending[1..]), Pass(env, p, pending).p);
    }
  }

  ghost predicate HoldsNew(hash: string -> nat, known: set<nat>, g: Group) {
    exists i :: 0 <= i < |g.events| && hash(TableKey(g.events[i])) !in known
  }

  /** A group without a new key is suppressed. */
  lemma {:induction false} KnownGroup(env: Env, p: Progress, g: Group, evs: seq<ChangeEvent>, acked: nat)
    requires g.txnId == "" && forall e | e in evs :: env.KeyOf(e) in p.seen
    ensures var r := DeliverSuffix(env, p, g, evs, acked);
            r.ok && r.p == p.(log := r.p.log) && Writes(r.p.log) == Writes(p.log)
    decreases |evs|
  {
    if evs == [] {
    } else {
      assert evs[0] in evs;
      WritesAppend(p.log, Suppressed(evs[0]));
      KnownGroup(env, Suppress(p, evs[0]), g, evs[1..], acked);
    }
  }

  /** Of the pending groups only `g` holds new keys. */
  ghost predicate OnlyNew(env: Env, known: set<nat>, pending: seq<Group>, g: Group) {
    forall x | x in pending :: x.txnId == "" && (x == g || !HoldsNew(env.hash, known, x))
  }

  lemma {:induction false} PassUpTo(env: Env, known: set<nat>, writes: seq<ChangeEvent>, p: Progress,
                                    pending: seq<Group>, g: Group, m: nat)
    returns (k: nat)
    requires UpTo(env, known, writes, g.events, p, m) && OnlyNew(env, known, pending, g)
    ensures var r := Pass(env, p, pending);
            && m <= k && UpTo(env, known, writes, g.events, r.p, k)
            && (r.failed.None? && g in pending ==> k == |g.events|)
            && (r.failed.Some? ==> g in r.next) && forall x | x in r.next :: x in pending
    decreases |pending|
  {
    k := m;
    if pending == [] {
    } else {
      var x := pending[0];
      assert x in pending && x.events[0..] == x.events;
      var d := Delivery.DeliverGroup(env, p, x);
      if x == g {
        k := GroupUpTo(env, known, writes, p, g, 0, m, 0, d);
      } else {
        forall e | e in x.events
          ensures env.KeyOf(e) in p.seen
        {
          var i :| 0 <= i < |x.events| && x.events[i] == e;
        }
        KnownGroup(env, p, x, x.events, 0);
      }
      k := PassUpTo(env, known, writes, d.p, pending[1..], g, k);
    }
  }

  /** An attempt ends the call, or another one follows. */
  lemma DrainUnfolds(env: Env, p: Progress, pending: seq<Group>, attempt: int, maxAttempts: int, s: PassResult,
                     r: DrainResult)
    requires attempt <= maxAttempts && s == Pass(env, p, pending)
    requires r == Drain(env, p, pending, attempt, maxAttempts)
    ensures if s.failed.None? then r.p == s.p
            else if attempt == maxAttempts || env.cancelled(s.p.calls) then r.p == s.p && r.verdict != Delivered
            else var rest := Drain(env, s.p, s.next, attempt + 1, maxAttempts);
                 r.p == rest.p && r.verdict == rest.verdict
  {
  }

  /** When only `g` holds new keys, each attempt goes on with it where the last one
      stopped. */
  lemma {:induction false} DrainUpTo(env: Env, known: set<nat>, writes: seq<ChangeEvent>, p: Progress,
                                     pending: seq<Group>, g: Group, m: nat, attempt: int, maxAttempts: int,
                                     r: DrainResult)
    returns (k: nat)
    requires UpTo(env, known, writes, g.events, p, m) && OnlyNew(env, known, pending, g) && g in pending
    requires attempt <= maxAttempts && r == Drain(env, p, pending, attempt, maxAttempts)
    ensures UpTo(env, known, writes, g.events, r.p, k) && (r.verdict == Delivered ==> k == |g.events|)
    decreases maxAttempts - attempt
  {
    var s := Pass(env, p, pending);
    k := PassUpTo(env, known, writes, p, pending, g, m);
    DrainUnfolds(env, p, pending, attempt, maxAttempts, s, r);
    if s.failed.None? || attempt == maxAttempts || env.cancelled(s.p.calls) {
    } else {
      var rest := Drain(env, s.p, s.next, attempt + 1, maxAttempts);
      k := DrainUpTo(env, known, writes, s.p, s.next, g, k, attempt + 1, maxAttempts, rest);
    }
  }

  // ----- When the first changes are kept -----

  ghost predicate OneHoldsNew(hash: string -> nat, known: set<nat>, groups: seq<Group>) {
    forall i, j | 0 <= i < j < |groups| :: !HoldsNew(hash, known, groups[i]) || !HoldsNew(hash, known, groups[j])
  }

  ghost predicate NoneNew(hash: string -> nat, known: set<nat>, events: seq<ChangeEvent>) {
    forall e | e in events :: hash(TableKey(e)) in known
  }

  /** One attempt is made, or several and only one group holds new keys, or none and
      there is nothing new. */
  ghost predicate KeepsFirst(hash: string -> nat, cfg: Config, known: set<nat>, events: seq<ChangeEvent>)
    requires cfg.Valid()
  {
    if cfg.maxAttempts < 1 then NoneNew(hash, known, events)
    else events != [] && cfg.maxAttempts > 1 ==> OneHoldsNew(hash, known, Groups(cfg, events))
  }

  lemma {:induction false} NoneNewKeeps(env: Env, known: set<nat>, events: seq<ChangeEvent>)
    requires NoneNew(env.hash, known, events)
    ensures known + Keys(env, events) == known && FirstChanges(env, known, events) == []
  {
    if events == [] {
    } else {
      var n := |events| - 1;
      assert events[n] in events;
      NoneNewKeeps(env, known, events[..n]);
      assert events == events[..n] + [events[n]];
      KeysAppend(env, events[..n], events[n]);
    }
  }

  lemma GroupWithout(hash: string -> nat, known: set<nat>, g: Group)
    requires !HoldsNew(hash, known, g)
    ensures NoneNew(hash, known, g.events)
  {
  }

  lemma {:induction false} GroupsWithout(env: Env, known: set<nat>, groups: seq<Group>)
    requires forall i | 0 <= i < |groups| :: !HoldsNew(env.hash, known, groups[i])
    ensures NoneNew(env.hash, known, GroupEvents(groups))
  {
    if groups == [] {
    } else {
      GroupWithout(env.hash, known, groups[0]);
      GroupsWithout(env, known, groups[1..]);
    }
  }

  lemma {:induction false} GroupsSplit(groups: seq<Group>, i: nat)
    requires i < |groups|
    ensures GroupEvents(groups) ==
            GroupEvents(groups[..i]) + (groups[i].events + GroupEvents(groups[i + 1..]))
  {
    assert groups == groups[..i] + groups[i..] && groups[i..][0] == groups[i] && groups[i..][1..] == groups[i + 1..];
    GroupEventsConcat(groups[..i], groups[i..]);
  }

  /** Around events with new keys others add nothing. */
  lemma {:induction false} OnlyMiddleCounts(env: Env, known: set<nat>, a: seq<ChangeEvent>, b: seq<ChangeEvent>,
                                            c: seq<ChangeEvent>)
    requires NoneNew(env.hash, known, a) && NoneNew(env.hash, known, c)
    ensures FirstChanges(env, known, a + (b + c)) == FirstChanges(env, known, b)
    ensures known + Keys(env, a + (b + c)) == known + Keys(env, b)
  {
    NoneNewKeeps(env, known, a);
    assert NoneNew(env.hash, known + Keys(env, b), c);
    NoneNewKeeps(env, known + Keys(env, b), c);
    FirstChangesConcat(env, known, a, b + c);
    FirstChangesConcat(env, known, b, c);
    KeysConcat(env, a, b + c);
    KeysConcat(env, b, c);
  }

  /** Around the one group with new keys there is nothing to write. */
  lemma {:induction false} OnlyGroupCounts(env: Env, known: set<nat>, groups: seq<Group>, i: nat)
    requires i < |groups| && forall j | 0 <= j < |groups| && j != i :: !HoldsNew(env.hash, known, groups[j])
    ensures FirstChanges(env, known, GroupEvents(groups)) == FirstChanges(env, known, groups[i].events)
    ensures known + Keys(env, GroupEvents(groups)) == known + Keys(env, groups[i].events)
  {
    GroupsSplit(groups, i);
    GroupsWithout(env, known, groups[..i]);
    GroupsWithout(env, known, groups[i + 1..]);
    OnlyMiddleCounts(env, known, GroupEvents(groups[..i]), groups[i].events, GroupEvents(groups[i + 1..]));
  }

  lemma {:induction false} OneGroupWritesFirst(env: Env, p: Progress, groups: seq<Group>, i: nat, maxAttempts: int)
    requires i < |groups| && Untagged(groups) && maxAttempts >= 1
    requires forall j | 0 <= j < |groups| && j != i :: !HoldsNew(env.hash, p.seen, groups[j])
    requires Drain(env, p, groups, 1, maxAttempts).verdict == Delivered
    ensures WritesFirst(env, p, GroupEvents(groups), Drain(env, p, groups, 1, maxAttempts).p)
  {
    var g := groups[i];
    assert g.events[..|g.events|] == g.events;
    var r := Drain(env, p, groups, 1, maxAttempts);
    var k := DrainUpTo(env, p.seen, Writes(p.log), p, groups, g, 0, 1, maxAttempts, r);
    OnlyGroupCounts(env, p.seen, groups, i);
  }

  lemma {:induction false} CallWritesFirst(env: Env, cfg: Config, d: DState, events: seq<ChangeEvent>)
    requires cfg.Valid() && UntaggedEvents(events) && KeepsFirst(env.hash, cfg, d.p.seen, events)
    requires DeliverEvents(env, cfg, d, events).verdict == Delivered
    ensures WritesFirst(env, d.p, events, DeliverEvents(env, cfg, d, events).d.p)
  {
    if events == [] {
    } else if cfg.maxAttempts < 1 {
      NoneNewKeeps(env, d.p.seen, events);
    } else {
      var groups := Groups(cfg, events);
      GroupsStart(cfg, events);
      GroupsHoldEvents(cfg, events);
      if cfg.maxAttempts == 1 {
        PassWritesFirst(env, d.p, groups);
      } else if i :| 0 <= i < |groups| && HoldsNew(env.hash, d.p.seen, groups[i]) {
        OneGroupWritesFirst(env, d.p, groups, i, cfg.maxAttempts);
      } else {
        OneGroupWritesFirst(env, d.p, groups, 0, cfg.maxAttempts);
      }
    }
  }

  // ----- A refused group is overtaken -----

  /** The sink refuses call number `call` and accepts all later ones. */
  ghost predicate RefusesThenAccepts(env: Env, call: nat) {
    !env.accepts(call) && AcceptsFrom(env, call + 1) && forall i :: !env.cancelled(i)
  }

  /** A group that holds a new key is stopped at the first by a sink that refuses it. */
  lemma {:induction false} FirstNewRefused(env: Env, p: Progress, g: Group, h: nat, acked: nat)
    requires g.txnId == "" && h <= |g.events| && !env.accepts(p.calls)
    requires exists i :: h <= i < |g.events| && env.KeyOf(g.events[i]) !in p.seen
    ensures var r := DeliverSuffix(env, p, g, g.events[h..], acked);
            && !r.ok && r.p.seen == p.seen && r.p.calls == p.calls + 1 && Writes(r.p.log) == Writes(p.log)
    decreases |g.events| - h
  {
    var ev := g.events[h];
    UnfoldGroup(env, p, g, h, acked, DeliverSuffix(env, p, g, g.events[h..], acked));
    WritesAppend(p.log, Suppressed(ev));
    WritesAppend(p.log, Failed(ev));
    if env.KeyOf(ev) in p.seen {
      FirstNewRefused(env, Suppress(p, ev), g, h + 1, acked);
    } else {
      assert g.events[h..][0] == ev;
    }
  }

  /** The first group is stopped, and those after it are delivered. */
  lemma {:induction false} FirstIsOvertaken(env: Env, p: Progress, pending: seq<Group>)
    requires Untagged(pending) && RefusesThenAccepts(env, p.calls) && pending != []
    requires HoldsNew(env.hash, p.seen, pending[0])
    ensures var r := Pass(env, p, pending);
            && r.failed == Some(pending[0]) && r.next == [pending[0]] && r.p.calls > p.calls
            && WritesFirst(env, p, GroupEvents(pending[1..]), r.p)
  {
    var g, d := pending[0], Delivery.DeliverGroup(env, p, pending[0]);
    assert g in pending && g.events[0..] == g.events;
    FirstNewRefused(env, p, g, 0, 0);
    AcceptedPass(env, d.p, pending[1..]);
    PassConserves(env, d.p, pending[1..]);
    PassWritesFirst(env, d.p, pending[1..]);
  }

  /** A pass over a group without a new key. */
  lemma {:induction false} KnownPass(env: Env, p: Progress, pending: seq<Group>) returns (q: Progress)
    requires pending != [] && pending[0].txnId == "" && !HoldsNew(env.hash, p.seen, pending[0])
    ensures q == p.(log := q.log) && Writes(q.log) == Writes(p.log)
    ensures var r, s := Pass(env, p, pending), Pass(env, q, pending[1..]);
            r.p == s.p && r.next == s.next && r.failed == s.failed
  {
    GroupWithout(env.hash, p.seen, pending[0]);
    KnownGroup(env, p, pending[0], pending[0].events, 0);
    q := Delivery.DeliverGroup(env, p, pending[0]).p;
  }

  /** What a pass does whose first group with a new key is group `i`: that one is
      stopped, and those after it are delivered. */
  lemma {:induction false} PassOvertakes(env: Env, p: Progress, pending: seq<Group>, i: nat)
    requires Untagged(pending) && RefusesThenAccepts(env, p.calls) && i < |pending|
    requires HoldsNew(env.hash, p.seen, pending[i])
    requires forall j | 0 <= j < i :: !HoldsNew(env.hash, p.seen, pending[j])
    ensures var r := Pass(env, p, pending);
            && r.failed == Some(pending[i]) && r.next == [pending[i]] && r.p.calls > p.calls
            && WritesFirst(env, p, GroupEvents(pending[i + 1..]), r.p)
    decreases |pending|
  {
    if i == 0 {
      FirstIsOvertaken(env, p, pending);
    } else {
      assert pending[0] in pending;
      var q := KnownPass(env, p, pending);
      assert pending[1..][i - 1] == pending[i] && pending[1..][i..] == pending[i + 1..];
      PassOvertakes(env, q, pending[1..], i - 1);
    }
  }

  /** The call succeeds at the second attempt: group `i` is written last. */
  lemma {:induction false} DrainOvertakes(env: Env, p: Progress, groups: seq<Group>, i: nat, maxAttempts: int)
    requires Untagged(groups) && RefusesThenAccepts(env, p.calls) && i < |groups| && maxAttempts > 1
    requires HoldsNew(env.hash, p.seen, groups[i])
    requires forall j | 0 <= j < i :: !HoldsNew(env.hash, p.seen, groups[j])
    ensures var r, later := Drain(env, p, groups, 1, maxAttempts), GroupEvents(groups[i + 1..]);
            r.verdict == Delivered && r.p.calls > p.calls && WritesFirst(env, p, later + groups[i].events, r.p)
  {
    var s, g := Pass(env, p, groups), groups[i];
    PassOvertakes(env, p, groups, i);
    AcceptedPass(env, s.p, [g]);
    assert g in groups;
    OneGroupAgain(env, s.p, g, maxAttempts);
    WritesFirstThen(env, p, GroupEvents(groups[i + 1..]), s.p, g.events, Drain(env, s.p, [g], 2, maxAttempts).p);
  }

  lemma EventsOfOne(g: Group)
    ensures GroupEvents([g]) == g.events
  {
    assert [g][1..] == [] && g.events + [] == g.events;
  }

  lemma OneGroupAgain(env: Env, p: Progress, g: Group, maxAttempts: int)
    requires g.txnId == "" && AcceptsFrom(env, p.calls) && maxAttempts > 1
    ensures var r := Drain(env, p, [g], 2, maxAttempts);
            r.verdict == Delivered && r.p.calls >= p.calls && WritesFirst(env, p, g.events, r.p)
  {
    AcceptedPass(env, p, [g]);
    PassWritesFirst(env, p, [g]);
    EventsOfOne(g);
  }

  lemma {:induction false} FirstChangesMembers(env: Env, known: set<nat>, events: seq<ChangeEvent>)
    ensures forall e | e in FirstChanges(env, known, events) :: e in events
    ensures FirstChanges(env, known, events) == [] <==> NoneNew(env.hash, known, events)
  {
    if events == [] {
    } else {
      var n := |events| - 1;
      assert events == events[..n] + [events[n]];
      FirstChangesMembers(env, known, events[..n]);
      if NoneNew(env.hash, known, events[..n]) {
        NoneNewKeeps(env, known, events[..n]);
      }
    }
  }

  lemma {:induction false} FirstOfFirst(env: Env, known: set<nat>, a: seq<ChangeEvent>, b: seq<ChangeEvent>)
    requires !NoneNew(env.hash, known, a)
    ensures FirstChanges(env, known, a + b) != [] && FirstChanges(env, known, a + b)[0] in a
  {
    FirstChangesConcat(env, known, a, b);
    FirstChangesMembers(env, known, a);
  }

  lemma HalvesApart(a: seq<ChangeEvent>, b: seq<ChangeEvent>, e: ChangeEvent)
    requires NoRepeats(a + b) && e in a
    ensures e !in b
  {
    var i :| 0 <= i < |a| && a[i] == e;
    forall j | 0 <= j < |b|
      ensures b[j] != e
    {
      assert (a + b)[i] == e && (a + b)[|a| + j] == b[j];
    }
  }

  predicate DifferAt(a: seq<ChangeEvent>, b: seq<ChangeEvent>, k: nat) {
    k < |a| && k < |b| && a[k] != b[k]
  }

  /** At some place the sequences hold different events. */
  ghost predicate Differ(a: seq<ChangeEvent>, b: seq<ChangeEvent>) {
    exists k: nat :: DifferAt(a, b, k)
  }

  /** Writing `b` before `a` does not keep the first changes of both. */
  lemma {:induction false} SwappedFirst(env: Env, known: set<nat>, a: seq<ChangeEvent>, b: seq<ChangeEvent>)
    requires NoRepeats(a + b) && !NoneNew(env.hash, known, a) && !NoneNew(env.hash, known, b)
    ensures Differ(FirstChanges(env, known, b + a), FirstChanges(env, known, a + b))
  {
    FirstOfFirst(env, known, a, b);
    FirstOfFirst(env, known, b, a);
    HalvesApart(a, b, FirstChanges(env, known, a + b)[0]);
    assert DifferAt(FirstChanges(env, known, b + a), FirstChanges(env, known, a + b), 0);
  }

  /** The call, if it succeeds, writes the first changes of its events. */
  ghost predicate SuccessKeepsFirst(env: Env, cfg: Config, d: DState, events: seq<ChangeEvent>)
    requires cfg.Valid()
  {
    var r := DeliverEvents(env, cfg, d, events);
    r.verdict == Delivered ==> Writes(r.d.p.log) == Writes(d.p.log) + FirstChanges(env, d.p.seen, events)
  }

  lemma {:induction false} FirstGroupWithNew(hash: string -> nat, known: set<nat>, groups: seq<Group>, k: nat)
    returns (i: nat)
    requires k < |groups| && HoldsNew(hash, known, groups[k])
    ensures i <= k && HoldsNew(hash, known, groups[i]) && forall j | 0 <= j < i :: !HoldsNew(hash, known, groups[j])
  {
    if m :| 0 <= m < k && HoldsNew(hash, known, groups[m]) {
      i := FirstGroupWithNew(hash, known, groups, m);
    } else {
      i := k;
    }
  }

  lemma NewIn(hash: string -> nat, known: set<nat>, g: Group, events: seq<ChangeEvent>)
    requires HoldsNew(hash, known, g) && forall e | e in g.events :: e in events
    ensures !NoneNew(hash, known, events)
  {
    var i :| 0 <= i < |g.events| && hash(TableKey(g.events[i])) !in known;
    assert g.events[i] in events;
  }

  lemma {:induction false} GroupInEvents(groups: seq<Group>, k: nat)
    requires k < |groups|
    ensures forall e | e in groups[k].events :: e in GroupEvents(groups)
  {
    if k == 0 {
    } else {
      GroupInEvents(groups[1..], k - 1);
      assert groups[1..][k - 1] == groups[k];
    }
  }

  lemma NoRepeatsTail(a: seq<ChangeEvent>, b: seq<ChangeEvent>)
    requires NoRepeats(a + b)
    ensures NoRepeats(b)
  {
    assert forall x | 0 <= x < |b| :: b[x] == (a + b)[|a| + x];
  }

  /** The groups before the first with a new key add no first change. */
  lemma {:induction false} FirstFrom(env: Env, known: set<nat>, groups: seq<Group>, i: nat)
    requires i < |groups| && forall j | 0 <= j < i :: !HoldsNew(env.hash, known, groups[j])
    requires NoRepeats(GroupEvents(groups))
    ensures var rest := groups[i].events + GroupEvents(groups[i + 1..]);
            FirstChanges(env, known, GroupEvents(groups)) == FirstChanges(env, known, rest) && NoRepeats(rest)
  {
    var before, rest := GroupEvents(groups[..i]), groups[i].events + GroupEvents(groups[i + 1..]);
    GroupsSplit(groups, i);
    GroupsWithout(env, known, groups[..i]);
    NoneNewKeeps(env, known, before);
    FirstChangesConcat(env, known, before, rest);
    NoRepeatsTail(before, rest);
  }

  /** Both halves of a batch hold new keys when groups of both do. */
  lemma {:induction false} BothHalvesNew(env: Env, known: set<nat>, groups: seq<Group>, i: nat, k: nat)
    requires i < k < |groups|
    requires HoldsNew(env.hash, known, groups[i]) && HoldsNew(env.hash, known, groups[k])
    ensures !NoneNew(env.hash, known, groups[i].events)
    ensures !NoneNew(env.hash, known, GroupEvents(groups[i + 1..]))
  {
    assert groups[i + 1..][k - i - 1] == groups[k];
    GroupInEvents(groups[i + 1..], k - i - 1);
    NewIn(env.hash, known, groups[i], groups[i].events);
    NewIn(env.hash, known, groups[k], GroupEvents(groups[i + 1..]));
  }

  lemma {:induction false} OvertakingLosesFirst(env: Env, p: Progress, groups: seq<Group>, i: nat, k: nat,
                                                q: Progress)
    requires i < k < |groups| && NoRepeats(GroupEvents(groups))
    requires HoldsNew(env.hash, p.seen, groups[i]) && HoldsNew(env.hash, p.seen, groups[k])
    requires forall j | 0 <= j < i :: !HoldsNew(env.hash, p.seen, groups[j])
    requires WritesFirst(env, p, GroupEvents(groups[i + 1..]) + groups[i].events, q)
    ensures Differ(Writes(q.log), Writes(p.log) + FirstChanges(env, p.seen, GroupEvents(groups)))
  {
    var a, b := groups[i].events, GroupEvents(groups[i + 1..]);
    FirstFrom(env, p.seen, groups, i);
    BothHalvesNew(env, p.seen, groups, i, k);
    SwappedFirst(env, p.seen, a, b);
    DifferAfter(Writes(p.log), FirstChanges(env, p.seen, b + a), FirstChanges(env, p.seen, a + b));
  }

  lemma DifferAfter(a: seq<ChangeEvent>, b: seq<ChangeEvent>, c: seq<ChangeEvent>)
    requires Differ(b, c)
    ensures Differ(a + b, a + c)
  {
    var k: nat :| DifferAt(b, c, k);
    assert DifferAt(a + b, a + c, |a| + k);
  }

  /** With a sink that refuses only the first write of the call, the group it belongs to
      is overtaken by the next one that holds a new key. */
  lemma {:induction false} RefusedGroupIsOvertaken(env: Env, cfg: Config, d: DState, events: seq<ChangeEvent>)
    requires cfg.Valid() && UntaggedEvents(events) && NoRepeats(events) && RefusesThenAccepts(env, d.p.calls)
    requires cfg.maxAttempts > 1 && !KeepsFirst(env.hash, cfg, d.p.seen, events)
    ensures var r := DeliverEvents(env, cfg, d, events);
            && r.verdict == Delivered && r.d.p.calls > d.p.calls
            && Differ(Writes(r.d.p.log), Writes(d.p.log) + FirstChanges(env, d.p.seen, events))
  {
    var groups := Groups(cfg, events);
    var m, k :| 0 <= m < k < |groups|
                && HoldsNew(env.hash, d.p.seen, groups[m]) && HoldsNew(env.hash, d.p.seen, groups[k]);
    var i := FirstGroupWithNew(env.hash, d.p.seen, groups, m);
    GroupsStart(cfg, events);
    GroupsHoldEvents(cfg, events);
    DrainOvertakes(env, d.p, groups, i, cfg.maxAttempts);
    OvertakingLosesFirst(env, d.p, groups, i, k, Drain(env, d.p, groups, 1, cfg.maxAttempts).p);
  }

  /** A successful untagged batch of different events writes exactly the first change of
      each new delivery key, in order, whatever the sink and the context do, if and only
      if one attempt is made, or several and at most one group holds new keys, or none
      and there is nothing new. */
  lemma {:induction false} FirstKeptIff(hash: string -> nat, cfg: Config, d: DState, events: seq<ChangeEvent>)
    requires cfg.Valid() && UntaggedEvents(events) && NoRepeats(events)
    ensures (forall accepts: nat -> bool, cancelled: nat -> bool ::
               SuccessKeepsFirst(Env(hash, accepts, cancelled), cfg, d, events))
            <==> KeepsFirst(hash, cfg, d.p.seen, events)
  {
    if KeepsFirst(hash, cfg, d.p.seen, events) {
      forall accepts: nat -> bool, cancelled: nat -> bool
        ensures SuccessKeepsFirst(Env(hash, accepts, cancelled), cfg, d, events)
      {
        var env := Env(hash, accepts, cancelled);
        if DeliverEvents(env, cfg, d, events).verdict == Delivered {
          CallWritesFirst(env, cfg, d, events);
        }
      }
    } else {
      var env := Env(hash, i => i != d.p.calls, i => false);
      if cfg.maxAttempts < 1 {
        FirstChangesMembers(env, d.p.seen, events);
      } else {
        RefusedGroupIsOvertaken(env, cfg, d, events);
      }
      assert !SuccessKeepsFirst(Env(hash, env.accepts, env.cancelled), cfg, d, events);
    }
  }

  const EARLIER := ChangeEvent(1, "t", OpUpdate, [], "k", "", 0, 1, 0, 1)
  const LATER := ChangeEvent(2, "t", OpUpdate, [], "k", "", 0, 1, 0, 2)

  /** The shortest such run: the first write of a row is refused, the row's next change in
      the group behind it is written, and the retry drops the first. */
  lemma {:induction false} LaterChangeWins(hash: string -> nat)
    ensures var env, cfg := Env(hash, i => i != 0, i => false), Config(2, Some(1));
            var r := DeliverEvents(env, cfg, DState(INITIAL, []), [EARLIER, LATER]);
            r.verdict == Delivered && r.d.p.log == [Failed(EARLIER), Wrote(LATER), Suppressed(EARLIER)]
  {
    var env, cfg := Env(hash, i => i != 0, i => false), Config(2, Some(1));
    var a, b := ToGroup([EARLIER]), ToGroup([LATER]);
    assert [EARLIER, LATER][..1] == [EARLIER] && [EARLIER, LATER][1..] == [LATER];
    assert Txn.Chunks([LATER], 1) == [[LATER]] && Txn.Chunks([EARLIER, LATER], 1) == [[EARLIER], [LATER]];
    assert [[EARLIER], [LATER]][1..] == [[LATER]] && ToGroups([[LATER]]) == [b];
    assert Groups(cfg, [EARLIER, LATER]) == [a, b];
    var p1 := Reject(INITIAL, EARLIER);
    var p2 := Accept(env, p1, LATER);
    var p3 := Suppress(p2, EARLIER);
    assert TableKey(EARLIER) == TableKey(LATER);
    assert [LATER][1..] == [] && [EARLIER][1..] == [] && [a, b][1..] == [b] && [b][1..] == [] && [a][1..] == [];
    assert Delivery.DeliverGroup(env, INITIAL, a) == GroupResult(p1, 0, false);
    assert DeliverSuffix(env, p2, b, [], 2) == GroupResult(p2, 2, true);
    assert Delivery.DeliverGroup(env, p1, b) == GroupResult(p2, 2, true);
    assert Pass(env, p2, []) == PassResult(p2, [], 0, None);
    assert Pass(env, p1, [b]) == PassResult(p2, [], 2, None);
    assert Pass(env, INITIAL, [a, b]) == PassResult(p2, [a], 2, Some(a));
    assert DeliverSuffix(env, p3, a, [], 0) == GroupResult(p3, 0, true);
    assert Delivery.DeliverGroup(env, p2, a) == GroupResult(p3, 0, true);
    assert Pass(env, p3, []) == PassResult(p3, [], 0, None);
    assert Pass(env, p2, [a]) == PassResult(p3, [], 0, None);
    assert Drain(env, p2, [a], 2, 2).p == p3;
  }
}
