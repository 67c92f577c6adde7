/** Nothing handed to the dispatcher is lost by it: each event is settled or still
    pending at every return, and what the returned position means. */
module Conservation {
  import opened Model
  import opened Txn
  import opened Delivery
  import opened Invariants

  /** `ev` was written, or suppressed as already delivered, between `p` and `q`. */
  ghost predicate Handled(p: Progress, q: Progress, ev: ChangeEvent) {
    exists k :: |p.log| <= k < |q.log| && (q.log[k] == Wrote(ev) || q.log[k] == Suppressed(ev))
  }

  ghost predicate Settled(env: Env, q: Progress, ev: ChangeEvent) {
    env.KeyOf(ev) in q.seen
  }

  ghost predicate Done(env: Env, p: Progress, q: Progress, ev: ChangeEvent) {
    Handled(p, q, ev) && Settled(env, q, ev)
  }

  ghost predicate AllDone(env: Env, p: Progress, q: Progress, events: seq<ChangeEvent>) {
    forall i | 0 <= i < |events| :: Done(env, p, q, events[i])
  }

  /** `pos` is 0 or the position of an event written between `p` and `q`. */
  ghost predicate AckedHere(p: Progress, q: Progress, pos: nat) {
    pos == 0 || exists k :: |p.log| <= k < |q.log| && q.log[k].Wrote? && q.log[k].event.sourcePos == pos
  }

  lemma Later(env: Env, p: Progress, q: Progress, r: Progress)
    requires Extends(p, q) && Extends(q, r)
    ensures Extends(p, r)
    ensures forall ev :: Done(env, p, q, ev) || Done(env, q, r, ev) ==> Done(env, p, r, ev)
    ensures forall pos :: AckedHere(p, q, pos) || AckedHere(q, r, pos) ==> AckedHere(p, r, pos)
  {
    assert forall k | 0 <= k < |q.log| :: q.log[k] == r.log[k];
  }

  // ----- Order-preserving subsequences -----

  ghost predicate Subseq<T(!new)>(a: seq<T>, b: seq<T>) {
    if a == [] then true
    else if b == [] then false
    else (a[0] == b[0] && Subseq(a[1..], b[1..])) || Subseq(a, b[1..])
  }

  lemma {:induction false} SubseqRefl<T(!new)>(a: seq<T>)
    ensures Subseq(a, a)
  {
    if a == [] {
    } else {
      SubseqRefl(a[1..]);
    }
  }

  lemma {:induction false} SubseqTrans<T(!new)>(a: seq<T>, b: seq<T>, c: seq<T>)
    requires Subseq(a, b) && Subseq(b, c)
    ensures Subseq(a, c)
    decreases |a| + |b| + |c|
  {
    if a == [] {
    } else if b[0] == c[0] && Subseq(b[1..], c[1..]) {
      if a[0] == b[0] && Subseq(a[1..], b[1..]) {
        SubseqTrans(a[1..], b[1..], c[1..]);
      } else {
        SubseqTrans(a, b[1..], c[1..]);
      }
    } else {
      SubseqTrans(a, b, c[1..]);
    }
  }

  lemma {:induction false} SubseqIn<T(!new)>(a: seq<T>, b: seq<T>)
    requires Subseq(a, b)
    ensures forall x | x in a :: x in b
  {
    if a == [] {
    } else {
      assert a == [a[0]] + a[1..] && b == [b[0]] + b[1..];
      if a[0] == b[0] && Subseq(a[1..], b[1..]) {
        SubseqIn(a[1..], b[1..]);
      } else {
        SubseqIn(a, b[1..]);
      }
    }
  }

  // ----- Group, pass, drain -----

  lemma {:induction false} SuffixConserves(env: Env, p: Progress, g: Group, evs: seq<ChangeEvent>, acked: nat)
    ensures var r := DeliverSuffix(env, p, g, evs, acked);
            && Extends(p, r.p)
            && (r.ok ==> AllDone(env, p, r.p, evs))
            && (r.acked == acked || AckedHere(p, r.p, r.acked))
    decreases |evs|
  {
    ExtendsIsStable(env, p);
    SuffixKeeps(env, e => true, q => Extends(p, q), p, g, evs, acked);
    if evs == [] {
    } else {
      var ev, r := evs[0], DeliverSuffix(env, p, g, evs, acked);
      if env.KeyOf(ev) in p.seen {
        var q := Suppress(p, ev);
        assert q.log[|p.log|] == Suppressed(ev);
        SuffixConserves(env, q, g, evs[1..], acked);
        Later(env, p, q, r.p);
        assert Done(env, p, q, ev);
        assert r.ok ==> forall i | 1 <= i < |evs| :: evs[i] == evs[1..][i - 1] && Done(env, q, r.p, evs[1..][i - 1]);
      } else if env.accepts(p.calls) {
        var q := Accept(env, p, ev);
        assert q.log[|p.log|] == Wrote(ev);
        assert Extends(p, q) && AckedHere(p, q, ev.sourcePos);
        SuffixConserves(env, q, g, evs[1..], ev.sourcePos);
        Later(env, p, q, r.p);
        assert Done(env, p, q, ev);
        assert r.ok ==> forall i | 1 <= i < |evs| :: evs[i] == evs[1..][i - 1] && Done(env, q, r.p, evs[1..][i - 1]);
      }
    }
  }

  ghost predicate Accounted(env: Env, p: Progress, q: Progress, before: seq<Group>, after: seq<Group>) {
    && Extends(p, q)
    && Subseq(after, before)
    && forall g | g in before :: g in after || AllDone(env, p, q, g.events)
  }

  ghost predicate Untagged(groups: seq<Group>) {
    forall g | g in groups :: g.txnId == ""
  }

  lemma {:induction false} PassConserves(env: Env, p: Progress, pending: seq<Group>)
    ensures var r := Pass(env, p, pending);
            && Accounted(env, p, r.p, pending, r.next)
            && AckedHere(p, r.p, r.acked)
            && (r.failed.Some? ==> r.failed.value in pending)
            && (r.failed.None? && Untagged(pending) ==> r.next == [])
    decreases |pending|
  {
    if pending == [] {
      ExtendsIsStable(env, p);
    } else {
      var g, r := pending[0], Pass(env, p, pending);
      if Held(p, g) {
        PassConserves(env, p, pending[1..]);
        assert r.next[1..] == Pass(env, p, pending[1..]).next;
      } else {
        var d := Delivery.DeliverGroup(env, p, g);
        SuffixConserves(env, p, g, g.events, 0);
        PassConserves(env, d.p, pending[1..]);
        var s := Pass(env, d.p, pending[1..]);
        Later(env, p, d.p, r.p);
        if !d.ok {
          assert r.next[1..] == s.next;
        }
        forall h | h in pending
          ensures h in r.next || AllDone(env, p, r.p, h.events)
        {
          if h == g {
            assert d.ok ==> AllDone(env, p, r.p, h.events);
          } else {
            assert h in pending[1..];
            assert h !in s.next ==> AllDone(env, d.p, r.p, h.events);
          }
        }
      }
    }
  }

  lemma {:induction false} AccountedTrans(env: Env, p: Progress, q: Progress, r: Progress, a: seq<Group>, b: seq<Group>,
                                          c: seq<Group>)
    requires Accounted(env, p, q, a, b) && Accounted(env, q, r, b, c)
    ensures Accounted(env, p, r, a, c)
  {
    Later(env, p, q, r);
    SubseqTrans(c, b, a);
    forall g | g in a && g !in c
      ensures AllDone(env, p, r, g.events)
    {
      assert AllDone(env, if g in b then q else p, if g in b then r else q, g.events);
    }
  }

  lemma {:induction false} DrainConserves(env: Env, p: Progress, pending: seq<Group>, attempt: int, maxAttempts: int)
    ensures var r := Drain(env, p, pending, attempt, maxAttempts);
            && Accounted(env, p, r.p, pending, r.pending)
            && AckedHere(p, r.p, r.acked)
            && (r.verdict == Delivered && attempt <= maxAttempts && Untagged(pending) ==> r.pending == [])
            && (r.rollback.Some? ==> exists g | g in pending :: g.first == r.rollback.value)
    decreases maxAttempts - attempt + 1
  {
    if attempt > maxAttempts {
      ExtendsIsStable(env, p);
      SubseqRefl(pending);
    } else {
      var s := Pass(env, p, pending);
      PassConserves(env, p, pending);
      SubseqIn(s.next, pending);
      if s.failed.Some? && attempt < maxAttempts && !env.cancelled(s.p.calls) {
        DrainConserves(env, s.p, s.next, attempt + 1, maxAttempts);
        var r := Drain(env, p, pending, attempt, maxAttempts);
        AccountedTrans(env, p, s.p, r.p, pending, s.next, r.pending);
        Later(env, p, s.p, r.p);
      }
    }
  }

  // ----- A sink that accepts everything from some call on -----

  /** The sink accepts all calls from number `n` on. */
  ghost predicate AcceptsFrom(env: Env, n: nat) {
    forall i | i >= n :: env.accepts(i)
  }

  lemma {:induction false} AcceptedSuffix(env: Env, p: Progress, g: Group, evs: seq<ChangeEvent>, acked: nat)
    requires AcceptsFrom(env, p.calls)
    ensures DeliverSuffix(env, p, g, evs, acked).ok && DeliverSuffix(env, p, g, evs, acked).p.calls >= p.calls
    decreases |evs|
  {
    if evs == [] {
    } else {
      var ev := evs[0];
      if env.KeyOf(ev) in p.seen {
        AcceptedSuffix(env, Suppress(p, ev), g, evs[1..], acked);
      } else {
        AcceptedSuffix(env, Accept(env, p, ev), g, evs[1..], ev.sourcePos);
      }
    }
  }

  lemma {:induction false} AcceptedPass(env: Env, p: Progress, pending: seq<Group>)
    requires AcceptsFrom(env, p.calls)
    ensures Pass(env, p, pending).failed.None? && Pass(env, p, pending).p.calls >= p.calls
    decreases |pending|
  {
    if pending == [] {
    } else {
      var g := pending[0];
      AcceptedSuffix(env, p, g, g.events, 0);
      AcceptedPass(env, if Held(p, g) then p else Delivery.DeliverGroup(env, p, g).p, pending[1..]);
    }
  }

  // ----- One call -----

  ghost predicate InGroups(groups: seq<Group>, ev: ChangeEvent) {
    exists g | g in groups :: ev in g.events
  }

  lemma {:induction false} InSomeGroup(cfg: Config, events: seq<ChangeEvent>, ev: ChangeEvent)
    requires cfg.Valid() && ev in events
    ensures InGroups(Groups(cfg, events), ev)
  {
    if cfg.groupSize.None? {
      assert Groups(cfg, events)[0].events == events;
    } else {
      var chunks := Chunks(events, cfg.groupSize.value);
      ChunksRoundTrip(events, cfg.groupSize.value);
      var j := InSomeChunk(chunks, ev);
      assert Groups(cfg, events)[j].events == chunks[j];
    }
  }

  lemma {:induction false} InSomeChunk(chunks: seq<seq<ChangeEvent>>, ev: ChangeEvent) returns (j: nat)
    requires ev in Flatten(chunks)
    ensures j < |chunks| && ev in chunks[j]
  {
    if ev in chunks[0] {
      j := 0;
    } else {
      j := InSomeChunk(chunks[1..], ev);
      j := j + 1;
    }
  }

  /** No transaction; what sequences the events carry does not matter. */
  ghost predicate UntaggedEvents(events: seq<ChangeEvent>) {
    forall e | e in events :: e.txnId == ""
  }

  ghost predicate Carried(events: seq<ChangeEvent>, txnSeq: nat) {
    exists e :: e in events && e.txnSeq == txnSeq
  }

  lemma {:induction false} GroupsStart(cfg: Config, events: seq<ChangeEvent>)
    requires cfg.Valid() && events != []
    ensures forall g | g in Groups(cfg, events) :: g.events != [] && g == ToGroup(g.events) && g.events[0] in events
  {
    GroupsAll(cfg, events, (e: ChangeEvent) => e in events);
    ChunksRoundTrip(events, if cfg.groupSize.Some? then cfg.groupSize.value else |events|);
    forall i | 0 <= i < |Groups(cfg, events)|
      ensures Groups(cfg, events)[i].events != [] && Groups(cfg, events)[i] == ToGroup(Groups(cfg, events)[i].events)
      ensures Groups(cfg, events)[i].events[0] in events
    {
      assert All((e: ChangeEvent) => e in events, Groups(cfg, events)[i].events);
    }
  }

  /** At every return, whether of success, exhausted retries or cancellation, each
      input event is settled by this call or still pending, the pending groups are
      the batch's groups in their order, and the position returned is 0 or that of
      an event written by this call. */
  lemma {:induction false} DispatcherConserves(env: Env, cfg: Config, d: DState, events: seq<ChangeEvent>)
    requires cfg.Valid() && events != []
    ensures var r := DeliverEvents(env, cfg, d, events);
            && Extends(d.p, r.d.p)
            && (forall e | e in events :: Done(env, d.p, r.d.p, e) || InGroups(r.d.pending, e))
            && Subseq(r.d.pending, Groups(cfg, events))
            && AckedHere(d.p, r.d.p, r.acked)
  {
    var r := DeliverEvents(env, cfg, d, events);
    DrainConserves(env, d.p, Groups(cfg, events), 1, cfg.maxAttempts);
    forall e | e in events
      ensures Done(env, d.p, r.d.p, e) || InGroups(r.d.pending, e)
    {
      InSomeGroup(cfg, events, e);
      var g :| g in Groups(cfg, events) && e in g.events;
      if g !in r.d.pending {
        assert AllDone(env, d.p, r.d.p, g.events);
      }
    }
  }

  ghost predicate NewFrom(events: seq<ChangeEvent>, n: nat, p: Progress) {
    forall k | n <= k < |p.log| :: p.log[k].event in events
  }

  /** Every action of a call is about one of its events, so the acknowledged
      position never passes the batch. */
  lemma {:induction false} AckedWithinBatch(env: Env, cfg: Config, d: DState, events: seq<ChangeEvent>)
    requires cfg.Valid()
    ensures DeliverEvents(env, cfg, d, events).acked <= MaxPos(events)
    ensures NewFrom(events, |d.p.log|, DeliverEvents(env, cfg, d, events).d.p)
  {
    if events != [] {
      var ok := (e: ChangeEvent) => e in events;
      var n := |d.p.log|;
      EventsKeep(env, ok, p => NewFrom(events, n, p), cfg, d, events);
      DispatcherConserves(env, cfg, d, events);
    }
  }

  /** An untagged batch that returns without an error leaves nothing pending, and
      every event is settled, exactly when the policy allows an attempt at all; a
      failed untagged batch asks for a replay from a sequence one of its events
      carries, so from 0 when they carry none. */
  lemma {:induction false} UntaggedSuccessIsComplete(env: Env, cfg: Config, d: DState, events: seq<ChangeEvent>)
    requires cfg.Valid() && events != [] && UntaggedEvents(events)
    ensures var r := DeliverEvents(env, cfg, d, events);
            && (r.verdict == Delivered ==> (r.d.pending == [] <==> cfg.maxAttempts >= 1))
            && (r.verdict == Delivered && cfg.maxAttempts >= 1 ==> AllDone(env, d.p, r.d.p, events))
            && (r.rollback.Some? ==> Carried(events, r.rollback.value))
  {
    var groups := Groups(cfg, events);
    GroupsStart(cfg, events);
    DrainConserves(env, d.p, groups, 1, cfg.maxAttempts);
    DispatcherConserves(env, cfg, d, events);
    InSomeGroup(cfg, events, events[0]);
    var r := DeliverEvents(env, cfg, d, events);
    if r.rollback.Some? {
      var g :| g in groups && g.first == r.rollback.value;
      assert g.events[0] in events;
    }
  }

  // ----- Settled against written -----

  /** How a successful untagged batch moves the dedup set: it adds exactly the
      batch's keys, and writes one event per key that was new. An update of a row
      delivered before is therefore never written, whatever its position. */
  lemma {:induction false} SuccessMarksExactly(env: Env, cfg: Config, d: DState, events: seq<ChangeEvent>)
    requires cfg.Valid() && cfg.maxAttempts >= 1 && UntaggedEvents(events)
    requires DeliverEvents(env, cfg, d, events).verdict == Delivered
    ensures var q := DeliverEvents(env, cfg, d, events).d.p;
            && q.seen == d.p.seen + Keys(env, events)
            && q.delivered == d.p.delivered + |Keys(env, events) - d.p.seen|
  {
    if events != [] {
      var q := DeliverEvents(env, cfg, d, events).d.p;
      var bound := d.p.seen + Keys(env, events);
      EventsKeep(env, (e: ChangeEvent) => env.KeyOf(e) in bound, (p: Progress) => p.seen <= bound, cfg, d, events);
      UntaggedSuccessIsComplete(env, cfg, d, events);
      DispatcherConserves(env, cfg, d, events);
      forall i | 0 <= i < |events|
        ensures env.KeyOf(events[i]) in q.seen
      {
        assert Done(env, d.p, q, events[i]);
      }
      assert q.seen == d.p.seen + (Keys(env, events) - d.p.seen);
    }
  }

  lemma {:induction false} KeyCount(env: Env, events: seq<ChangeEvent>)
    ensures |Keys(env, events)| <= |events|
    ensures |Keys(env, events)| == |events| <==> DistinctKeys(env, events)
  {
    if events == [] {
    } else {
      var n := |events| - 1;
      var before := events[..n];
      KeyCount(env, before);
      assert events == before + [events[n]];
      KeysAppend(env, before, events[n]);
      DistinctAppend(env, before, events[n]);
    }
  }

  lemma DistinctAppend(env: Env, events: seq<ChangeEvent>, ev: ChangeEvent)
    ensures DistinctKeys(env, events + [ev]) <==> DistinctKeys(env, events) && env.KeyOf(ev) !in Keys(env, events)
  {
    var after := events + [ev];
    assert forall i | 0 <= i < |events| :: after[i] == events[i];
    assert after[|events|] == ev;
  }

  /** A successful untagged batch writes all its events exactly when their keys are
      new to the dispatcher and pairwise distinct. */
  lemma {:induction false} AllWrittenIffKeysNew(env: Env, cfg: Config, d: DState, events: seq<ChangeEvent>)
    requires cfg.Valid() && cfg.maxAttempts >= 1 && UntaggedEvents(events)
    requires DeliverEvents(env, cfg, d, events).verdict == Delivered
    ensures DeliverEvents(env, cfg, d, events).d.p.delivered == d.p.delivered + |events| <==>
              DistinctKeys(env, events) && Keys(env, events) !! d.p.seen
  {
    SuccessMarksExactly(env, cfg, d, events);
    KeyCount(env, events);
    var keys := Keys(env, events);
    if keys !! d.p.seen {
      assert keys - d.p.seen == keys;
    } else {
      assert keys - d.p.seen < keys;
      ProperSubsetSmaller(keys - d.p.seen, keys);
    }
  }

  lemma ProperSubsetSmaller(a: set<nat>, b: set<nat>)
    requires a < b
    ensures |a| < |b|
  {
    assert b == a + (b - a);
  }

  // ----- The events of groups -----

  function GroupEvents(groups: seq<Group>): seq<ChangeEvent> {
    if groups == [] then [] else groups[0].events + GroupEvents(groups[1..])
  }

  lemma {:induction false} GroupEventsConcat(a: seq<Group>, b: seq<Group>)
    ensures GroupEvents(a + b) == GroupEvents(a) + GroupEvents(b)
  {
    if a == [] {
      assert a + b == b;
    } else {
      assert (a + b)[1..] == a[1..] + b;
      GroupEventsConcat(a[1..], b);
    }
  }

  lemma {:induction false} GroupEventsOf(chunks: seq<seq<ChangeEvent>>)
    requires forall i | 0 <= i < |chunks| :: chunks[i] != []
    ensures GroupEvents(ToGroups(chunks)) == Flatten(chunks)
  {
    if chunks == [] {
    } else {
      GroupEventsOf(chunks[1..]);
      assert ToGroups(chunks)[1..] == ToGroups(chunks[1..]);
    }
  }

  lemma {:induction false} GroupsHoldEvents(cfg: Config, events: seq<ChangeEvent>)
    requires cfg.Valid() && events != []
    ensures GroupEvents(Groups(cfg, events)) == events && Groups(cfg, events) != []
  {
    if cfg.groupSize.None? {
      assert Groups(cfg, events)[1..] == [];
    } else {
      ChunksRoundTrip(events, cfg.groupSize.value);
      GroupEventsOf(Chunks(events, cfg.groupSize.value));
    }
  }

  ghost predicate NoRepeats(events: seq<ChangeEvent>) {
    forall i, j | 0 <= i < j < |events| :: events[i] != events[j]
  }
}
