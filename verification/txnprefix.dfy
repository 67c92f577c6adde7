/** One whole transaction through the dispatcher: at every return exactly a prefix of
    it is handled, and how far a pass gets is decided by the first refused write. */
module TxnPrefix {
  import opened Model
  import opened Txn
  import opened Delivery
  import opened Invariants
  import opened Conservation
  import opened TxnOrder

  /** The events written or suppressed, in the order of the log. */
  function HandledEvents(log: seq<Action>): seq<ChangeEvent> {
    if log == [] then []
    else
      var a := log[|log| - 1];
      if a.Failed? then HandledEvents(log[..|log| - 1]) else HandledEvents(log[..|log| - 1]) + [a.event]
  }

  /** The events handled in `p` since its log had `n` actions. */
  function Since(n: nat, p: Progress): seq<ChangeEvent>
    requires n <= |p.log|
  {
    HandledEvents(p.log[n..])
  }

  /** `events` is the transaction `txn`, numbered from 1. */
  ghost predicate Transaction(events: seq<ChangeEvent>, txn: string) {
    && txn != "" && events != []
    && forall i | 0 <= i < |events| :: events[i].txnId == txn && events[i].txnSeq == i + 1
  }

  function SizeOf(cfg: Config, events: seq<ChangeEvent>): (size: nat)
    requires cfg.Valid() && events != []
    ensures size > 0
  {
    if cfg.groupSize.None? then |events| else cfg.groupSize.value
  }

  /** Where the group of the `i`-th event starts. */
  function GroupStart(size: nat, i: nat): nat
    requires size > 0
  {
    if i < size then 0 else GroupStart(size, i - size) + size
  }

  // ----- A transaction and the dedup set it meets -----

  /** A transaction as a call meets it: `known` are the keys delivered before, `size`
      the group size, `n` the length of the log at the call and `origin` the event that
      the batch starts with. */
  datatype Course = Course(
    hash: string -> nat, events: seq<ChangeEvent>, txn: string, size: nat, known: set<nat>, n: nat, origin: nat)
  {
    ghost predicate Valid() {
      size > 0 && Transaction(events, txn)
    }

    function KeyAt(i: nat): nat
      requires i < |events|
    {
      hash(TableKey(events[i]))
    }

    /** The dedup set once the first `h` events are handled. */
    function Marked(h: nat): set<nat>
      requires h <= |events|
    {
      if h == 0 then known else Marked(h - 1) + {KeyAt(h - 1)}
    }

    /** Event `i` is the first with its key, so a write of it is attempted. */
    predicate New(i: nat) {
      i < |events| && KeyAt(i) !in Marked(i)
    }

    /** The writes it takes to handle the first `h` events when none is refused. */
    function Attempts(h: nat): nat
      requires h <= |events|
    {
      if h == 0 then 0 else Attempts(h - 1) + if New(h - 1) then 1 else 0
    }

    /** The event that opens the group of event `i`. */
    function StartOf(i: nat): nat
      requires size > 0
    {
      if i < origin then i else origin + GroupStart(size, i - origin)
    }

    /** Event `i` opens a group. */
    predicate Opens(i: nat)
      requires size > 0
    {
      StartOf(i) == i
    }

    /** A write can be attempted of event `i` while its group is under way. */
    predicate Exposed(i: nat)
      requires size > 0
    {
      New(i) && !Opens(i)
    }

    /** No event can be refused while its group is under way. */
    ghost predicate Shielded()
      requires size > 0
    {
      forall j :: !Exposed(j)
    }

    /** A pass can fail at the start of some group up to event `k`. */
    ghost predicate Retriable(k: nat)
      requires size > 0
    {
      exists i: nat :: origin <= i <= k && New(i) && Opens(i)
    }

    /** Some sink ends all attempts in an error with event `k` the first not delivered. */
    ghost predicate CanFail(maxAttempts: int, k: nat)
      requires size > 0
    {
      New(k) && (maxAttempts <= 1 || Retriable(k))
    }

    /** With `base` write attempts made beforehand, the sink refuses event `i` when
        the events before it went through. */
    ghost predicate Refused(env: Env, base: nat, i: nat) {
      New(i) && !env.accepts(base + Attempts(i))
    }
  }

  ghost function CourseOf(hash: string -> nat, cfg: Config, d: DState, events: seq<ChangeEvent>, txn: string): Course
    requires cfg.Valid() && events != []
  {
    Course(hash, events, txn, SizeOf(cfg, events), d.p.seen, |d.p.log|, 0)
  }

  lemma {:induction false} AttemptsGrow(c: Course, i: nat, j: nat)
    requires i < j <= |c.events|
    ensures c.Attempts(i) <= c.Attempts(j)
    ensures c.New(i) ==> c.Attempts(i) < c.Attempts(j)
    decreases j
  {
    if i == j - 1 {
    } else {
      AttemptsGrow(c, i, j - 1);
    }
  }

  lemma {:induction false} SameStart(size: nat, from: nat, h: nat)
    requires size > 0 && GroupStart(size, from) == from <= h < from + size
    ensures GroupStart(size, h) == from
  {
    if from < size {
    } else {
      SameStart(size, from - size, h - size);
    }
  }

  lemma SameGroup(c: Course, from: nat, h: nat)
    requires c.size > 0 && c.Opens(from) && c.origin <= from <= h < from + c.size
    ensures c.StartOf(h) == from
  {
    SameStart(c.size, from - c.origin, h - c.origin);
  }

  // ----- Groups -----

  /** `g` is a group's worth of the transaction, from a multiple of the size on. */
  ghost predicate IsStretch(c: Course, g: Group)
    requires c.size > 0
  {
    && c.origin < g.first <= g.last <= |c.events| && g.last < g.first + c.size
    && c.Opens(g.first - 1)
    && g.events == c.events[g.first - 1..g.last]
    && g.txnId == c.txn
  }

  /** `groups` cut the transaction from index `from` on into consecutive nonempty
      stretches. */
  ghost predicate Covers(c: Course, groups: seq<Group>, from: nat)
    requires c.size > 0
    decreases |groups|
  {
    if groups == [] then from == |c.events|
    else IsStretch(c, groups[0]) && groups[0].first == from + 1 && Covers(c, groups[1..], groups[0].last)
  }

  lemma {:induction false} ChunkIsStretch(c: Course, chunk: seq<ChangeEvent>, lo: nat, hi: nat)
    requires c.Valid() && c.origin <= lo < hi <= |c.events| && hi <= lo + c.size && c.Opens(lo)
    requires chunk == c.events[lo..hi]
    ensures IsStretch(c, ToGroup(chunk))
    ensures ToGroup(chunk).first == lo + 1 && ToGroup(chunk).last == hi
  {
  }

  lemma {:induction false} ChunksCover(c: Course, from: nat)
    requires c.Valid() && c.origin <= from <= |c.events| && (from < |c.events| ==> c.Opens(from))
    requires forall i | 0 <= i < |Chunks(c.events[from..], c.size)| :: Chunks(c.events[from..], c.size)[i] != []
    ensures Covers(c, ToGroups(Chunks(c.events[from..], c.size)), from)
    decreases |c.events| - from
  {
    var rest := c.events[from..];
    if rest == [] {
    } else if |rest| <= c.size {
      ChunkIsStretch(c, rest, from, |c.events|);
      assert ToGroups([rest]) == [ToGroup(rest)];
      assert ToGroups([rest])[1..] == [];
    } else {
      var to := from + c.size;
      assert c.Opens(to);
      assert rest[..c.size] == c.events[from..to] && rest[c.size..] == c.events[to..];
      assert Chunks(rest, c.size)[1..] == Chunks(c.events[to..], c.size);
      ChunkIsStretch(c, rest[..c.size], from, to);
      ChunksCover(c, to);
      assert ToGroups(Chunks(rest, c.size)) == [ToGroup(rest[..c.size])] + ToGroups(Chunks(c.events[to..], c.size));
    }
  }

  /** The groups of a batch that holds the transaction from its origin on. */
  lemma {:induction false} BatchCovers(cfg: Config, c: Course, batch: seq<ChangeEvent>)
    requires cfg.Valid() && c.Valid() && c.origin < |c.events| && batch == c.events[c.origin..]
    requires c.size == SizeOf(cfg, batch)
    ensures Covers(c, Groups(cfg, batch), c.origin) && Groups(cfg, batch) != []
  {
    assert cfg.groupSize.None? ==> Chunks(batch, c.size) == [batch];
    ChunksRoundTrip(batch, c.size);
    ChunksCover(c, c.origin);
  }

  lemma {:induction false} GroupsCover(cfg: Config, c: Course)
    requires cfg.Valid() && c.Valid() && c.origin == 0 && c.size == SizeOf(cfg, c.events)
    ensures Covers(c, Groups(cfg, c.events), 0) && Groups(cfg, c.events) != []
  {
    assert c.events[0..] == c.events;
    BatchCovers(cfg, c, c.events);
  }

  lemma {:induction false} CoverBounds(c: Course, groups: seq<Group>, from: nat)
    requires c.size > 0 && Covers(c, groups, from)
    ensures from <= |c.events|
    ensures forall g | g in groups :: from < g.first <= g.last <= |c.events| && g.txnId == c.txn
    decreases |groups|
  {
    if groups == [] {
    } else {
      CoverBounds(c, groups[1..], groups[0].last);
    }
  }

  // ----- The state between actions -----

  /** Since the call, exactly the first `h` events were handled, `base` of the write
      attempts before now not being theirs, and the tracker expects the next event. */
  ghost predicate At(c: Course, base: nat, p: Progress, h: nat) {
    && c.n <= |p.log| && h <= |c.events| && Since(c.n, p) == c.events[..h]
    && p.seen == c.Marked(h) && p.calls == base + c.Attempts(h)
    && Expected(p.next, c.txn) == h + 1
  }

  /** As `At`, inside the group that starts at sequence `first`. */
  ghost predicate Inside(c: Course, base: nat, p: Progress, first: nat, h: nat) {
    && c.n <= |p.log| && h <= |c.events| && Since(c.n, p) == c.events[..h]
    && p.seen == c.Marked(h) && p.calls == base + c.Attempts(h)
    && 1 <= first <= h + 1 && Expected(p.next, c.txn) == first
  }

  lemma {:induction false} LogStep(n: nat, p: Progress, a: Action)
    requires n <= |p.log|
    ensures HandledEvents((p.log + [a])[n..]) == if a.Failed? then Since(n, p) else Since(n, p) + [a.event]
  {
    var before, after := p.log[n..], (p.log + [a])[n..];
    assert after == before + [a];
    assert after[..|after| - 1] == before;
  }

  /** The state after handling one event that is not refused, and the position
      acknowledged with it. */
  function Handle(env: Env, p: Progress, ev: ChangeEvent, acked: nat): (Progress, nat) {
    if env.KeyOf(ev) in p.seen then (Suppress(p, ev), acked) else (Accept(env, p, ev), ev.sourcePos)
  }

  lemma {:induction false} InsideSuppressed(c: Course, base: nat, p: Progress, first: nat, h: nat)
    requires Inside(c, base, p, first, h) && h < |c.events| && !c.New(h)
    ensures Inside(c, base, Suppress(p, c.events[h]), first, h + 1)
  {
    assert c.events[..h + 1] == c.events[..h] + [c.events[h]];
    LogStep(c.n, p, Suppressed(c.events[h]));
    assert c.Marked(h + 1) == c.Marked(h);
  }

  lemma {:induction false} InsideAccepted(env: Env, c: Course, base: nat, p: Progress, first: nat, h: nat)
    requires env.hash == c.hash && Inside(c, base, p, first, h) && h < |c.events| && c.New(h)
    ensures Inside(c, base, Accept(env, p, c.events[h]), first, h + 1)
  {
    assert c.events[..h + 1] == c.events[..h] + [c.events[h]];
    LogStep(c.n, p, Wrote(c.events[h]));
  }

  lemma {:induction false} InsideStep(env: Env, c: Course, base: nat, p: Progress, first: nat, h: nat, acked: nat)
    requires env.hash == c.hash && Inside(c, base, p, first, h) && h < |c.events|
    ensures Inside(c, base, Handle(env, p, c.events[h], acked).0, first, h + 1)
  {
    if c.New(h) {
      InsideAccepted(env, c, base, p, first, h);
    } else {
      InsideSuppressed(c, base, p, first, h);
    }
  }

  lemma {:induction false} InsideEnds(c: Course, base: nat, p: Progress, first: nat, h: nat)
    requires Inside(c, base, p, first, h)
    ensures At(c, base, Release(p, c.txn, h), h)
  {
  }

  /** A refused write stops the prefix before its event. */
  lemma {:induction false} InsideFails(c: Course, base: nat, p: Progress, first: nat, h: nat)
    requires Inside(c, base, p, first, h) && h < |c.events|
    ensures At(c, base + 1, Release(Reject(p, c.events[h]), c.txn, h), h)
  {
    LogStep(c.n, p, Failed(c.events[h]));
  }

  // ----- One group -----

  /** The first event at or after `from` that the sink refuses lies at or after `h`. */
  ghost predicate ClearTo(env: Env, c: Course, base: nat, from: nat, h: nat) {
    forall i | from <= i < h :: !c.Refused(env, base, i)
  }

  /** What delivering the rest of a group from event `h` on comes to: it stops exactly
      at the first event from there on that the sink refuses. */
  ghost predicate GroupStops(env: Env, c: Course, base: nat, last: nat, h: nat, k: nat, r: GroupResult) {
    && h <= k <= last && ClearTo(env, c, base, h, k)
    && if r.ok then k == last && At(c, base, r.p, k) else k < last && c.Refused(env, base, k) && At(c, base + 1, r.p, k)
  }

  lemma NotRefused(env: Env, c: Course, base: nat, last: nat, h: nat, k: nat, r: GroupResult)
    requires !c.Refused(env, base, h) && GroupStops(env, c, base, last, h + 1, k, r)
    ensures GroupStops(env, c, base, last, h, k, r)
  {
  }

  lemma {:induction false} UnfoldFailure(env: Env, p: Progress, g: Group, events: seq<ChangeEvent>, h: nat, acked: nat,
                                         r: GroupResult)
    requires h < g.last <= |events| && env.KeyOf(events[h]) !in p.seen && !env.accepts(p.calls)
    requires r == DeliverSuffix(env, p, g, events[h..g.last], acked)
    ensures var ev, q := events[h], Reject(p, events[h]);
            r == GroupResult(if g.txnId != "" && ev.txnSeq > 0 then Release(q, g.txnId, ev.txnSeq - 1) else q,
                             acked, false)
  {
    assert events[h..g.last][0] == events[h];
  }

  lemma {:induction false} SuffixFails(env: Env, c: Course, base: nat, p: Progress, g: Group, h: nat, acked: nat,
                                       r: GroupResult)
    requires env.hash == c.hash && h < g.last <= |c.events| && Inside(c, base, p, g.first, h) && c.Refused(env, base, h)
    requires g.txnId == c.txn != "" && c.events[h].txnSeq == h + 1
    requires r == DeliverSuffix(env, p, g, c.events[h..g.last], acked)
    ensures GroupStops(env, c, base, g.last, h, h, r)
  {
    UnfoldFailure(env, p, g, c.events, h, acked, r);
    InsideFails(c, base, p, g.first, h);
  }

  lemma {:induction false} UnfoldSuffix(env: Env, p: Progress, g: Group, events: seq<ChangeEvent>, h: nat, acked: nat,
                                        r: GroupResult)
    requires h < g.last <= |events| && (env.KeyOf(events[h]) in p.seen || env.accepts(p.calls))
    requires r == DeliverSuffix(env, p, g, events[h..g.last], acked)
    ensures var (q, pos) := Handle(env, p, events[h], acked); r == DeliverSuffix(env, q, g, events[h + 1..g.last], pos)
  {
    var evs := events[h..g.last];
    assert evs[0] == events[h] && evs[1..] == events[h + 1..g.last];
  }

  /** Handling an event that is not refused leaves the rest of the group. */
  lemma {:induction false} SuffixStep(env: Env, c: Course, base: nat, p: Progress, g: Group, h: nat, acked: nat,
                                      r: GroupResult)
    requires env.hash == c.hash && h < g.last <= |c.events| && Inside(c, base, p, g.first, h)
             && !c.Refused(env, base, h)
    requires r == DeliverSuffix(env, p, g, c.events[h..g.last], acked)
    ensures var (q, pos) := Handle(env, p, c.events[h], acked);
            Inside(c, base, q, g.first, h + 1) && r == DeliverSuffix(env, q, g, c.events[h + 1..g.last], pos)
  {
    UnfoldSuffix(env, p, g, c.events, h, acked, r);
    InsideStep(env, c, base, p, g.first, h, acked);
  }

  lemma {:induction false} SuffixEnds(env: Env, c: Course, base: nat, p: Progress, g: Group, acked: nat, r: GroupResult)
    requires g.txnId == c.txn != "" && Inside(c, base, p, g.first, g.last) && r == DeliverSuffix(env, p, g, [], acked)
    requires g.last > 0
    ensures GroupStops(env, c, base, g.last, g.last, g.last, r)
  {
    InsideEnds(c, base, p, g.first, g.last);
  }

  lemma {:induction false} SuffixPrefix(env: Env, c: Course, base: nat, p: Progress, g: Group, h: nat, acked: nat,
                                        r: GroupResult)
    returns (k: nat)
    requires env.hash == c.hash && Transaction(c.events, c.txn) && g.txnId == c.txn && 0 < g.last <= |c.events|
    requires h <= g.last && Inside(c, base, p, g.first, h)
    requires r == DeliverSuffix(env, p, g, c.events[h..g.last], acked)
    ensures GroupStops(env, c, base, g.last, h, k, r)
    decreases g.last - h
  {
    k := h;
    if h == g.last {
      assert c.events[h..g.last] == [];
      SuffixEnds(env, c, base, p, g, acked, r);
    } else if c.Refused(env, base, h) {
      SuffixFails(env, c, base, p, g, h, acked, r);
    } else {
      var (q, pos) := Handle(env, p, c.events[h], acked);
      SuffixStep(env, c, base, p, g, h, acked, r);
      k := SuffixPrefix(env, c, base, q, g, h + 1, pos, r);
      NotRefused(env, c, base, g.last, h, k, r);
    }
  }

  // ----- Passes -----

  /** No pending group is the one the tracker expects. */
  ghost predicate Stuck(p: Progress, pending: seq<Group>) {
    forall g | g in pending :: Held(p, g)
  }

  lemma {:induction false} StuckPass(env: Env, p: Progress, pending: seq<Group>)
    requires Stuck(p, pending)
    ensures Pass(env, p, pending) == PassResult(p, pending, 0, None)
  {
    if pending == [] {
    } else {
      assert pending[0] in pending;
      StuckPass(env, p, pending[1..]);
    }
  }

  /** After a pass that began at the first event of a group: all done, or stopped
      inside some group with every later group still pending. */
  ghost predicate Stopped(c: Course, base: nat, p: Progress, next: seq<Group>, h: nat)
    requires c.size > 0
  {
    && At(c, base, p, h)
    && if next == [] then h == |c.events|
       else next[0].first >= 1 && Covers(c, next, next[0].first - 1) && next[0].first - 1 <= h < next[0].last
  }

  lemma StoppedWhere(c: Course, base: nat, p: Progress, next: seq<Group>, h: nat)
    requires c.size > 0 && Stopped(c, base, p, next, h) && next != []
    ensures c.origin <= next[0].first - 1 == c.StartOf(h)
    ensures c.Opens(h) <==> h == next[0].first - 1
  {
    SameGroup(c, next[0].first - 1, h);
  }

  lemma {:induction false} CoveredAreHeld(c: Course, p: Progress, groups: seq<Group>, from: nat, h: nat)
    requires c.Valid() && Covers(c, groups, from) && Expected(p.next, c.txn) == h + 1
    requires h < from || (h > from && groups != [] && h < groups[0].last)
    ensures Stuck(p, groups)
  {
    CoverBounds(c, groups, from);
    if h > from {
      CoverBounds(c, groups[1..], groups[0].last);
      assert groups == [groups[0]] + groups[1..];
    }
  }

  ghost predicate IsSuffix(a: seq<Group>, b: seq<Group>) {
    |a| <= |b| && a == b[|b| - |a|..]
  }

  lemma SuffixTrans(a: seq<Group>, b: seq<Group>, c: seq<Group>)
    requires IsSuffix(a, b) && IsSuffix(b, c)
    ensures IsSuffix(a, c)
  {
  }

  /** What a pass that begins at event `from` comes to: it stops exactly at the first
      event from there on that the sink refuses. */
  ghost predicate PassStops(env: Env, c: Course, base: nat, pending: seq<Group>, from: nat, h: nat, r: PassResult)
    requires c.size > 0
  {
    && from <= h && ClearTo(env, c, base, from, h) && IsSuffix(r.next, pending)
    && (r.failed.None? ==> h == |c.events| && r.next == [] && Stopped(c, base, r.p, r.next, h))
    && (r.failed.Some? ==> && c.Refused(env, base, h) && r.next != [] && r.failed.value == r.next[0]
                           && Stopped(c, base + 1, r.p, r.next, h))
  }

  lemma {:induction false} GroupFails(env: Env, c: Course, base: nat, d: GroupResult, pending: seq<Group>, from: nat,
                                      h: nat)
    requires c.Valid() && pending != [] && Covers(c, pending, from) && !d.ok
    requires GroupStops(env, c, base, pending[0].last, from, h, d)
    ensures var r := Pass(env, d.p, pending[1..]);
            PassStops(env, c, base, pending, from, h, r.(next := [pending[0]] + r.next, failed := Some(pending[0])))
  {
    CoveredAreHeld(c, d.p, pending[1..], pending[0].last, h);
    StuckPass(env, d.p, pending[1..]);
    assert [pending[0]] + pending[1..] == pending;
  }

  lemma {:induction false} GroupPasses(env: Env, c: Course, base: nat, d: GroupResult, pending: seq<Group>, from: nat,
                                       k: nat, h: nat, r: PassResult, acked: nat)
    requires c.Valid() && pending != [] && d.ok && GroupStops(env, c, base, pending[0].last, from, k, d)
    requires PassStops(env, c, base, pending[1..], k, h, r)
    ensures PassStops(env, c, base, pending, from, h, r.(acked := acked))
  {
  }

  lemma {:induction false} PassPrefix(env: Env, c: Course, base: nat, p: Progress, pending: seq<Group>, from: nat)
    returns (h: nat)
    requires env.hash == c.hash && c.Valid() && Covers(c, pending, from) && At(c, base, p, from)
    ensures PassStops(env, c, base, pending, from, h, Pass(env, p, pending))
    decreases |pending|
  {
    h := from;
    if pending == [] {
    } else {
      var d := Delivery.DeliverGroup(env, p, pending[0]);
      h := SuffixPrefix(env, c, base, p, pending[0], from, 0, d);
      if d.ok {
        var k := h;
        h := PassPrefix(env, c, base, d.p, pending[1..], k);
        GroupPasses(env, c, base, d, pending, from, k, h, Pass(env, d.p, pending[1..]), Pass(env, p, pending).acked);
      } else {
        GroupFails(env, c, base, d, pending, from, h);
      }
    }
  }

  // ----- The retry loop -----

  /** What a drain that began with `h` events handled comes to. */
  ghost predicate DrainStops(c: Course, pending: seq<Group>, h: nat, last: bool, k: nat, b: nat, r: DrainResult)
    requires c.size > 0 && pending != []
  {
    && h <= k && Stopped(c, b, r.p, r.pending, k) && IsSuffix(r.pending, pending)
    && (r.rollback.Some? ==>
          && r.pending != [] && r.rollback.value == r.pending[0].first
          && c.New(k) && h == pending[0].first - 1 && (last || c.Retriable(k)))
    && (r.verdict == Delivered && h == pending[0].first - 1 && (last || c.Shielded()) ==> k == |c.events|)
  }

  /** One attempt from the start of a group on. */
  lemma {:induction false} AttemptStops(env: Env, c: Course, base: nat, p: Progress, pending: seq<Group>, h: nat,
                                        s: PassResult)
    returns (k: nat, b: nat)
    requires env.hash == c.hash && c.Valid() && pending != [] && Stopped(c, base, p, pending, h)
    requires h == pending[0].first - 1 && s == Pass(env, p, pending)
    ensures h <= k && Stopped(c, b, s.p, s.next, k) && IsSuffix(s.next, pending) && c.origin <= h
    ensures s.failed.None? ==> k == |c.events|
    ensures s.failed.Some? ==> s.next != [] && s.failed.value == s.next[0] && c.New(k)
  {
    k := PassPrefix(env, c, base, p, pending, h);
    b := if s.failed.Some? then base + 1 else base;
  }

  /** Stopped while a group is under way, the tracker waits for no group's start: the
      next attempt holds every group back and reports success. */
  lemma {:induction false} StuckDrain(env: Env, c: Course, base: nat, p: Progress, next: seq<Group>, j: nat,
                                      attempt: int, maxAttempts: int)
    requires c.Valid() && next != [] && Stopped(c, base, p, next, j) && j != next[0].first - 1
    requires attempt <= maxAttempts
    ensures Drain(env, p, next, attempt, maxAttempts) == DrainResult(p, next, 0, Delivered, None, 0)
  {
    CoveredAreHeld(c, p, next, next[0].first - 1, j);
    StuckPass(env, p, next);
  }

  lemma {:induction false} DrainPrefix(env: Env, c: Course, base: nat, p: Progress, pending: seq<Group>, h: nat,
                                       attempt: int, maxAttempts: int)
    returns (k: nat, b: nat)
    requires env.hash == c.hash && c.Valid() && attempt <= maxAttempts
    requires pending != [] && Stopped(c, base, p, pending, h)
    ensures DrainStops(c, pending, h, attempt == maxAttempts, k, b, Drain(env, p, pending, attempt, maxAttempts))
    decreases maxAttempts - attempt
  {
    if h == pending[0].first - 1 {
      var s := Pass(env, p, pending);
      k, b := AttemptStops(env, c, base, p, pending, h, s);
      if s.failed.Some? && attempt < maxAttempts && !env.cancelled(s.p.calls) {
        var from := k;
        StoppedWhere(c, b, s.p, s.next, from);
        k, b := DrainPrefix(env, c, b, s.p, s.next, from, attempt + 1, maxAttempts);
        DrainContinues(c, pending, h, s.next, from, attempt + 1 == maxAttempts, k, b,
                       Drain(env, s.p, s.next, attempt + 1, maxAttempts));
      }
    } else {
      StuckDrain(env, c, base, p, pending, h, attempt, maxAttempts);
      k, b := h, base;
    }
  }

  /** A pass failed at event `from`, and another attempt follows. */
  lemma {:induction false} DrainContinues(c: Course, pending: seq<Group>, h: nat, next: seq<Group>, from: nat,
                                          last: bool, k: nat, b: nat, r: DrainResult)
    requires c.size > 0 && pending != [] && next != [] && IsSuffix(next, pending)
    requires c.origin <= h == pending[0].first - 1 <= from && c.New(from)
    requires c.Opens(from) <==> from == next[0].first - 1
    requires DrainStops(c, next, from, last, k, b, r)
    ensures DrainStops(c, pending, h, false, k, b, r.(waits := r.waits + 1))
  {
    SuffixTrans(r.pending, next, pending);
    assert c.Shielded() ==> !c.Exposed(from);
  }

  lemma {:induction false} StartsAtZero(c: Course, d: DState)
    requires c.Valid() && c.n == |d.p.log| && c.known == d.p.seen && Expected(d.p.next, c.txn) == 1
    ensures At(c, d.p.calls, d.p, 0)
  {
    assert d.p.log[c.n..] == [];
  }

  /** A call with a fresh transaction, from its first attempt on. */
  lemma {:induction false} CallStops(env: Env, cfg: Config, d: DState, c: Course) returns (h: nat, b: nat)
    requires cfg.Valid() && cfg.maxAttempts >= 1 && c.Valid() && c == CourseOf(env.hash, cfg, d, c.events, c.txn)
    requires Expected(d.p.next, c.txn) == 1
    ensures var groups := Groups(cfg, c.events);
            && groups != [] && groups[0].first == 1 && Stopped(c, d.p.calls, d.p, groups, 0)
            && DrainStops(c, groups, 0, cfg.maxAttempts == 1, h, b,
                          Drain(env, d.p, groups, 1, cfg.maxAttempts))
  {
    GroupsCover(cfg, c);
    StartsAtZero(c, d);
    h, b := DrainPrefix(env, c, d.p.calls, d.p, Groups(cfg, c.events), 0, 1, cfg.maxAttempts);
  }

  /** Exactly the first `h` events were handled, the tracker expects the next one, and
      nothing is pending exactly when that is all. */
  ghost predicate HandledPrefix(c: Course, d: DState, h: nat) {
    && h <= |c.events| && c.n <= |d.p.log| && Since(c.n, d.p) == c.events[..h]
    && Expected(d.p.next, c.txn) == h + 1 && (h == |c.events| <==> d.pending == [])
  }

  lemma StoppedIsPrefix(c: Course, b: nat, d: DState, h: nat)
    requires c.Valid() && Stopped(c, b, d.p, d.pending, h)
    ensures HandledPrefix(c, d, h)
    ensures d.pending != [] ==> d.pending[0].first == c.StartOf(h) + 1
  {
    if d.pending != [] {
      StoppedWhere(c, b, d.p, d.pending, h);
    }
  }

  lemma StartInCall(c: Course, h: nat)
    requires c.size > 0 && c.origin == 0
    ensures c.StartOf(h) == GroupStart(c.size, h)
  {
  }

  /** What a rollback asks for: the sequence that opens the group of an event that a
      failure can stop at. */
  ghost predicate RollsBack(c: Course, maxAttempts: int, h: nat, rollback: Option<nat>)
    requires c.size > 0
  {
    rollback.Some? ==> h < |c.events| && c.CanFail(maxAttempts, h) && rollback.value == c.StartOf(h) + 1
  }

  lemma {:induction false} CallPrefix(env: Env, cfg: Config, d: DState, c: Course) returns (h: nat)
    requires cfg.Valid() && cfg.maxAttempts >= 1 && c.Valid() && c == CourseOf(env.hash, cfg, d, c.events, c.txn)
    requires Expected(d.p.next, c.txn) == 1
    ensures var r := DeliverEvents(env, cfg, d, c.events);
            && HandledPrefix(c, r.d, h) && IsSuffix(r.d.pending, Groups(cfg, c.events))
            && RollsBack(c, cfg.maxAttempts, h, r.rollback)
  {
    var b;
    h, b := CallStops(env, cfg, d, c);
    StoppedIsPrefix(c, b, DeliverEvents(env, cfg, d, c.events).d, h);
  }

  lemma {:induction false} IdlePrefix(env: Env, cfg: Config, d: DState, c: Course)
    requires cfg.Valid() && cfg.maxAttempts < 1 && c.Valid() && c == CourseOf(env.hash, cfg, d, c.events, c.txn)
    requires Expected(d.p.next, c.txn) == 1
    ensures var r := DeliverEvents(env, cfg, d, c.events);
            HandledPrefix(c, r.d, 0) && IsSuffix(r.d.pending, Groups(cfg, c.events)) && r.rollback.None?
  {
    GroupsCover(cfg, c);
    assert d.p.log[|d.p.log|..] == [];
  }

  /** A fresh transaction in one batch, any group size, any failures: at every
      return the events handled so far are exactly a prefix of the transaction, the
      tracker expects the one after it, and what is pending is the groups from the
      one the prefix stops in. A sink error comes only at an event whose key is new;
      its rollback asks for the transaction sequence that opens the event's group,
      not for a source position. */
  lemma {:induction false} TransactionPrefix(env: Env, cfg: Config, d: DState, events: seq<ChangeEvent>, txn: string)
    returns (h: nat)
    requires cfg.Valid() && Transaction(events, txn) && Expected(d.p.next, txn) == 1
    ensures var c, r := CourseOf(env.hash, cfg, d, events, txn), DeliverEvents(env, cfg, d, events);
            && HandledPrefix(c, r.d, h) && IsSuffix(r.d.pending, Groups(cfg, events))
            && RollsBack(c, cfg.maxAttempts, h, r.rollback)
  {
    var c := CourseOf(env.hash, cfg, d, events, txn);
    if cfg.maxAttempts >= 1 {
      h := CallPrefix(env, cfg, d, c);
    } else {
      h := 0;
      IdlePrefix(env, cfg, d, c);
    }
  }

  /** The place a rollback asks for, and the prefix it leaves. */
  lemma {:induction false} ErrorRollsBack(env: Env, cfg: Config, d: DState, events: seq<ChangeEvent>, txn: string,
                                          r: DeliverResult)
    returns (h: nat)
    requires cfg.Valid() && Transaction(events, txn) && Expected(d.p.next, txn) == 1
    requires r == DeliverEvents(env, cfg, d, events) && r.rollback.Some?
    ensures h < |events| && |d.p.log| <= |r.d.p.log| && Since(|d.p.log|, r.d.p) == events[..h]
    ensures r.rollback.value == GroupStart(SizeOf(cfg, events), h) + 1
  {
    h := TransactionPrefix(env, cfg, d, events, txn);
    StartInCall(CourseOf(env.hash, cfg, d, events, txn), h);
  }

  // ----- A transaction the tracker has already moved on -----

  ghost predicate Untouched(txn: string, n: nat, ev: ChangeEvent, q: Progress) {
    && n <= |q.log| && Expected(q.next, txn) >= 2
    && forall k | n <= k < |q.log| :: q.log[k].event != ev
  }

  lemma {:induction false} DrainSkipsFirst(env: Env, n: nat, p: Progress, txn: string, ev: ChangeEvent,
                                           pending: seq<Group>, attempt: int, maxAttempts: int)
    requires pending != [] && pending[0].txnId == txn != "" && pending[0].first == 1
    requires Untouched(txn, n, ev, p) && AllIn(e => e != ev, pending[1..])
    ensures var r := Drain(env, p, pending, attempt, maxAttempts);
            Untouched(txn, n, ev, r.p) && r.pending != [] && r.pending[0] == pending[0]
    decreases maxAttempts - attempt + 1
  {
    if attempt > maxAttempts {
    } else {
      var s := Pass(env, p, pending);
      PassKeeps(env, e => e != ev, q => Untouched(txn, n, ev, q), p, pending[1..]);
      assert s.next[1..] == Pass(env, p, pending[1..]).next;
      if s.failed.Some? && attempt < maxAttempts && !env.cancelled(s.p.calls) {
        DrainSkipsFirst(env, n, s.p, txn, ev, s.next, attempt + 1, maxAttempts);
      }
    }
  }

  lemma {:induction false} CoveredAvoidFirst(c: Course, groups: seq<Group>, from: nat)
    requires c.Valid() && from >= 1 && Covers(c, groups, from)
    ensures AllIn(e => e != c.events[0], groups)
    decreases |groups|
  {
    if groups == [] {
    } else {
      var g := groups[0];
      forall i | 0 <= i < |g.events|
        ensures g.events[i] != c.events[0]
      {
        assert g.events[i] == c.events[g.first - 1 + i];
      }
      CoveredAvoidFirst(c, groups[1..], g.last);
    }
  }

  /** A batch that carries a transaction whose id the tracker has already moved past
      its start, be it a continuation or a replay: its first event is not handled by
      the call, whatever the sink does. */
  lemma {:induction false} ResumedTransactionIsHeld(env: Env, cfg: Config, d: DState, events: seq<ChangeEvent>,
                                                    txn: string)
    requires cfg.Valid() && Transaction(events, txn) && Expected(d.p.next, txn) != 1
    ensures var q := DeliverEvents(env, cfg, d, events).d;
            && |d.p.log| <= |q.p.log|
            && (forall k | |d.p.log| <= k < |q.p.log| :: q.p.log[k].event != events[0])
            && q.pending != [] && q.pending[0] == Groups(cfg, events)[0]
  {
    var c, groups := CourseOf(env.hash, cfg, d, events, txn), Groups(cfg, events);
    GroupsCover(cfg, c);
    CoveredAvoidFirst(c, groups[1..], groups[0].last);
    DrainSkipsFirst(env, |d.p.log|, d.p, txn, events[0], groups, 1, cfg.maxAttempts);
  }

  /** Even with a sink that accepts everything, the call reports success, and it has
      delivered the transaction exactly when the tracker still expects its start. */
  lemma {:induction false} WholeIffTransactionFresh(env: Env, cfg: Config, d: DState, events: seq<ChangeEvent>,
                                                    txn: string)
    requires cfg.Valid() && cfg.maxAttempts >= 1 && Transaction(events, txn)
    requires forall i :: env.accepts(i)
    ensures var r := DeliverEvents(env, cfg, d, events);
            && r.verdict == Delivered && |d.p.log| <= |r.d.p.log|
            && (Since(|d.p.log|, r.d.p) == events <==> Expected(d.p.next, txn) == 1)
  {
    var c, groups := CourseOf(env.hash, cfg, d, events, txn), Groups(cfg, events);
    AcceptedPass(env, d.p, groups);
    GroupsCover(cfg, c);
    if Expected(d.p.next, txn) == 1 {
      StartsAtZero(c, d);
      var h := PassPrefix(env, c, d.p.calls, d.p, groups, 0);
      assert events[..|events|] == events;
    } else {
      ResumedTransactionIsHeld(env, cfg, d, events, txn);
      var q := DeliverEvents(env, cfg, d, events).d.p;
      HandledFromLog(q.log[|d.p.log|..], events[0]);
    }
  }

  lemma {:induction false} HandledFromLog(log: seq<Action>, ev: ChangeEvent)
    requires forall k | 0 <= k < |log| :: log[k].event != ev
    ensures ev !in HandledEvents(log)
  {
    if log == [] {
    } else {
      HandledFromLog(log[..|log| - 1], ev);
    }
  }
}
