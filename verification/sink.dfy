/** The in-memory target: idempotent writes, and rows as a replay of effects. */
module Sink {
  import opened Model
  import opened Source

  datatype CtxError = Canceled | DeadlineExceeded

  datatype WriteError = TableFailed | Ctx(error: CtxError) | FKViolation | WriteTimeout

  /** What happens around one write: the context's error before the row is touched,
      the foreign key check, and the context's error after it. */
  datatype Fate = Fate(early: Option<CtxError>, fkOk: bool, late: Option<CtxError>)

  type Tables = map<string, map<string, Row>>

  /** One change of a row: a snapshot row, or an event, acknowledged or not. */
  datatype Effect = Loaded(table: string, key: string, row: Row) | Changed(event: ChangeEvent, acked: bool)

  // ----- Rows -----

  function TableRows(rows: Tables, table: string): map<string, Row> {
    if table in rows then rows[table] else map[]
  }

  function Lookup(rows: Tables, table: string, key: string): Option<Row> {
    if key in TableRows(rows, table) then Some(rows[table][key]) else None
  }

  function RowKey(ev: ChangeEvent): string {
    if ev.key == "" then TableKey(ev) else ev.key
  }

  function RowOf(ev: ChangeEvent): Row {
    var row := Values(ev.columns);
    if "id" in row then row else row["id" := RowKey(ev)]
  }

  function Put(rows: Tables, table: string, key: string, row: Row): Tables {
    rows[table := TableRows(rows, table)[key := row]]
  }

  function Mutated(rows: Tables, ev: ChangeEvent): Tables {
    if ev.op == OpDelete then rows[ev.table := TableRows(rows, ev.table) - {RowKey(ev)}]
    else Put(rows, ev.table, RowKey(ev), RowOf(ev))
  }

  function Effected(rows: Tables, e: Effect): Tables {
    match e
    case Loaded(table, key, row) => Put(rows, table, key, row)
    case Changed(ev, _) => Mutated(rows, ev)
  }

  function Replay(history: seq<Effect>): Tables {
    if history == [] then map[] else Effected(Replay(history[..|history| - 1]), history[|history| - 1])
  }

  function AckedEvents(history: seq<Effect>): seq<ChangeEvent> {
    if history == [] then []
    else
      var before, e := AckedEvents(history[..|history| - 1]), history[|history| - 1];
      if e.Changed? && e.acked then before + [e.event] else before
  }

  // ----- The sink as a state machine -----

  datatype State = State(
    rows: Tables, order: seq<ChangeEvent>, guard: set<nat>, failTable: set<string>, backpressured: bool,
    history: seq<Effect>)

  const EMPTY := State(map[], [], {}, {}, false, [])

  datatype WriteResult = WriteResult(s: State, r: Result<(), WriteError>)

  /** The write path behind the guard and the failure switch. */
  function Applied(s: State, ev: ChangeEvent, fate: Fate): WriteResult {
    if fate.early.Some? then WriteResult(s, Err(Ctx(fate.early.value)))
    else if !fate.fkOk then WriteResult(s, Err(FKViolation))
    else
      var acked := fate.late.None?;
      var t := s.(rows := Mutated(s.rows, ev), history := s.history + [Changed(ev, acked)]);
      if acked then WriteResult(t.(order := s.order + [ev]), Ok(())) else WriteResult(t, Err(Ctx(fate.late.value)))
  }

  function Written(hash: string -> nat, hasTimeout: bool, s: State, ev: ChangeEvent, fate: Fate): WriteResult {
    var id := hash(DeliveryIdentity(ev));
    if id in s.guard then WriteResult(s, Ok(()))
    else if ev.table in s.failTable then WriteResult(s, Err(TableFailed))
    else
      var a := Applied(s, ev, fate);
      if hasTimeout && a.r == Err(Ctx(DeadlineExceeded)) then
        WriteResult(a.s.(backpressured := true), Err(WriteTimeout))
      else if a.r.Err? then a
      else WriteResult(a.s.(guard := a.s.guard + {id}, backpressured := false), Ok(()))
  }

  function IdOf(row: Row): string {
    if "id" in row then row["id"] else ""
  }

  function RowLoaded(hash: string -> nat, s: State, r: SnapshotRow): State {
    var key := IdOf(r.row);
    if key == "" then s.(rows := s.rows[r.table := TableRows(s.rows, r.table)])
    else s.(rows := Put(s.rows, r.table, key, r.row), guard := s.guard + {hash(r.table + "/snapshot/" + key)},
            history := s.history + [Loaded(r.table, key, r.row)])
  }

  function SnapshotLoaded(hash: string -> nat, s: State, rows: seq<SnapshotRow>): State {
    if rows == [] then s else RowLoaded(hash, SnapshotLoaded(hash, s, rows[..|rows| - 1]), rows[|rows| - 1])
  }

  datatype Op = Write(event: ChangeEvent, fate: Fate) | Load(rows: seq<SnapshotRow>)
    | FailTable(table: string, on: bool)

  function AfterOp(hash: string -> nat, hasTimeout: bool, s: State, op: Op): State {
    match op
    case Write(ev, fate) => Written(hash, hasTimeout, s, ev, fate).s
    case Load(rows) => SnapshotLoaded(hash, s, rows)
    case FailTable(table, on) => s.(failTable := if on then s.failTable + {table} else s.failTable - {table})
  }

  function Run(hash: string -> nat, hasTimeout: bool, s: State, ops: seq<Op>): State {
    if ops == [] then s
    else AfterOp(hash, hasTimeout, Run(hash, hasTimeout, s, ops[..|ops| - 1]), ops[|ops| - 1])
  }

  // ----- Rows are a replay -----

  ghost predicate SameRows(a: Tables, b: Tables) {
    forall t, k :: Lookup(a, t, k) == Lookup(b, t, k)
  }

  ghost predicate IsReplay(s: State) {
    SameRows(s.rows, Replay(s.history)) && s.order == AckedEvents(s.history)
  }

  lemma {:induction false} EffectAppended(history: seq<Effect>, e: Effect)
    ensures Replay(history + [e]) == Effected(Replay(history), e)
    ensures AckedEvents(history + [e]) ==
            if e.Changed? && e.acked then AckedEvents(history) + [e.event] else AckedEvents(history)
  {
    assert (history + [e])[..|history|] == history;
  }

  lemma EffectKeepsSame(a: Tables, b: Tables, e: Effect)
    requires SameRows(a, b)
    ensures SameRows(Effected(a, e), Effected(b, e))
  {
    forall t, k
      ensures Lookup(Effected(a, e), t, k) == Lookup(Effected(b, e), t, k)
    {
      assert Lookup(a, t, k) == Lookup(b, t, k);
      EffectIsAbsolute(a, b, e);
      EffectIsLocal(a, e, t, k);
      EffectIsLocal(b, e, t, k);
    }
  }

  lemma {:induction false} LoadKeepsGuard(hash: string -> nat, s: State, rows: seq<SnapshotRow>)
    ensures SnapshotLoaded(hash, s, rows).order == s.order && s.guard <= SnapshotLoaded(hash, s, rows).guard
  {
    if rows == [] {
    } else {
      LoadKeepsGuard(hash, s, rows[..|rows| - 1]);
    }
  }

  lemma {:induction false} LoadKeepsReplay(hash: string -> nat, s: State, rows: seq<SnapshotRow>)
    requires IsReplay(s)
    ensures IsReplay(SnapshotLoaded(hash, s, rows))
  {
    if rows == [] {
    } else {
      var n := |rows| - 1;
      LoadKeepsReplay(hash, s, rows[..n]);
      var t, r := SnapshotLoaded(hash, s, rows[..n]), rows[n];
      if IdOf(r.row) != "" {
        var e := Loaded(r.table, IdOf(r.row), r.row);
        EffectAppended(t.history, e);
        EffectKeepsSame(t.rows, Replay(t.history), e);
      }
    }
  }

  lemma {:induction false} AppliedKeepsReplay(s: State, ev: ChangeEvent, fate: Fate)
    requires IsReplay(s)
    ensures IsReplay(Applied(s, ev, fate).s)
  {
    if fate.early.None? && fate.fkOk {
      var e := Changed(ev, fate.late.None?);
      EffectAppended(s.history, e);
      EffectKeepsSame(s.rows, Replay(s.history), e);
    }
  }

  lemma {:induction false} WriteKeepsReplay(hash: string -> nat, hasTimeout: bool, s: State, ev: ChangeEvent,
                                            fate: Fate)
    requires IsReplay(s)
    ensures IsReplay(Written(hash, hasTimeout, s, ev, fate).s)
  {
    AppliedKeepsReplay(s, ev, fate);
    var w, a := Written(hash, hasTimeout, s, ev, fate).s, Applied(s, ev, fate).s;
    assert (w.rows, w.order, w.history) == (s.rows, s.order, s.history)
        || (w.rows, w.order, w.history) == (a.rows, a.order, a.history);
  }

  /** In every run the rows are the replay of all effects so far, the late-cancelled
      ones included, and the applied order is the acknowledged events among them. */
  lemma {:induction false} RowsAreReplay(hash: string -> nat, hasTimeout: bool, ops: seq<Op>)
    ensures IsReplay(Run(hash, hasTimeout, EMPTY, ops))
  {
    if ops == [] {
    } else {
      var n := |ops| - 1;
      RowsAreReplay(hash, hasTimeout, ops[..n]);
      var s := Run(hash, hasTimeout, EMPTY, ops[..n]);
      match ops[n]
      case Write(ev, fate) => WriteKeepsReplay(hash, hasTimeout, s, ev, fate);
      case Load(rows) => LoadKeepsReplay(hash, s, rows);
      case FailTable(_, _) =>
    }
  }

  // ----- Rows as a replay of what was acknowledged -----

  function TableOf(e: Effect): string {
    if e.Loaded? then e.table else e.event.table
  }

  function KeyOf(e: Effect): string {
    if e.Loaded? then e.key else RowKey(e.event)
  }

  predicate Settled(e: Effect) {
    e.Changed? ==> e.acked
  }

  predicate Touches(e: Effect, table: string, key: string) {
    TableOf(e) == table && KeyOf(e) == key
  }

  /** The history without the late-cancelled effects: the snapshot rows and the
      applied order. */
  function SettledPart(history: seq<Effect>): seq<Effect> {
    if history == [] then []
    else
      var before, e := SettledPart(history[..|history| - 1]), history[|history| - 1];
      if Settled(e) then before + [e] else before
  }

  /** Every late-cancelled effect is followed by a settled one on the same row: the
      retry that succeeds, or any other. */
  ghost predicate Repaired(history: seq<Effect>) {
    forall i | 0 <= i < |history| && !Settled(history[i]) ::
      exists j :: i < j < |history| && Settled(history[j])
        && Touches(history[j], TableOf(history[i]), KeyOf(history[i]))
  }

  lemma EffectIsLocal(rows: Tables, e: Effect, table: string, key: string)
    ensures !Touches(e, table, key) ==> Lookup(Effected(rows, e), table, key) == Lookup(rows, table, key)
  {
  }

  lemma EffectIsAbsolute(a: Tables, b: Tables, e: Effect)
    ensures Lookup(Effected(a, e), TableOf(e), KeyOf(e)) == Lookup(Effected(b, e), TableOf(e), KeyOf(e))
  {
  }

  /** One row agrees between the whole and the settled history unless its last
      effect is late-cancelled. */
  lemma {:induction false} RowOfSettledPart(history: seq<Effect>, table: string, key: string)
    requires forall i | 0 <= i < |history| && !Settled(history[i]) && Touches(history[i], table, key) ::
               exists j :: i < j < |history| && Settled(history[j]) && Touches(history[j], table, key)
    ensures Lookup(Replay(history), table, key) == Lookup(Replay(SettledPart(history)), table, key)
  {
    if history == [] {
    } else {
      var n := |history| - 1;
      var before, e := history[..n], history[n];
      if Touches(e, table, key) {
        assert Settled(e);
        EffectAppended(SettledPart(before), e);
        EffectIsAbsolute(Replay(before), Replay(SettledPart(before)), e);
      } else {
        forall i | 0 <= i < n && !Settled(before[i]) && Touches(before[i], table, key)
          ensures exists j :: i < j < n && Settled(before[j]) && Touches(before[j], table, key)
        {
          var j :| i < j < |history| && Settled(history[j]) && Touches(history[j], table, key);
          assert before[j] == history[j];
        }
        RowOfSettledPart(before, table, key);
        EffectIsLocal(Replay(before), e, table, key);
        if Settled(e) {
          EffectAppended(SettledPart(before), e);
          EffectIsLocal(Replay(SettledPart(before)), e, table, key);
        }
      }
    }
  }

  lemma {:induction false} SettledPartOrder(history: seq<Effect>)
    ensures AckedEvents(SettledPart(history)) == AckedEvents(history)
    ensures forall e | e in SettledPart(history) :: Settled(e)
  {
    if history == [] {
    } else {
      var n := |history| - 1;
      SettledPartOrder(history[..n]);
      EffectAppended(SettledPart(history[..n]), history[n]);
    }
  }

  /** When every late-cancelled effect is later made good on its row, the rows are
      the replay of the snapshot and the applied order alone. */
  lemma {:induction false} RowsAreReplayOfOrder(hash: string -> nat, hasTimeout: bool, ops: seq<Op>)
    requires Repaired(Run(hash, hasTimeout, EMPTY, ops).history)
    ensures var s := Run(hash, hasTimeout, EMPTY, ops);
            && SameRows(s.rows, Replay(SettledPart(s.history)))
            && AckedEvents(SettledPart(s.history)) == s.order
  {
    var s := Run(hash, hasTimeout, EMPTY, ops);
    RowsAreReplay(hash, hasTimeout, ops);
    SettledPartOrder(s.history);
    forall t, k
      ensures Lookup(s.rows, t, k) == Lookup(Replay(SettledPart(s.history)), t, k)
    {
      RowOfSettledPart(s.history, t, k);
    }
  }

  /** What a row shows once the event took effect. */
  function Shown(ev: ChangeEvent): Option<Row> {
    if ev.op == OpDelete then None else Some(RowOf(ev))
  }

  lemma {:induction false} MutationKeepsRowsIff(rows: Tables, ev: ChangeEvent)
    ensures SameRows(Mutated(rows, ev), rows) <==> Lookup(rows, ev.table, RowKey(ev)) == Shown(ev)
  {
    var e := Changed(ev, false);
    assert Lookup(Effected(rows, e), ev.table, RowKey(ev)) == Shown(ev);
    if Lookup(rows, ev.table, RowKey(ev)) == Shown(ev) {
      forall t, k
        ensures Lookup(Mutated(rows, ev), t, k) == Lookup(rows, t, k)
      {
        EffectIsLocal(rows, e, t, k);
      }
    }
  }

  /** A write that reports an error leaves the target as it was exactly when it was
      turned away before the row was touched, or the row already showed its effect. */
  lemma {:induction false} ErringWriteKeepsRowsIff(hash: string -> nat, hasTimeout: bool, s: State, ev: ChangeEvent,
                                                   fate: Fate)
    requires Written(hash, hasTimeout, s, ev, fate).r.Err?
    ensures SameRows(Written(hash, hasTimeout, s, ev, fate).s.rows, s.rows) <==>
              || ev.table in s.failTable || fate.early.Some? || !fate.fkOk
              || Lookup(s.rows, ev.table, RowKey(ev)) == Shown(ev)
  {
    MutationKeepsRowsIff(s.rows, ev);
  }

  /** A write cancelled after the row was touched, a delete included, reports an error
      and is not in the applied order, yet the row shows it. */
  lemma {:induction false} LateCancelShows(hash: string -> nat, hasTimeout: bool, s: State, ev: ChangeEvent,
                                           err: CtxError)
    requires hash(DeliveryIdentity(ev)) !in s.guard && ev.table !in s.failTable
    ensures var w := Written(hash, hasTimeout, s, ev, Fate(None, true, Some(err)));
            && w.r.Err? && w.s.order == s.order
            && Lookup(w.s.rows, ev.table, RowKey(ev)) == Shown(ev)
            && (Lookup(s.rows, ev.table, RowKey(ev)) != Shown(ev) ==> !SameRows(w.s.rows, s.rows))
  {
    ErringWriteKeepsRowsIff(hash, hasTimeout, s, ev, Fate(None, true, Some(err)));
  }

  // ----- Replay safety -----

  ghost predicate GuardCovers(hash: string -> nat, s: State) {
    && (forall i | 0 <= i < |s.order| :: hash(DeliveryIdentity(s.order[i])) in s.guard)
    && forall i, j | 0 <= i < j < |s.order| :: hash(DeliveryIdentity(s.order[i])) != hash(DeliveryIdentity(s.order[j]))
  }

  /** In every run no two applied events share a hashed identity. */
  lemma {:induction false} AppliedOnce(hash: string -> nat, hasTimeout: bool, ops: seq<Op>)
    ensures GuardCovers(hash, Run(hash, hasTimeout, EMPTY, ops))
  {
    if ops == [] {
    } else {
      var n := |ops| - 1;
      AppliedOnce(hash, hasTimeout, ops[..n]);
      if ops[n].Load? {
        LoadKeepsGuard(hash, Run(hash, hasTimeout, EMPTY, ops[..n]), ops[n].rows);
      }
    }
  }

  /** After any run, re-issuing acknowledged events in any order, any number of
      times and under any circumstances succeeds and changes nothing. */
  lemma {:induction false} ReissueChangesNothing(hash: string -> nat, hasTimeout: bool, ops: seq<Op>, again: seq<Op>)
    requires var s := Run(hash, hasTimeout, EMPTY, ops);
             forall i | 0 <= i < |again| :: again[i].Write? && again[i].event in s.order
    ensures var s := Run(hash, hasTimeout, EMPTY, ops);
            && Run(hash, hasTimeout, s, again) == s
            && forall i | 0 <= i < |again| :: Written(hash, hasTimeout, s, again[i].event, again[i].fate).r == Ok(())
  {
    var s := Run(hash, hasTimeout, EMPTY, ops);
    AppliedOnce(hash, hasTimeout, ops);
    if again == [] {
    } else {
      var n := |again| - 1;
      ReissueChangesNothing(hash, hasTimeout, ops, again[..n]);
      assert again[n].event in s.order;
      forall i | 0 <= i < |again|
        ensures Written(hash, hasTimeout, s, again[i].event, again[i].fate).r == Ok(())
      {
        assert again[i].event in s.order;
      }
    }
  }

  // ----- The sink as an object -----

  class IdempotencyGuard {
    const hash: string -> nat
    var keys: set<nat>

    constructor (hash: string -> nat)
      ensures keys == {} && this.hash == hash
    {
      this.hash := hash;
      keys := {};
    }

    predicate AlreadyApplied(deliveryKey: string)
      reads this
    {
      hash(deliveryKey) in keys
    }

    method Apply(deliveryKey: string)
      modifies this
      ensures keys == old(keys) + {hash(deliveryKey)}
    {
      keys := keys + {hash(deliveryKey)};
    }
  }

  class InMemorySink {
    const guard: IdempotencyGuard
    const hasTimeout: bool
    var rows: Tables
    var order: seq<ChangeEvent>
    var failTable: set<string>
    var backpressured: bool
    ghost var history: seq<Effect>

    ghost function Now(): State
      reads this, guard
    {
      State(rows, order, guard.keys, failTable, backpressured, history)
    }

    constructor (hash: string -> nat, hasTimeout: bool)
      ensures Now() == EMPTY && guard.hash == hash && this.hasTimeout == hasTimeout && fresh(guard)
    {
      guard := new IdempotencyGuard(hash);
      this.hasTimeout := hasTimeout;
      rows, order, failTable, backpressured, history := map[], [], {}, false, [];
    }

    method BuildRow(event: ChangeEvent, key: string) returns (row: Row)
      requires key == RowKey(event)
      ensures row == RowOf(event)
    {
      row := map[];
      for i := 0 to |event.columns|
        invariant row == Values(event.columns[..i])
      {
        assert event.columns[..i + 1][..i] == event.columns[..i];
        var col := event.columns[i];
        if !col.isNull {
          row := row[col.name := col.value];
        }
      }
      assert event.columns[..|event.columns|] == event.columns;
      if "id" !in row {
        row := row["id" := key];
      }
    }

    method ApplyWithContext(event: ChangeEvent, fate: Fate) returns (r: Result<(), WriteError>)
      modifies this
      ensures WriteResult(Now(), r) == Applied(old(Now()), event, fate)
    {
      if fate.early.Some? {
        return Err(Ctx(fate.early.value));
      }
      if !fate.fkOk {
        return Err(FKViolation);
      }
      if event.table !in rows {
        rows := rows[event.table := map[]];
      }
      var key := event.key;
      if key == "" {
        key := TableKey(event);
      }
      if event.op == OpDelete {
        rows := rows[event.table := rows[event.table] - {key}];
      } else {
        var row := BuildRow(event, key);
        rows := rows[event.table := rows[event.table][key := row]];
      }
      assert rows == Mutated(old(rows), event);
      history := history + [Changed(event, fate.late.None?)];
      if fate.late.Some? {
        return Err(Ctx(fate.late.value));
      }
      order := order + [event];
      r := Ok(());
    }

    method WriteEvent(event: ChangeEvent, fate: Fate) returns (r: Result<(), WriteError>)
      modifies this, guard
      ensures WriteResult(Now(), r) == Written(guard.hash, hasTimeout, old(Now()), event, fate)
    {
      var key := DeliveryIdentity(event);
      if guard.AlreadyApplied(key) {
        return Ok(());
      }
      if event.table in failTable {
        return Err(TableFailed);
      }
      r := ApplyWithContext(event, fate);
      if hasTimeout && r == Err(Ctx(DeadlineExceeded)) {
        backpressured := true;
        return Err(WriteTimeout);
      }
      if r.Err? {
        return;
      }
      guard.Apply(key);
      backpressured := false;
    }

    method LoadRow(row: SnapshotRow)
      modifies this, guard
      ensures Now() == RowLoaded(guard.hash, old(Now()), row)
    {
      if row.table !in rows {
        rows := rows[row.table := map[]];
      }
      var key := if "id" in row.row then row.row["id"] else "";
      assert rows == old(rows)[row.table := TableRows(old(rows), row.table)];
      if key == "" {
        return;
      }
      rows := rows[row.table := rows[row.table][key := row.row]];
      assert rows == Put(old(rows), row.table, key, row.row);
      guard.Apply(row.table + "/snapshot/" + key);
      history := history + [Loaded(row.table, key, row.row)];
    }

    method LoadSnapshot(snapshot: seq<SnapshotRow>)
      modifies this, guard
      ensures Now() == SnapshotLoaded(guard.hash, old(Now()), snapshot)
    {
      for i := 0 to |snapshot|
        invariant Now() == SnapshotLoaded(guard.hash, old(Now()), snapshot[..i])
      {
        assert snapshot[..i + 1][..i] == snapshot[..i];
        LoadRow(snapshot[i]);
      }
      assert snapshot[..|snapshot|] == snapshot;
    }

    method SetFailTable(table: string, on: bool)
      modifies this
      ensures Now() == AfterOp(guard.hash, hasTimeout, old(Now()), FailTable(table, on))
    {
      failTable := if on then failTable + {table} else failTable - {table};
    }
  }
}
