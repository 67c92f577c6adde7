/** What the in-memory target holds after a write and after a snapshot, in terms of the
    event's columns and of the snapshot's rows. */
module SinkRows {
  import opened Model
  import opened Source
  import opened Sink

  // ----- One write -----

  /** Column `i` is the last non-null one of its name. */
  ghost predicate LastNonNull(columns: seq<ColumnValue>, i: nat, name: string) {
    && i < |columns| && !columns[i].isNull && columns[i].name == name
    && forall j | i < j < |columns| :: columns[j].isNull || columns[j].name != name
  }

  ghost predicate Named(columns: seq<ColumnValue>, name: string) {
    exists i: nat :: LastNonNull(columns, i, name)
  }

  lemma {:induction false} LastNonNullStep(columns: seq<ColumnValue>, name: string)
    requires columns != []
    ensures var n := |columns| - 1;
            var col := columns[n];
            if !col.isNull && col.name == name then LastNonNull(columns, n, name)
            else forall i: nat :: LastNonNull(columns, i, name) <==> LastNonNull(columns[..n], i, name)
  {
    var n := |columns| - 1;
    if columns[n].isNull || columns[n].name != name {
      forall i: nat
        ensures LastNonNull(columns, i, name) <==> LastNonNull(columns[..n], i, name)
      {
        assert forall j | 0 <= j < n :: columns[..n][j] == columns[j];
      }
    }
  }

  lemma {:induction false} ValuesAre(columns: seq<ColumnValue>, name: string)
    ensures name in Values(columns) <==> Named(columns, name)
    ensures forall i: nat | LastNonNull(columns, i, name) ::
              name in Values(columns) && Values(columns)[name] == columns[i].value
  {
    if columns == [] {
    } else {
      ValuesAre(columns[..|columns| - 1], name);
      LastNonNullStep(columns, name);
    }
  }

  /** The key a row of the target is stored under. */
  function StoredUnder(ev: ChangeEvent): string {
    if ev.key != "" then ev.key else TableKey(ev)
  }

  /** The row holds the event's non-null columns, of equally named ones the last, and an id:
      the column's, or else the key. It holds nothing more. */
  ghost predicate HoldsColumns(row: Row, ev: ChangeEvent) {
    && (forall i: nat, name | LastNonNull(ev.columns, i, name) :: name in row && row[name] == ev.columns[i].value)
    && (forall name | name in row :: name == "id" || Named(ev.columns, name))
    && "id" in row && (!Named(ev.columns, "id") ==> row["id"] == StoredUnder(ev))
  }

  ghost predicate OthersKept(before: Tables, after: Tables, table: string, key: string) {
    forall t, k | t != table || k != key :: Lookup(after, t, k) == Lookup(before, t, k)
  }

  /** The table shows what the event did to its row: it is gone after a delete, and holds
      the event's columns after any other operation; no other row changed. */
  ghost predicate ShowsEvent(before: Tables, after: Tables, ev: ChangeEvent) {
    && OthersKept(before, after, ev.table, StoredUnder(ev))
    && match Lookup(after, ev.table, StoredUnder(ev))
       case None => ev.op == OpDelete
       case Some(row) => ev.op != OpDelete && HoldsColumns(row, ev)
  }

  lemma {:induction false} MutationShowsEvent(rows: Tables, ev: ChangeEvent)
    ensures ShowsEvent(rows, Mutated(rows, ev), ev)
  {
    forall name
      ensures name in Values(ev.columns) <==> Named(ev.columns, name)
      ensures forall i: nat | LastNonNull(ev.columns, i, name) ::
                name in Values(ev.columns) && Values(ev.columns)[name] == ev.columns[i].value
    {
      ValuesAre(ev.columns, name);
    }
  }

  /** The event was acknowledged before. */
  predicate Known(hash: string -> nat, s: State, ev: ChangeEvent) {
    hash(DeliveryIdentity(ev)) in s.guard
  }

  /** A write is acknowledged exactly when the event is known already, or its table is not
      switched to fail, the context lives through it and the foreign keys hold; the reasons
      for refusing it come in that order. */
  lemma {:induction false} WriteOutcome(hash: string -> nat, hasTimeout: bool, s: State, ev: ChangeEvent, fate: Fate)
    ensures var w := Written(hash, hasTimeout, s, ev, fate);
            && (w.r.Ok? <==> Known(hash, s, ev) ||
                             (ev.table !in s.failTable && fate.early.None? && fate.fkOk && fate.late.None?))
            && (!Known(hash, s, ev) ==>
                  && (w.r == Err(TableFailed) <==> ev.table in s.failTable)
                  && (w.r == Err(FKViolation) <==>
                        ev.table !in s.failTable && fate.early.None? && !fate.fkOk))
  {
  }

  /** An acknowledged write of an event that is not known yet shows in the rows and marks
      the event as known; a known one changes nothing. */
  lemma {:induction false} AcknowledgedWriteShows(hash: string -> nat, hasTimeout: bool, s: State, ev: ChangeEvent,
                                                  fate: Fate)
    requires Written(hash, hasTimeout, s, ev, fate).r.Ok?
    ensures var t := Written(hash, hasTimeout, s, ev, fate).s;
            if Known(hash, s, ev) then t == s
            else && ShowsEvent(s.rows, t.rows, ev) && t.order == s.order + [ev]
                 && t.guard == s.guard + {hash(DeliveryIdentity(ev))}
  {
    MutationShowsEvent(s.rows, ev);
  }

  /** A write that is not acknowledged marks and orders nothing, and either leaves the rows
      or shows in them all the same, when it was cancelled late. */
  lemma {:induction false} RefusedWriteShows(hash: string -> nat, hasTimeout: bool, s: State, ev: ChangeEvent,
                                             fate: Fate)
    requires Written(hash, hasTimeout, s, ev, fate).r.Err?
    ensures var t := Written(hash, hasTimeout, s, ev, fate).s;
            && t.order == s.order && t.guard == s.guard
            && if ev.table in s.failTable || fate.early.Some? || !fate.fkOk then t.rows == s.rows
               else fate.late.Some? && ShowsEvent(s.rows, t.rows, ev)
  {
    MutationShowsEvent(s.rows, ev);
  }

  /** What stopped the write, if it was attempted and the context did. */
  function StoppedBy(fate: Fate): Option<CtxError> {
    if fate.early.Some? then fate.early else if fate.fkOk then fate.late else None
  }

  /** The flag is raised exactly by a write that ran into its timeout, lowered by one that
      is acknowledged, and left alone by all others. */
  lemma {:induction false} BackpressureIs(hash: string -> nat, hasTimeout: bool, s: State, ev: ChangeEvent, fate: Fate)
    ensures var w := Written(hash, hasTimeout, s, ev, fate);
            && (w.r == Err(WriteTimeout) <==>
                  && !Known(hash, s, ev) && ev.table !in s.failTable
                  && hasTimeout && StoppedBy(fate) == Some(DeadlineExceeded))
            && w.s.backpressured == if w.r == Err(WriteTimeout) then true
                                    else if w.r.Ok? && !Known(hash, s, ev) then false else s.backpressured
  {
  }

  /** A table switched to fail refuses every event that is not known, until it is switched
      back; other tables do not notice. */
  lemma {:induction false} SwitchedTable(hash: string -> nat, hasTimeout: bool, s: State, table: string, on: bool,
                                         ev: ChangeEvent, fate: Fate)
    requires !Known(hash, s, ev)
    ensures var t := AfterOp(hash, hasTimeout, s, FailTable(table, on));
            var w := Written(hash, hasTimeout, t, ev, fate);
            && (ev.table == table && on ==> w == WriteResult(t, Err(TableFailed)))
            && (ev.table == table && !on ==> w.r != Err(TableFailed))
            && (ev.table != table ==> w.r == Written(hash, hasTimeout, s, ev, fate).r)
  {
  }

  // ----- A snapshot -----

  predicate HasId(row: Row, id: string) {
    id != "" && "id" in row && row["id"] == id
  }

  /** Row `i` is the last of the snapshot with that id in its table. */
  ghost predicate LastWithId(rows: seq<SnapshotRow>, i: nat, table: string, id: string) {
    && i < |rows| && rows[i].table == table && HasId(rows[i].row, id)
    && forall j | i < j < |rows| :: rows[j].table != table || !HasId(rows[j].row, id)
  }

  lemma {:induction false} LastWithIdStep(rows: seq<SnapshotRow>, table: string, id: string)
    requires rows != []
    ensures var n := |rows| - 1;
            if rows[n].table == table && HasId(rows[n].row, id) then
              forall i: nat :: LastWithId(rows, i, table, id) <==> i == n
            else forall i: nat :: LastWithId(rows, i, table, id) <==> LastWithId(rows[..n], i, table, id)
  {
    var n := |rows| - 1;
    forall i: nat
      ensures rows[n].table == table && HasId(rows[n].row, id) ==> (LastWithId(rows, i, table, id) <==> i == n)
      ensures !(rows[n].table == table && HasId(rows[n].row, id)) ==>
                (LastWithId(rows, i, table, id) <==> LastWithId(rows[..n], i, table, id))
    {
      assert forall j | 0 <= j < n :: rows[..n][j] == rows[j];
    }
  }

  /** After a load a table shows, under each id, the last snapshot row with that id, and
      rows without one, or with the empty id, leave no trace. */
  lemma {:induction false} LoadShows(hash: string -> nat, s: State, rows: seq<SnapshotRow>, table: string, id: string)
    ensures var t := SnapshotLoaded(hash, s, rows);
            && (forall i: nat | LastWithId(rows, i, table, id) :: Lookup(t.rows, table, id) == Some(rows[i].row))
            && ((forall i: nat :: !LastWithId(rows, i, table, id)) ==>
                  Lookup(t.rows, table, id) == Lookup(s.rows, table, id))
  {
    if rows == [] {
    } else {
      var n := |rows| - 1;
      LoadShows(hash, s, rows[..n], table, id);
      LastWithIdStep(rows, table, id);
      LoadOne(hash, s, rows, table, id);
      if rows[n].table == table && HasId(rows[n].row, id) {
        assert LastWithId(rows, n, table, id);
      } else {
        assert forall i: nat :: LastWithId(rows, i, table, id) <==> LastWithId(rows[..n], i, table, id);
      }
    }
  }

  lemma LoadOne(hash: string -> nat, s: State, rows: seq<SnapshotRow>, table: string, id: string)
    requires rows != []
    ensures var n := |rows| - 1;
            var before, after := SnapshotLoaded(hash, s, rows[..n]), SnapshotLoaded(hash, s, rows);
            Lookup(after.rows, table, id) ==
              if rows[n].table == table && HasId(rows[n].row, id) then Some(rows[n].row)
              else Lookup(before.rows, table, id)
  {
  }

  /** A load marks exactly the ids of its rows as known, under their own identities. */
  lemma {:induction false} LoadMarks(hash: string -> nat, s: State, rows: seq<SnapshotRow>, mark: nat)
    ensures var t := SnapshotLoaded(hash, s, rows);
            && t.order == s.order
            && (mark in t.guard <==>
                  mark in s.guard || exists i, id :: 0 <= i < |rows| && MarksRow(hash, rows[i], id, mark))
  {
    if rows == [] {
    } else {
      var n := |rows| - 1;
      LoadMarks(hash, s, rows[..n], mark);
      assert forall i | 0 <= i < n :: rows[..n][i] == rows[i];
      if mark in SnapshotLoaded(hash, s, rows).guard && mark !in SnapshotLoaded(hash, s, rows[..n]).guard {
        assert MarksRow(hash, rows[n], rows[n].row["id"], mark);
      }
    }
  }

  predicate MarksRow(hash: string -> nat, r: SnapshotRow, id: string, mark: nat) {
    HasId(r.row, id) && mark == hash(r.table + "/snapshot/" + id)
  }

  // ----- The rows of a scan -----

  lemma {:induction false} LoadConcat(hash: string -> nat, s: State, a: seq<SnapshotRow>, b: seq<SnapshotRow>)
    ensures SnapshotLoaded(hash, s, a + b) == SnapshotLoaded(hash, SnapshotLoaded(hash, s, a), b)
  {
    if b == [] {
      assert a + b == a;
    } else {
      var n := |b| - 1;
      LoadConcat(hash, s, a, b[..n]);
      assert (a + b)[..|a + b| - 1] == a + b[..n] && (a + b)[|a + b| - 1] == b[n];
    }
  }

  lemma {:induction false} RowsOf(table: string, list: seq<Row>)
    ensures |Rows(table, list)| == |list|
    ensures forall i | 0 <= i < |list| :: Rows(table, list)[i] == SnapshotRow(table, list[i])
  {
    if list == [] {
    } else {
      RowsOf(table, list[..|list| - 1]);
    }
  }

  /** Row `j` is the last of the table with that id. */
  ghost predicate LastRow(list: seq<Row>, j: nat, id: string) {
    && j < |list| && HasId(list[j], id) && forall i | j < i < |list| :: !HasId(list[i], id)
  }

  ghost predicate NoRow(list: seq<Row>, id: string) {
    forall i | 0 <= i < |list| :: !HasId(list[i], id)
  }

  lemma {:induction false} LoadTable(hash: string -> nat, s: State, table: string, list: seq<Row>, t: string,
                                     id: string)
    ensures var after := SnapshotLoaded(hash, s, Rows(table, list)).rows;
            && (t == table ==> forall j: nat | LastRow(list, j, id) :: Lookup(after, t, id) == Some(list[j]))
            && (t != table || NoRow(list, id) ==> Lookup(after, t, id) == Lookup(s.rows, t, id))
  {
    RowsOf(table, list);
    LoadShows(hash, s, Rows(table, list), t, id);
    if t == table {
      forall j: nat | LastRow(list, j, id)
        ensures LastWithId(Rows(table, list), j, t, id)
      {
      }
    }
  }

  function Snapped(snap: map<string, seq<Row>>, table: string): seq<Row> {
    if table in snap then snap[table] else []
  }

  /** The row under that id is the table's last snapshot row with it, if the table was
      scanned and has one, and else as before. */
  ghost predicate ShowsRow(before: Tables, after: Tables, snap: map<string, seq<Row>>, tables: seq<string>, t: string,
                           id: string)
  {
    && (t in tables ==> forall j: nat | LastRow(Snapped(snap, t), j, id) ::
                          Lookup(after, t, id) == Some(Snapped(snap, t)[j]))
    && (t !in tables || NoRow(Snapped(snap, t), id) ==> Lookup(after, t, id) == Lookup(before, t, id))
  }

  ghost predicate ShowsScan(before: Tables, after: Tables, snap: map<string, seq<Row>>, tables: seq<string>) {
    forall t, id :: ShowsRow(before, after, snap, tables, t, id)
  }

  lemma {:induction false} ScanShows(hash: string -> nat, s: State, snap: map<string, seq<Row>>, tables: seq<string>,
                                     t: string, id: string)
    ensures ShowsRow(s.rows, SnapshotLoaded(hash, s, AllRows(snap, tables)).rows, snap, tables, t, id)
  {
    if tables == [] {
    } else {
      var n := |tables| - 1;
      var last, front := tables[n], AllRows(snap, tables[..n]);
      assert tables == tables[..n] + [last];
      ScanShows(hash, s, snap, tables[..n], t, id);
      LoadConcat(hash, s, front, Rows(last, Snapped(snap, last)));
      LoadTable(hash, SnapshotLoaded(hash, s, front), last, Snapped(snap, last), t, id);
    }
  }

  /** What a full scan loads: of each scanned table the last row with each id, and nothing
      else. */
  lemma {:induction false} ScanShowsAll(hash: string -> nat, s: State, snap: map<string, seq<Row>>,
                                        tables: seq<string>)
    ensures ShowsScan(s.rows, SnapshotLoaded(hash, s, AllRows(snap, tables)).rows, snap, tables)
  {
    forall t, id
      ensures ShowsRow(s.rows, SnapshotLoaded(hash, s, AllRows(snap, tables)).rows, snap, tables, t, id)
    {
      ScanShows(hash, s, snap, tables, t, id);
    }
  }
}
