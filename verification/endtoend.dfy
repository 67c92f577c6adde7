/** From an entry of the source log to a row of the target: what parsing, mapping and an
    acknowledged write make of it together. */
module EndToEnd {
  import opened Model
  import opened Source
  import opened Schema
  import opened Mapping
  import opened MappedEvents
  import opened SinkRows
  import Parsing
  import Runner
  import Sink

  // ----- What the rules make of a row -----

  /** A schema column that is emitted under that name has that value in the source row. */
  ghost predicate Carries(rs: Rules, table: string, defs: seq<ColumnDef>, source: Row, name: string, value: string) {
    exists i: nat :: CarriedBy(rs, table, defs, source, i, name, value)
  }

  ghost predicate CarriedBy(rs: Rules, table: string, defs: seq<ColumnDef>, source: Row, i: nat, name: string,
                            value: string)
  {
    && i < |defs| && TargetName(rs, table, defs[i].name) == name && Emits(rs, table, name)
    && defs[i].name in source && source[defs[i].name] == value
  }

  /** The row has exactly what the rules carry over, and an id: the one carried over, or
      else the key. */
  ghost predicate RowFrom(rs: Rules, table: string, defs: seq<ColumnDef>, source: Row, key: string, row: Row) {
    && (forall name, value | Carries(rs, table, defs, source, name, value) :: name in row && row[name] == value)
    && (forall name | name in row ::
          Carries(rs, table, defs, source, name, row[name]) || (name == "id" && row[name] == key))
    && "id" in row
  }

  /** The target row an entry is about: its row id, or without one its number. */
  function EntryKey(entry: LogEntry, target: string): string {
    if "id" in entry.row && entry.row["id"] != "" then entry.row["id"] else target + "/seq/" + Decimal(entry.seqNo)
  }

  /** The entry has taken its effect on the target: a deleted row is gone, any other has
      the entry's values; no other row changed. */
  ghost predicate ShowsEntry(rs: Rules, defs: seq<ColumnDef>, entry: LogEntry, before: Sink.Tables, after: Sink.Tables)
  {
    var target := TargetTable(rs, entry.table);
    var key := EntryKey(entry, target);
    && OthersKept(before, after, target, key)
    && match Sink.Lookup(after, target, key)
       case None => entry.op == OpDelete
       case Some(row) => entry.op != OpDelete && RowFrom(rs, entry.table, defs, entry.row, key, row)
  }

  // ----- From columns to the row -----

  /** The non-null columns are exactly what the rules carry over. */
  ghost predicate Carried(rs: Rules, table: string, defs: seq<ColumnDef>, source: Row, columns: seq<ColumnValue>) {
    && (forall i: nat | i < |columns| && !columns[i].isNull ::
          Carries(rs, table, defs, source, columns[i].name, columns[i].value))
    && forall name, value | Carries(rs, table, defs, source, name, value) :: Holds(columns, name, value)
  }

  ghost predicate Holds(columns: seq<ColumnValue>, name: string, value: string) {
    exists i: nat :: i < |columns| && columns[i] == ColumnValue(name, value, false)
  }

  lemma {:induction false} HeldIsNamed(columns: seq<ColumnValue>, name: string, value: string)
    requires Holds(columns, name, value)
    ensures Named(columns, name)
  {
    var n := |columns| - 1;
    LastNonNullStep(columns, name);
    if columns[n].isNull || columns[n].name != name {
      var i: nat :| i < |columns| && columns[i] == ColumnValue(name, value, false);
      assert columns[..n][i] == columns[i];
      HeldIsNamed(columns[..n], name, value);
      var j: nat :| LastNonNull(columns[..n], j, name);
      assert LastNonNull(columns, j, name);
    }
  }

  /** No name is carried over with two values. */
  ghost predicate OneValue(rs: Rules, table: string, defs: seq<ColumnDef>, source: Row) {
    forall name, a, b | Carries(rs, table, defs, source, name, a) && Carries(rs, table, defs, source, name, b) :: a == b
  }

  lemma {:induction false} ColumnsBecomeRow(rs: Rules, table: string, defs: seq<ColumnDef>, source: Row,
                                            ev: ChangeEvent, row: Row)
    requires Carried(rs, table, defs, source, ev.columns) && OneValue(rs, table, defs, source)
    requires HoldsColumns(row, ev)
    ensures RowFrom(rs, table, defs, source, StoredUnder(ev), row)
  {
    forall name, value | Carries(rs, table, defs, source, name, value)
      ensures name in row && row[name] == value
    {
      HeldIsNamed(ev.columns, name, value);
      var i: nat :| LastNonNull(ev.columns, i, name);
      assert Carries(rs, table, defs, source, name, ev.columns[i].value);
    }
    forall name | name in row
      ensures Carries(rs, table, defs, source, name, row[name]) || (name == "id" && row[name] == StoredUnder(ev))
    {
      if i: nat :| LastNonNull(ev.columns, i, name) {
        assert Carries(rs, table, defs, source, name, ev.columns[i].value);
      } else {
        assert !Named(ev.columns, name);
      }
    }
  }

  // ----- From the entry to columns -----

  lemma {:induction false} FetchFrom(columns: seq<ColumnValue>, name: string, target: string, col: ColumnValue)
    requires exists i :: 0 <= i < |columns| && columns[i].name == name
    requires forall i | 0 <= i < |columns| && columns[i].name == name :: columns[i] == col
    ensures Fetch(columns, name, target) == ColumnValue(target, col.value, col.isNull)
  {
    if columns[0].name == name {
    } else {
      assert forall i | 0 < i < |columns| :: columns[1..][i - 1] == columns[i];
      FetchFrom(columns[1..], name, target, col);
    }
  }

  /** A decoded column is fetched with the row's value. */
  lemma {:induction false} FetchDecoded(source: Row, defs: seq<ColumnDef>, i: nat, target: string)
    requires i < |defs|
    ensures var name := defs[i].name;
            Fetch(Parsing.Decoded(source, defs), name, target) ==
              if name in source then ColumnValue(target, source[name], false) else ColumnValue(target, "", true)
  {
    assert Parsing.Decoded(source, defs)[i].name == defs[i].name;
    FetchFrom(Parsing.Decoded(source, defs), defs[i].name, target, Parsing.DecodeColumn(source, defs[i]));
  }

  /** A snapshot's layout is what the rules say. */
  ghost predicate Realizes(rs: Rules, table: string, snap: Snapshot) {
    && (forall name :: Rename(snap.columnMap, name) == TargetName(rs, table, name))
    && (forall name :: Kept(snap.keep, name) <==> Emits(rs, table, name))
  }

  lemma CarriesAppend(rs: Rules, table: string, defs: seq<ColumnDef>, last: ColumnDef, source: Row, name: string,
                      value: string)
    ensures Carries(rs, table, defs + [last], source, name, value) <==>
              Carries(rs, table, defs, source, name, value)
              || CarriedBy(rs, table, defs + [last], source, |defs|, name, value)
  {
    forall i: nat | i < |defs|
      ensures CarriedBy(rs, table, defs + [last], source, i, name, value) <==>
                CarriedBy(rs, table, defs, source, i, name, value)
    {
      assert (defs + [last])[i] == defs[i];
    }
  }

  lemma HoldsAppend(columns: seq<ColumnValue>, col: ColumnValue, name: string, value: string)
    ensures Holds(columns + [col], name, value) <==>
              Holds(columns, name, value) || col == ColumnValue(name, value, false)
  {
    assert (columns + [col])[|columns|] == col;
    forall i: nat | i < |columns|
      ensures (columns + [col])[i] == columns[i]
    {
    }
  }

  /** Mapping the decoded row exactly yields, of the first `n` schema columns, what the
      rules carry over. */
  lemma {:induction false} ExactCarries(rs: Rules, table: string, snap: Snapshot, source: Row, defs: seq<ColumnDef>,
                                        n: nat, name: string, value: string)
    requires Realizes(rs, table, snap) && n <= |defs|
    ensures Holds(Exact(defs[..n], snap.keep, snap.columnMap, Parsing.Decoded(source, defs)), name, value) <==>
              Carries(rs, table, defs[..n], source, name, value)
  {
    var columns := Parsing.Decoded(source, defs);
    if n == 0 {
    } else {
      var last, front := defs[n - 1], defs[..n - 1];
      assert defs[..n] == front + [last];
      var target := Rename(snap.columnMap, last.name);
      ExactCarries(rs, table, snap, source, defs, n - 1, name, value);
      CarriesAppend(rs, table, front, last, source, name, value);
      FetchDecoded(source, defs, n - 1, target);
      HoldsAppend(Exact(front, snap.keep, snap.columnMap, columns), Fetch(columns, last.name, target), name, value);
    }
  }

  lemma {:induction false} ExactIsCarried(rs: Rules, table: string, snap: Snapshot, source: Row, defs: seq<ColumnDef>)
    requires Realizes(rs, table, snap)
    ensures Carried(rs, table, defs, source, Exact(defs, snap.keep, snap.columnMap, Parsing.Decoded(source, defs)))
  {
    var out := Exact(defs, snap.keep, snap.columnMap, Parsing.Decoded(source, defs));
    assert defs[..|defs|] == defs;
    forall name, value
      ensures Holds(out, name, value) <==> Carries(rs, table, defs, source, name, value)
    {
      ExactCarries(rs, table, snap, source, defs, |defs|, name, value);
    }
    forall i: nat | i < |out| && !out[i].isNull
      ensures Carries(rs, table, defs, source, out[i].name, out[i].value)
    {
      assert Holds(out, out[i].name, out[i].value);
    }
  }

  /** Without a collision a name is carried over from one column only. */
  lemma {:induction false} CollisionFreeOneValue(rs: Rules, table: string, snap: Snapshot, source: Row,
                                                 defs: seq<ColumnDef>)
    requires Realizes(rs, table, snap) && CollisionFree(defs, snap.keep, snap.columnMap)
    ensures OneValue(rs, table, defs, source)
  {
    forall name, a, b | Carries(rs, table, defs, source, name, a) && Carries(rs, table, defs, source, name, b)
      ensures a == b
    {
      var i: nat :| CarriedBy(rs, table, defs, source, i, name, a);
      var j: nat :| CarriedBy(rs, table, defs, source, j, name, b);
      assert !Collides(defs, snap.keep, snap.columnMap, i, defs[j].name);
      assert !Collides(defs, snap.keep, snap.columnMap, j, defs[i].name);
    }
  }

  // ----- The whole way -----

  /** The entry's version has a snapshot made under these rules, for the runner's revision,
      whose renames do not collide. */
  ghost predicate LaidOut(cs: Changes, rs: Rules, m: MapperState, revision: nat, entry: LogEntry, version: nat) {
    && VersionAtSpec(cs, entry.table, entry.seqNo) == Ok(version)
    && Built(cs, rs, entry.table, version).Ok?
    && var snap := Built(cs, rs, entry.table, version).value;
    && SnapshotFor(m, version, revision) == Some(snap)
    && CollisionFree(SchemaSpec(cs, entry.table, version).value.columns, snap.keep, snap.columnMap)
  }

  /** The event an entry was parsed to, as it went into the mapper. */
  lemma {:induction false} ParsedFrom(cs: Changes, m: MapperState, revision: nat, entries: seq<LogEntry>,
                                      events: seq<ChangeEvent>, i: nat)
    returns (parsed: ChangeEvent)
    requires Runner.IsPrepared(cs, m, revision, entries, Some(events)) && i < |entries| == |events|
    ensures Mapped(m, parsed, Ok(events[i])) && StandsFor(parsed, entries[i])
    ensures parsed.table == entries[i].table && parsed.filterRevision == revision
    ensures VersionAtSpec(cs, entries[i].table, entries[i].seqNo) == Ok(parsed.schemaVersion)
    ensures Parsing.DecodeSpec(cs, entries[i], parsed.schemaVersion) == Ok(parsed.columns)
  {
    var all := Parsing.ParseSpec(cs, entries).value;
    parsed := Runner.Stamped(all, revision)[i];
    Parsing.ParseIsOneToOne(cs, entries);
    assert StandsFor(all[i], entries[i]);
    assert Mapped(m, Runner.Stamped(all, revision)[i], Ok(events[i]));
  }

  /** What a parsed entry is mapped to, in terms of the entry. */
  lemma {:induction false} MappedCarries(cs: Changes, rs: Rules, m: MapperState, entry: LogEntry, parsed: ChangeEvent,
                                         event: ChangeEvent)
    requires LaidOut(cs, rs, m, parsed.filterRevision, entry, parsed.schemaVersion)
    requires Mapped(m, parsed, Ok(event)) && parsed.table == entry.table
    requires Parsing.DecodeSpec(cs, entry, parsed.schemaVersion) == Ok(parsed.columns)
    ensures event == parsed.(table := TargetTable(rs, entry.table), columns := event.columns)
    ensures var defs := SchemaSpec(cs, entry.table, parsed.schemaVersion).value.columns;
            Carried(rs, entry.table, defs, entry.row, event.columns) && OneValue(rs, entry.table, defs, entry.row)
  {
    var snap := Built(cs, rs, entry.table, parsed.schemaVersion).value;
    var defs := SchemaSpec(cs, entry.table, parsed.schemaVersion).value.columns;
    OutputIsExact(defs, snap.keep, snap.columnMap, parsed.columns, event.columns);
    assert Realizes(rs, entry.table, snap);
    ExactIsCarried(rs, entry.table, snap, entry.row, defs);
    CollisionFreeOneValue(rs, entry.table, snap, entry.row, defs);
  }

  /** When the write of a prepared entry is acknowledged, and was not known before, the
      target shows the entry: after a delete no row is left under its key, after any other
      operation the row has exactly the emitted columns of the entry's row under their
      target names, and an id; all other rows are as before. */
  lemma {:induction false} AcknowledgedEntryShows(cs: Changes, rs: Rules, m: MapperState, revision: nat,
                                                  entries: seq<LogEntry>, events: seq<ChangeEvent>, i: nat,
                                                  version: nat, hash: string -> nat, hasTimeout: bool, s: Sink.State,
                                                  fate: Sink.Fate)
    requires Runner.IsPrepared(cs, m, revision, entries, Some(events)) && i < |entries| == |events|
    requires LaidOut(cs, rs, m, revision, entries[i], version)
    requires Sink.Written(hash, hasTimeout, s, events[i], fate).r.Ok? && !Known(hash, s, events[i])
    ensures ShowsEntry(rs, SchemaSpec(cs, entries[i].table, version).value.columns, entries[i], s.rows,
                       Sink.Written(hash, hasTimeout, s, events[i], fate).s.rows)
  {
    var parsed := ParsedFrom(cs, m, revision, entries, events, i);
    MappedCarries(cs, rs, m, entries[i], parsed, events[i]);
    AcknowledgedWriteShows(hash, hasTimeout, s, events[i], fate);
    EventShowsEntry(rs, SchemaSpec(cs, entries[i].table, version).value.columns, entries[i], events[i], s.rows,
                    Sink.Written(hash, hasTimeout, s, events[i], fate).s.rows);
  }

  lemma EventShowsEntry(rs: Rules, defs: seq<ColumnDef>, entry: LogEntry, ev: ChangeEvent, before: Sink.Tables,
                        after: Sink.Tables)
    requires StandsFor(ev, entry) && ev.table == TargetTable(rs, entry.table) && ShowsEvent(before, after, ev)
    requires Carried(rs, entry.table, defs, entry.row, ev.columns) && OneValue(rs, entry.table, defs, entry.row)
    ensures ShowsEntry(rs, defs, entry, before, after)
  {
    assert StoredUnder(ev) == EntryKey(entry, ev.table);
    match Sink.Lookup(after, ev.table, StoredUnder(ev))
    case None =>
    case Some(row) => ColumnsBecomeRow(rs, entry.table, defs, entry.row, ev, row);
  }

  /** No mapping and no filter. */
  const NO_RULES := Rules(map[], map[], 0)

  lemma {:induction false} DecodedIsExact(source: Row, defs: seq<ColumnDef>, n: nat)
    requires n <= |defs|
    ensures Exact(defs[..n], None, map[], Parsing.Decoded(source, defs)) == Parsing.Decoded(source, defs[..n])
  {
    if n == 0 {
    } else {
      assert defs[..n][..n - 1] == defs[..n - 1];
      DecodedIsExact(source, defs, n - 1);
      FetchDecoded(source, defs, n - 1, defs[n - 1].name);
    }
  }

  /** An entry's parsed event, written as it is, leaves no row when the entry is a delete,
      and otherwise the entry's row restricted to the schema's columns, and an id. */
  lemma {:induction false} ParsedEntryShows(cs: Changes, entries: seq<LogEntry>, i: nat, hash: string -> nat,
                                            hasTimeout: bool, s: Sink.State, fate: Sink.Fate)
    requires Parsing.ParseSpec(cs, entries).Ok? && i < |entries| == |Parsing.ParseSpec(cs, entries).value|
    requires var ev := Parsing.ParseSpec(cs, entries).value[i];
             Sink.Written(hash, hasTimeout, s, ev, fate).r.Ok? && !Known(hash, s, ev)
    ensures var ev := Parsing.ParseSpec(cs, entries).value[i];
            && SchemaSpec(cs, entries[i].table, ev.schemaVersion).Ok?
            && ShowsEntry(NO_RULES, SchemaSpec(cs, entries[i].table, ev.schemaVersion).value.columns, entries[i],
                          s.rows, Sink.Written(hash, hasTimeout, s, ev, fate).s.rows)
  {
    var ev, source := Parsing.ParseSpec(cs, entries).value[i], entries[i].row;
    Parsing.ParseIsOneToOne(cs, entries);
    var defs := SchemaSpec(cs, entries[i].table, ev.schemaVersion).value.columns;
    var snap := Snapshot(entries[i].table, entries[i].table, [], map[], None, 0);
    assert defs[..|defs|] == defs;
    DecodedIsExact(source, defs, |defs|);
    ExactIsCarried(NO_RULES, entries[i].table, snap, source, defs);
    CollisionFreeOneValue(NO_RULES, entries[i].table, snap, source, defs);
    AcknowledgedWriteShows(hash, hasTimeout, s, ev, fate);
    assert StandsFor(ev, entries[i]);
    EventShowsEntry(NO_RULES, defs, entries[i], ev, s.rows, Sink.Written(hash, hasTimeout, s, ev, fate).s.rows);
  }
}
