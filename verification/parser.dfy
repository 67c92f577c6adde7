/** Position-aware parsing of log entries into change events. */
module Parsing {
  import opened Model
  import opened Txn
  import opened Source
  import opened Schema

  datatype ParseError = Resolving(table: string, seqNo: nat) | Decoding(table: string, seqNo: nat)

  datatype DecodeError = UnknownSchema | NoDecodableColumns

  // ----- Decoding -----

  function DecodeColumn(row: Row, def: ColumnDef): ColumnValue {
    if def.name in row then ColumnValue(def.name, row[def.name], false) else ColumnValue(def.name, "", true)
  }

  function Decoded(row: Row, defs: seq<ColumnDef>): (columns: seq<ColumnValue>)
    ensures |columns| == |defs| && forall i | 0 <= i < |defs| :: columns[i] == DecodeColumn(row, defs[i])
  {
    if defs == [] then []
    else Decoded(row, defs[..|defs| - 1]) + [DecodeColumn(row, defs[|defs| - 1])]
  }

  function DecodeSpec(cs: Changes, entry: LogEntry, version: nat): Result<seq<ColumnValue>, DecodeError> {
    match SchemaSpec(cs, entry.table, version)
    case Err(_) => Err(UnknownSchema)
    case Ok(schema) => if schema.columns == [] then Err(NoDecodableColumns) else Ok(Decoded(entry.row, schema.columns))
  }

  ghost predicate DistinctNames(defs: seq<ColumnDef>) {
    forall i, j | 0 <= i < j < |defs| :: defs[i].name != defs[j].name
  }

  /** The columns name the schema's columns, in order. */
  ghost predicate Aligned(columns: seq<ColumnValue>, defs: seq<ColumnDef>) {
    |columns| == |defs| && forall i | 0 <= i < |defs| :: columns[i].name == defs[i].name
  }

  lemma {:induction false} ValuesOf(columns: seq<ColumnValue>)
    requires forall i, j | 0 <= i < j < |columns| :: columns[i].name != columns[j].name
    ensures forall i | 0 <= i < |columns| :: columns[i].name in Values(columns) <==> !columns[i].isNull
    ensures forall i | 0 <= i < |columns| && !columns[i].isNull :: Values(columns)[columns[i].name] == columns[i].value
    ensures forall name | name in Values(columns) :: exists i :: 0 <= i < |columns| && columns[i].name == name
  {
    if columns == [] {
    } else {
      ValuesOf(columns[..|columns| - 1]);
    }
  }

  /** Decoding an encoded row gives the columns back exactly when each null column
      has the empty value. */
  lemma {:induction false} DecodeEncodeRoundTrip(columns: seq<ColumnValue>, defs: seq<ColumnDef>)
    requires DistinctNames(defs) && Aligned(columns, defs)
    ensures Decoded(Values(columns), defs) == columns <==>
            forall i | 0 <= i < |columns| && columns[i].isNull :: columns[i].value == ""
  {
    ValuesOf(columns);
    var back := Decoded(Values(columns), defs);
    forall i | 0 <= i < |columns|
      ensures back[i] == columns[i] <==> (columns[i].isNull ==> columns[i].value == "")
    {
      assert back[i] == DecodeColumn(Values(columns), defs[i]);
    }
    if back == columns {
      assert forall i | 0 <= i < |columns| :: back[i] == columns[i];
    }
  }

  predicate Defines(defs: seq<ColumnDef>, name: string) {
    exists i :: 0 <= i < |defs| && defs[i].name == name
  }

  lemma DefinesAppend(defs: seq<ColumnDef>, d: ColumnDef, name: string)
    ensures Defines(defs + [d], name) <==> Defines(defs, name) || d.name == name
  {
    assert (defs + [d])[|defs|] == d;
    if i :| 0 <= i < |defs| && defs[i].name == name {
      assert (defs + [d])[i] == defs[i];
    }
  }

  /** Encoding a decoded row gives the row restricted to the schema's columns. */
  lemma {:induction false} EncodeDecodeRestricts(row: Row, defs: seq<ColumnDef>)
    ensures forall name :: name in Values(Decoded(row, defs)) <==> name in row && Defines(defs, name)
    ensures forall name | name in Values(Decoded(row, defs)) :: Values(Decoded(row, defs))[name] == row[name]
  {
    if defs == [] {
    } else {
      var n := |defs| - 1;
      EncodeDecodeRestricts(row, defs[..n]);
      assert Decoded(row, defs)[..n] == Decoded(row, defs[..n]);
      assert defs == defs[..n] + [defs[n]];
      forall name
        ensures Defines(defs, name) <==> Defines(defs[..n], name) || defs[n].name == name
      {
        DefinesAppend(defs[..n], defs[n], name);
      }
    }
  }

  // ----- Parsing -----

  function EventFor(entry: LogEntry, columns: seq<ColumnValue>, version: nat): ChangeEvent {
    ChangeEvent(entry.seqNo, entry.table, entry.op, columns, if "id" in entry.row then entry.row["id"] else "",
                entry.txnId, entry.txnSeq, version, 0, entry.seqNo)
  }

  function ParseOne(cs: Changes, entry: LogEntry): Result<ChangeEvent, ParseError> {
    match VersionAtSpec(cs, entry.table, entry.seqNo)
    case Err(_) => Err(Resolving(entry.table, entry.seqNo))
    case Ok(version) =>
      match DecodeSpec(cs, entry, version)
      case Err(_) => Err(Decoding(entry.table, entry.seqNo))
      case Ok(columns) => Ok(EventFor(entry, columns, version))
  }

  /** The events before sequencing, or the first error. */
  function ParseEach(cs: Changes, entries: seq<LogEntry>): (r: Result<seq<ChangeEvent>, ParseError>)
    ensures r.Ok? ==> |r.value| == |entries|
  {
    if entries == [] then Ok([])
    else
      match ParseEach(cs, entries[..|entries| - 1])
      case Err(e) => Err(e)
      case Ok(events) =>
        match ParseOne(cs, entries[|entries| - 1])
        case Err(e) => Err(e)
        case Ok(event) => Ok(events + [event])
  }

  function ParseSpec(cs: Changes, entries: seq<LogEntry>): Result<seq<ChangeEvent>, ParseError> {
    match ParseEach(cs, entries)
    case Err(e) => Err(e)
    case Ok(events) => Ok(Sequenced(events))
  }

  lemma {:induction false} ParseEachIs(cs: Changes, entries: seq<LogEntry>, i: nat)
    requires ParseEach(cs, entries).Ok? && i < |entries|
    ensures ParseOne(cs, entries[i]) == Ok(ParseEach(cs, entries).value[i])
  {
    var n := |entries| - 1;
    var front := ParseEach(cs, entries[..n]).value;
    assert ParseEach(cs, entries).value == front + [ParseOne(cs, entries[n]).value];
    if i < n {
      ParseEachIs(cs, entries[..n], i);
      assert entries[..n][i] == entries[i];
    }
  }

  lemma ParseOneKeeps(cs: Changes, entry: LogEntry)
    requires ParseOne(cs, entry).Ok?
    ensures StandsFor(ParseOne(cs, entry).value, entry) && ParseOne(cs, entry).value.table == entry.table
  {
  }

  lemma {:induction false} ParseEachOneToOne(cs: Changes, entries: seq<LogEntry>)
    requires ParseEach(cs, entries).Ok?
    ensures OneToOne(entries, ParseEach(cs, entries).value)
    ensures forall i | 0 <= i < |entries| :: ParseEach(cs, entries).value[i].table == entries[i].table
    ensures forall i | 0 <= i < |entries| :: ParseOne(cs, entries[i]) == Ok(ParseEach(cs, entries).value[i])
  {
    var events := ParseEach(cs, entries).value;
    forall i | 0 <= i < |entries|
      ensures ParseOne(cs, entries[i]) == Ok(events[i])
      ensures StandsFor(events[i], entries[i]) && events[i].table == entries[i].table
    {
      ParseEachIs(cs, entries, i);
      ParseOneKeeps(cs, entries[i]);
    }
  }

  /** Sequencing changes no more than the sequences of tagged events. */
  lemma {:induction false} SequencedStandFor(entries: seq<LogEntry>, events: seq<ChangeEvent>)
    requires OneToOne(entries, events)
    ensures OneToOne(entries, Sequenced(events))
    ensures forall i | 0 <= i < |events| ::
              var e := Sequenced(events)[i];
              && e.table == events[i].table && e.columns == events[i].columns
              && e.schemaVersion == events[i].schemaVersion
  {
    SequencedIsRunIndex(events);
    forall i | 0 <= i < |entries|
      ensures StandsFor(Sequenced(events)[i], entries[i])
    {
      assert StandsFor(events[i], entries[i]);
    }
  }

  /** Parsing keeps count, order, tables, numbers, operations, row ids and transactions, and
      decodes each entry with the version at its position. */
  lemma {:induction false} ParseIsOneToOne(cs: Changes, entries: seq<LogEntry>)
    requires ParseSpec(cs, entries).Ok?
    ensures OneToOne(entries, ParseSpec(cs, entries).value)
    ensures forall i | 0 <= i < |entries| ::
              var e := ParseSpec(cs, entries).value[i];
              && e.table == entries[i].table
              && VersionAtSpec(cs, entries[i].table, entries[i].seqNo) == Ok(e.schemaVersion)
              && DecodeSpec(cs, entries[i], e.schemaVersion) == Ok(e.columns)
  {
    var events := ParseEach(cs, entries).value;
    ParseEachOneToOne(cs, entries);
    SequencedStandFor(entries, events);
    forall i | 0 <= i < |entries|
      ensures VersionAtSpec(cs, entries[i].table, entries[i].seqNo) == Ok(events[i].schemaVersion)
      ensures DecodeSpec(cs, entries[i], events[i].schemaVersion) == Ok(events[i].columns)
    {
      assert ParseOne(cs, entries[i]) == Ok(events[i]);
    }
  }

  // ----- Stability under later DDL -----

  /** Every registered table has a change, and no change is empty: what the registry
      keeps. */
  ghost predicate WellRegistered(cs: Changes) {
    forall t | t in cs :: cs[t] != [] && forall i | 0 <= i < |cs[t]| :: cs[t][i].columns != []
  }

  /** The table of the first entry whose table is not registered. */
  function FirstUnregistered(cs: Changes, entries: seq<LogEntry>): Option<string> {
    if entries == [] then None
    else
      var before := FirstUnregistered(cs, entries[..|entries| - 1]);
      if before.Some? then before
      else
        var table := entries[|entries| - 1].table;
        if ChangesOf(cs, table) == [] then Some(table) else None
  }

  /** A valid change applied after every entry, in position order for its table. */
  ghost predicate LaterChange(cs: Changes, c: SchemaChange, entries: seq<LogEntry>) {
    && c.columns != []
    && Nondecreasing(ChangesOf(cs, c.table) + [c])
    && forall e | e in entries :: e.seqNo < c.appliedAt
  }

  lemma {:induction false} ParseOneStable(cs: Changes, c: SchemaChange, entry: LogEntry)
    requires WellRegistered(cs) && LaterChange(cs, c, [entry])
    requires ChangesOf(cs, entry.table) != [] || entry.table != c.table
    ensures ParseOne(Recorded(cs, c), entry) == ParseOne(cs, entry)
  {
    var after := Recorded(cs, c);
    assert entry in [entry];
    if entry.table == c.table {
      var changes := cs[entry.table];
      LaterChangeIsInvisible(changes, c, entry.seqNo);
      var v := VersionIn(changes, entry.seqNo);
      assert after[entry.table][v - 1] == changes[v - 1];
    }
  }

  lemma {:induction false} ParseOneFails(cs: Changes, entry: LogEntry)
    requires WellRegistered(cs)
    ensures ParseOne(cs, entry).Err? <==> ChangesOf(cs, entry.table) == []
    ensures ParseOne(cs, entry).Err? ==> ParseOne(cs, entry) == Err(Resolving(entry.table, entry.seqNo))
  {
    if ChangesOf(cs, entry.table) != [] {
      LookupHasSchema(cs, entry.table, entry.seqNo);
      assert cs[entry.table] != [];
    }
  }

  lemma {:induction false} ParseEachFails(cs: Changes, entries: seq<LogEntry>)
    requires WellRegistered(cs)
    ensures ParseEach(cs, entries).Err? <==> FirstUnregistered(cs, entries).Some?
    ensures ParseEach(cs, entries).Err? ==> ParseEach(cs, entries).error.Resolving?
                                            && Some(ParseEach(cs, entries).error.table) ==
                                              FirstUnregistered(cs, entries)
  {
    if entries == [] {
    } else {
      ParseEachFails(cs, entries[..|entries| - 1]);
      ParseOneFails(cs, entries[|entries| - 1]);
    }
  }

  lemma {:induction false} ParseEachStable(cs: Changes, c: SchemaChange, entries: seq<LogEntry>)
    requires WellRegistered(cs) && LaterChange(cs, c, entries) && FirstUnregistered(cs, entries) != Some(c.table)
    ensures ParseEach(Recorded(cs, c), entries) == ParseEach(cs, entries)
  {
    if entries == [] {
    } else {
      var n := |entries| - 1;
      assert entries == entries[..n] + [entries[n]];
      ParseEachStable(cs, c, entries[..n]);
      if ParseEach(cs, entries[..n]).Ok? {
        ParseEachFails(cs, entries[..n]);
        ParseOneStable(cs, c, entries[n]);
      }
    }
  }

  lemma {:induction false} RecordedStaysRegistered(cs: Changes, c: SchemaChange)
    requires WellRegistered(cs) && c.columns != []
    ensures WellRegistered(Recorded(cs, c))
  {
    assert ChangesOf(cs, c.table) != [] ==> c.table in cs;
  }

  lemma FirstUnregisteredMoves(cs: Changes, c: SchemaChange, entries: seq<LogEntry>)
    ensures FirstUnregistered(Recorded(cs, c), entries) != Some(c.table)
  {
  }

  /** A schema change positioned after every entry leaves the parse of the entries
      unchanged exactly when it is not the change that first registers the table
      the parse stopped at. */
  lemma {:induction false} ParseStableIff(cs: Changes, c: SchemaChange, entries: seq<LogEntry>)
    requires WellRegistered(cs) && LaterChange(cs, c, entries)
    ensures ParseSpec(Recorded(cs, c), entries) == ParseSpec(cs, entries) <==>
            FirstUnregistered(cs, entries) != Some(c.table)
  {
    if FirstUnregistered(cs, entries) != Some(c.table) {
      ParseEachStable(cs, c, entries);
    } else {
      RecordedStaysRegistered(cs, c);
      ParseEachFails(cs, entries);
      ParseEachFails(Recorded(cs, c), entries);
      FirstUnregisteredMoves(cs, c, entries);
    }
  }

  function RecordedAll(cs: Changes, ddl: seq<SchemaChange>): Changes {
    if ddl == [] then cs else Recorded(RecordedAll(cs, ddl[..|ddl| - 1]), ddl[|ddl| - 1])
  }

  lemma {:induction false} UnregisteredShrinks(cs: Changes, c: SchemaChange, entries: seq<LogEntry>)
    requires FirstUnregistered(cs, entries).None?
    ensures FirstUnregistered(Recorded(cs, c), entries).None?
  {
    if entries == [] {
    } else {
      UnregisteredShrinks(cs, c, entries[..|entries| - 1]);
    }
  }

  /** On tables that already have a schema, any sequence of later schema changes
      leaves the parse unchanged. */
  lemma {:induction false} ParseStableUnderLaterDDL(cs: Changes, ddl: seq<SchemaChange>, entries: seq<LogEntry>)
    requires WellRegistered(cs) && FirstUnregistered(cs, entries).None?
    requires forall i | 0 <= i < |ddl| :: LaterChange(RecordedAll(cs, ddl[..i]), ddl[i], entries)
    ensures ParseSpec(RecordedAll(cs, ddl), entries) == ParseSpec(cs, entries)
    ensures ParseSpec(cs, entries).Ok?
    ensures WellRegistered(RecordedAll(cs, ddl)) && FirstUnregistered(RecordedAll(cs, ddl), entries).None?
  {
    ParseEachFails(cs, entries);
    if ddl == [] {
    } else {
      var n := |ddl| - 1;
      assert forall i | 0 <= i < n :: ddl[..n][..i] == ddl[..i];
      ParseStableUnderLaterDDL(cs, ddl[..n], entries);
      var before := RecordedAll(cs, ddl[..n]);
      assert LaterChange(before, ddl[n], entries);
      ParseStableIff(before, ddl[n], entries);
      RecordedStaysRegistered(before, ddl[n]);
      UnregisteredShrinks(before, ddl[n], entries);
    }
  }

  // ----- The objects -----

  class RowDecoder {
    const reg: Registry

    constructor (reg: Registry)
      ensures this.reg == reg
    {
      this.reg := reg;
    }

    method Decode(entry: LogEntry, version: nat) returns (r: Result<seq<ColumnValue>, DecodeError>)
      requires reg.Valid()
      ensures r == DecodeSpec(reg.Value(), entry, version)
    {
      var schema := reg.Schema(entry.table, version);
      if schema.Err? {
        return Err(UnknownSchema);
      }
      var defs := schema.value.columns;
      var columns: seq<ColumnValue> := [];
      for i := 0 to |defs|
        invariant |columns| == i && forall k | 0 <= k < i :: columns[k] == DecodeColumn(entry.row, defs[k])
      {
        var def := defs[i];
        if def.name !in entry.row {
          columns := columns + [ColumnValue(def.name, "", true)];
          continue;
        }
        columns := columns + [ColumnValue(def.name, entry.row[def.name], false)];
      }
      assert columns == Decoded(entry.row, defs);
      if |columns| == 0 {
        return Err(NoDecodableColumns);
      }
      r := Ok(columns);
    }

    method Encode(columns: seq<ColumnValue>) returns (row: Row)
      ensures row == Values(columns)
    {
      row := map[];
      for i := 0 to |columns|
        invariant row == Values(columns[..i])
      {
        assert columns[..i + 1][..i] == columns[..i];
        if !columns[i].isNull {
          row := row[columns[i].name := columns[i].value];
        }
      }
      assert columns[..|columns|] == columns;
    }
  }

  class Parser {
    const reg: Registry
    const splitter: TxnSplitter
    const decoder: RowDecoder

    ghost predicate Valid() {
      splitter.Valid() && decoder.reg == reg
    }

    constructor (reg: Registry, maxTxnSize: int)
      ensures Valid() && this.reg == reg
      ensures splitter.maxGroup == if maxTxnSize <= 0 then 200 else maxTxnSize
    {
      this.reg := reg;
      splitter := new TxnSplitter(maxTxnSize);
      decoder := new RowDecoder(reg);
    }

    method Parse(entries: seq<LogEntry>) returns (r: Result<seq<ChangeEvent>, ParseError>)
      requires Valid() && reg.Valid()
      ensures r == ParseSpec(reg.Value(), entries)
    {
      var events: seq<ChangeEvent> := [];
      for i := 0 to |entries|
        invariant ParseEach(reg.Value(), entries[..i]) == Ok(events)
      {
        assert entries[..i + 1][..i] == entries[..i];
        var entry := entries[i];
        var version := reg.VersionAt(entry.table, entry.seqNo);
        if version.Err? {
          ErrorStays(reg.Value(), entries, i + 1);
          return Err(Resolving(entry.table, entry.seqNo));
        }
        var columns := decoder.Decode(entry, version.value);
        if columns.Err? {
          ErrorStays(reg.Value(), entries, i + 1);
          return Err(Decoding(entry.table, entry.seqNo));
        }
        events := events + [EventFor(entry, columns.value, version.value)];
      }
      assert entries[..|entries|] == entries;
      var out := splitter.Sequence(events);
      r := Ok(out);
    }

    method Split(events: seq<ChangeEvent>) returns (groups: seq<seq<ChangeEvent>>)
      requires Valid()
      ensures groups == Chunks(events, splitter.maxGroup)
    {
      groups := splitter.Split(events);
    }
  }

  lemma {:induction false} ErrorStays(cs: Changes, entries: seq<LogEntry>, i: nat)
    requires i <= |entries| && ParseEach(cs, entries[..i]).Err?
    ensures ParseEach(cs, entries) == ParseEach(cs, entries[..i])
    decreases |entries|
  {
    if i < |entries| {
      assert entries[..|entries| - 1][..i] == entries[..i];
      ErrorStays(cs, entries[..|entries| - 1], i);
    } else {
      assert entries[..i] == entries;
    }
  }
}
