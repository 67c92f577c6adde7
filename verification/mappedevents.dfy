/** What the mapper makes of an event, in terms of the rules, the schema and the event. */
module MappedEvents {
  import opened Model
  import opened Source
  import opened Schema
  import opened Mapping

  // ----- What the rules say -----

  /** The name a table's column gets in the target. */
  function TargetName(rs: Rules, table: string, column: string): string {
    if table in rs.mappings && column in rs.mappings[table].columnMap then rs.mappings[table].columnMap[column]
    else column
  }

  function TargetTable(rs: Rules, table: string): string {
    if table in rs.mappings then rs.mappings[table].targetTable else table
  }

  /** A table's filter decides which target columns are emitted, whatever its mapping says;
      without a filter the mapping's kept columns do; without those all are. */
  predicate Emits(rs: Rules, table: string, target: string) {
    if table in rs.filters then target in rs.filters[table].keep
    else if table in rs.mappings && rs.mappings[table].keepColumns.Some? then
      target in rs.mappings[table].keepColumns.value
    else true
  }

  /** The target names of the schema's columns that are emitted, in order. */
  function EmittedNames(rs: Rules, table: string, defs: seq<ColumnDef>): seq<string> {
    if defs == [] then []
    else
      var n := |defs| - 1;
      var before, target := EmittedNames(rs, table, defs[..n]), TargetName(rs, table, defs[n].name);
      if Emits(rs, table, target) then before + [target] else before
  }

  /** Some schema column has that target name. */
  ghost predicate Targets(rs: Rules, table: string, defs: seq<ColumnDef>, name: string) {
    exists i :: 0 <= i < |defs| && TargetName(rs, table, defs[i].name) == name
  }

  lemma TargetsAppend(rs: Rules, table: string, defs: seq<ColumnDef>, last: ColumnDef, name: string)
    ensures Targets(rs, table, defs + [last], name) <==>
              Targets(rs, table, defs, name) || TargetName(rs, table, last.name) == name
  {
    assert (defs + [last])[|defs|] == last;
    assert forall i | 0 <= i < |defs| :: (defs + [last])[i] == defs[i];
  }

  lemma {:induction false} EmittedNamesAre(rs: Rules, table: string, defs: seq<ColumnDef>, name: string)
    ensures name in EmittedNames(rs, table, defs) <==> Emits(rs, table, name) && Targets(rs, table, defs, name)
  {
    if defs == [] {
    } else {
      var n := |defs| - 1;
      EmittedNamesAre(rs, table, defs[..n], name);
      assert defs == defs[..n] + [defs[n]];
      TargetsAppend(rs, table, defs[..n], defs[n], name);
    }
  }

  function ColumnNames(columns: seq<ColumnValue>): seq<string> {
    seq(|columns|, i requires 0 <= i < |columns| => columns[i].name)
  }

  lemma {:induction false} FetchIs(columns: seq<ColumnValue>, name: string, target: string)
    ensures var col := Fetch(columns, name, target);
            && col.name == target
            && ((forall i | 0 <= i < |columns| :: columns[i].name != name) ==> col.isNull && col.value == "")
            && forall i | 0 <= i < |columns| && columns[i].name == name
                          && (forall j | 0 <= j < i :: columns[j].name != name) ::
                 col.value == columns[i].value && col.isNull == columns[i].isNull
  {
    if columns == [] || columns[0].name == name {
    } else {
      FetchIs(columns[1..], name, target);
      assert forall i | 0 < i < |columns| :: columns[i] == columns[1..][i - 1];
    }
  }

  // ----- Snapshots -----

  function KeptNames(targets: seq<string>, keep: Option<set<string>>): seq<string> {
    if targets == [] then []
    else
      var n := |targets| - 1;
      var before := KeptNames(targets[..n], keep);
      if Kept(keep, targets[n]) then before + [targets[n]] else before
  }

  lemma ColumnNamesAppend(columns: seq<ColumnValue>, col: ColumnValue)
    ensures ColumnNames(columns + [col]) == ColumnNames(columns) + [col.name]
  {
  }

  lemma {:induction false} OutputNames(targets: seq<string>, keep: Option<set<string>>, columnMap: map<string, string>,
                                       columns: seq<ColumnValue>, out: seq<ColumnValue>)
    requires IsOutput(targets, keep, columnMap, columns, out)
    ensures ColumnNames(out) == KeptNames(targets, keep)
  {
    if targets == [] {
    } else {
      var n := |targets| - 1;
      if Kept(keep, targets[n]) {
        var before, col := out[..|out| - 1], out[|out| - 1];
        OutputNames(targets[..n], keep, columnMap, columns, before);
        var source :| IsSource(columnMap, targets[n], source) && col == Fetch(columns, source, targets[n]);
        FetchIs(columns, source, targets[n]);
        assert out == before + [col];
        ColumnNamesAppend(before, col);
      } else {
        OutputNames(targets[..n], keep, columnMap, columns, out);
      }
    }
  }

  lemma {:induction false} KeptNamesAreEmitted(rs: Rules, table: string, defs: seq<ColumnDef>, snap: Snapshot)
    requires forall i | 0 <= i < |defs| :: Rename(snap.columnMap, defs[i].name) == TargetName(rs, table, defs[i].name)
    requires forall name :: Kept(snap.keep, name) <==> Emits(rs, table, name)
    ensures KeptNames(Renamed(snap.columnMap, defs), snap.keep) == EmittedNames(rs, table, defs)
  {
    if defs == [] {
    } else {
      var n := |defs| - 1;
      KeptNamesAreEmitted(rs, table, defs[..n], snap);
      assert Renamed(snap.columnMap, defs)[..n] == Renamed(snap.columnMap, defs[..n]);
    }
  }

  /** The event came out as a snapshot of this schema version under these rules maps it. */
  ghost predicate MappedBy(rs: Rules, table: string, defs: seq<ColumnDef>, event: ChangeEvent,
                           r: Result<ChangeEvent, MapError>)
  {
    && r.Ok? && r.value == event.(table := TargetTable(rs, table), columns := r.value.columns)
    && ColumnNames(r.value.columns) == EmittedNames(rs, table, defs)
  }

  /** What a snapshot of a version makes of an event of its table: it goes to the rules'
      target table with exactly the emitted columns under their target names, and keeps
      everything else. */
  lemma {:induction false} SnapshotMaps(cs: Changes, rs: Rules, table: string, version: nat, m: MapperState,
                                        event: ChangeEvent, r: Result<ChangeEvent, MapError>)
    requires Mapped(m, event, r) && event.table == table
    requires Built(cs, rs, table, version).Ok?
    requires SnapshotFor(m, event.schemaVersion, event.filterRevision) == Some(Built(cs, rs, table, version).value)
    ensures SchemaSpec(cs, table, version).Ok?
    ensures MappedBy(rs, table, SchemaSpec(cs, table, version).value.columns, event, r)
  {
    var snap, defs := Built(cs, rs, table, version).value, SchemaSpec(cs, table, version).value.columns;
    OutputNames(snap.columns, snap.keep, snap.columnMap, event.columns, r.value.columns);
    KeptNamesAreEmitted(rs, table, defs, snap);
  }

  // ----- Updates -----

  /** After a filter update, an event of the current version and the new revision carries
      exactly those columns whose target name the filter keeps, whatever the mapping rule
      says, in the rule's target table. */
  lemma {:induction false} FilterFilters(s: System, rule: FilterRule, event: ChangeEvent,
                                         r: Result<ChangeEvent, MapError>)
    requires FilterSucceeds(s, rule) && s.m.currentVersion > 0
    requires Mapped(FilterUpdated(s, rule).m, event, r)
    requires event.table == rule.table && event.schemaVersion == s.m.currentVersion
    requires event.filterRevision == s.rs.revision + 1
    ensures SchemaSpec(s.cs, rule.table, s.m.currentVersion).Ok?
    ensures var defs := SchemaSpec(s.cs, rule.table, s.m.currentVersion).value.columns;
            && r.Ok? && r.value == event.(table := TargetTable(s.rs, rule.table), columns := r.value.columns)
            && forall name :: name in ColumnNames(r.value.columns) <==>
                 name in rule.keep && Targets(s.rs, rule.table, defs, name)
  {
    var rs, t := WithFilter(s.rs, rule), FilterUpdated(s, rule);
    BuiltForTable(s.cs, rs, rule.table, s.m.currentVersion);
    SnapshotMaps(s.cs, rs, rule.table, s.m.currentVersion, t.m, event, r);
    var defs := SchemaSpec(s.cs, rule.table, s.m.currentVersion).value.columns;
    forall name
      ensures name in EmittedNames(rs, rule.table, defs) <==>
                name in rule.keep && Targets(s.rs, rule.table, defs, name)
    {
      EmittedNamesAre(rs, rule.table, defs, name);
    }
  }

  /** After a filter update every event that no snapshot was made for is mapped with the
      filtered layout, as the current one. */
  lemma {:induction false} FilterBecomesCurrent(s: System, rule: FilterRule, event: ChangeEvent,
                                                r: Result<ChangeEvent, MapError>)
    requires FilterSucceeds(s, rule) && s.m.currentVersion > 0 && Mapped(FilterUpdated(s, rule).m, event, r)
    requires event.table == rule.table
    requires (event.schemaVersion, event.filterRevision) !in FilterUpdated(s, rule).m.snapshots
    requires (event.schemaVersion, 0) !in FilterUpdated(s, rule).m.snapshots
    ensures SchemaSpec(s.cs, rule.table, s.m.currentVersion).Ok?
    ensures MappedBy(WithFilter(s.rs, rule), rule.table,
                     SchemaSpec(s.cs, rule.table, s.m.currentVersion).value.columns, event, r)
  {
    BuiltForTable(s.cs, WithFilter(s.rs, rule), rule.table, s.m.currentVersion);
    SnapshotMaps(s.cs, WithFilter(s.rs, rule), rule.table, s.m.currentVersion, FilterUpdated(s, rule).m, event, r);
  }

  /** After a schema change, an event of the new version under the current rules carries the
      change's columns as the rules emit them; the new version is the current one. */
  lemma {:induction false} SchemaChangeMaps(s: System, change: SchemaChange, event: ChangeEvent,
                                            r: Result<ChangeEvent, MapError>)
    requires change.columns != [] && Mapped(SchemaChanged(s, change).m, event, r)
    requires event.table == change.table && event.schemaVersion == |ChangesOf(s.cs, change.table)| + 1
    requires event.filterRevision == s.rs.revision
    ensures MappedBy(s.rs, change.table, change.columns, event, r)
    ensures SchemaChanged(s, change).m.currentVersion == event.schemaVersion
    ensures SchemaChanged(s, change).m.currentRevision == s.m.currentRevision
  {
    var cs := Recorded(s.cs, change);
    BuiltForTable(cs, s.rs, change.table, event.schemaVersion);
    SnapshotMaps(cs, s.rs, change.table, event.schemaVersion, SchemaChanged(s, change).m, event, r);
  }

  /** A mapping rule takes effect with the next schema change of its table: columns are
      renamed by it, and kept by it when the table has no filter. */
  lemma {:induction false} MappingTakesEffect(s: System, rule: MappingRule, change: SchemaChange, event: ChangeEvent,
                                              r: Result<ChangeEvent, MapError>)
    requires rule.sourceTable != "" && rule.targetTable != "" && change.columns != []
    requires change.table == event.table == rule.sourceTable
    requires Mapped(UpdatedAll(s, [MappingUpdate(rule), SchemaUpdate(change)]).m, event, r)
    requires event.schemaVersion == |ChangesOf(s.cs, change.table)| + 1 && event.filterRevision == s.rs.revision + 1
    ensures r.Ok? && r.value == event.(table := rule.targetTable, columns := r.value.columns)
    ensures forall name :: name in ColumnNames(r.value.columns) <==>
              && (if rule.sourceTable in s.rs.filters then name in s.rs.filters[rule.sourceTable].keep
                  else rule.keepColumns.Some? ==> name in rule.keepColumns.value)
              && RenamesTo(rule.columnMap, change.columns, name)
  {
    var us := [MappingUpdate(rule), SchemaUpdate(change)];
    assert us[..1] == [MappingUpdate(rule)] && us[..1][..0] == [];
    var t := s.(rs := WithMapping(s.rs, rule));
    assert UpdatedAll(s, us[..1]) == t;
    SchemaChangeMaps(t, change, event, r);
    forall name
      ensures name in EmittedNames(t.rs, change.table, change.columns) <==>
                Emits(t.rs, change.table, name) && RenamesTo(rule.columnMap, change.columns, name)
    {
      EmittedNamesAre(t.rs, change.table, change.columns, name);
    }
  }

  /** Some column of the schema is renamed to that name, or keeps it. */
  ghost predicate RenamesTo(columnMap: map<string, string>, defs: seq<ColumnDef>, name: string) {
    exists i :: 0 <= i < |defs|
                && name == if defs[i].name in columnMap then columnMap[defs[i].name] else defs[i].name
  }

  /** The unfiltered snapshot of a version, made under these rules. */
  ghost predicate MadeFor(s: System, rs: Rules, table: string, version: nat) {
    (version, 0) in s.m.snapshots && Built(s.cs, rs, table, version) == Ok(s.m.snapshots[(version, 0)])
  }

  /** Whatever schema, filter and mapping updates follow, an event of an older version with
      no snapshot of its own revision keeps the layout its version was given, as long as no
      schema change meets its key taken. */
  lemma {:induction false} OlderEventsKeepTheirLayout(s: System, us: seq<Update>, rs: Rules, table: string,
                                                      event: ChangeEvent, r: Result<ChangeEvent, MapError>)
    requires Consistent(s) && KeysAreFree(s, us) && MadeFor(s, rs, table, event.schemaVersion)
    requires event.table == table && Mapped(UpdatedAll(s, us).m, event, r)
    requires event.filterRevision == 0
             || (event.schemaVersion, event.filterRevision) !in UpdatedAll(s, us).m.snapshots
    ensures SchemaSpec(s.cs, table, event.schemaVersion).Ok?
    ensures MappedBy(rs, table, SchemaSpec(s.cs, table, event.schemaVersion).value.columns, event, r)
  {
    MappingsAreFrozenIff(s, us);
    SnapshotMaps(s.cs, rs, table, event.schemaVersion, UpdatedAll(s, us).m, event, r);
  }
}
