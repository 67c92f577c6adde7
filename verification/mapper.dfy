/** Versioned mapping snapshots: frozen once made, and exact under a collision-free
    rename. */
module Mapping {
  import opened Model
  import opened Source
  import opened Schema

  datatype MappingRule = MappingRule(
    sourceTable: string, targetTable: string, columnMap: map<string, string>, keepColumns: Option<seq<string>>)

  datatype FilterRule = FilterRule(table: string, keep: seq<string>, revision: nat)

  /** An immutable mapping layout; no `keep` set means every column is kept. */
  datatype Snapshot = Snapshot(
    table: string, target: string, columns: seq<string>, columnMap: map<string, string>, keep: Option<set<string>>,
    filterRevision: nat)

  datatype MapError = BadRule | BadSchema(error: SchemaError) | NoSnapshot | WrongTable

  // ----- Rules -----

  datatype Rules = Rules(mappings: map<string, MappingRule>, filters: map<string, FilterRule>, revision: nat)

  function WithMapping(rs: Rules, rule: MappingRule): Rules {
    Rules(rs.mappings[rule.sourceTable := rule], rs.filters, rs.revision + 1)
  }

  function WithFilter(rs: Rules, rule: FilterRule): Rules {
    Rules(rs.mappings, rs.filters[rule.table := rule.(revision := rs.revision + 1)], rs.revision + 1)
  }

  class RuleStore {
    var mappings: map<string, MappingRule>
    var filters: map<string, FilterRule>
    var revision: nat

    ghost function State(): Rules
      reads this
    {
      Rules(mappings, filters, revision)
    }

    constructor ()
      ensures State() == Rules(map[], map[], 0)
    {
      mappings, filters, revision := map[], map[], 0;
    }

    method ApplyMapping(rule: MappingRule) returns (ok: bool)
      modifies this
      ensures ok <==> rule.sourceTable != "" && rule.targetTable != ""
      ensures State() == if ok then WithMapping(old(State()), rule) else old(State())
    {
      if rule.sourceTable == "" || rule.targetTable == "" {
        return false;
      }
      revision := revision + 1;
      mappings := mappings[rule.sourceTable := rule];
      ok := true;
    }

    method ApplyFilter(rule: FilterRule) returns (ok: bool)
      modifies this
      ensures ok <==> rule.table != ""
      ensures State() == if ok then WithFilter(old(State()), rule) else old(State())
    {
      if rule.table == "" {
        return false;
      }
      revision := revision + 1;
      filters := filters[rule.table := rule.(revision := revision)];
      ok := true;
    }
  }

  // ----- Building a snapshot -----

  function Rename(columnMap: map<string, string>, name: string): string {
    if name in columnMap then columnMap[name] else name
  }

  function Renamed(columnMap: map<string, string>, defs: seq<ColumnDef>): (names: seq<string>)
    ensures |names| == |defs| && forall i | 0 <= i < |defs| :: names[i] == Rename(columnMap, defs[i].name)
  {
    if defs == [] then []
    else Renamed(columnMap, defs[..|defs| - 1]) + [Rename(columnMap, defs[|defs| - 1].name)]
  }

  function SetOf(names: seq<string>): set<string> {
    set n | n in names
  }

  function Built(cs: Changes, rs: Rules, table: string, version: nat): Result<Snapshot, MapError> {
    match SchemaSpec(cs, table, version)
    case Err(e) => Err(BadSchema(e))
    case Ok(schema) =>
      var columnMap := if table in rs.mappings then rs.mappings[table].columnMap else map[];
      var keep :=
        if table in rs.filters then Some(SetOf(rs.filters[table].keep))
        else if table in rs.mappings && rs.mappings[table].keepColumns.Some? then
          Some(SetOf(rs.mappings[table].keepColumns.value))
        else None;
      Ok(Snapshot(table, if table in rs.mappings then rs.mappings[table].targetTable else table,
                  Renamed(columnMap, schema.columns), columnMap, keep,
                  if table in rs.filters then rs.filters[table].revision else 0))
  }

  // ----- Applying a snapshot -----

  predicate Kept(keep: Option<set<string>>, name: string) {
    keep.None? || name in keep.value
  }

  /** The named column's first value under another name, or null. */
  function Fetch(columns: seq<ColumnValue>, name: string, target: string): ColumnValue {
    if columns == [] then ColumnValue(target, "", true)
    else if columns[0].name == name then ColumnValue(target, columns[0].value, columns[0].isNull)
    else Fetch(columns[1..], name, target)
  }

  /** What the search of the column map, in some iteration order, can end with. */
  ghost predicate IsSource(columnMap: map<string, string>, target: string, source: string) {
    if exists s :: s in columnMap && columnMap[s] == target then source in columnMap && columnMap[source] == target
    else source == target
  }

  ghost predicate Fetched(columnMap: map<string, string>, columns: seq<ColumnValue>, target: string, col: ColumnValue) {
    exists source :: IsSource(columnMap, target, source) && col == Fetch(columns, source, target)
  }

  /** `out` can be the result of mapping `columns` onto the target names. */
  ghost predicate IsOutput(targets: seq<string>, keep: Option<set<string>>, columnMap: map<string, string>,
                           columns: seq<ColumnValue>, out: seq<ColumnValue>) {
    if targets == [] then out == []
    else
      var n := |targets| - 1;
      if !Kept(keep, targets[n]) then IsOutput(targets[..n], keep, columnMap, columns, out)
      else
        && out != [] && IsOutput(targets[..n], keep, columnMap, columns, out[..|out| - 1])
        && Fetched(columnMap, columns, targets[n], out[|out| - 1])
  }

  /** The kept schema columns in order, renamed, each with its own column's value. */
  function Exact(defs: seq<ColumnDef>, keep: Option<set<string>>, columnMap: map<string, string>,
                 columns: seq<ColumnValue>): seq<ColumnValue> {
    if defs == [] then []
    else
      var n := |defs| - 1;
      var before, target := Exact(defs[..n], keep, columnMap, columns), Rename(columnMap, defs[n].name);
      if Kept(keep, target) then before + [Fetch(columns, defs[n].name, target)] else before
  }

  /** No other mapping entry aims at the target of a kept schema column. */
  ghost predicate CollisionFree(defs: seq<ColumnDef>, keep: Option<set<string>>, columnMap: map<string, string>) {
    forall i: nat, s :: !Collides(defs, keep, columnMap, i, s)
  }

  lemma SoleSource(defs: seq<ColumnDef>, keep: Option<set<string>>, columnMap: map<string, string>, i: nat)
    requires CollisionFree(defs, keep, columnMap) && i < |defs| && Kept(keep, Rename(columnMap, defs[i].name))
    ensures forall s :: IsSource(columnMap, Rename(columnMap, defs[i].name), s) <==> s == defs[i].name
  {
    var name, target := defs[i].name, Rename(columnMap, defs[i].name);
    forall t
      ensures t in columnMap && columnMap[t] == target ==> t == name
    {
      assert !Collides(defs, keep, columnMap, i, t);
    }
    assert name in columnMap ==> columnMap[name] == target;
  }

  lemma PrefixCollisionFree(defs: seq<ColumnDef>, keep: Option<set<string>>, columnMap: map<string, string>, n: nat)
    requires CollisionFree(defs, keep, columnMap) && n <= |defs|
    ensures CollisionFree(defs[..n], keep, columnMap)
  {
    forall i: nat, s
      ensures !Collides(defs[..n], keep, columnMap, i, s)
    {
      assert !Collides(defs, keep, columnMap, i, s);
    }
  }

  lemma {:induction false} OutputIsExact(defs: seq<ColumnDef>, keep: Option<set<string>>,
                                         columnMap: map<string, string>, columns: seq<ColumnValue>,
                                         out: seq<ColumnValue>)
    requires CollisionFree(defs, keep, columnMap)
    requires IsOutput(Renamed(columnMap, defs), keep, columnMap, columns, out)
    ensures out == Exact(defs, keep, columnMap, columns)
  {
    if defs == [] {
    } else {
      var n, targets := |defs| - 1, Renamed(columnMap, defs);
      PrefixCollisionFree(defs, keep, columnMap, n);
      assert targets[..n] == Renamed(columnMap, defs[..n]);
      if Kept(keep, targets[n]) {
        var before, col := out[..|out| - 1], out[|out| - 1];
        OutputIsExact(defs[..n], keep, columnMap, columns, before);
        SoleSource(defs, keep, columnMap, n);
        assert Fetched(columnMap, columns, targets[n], col);
        assert out == before + [col];
      } else {
        OutputIsExact(defs[..n], keep, columnMap, columns, out);
      }
    }
  }

  /** An output in which `prefer` is the source wherever it can be. */
  ghost function OutputWith(targets: seq<string>, keep: Option<set<string>>, columnMap: map<string, string>,
                            columns: seq<ColumnValue>, prefer: string): seq<ColumnValue> {
    if targets == [] then []
    else
      var n := |targets| - 1;
      var before := OutputWith(targets[..n], keep, columnMap, columns, prefer);
      if Kept(keep, targets[n]) then before + [Fetch(columns, Preferred(columnMap, targets[n], prefer), targets[n])]
      else before
  }

  lemma {:induction false} OutputWithIsOutput(targets: seq<string>, keep: Option<set<string>>,
                                              columnMap: map<string, string>, columns: seq<ColumnValue>, prefer: string)
    ensures IsOutput(targets, keep, columnMap, columns, OutputWith(targets, keep, columnMap, columns, prefer))
  {
    if targets == [] {
    } else {
      var n := |targets| - 1;
      OutputWithIsOutput(targets[..n], keep, columnMap, columns, prefer);
      var before := OutputWith(targets[..n], keep, columnMap, columns, prefer);
      var out := OutputWith(targets, keep, columnMap, columns, prefer);
      if Kept(keep, targets[n]) {
        assert out[..|out| - 1] == before;
        assert Fetched(columnMap, columns, targets[n], out[|out| - 1]);
      }
    }
  }

  ghost function Preferred(columnMap: map<string, string>, target: string, prefer: string): (source: string)
    ensures IsSource(columnMap, target, source)
    ensures prefer in columnMap && columnMap[prefer] == target ==> source == prefer
  {
    if prefer in columnMap && columnMap[prefer] == target then prefer
    else if s :| s in columnMap && columnMap[s] == target then s
    else target
  }

  /** An output that differs from the exact one on a prefix, or in the last column,
      differs on the whole. */
  lemma {:induction false} DifferenceStays(defs: seq<ColumnDef>, keep: Option<set<string>>,
                                           columnMap: map<string, string>, columns: seq<ColumnValue>, s: string)
    requires defs != []
    requires var n, target := |defs| - 1, Rename(columnMap, defs[|defs| - 1].name);
             || OutputWith(Renamed(columnMap, defs[..n]), keep, columnMap, columns, s)
                != Exact(defs[..n], keep, columnMap, columns)
             || (Kept(keep, target) && Fetch(columns, Preferred(columnMap, target, s), target)
                                       != Fetch(columns, defs[n].name, target))
    ensures OutputWith(Renamed(columnMap, defs), keep, columnMap, columns, s) != Exact(defs, keep, columnMap, columns)
  {
    var n, targets := |defs| - 1, Renamed(columnMap, defs);
    assert targets[..n] == Renamed(columnMap, defs[..n]);
    SameLength(defs[..n], keep, columnMap, columns, s);
    AppendDiffers(OutputWith(targets[..n], keep, columnMap, columns, s), Exact(defs[..n], keep, columnMap, columns),
                  Fetch(columns, Preferred(columnMap, targets[n], s), targets[n]),
                  Fetch(columns, defs[n].name, targets[n]));
  }

  lemma {:induction false} CollisionShows(defs: seq<ColumnDef>, keep: Option<set<string>>,
                                          columnMap: map<string, string>, i: nat, s: string)
    requires Collides(defs, keep, columnMap, i, s)
    ensures var columns := [ColumnValue(defs[i].name, "x", false)];
            OutputWith(Renamed(columnMap, defs), keep, columnMap, columns, s) != Exact(defs, keep, columnMap, columns)
  {
    var n, columns := |defs| - 1, [ColumnValue(defs[i].name, "x", false)];
    if i == n {
      FetchFromOne(defs[n].name, s, Rename(columnMap, defs[n].name));
    } else {
      CollisionShows(defs[..n], keep, columnMap, i, s);
    }
    DifferenceStays(defs, keep, columnMap, columns, s);
  }

  lemma FetchFromOne(name: string, other: string, target: string)
    requires name != other
    ensures Fetch([ColumnValue(name, "x", false)], name, target) == ColumnValue(target, "x", false)
    ensures Fetch([ColumnValue(name, "x", false)], other, target) == ColumnValue(target, "", true)
  {
    assert [ColumnValue(name, "x", false)][1..] == [];
  }

  lemma AppendDiffers(a: seq<ColumnValue>, b: seq<ColumnValue>, x: ColumnValue, y: ColumnValue)
    requires |a| == |b|
    ensures a != b || x != y ==> a + [x] != b + [y]
  {
    assert (a + [x])[..|a|] == a && (b + [y])[..|b|] == b;
    assert (a + [x])[|a|] == x && (b + [y])[|b|] == y;
  }

  lemma {:induction false} SameLength(defs: seq<ColumnDef>, keep: Option<set<string>>, columnMap: map<string, string>,
                                      columns: seq<ColumnValue>, s: string)
    ensures |OutputWith(Renamed(columnMap, defs), keep, columnMap, columns, s)| ==
            |Exact(defs, keep, columnMap, columns)|
  {
    if defs == [] {
    } else {
      var n := |defs| - 1;
      assert Renamed(columnMap, defs)[..n] == Renamed(columnMap, defs[..n]);
      SameLength(defs[..n], keep, columnMap, columns, s);
    }
  }

  /** Every possible result, for every event, is the exact one. */
  ghost predicate AlwaysExact(defs: seq<ColumnDef>, keep: Option<set<string>>, columnMap: map<string, string>) {
    forall columns, out | IsOutput(Renamed(columnMap, defs), keep, columnMap, columns, out) ::
      out == Exact(defs, keep, columnMap, columns)
  }

  ghost predicate Collides(defs: seq<ColumnDef>, keep: Option<set<string>>, columnMap: map<string, string>, i: nat,
                           s: string)
  {
    && i < |defs| && s in columnMap && Kept(keep, Rename(columnMap, defs[i].name))
    && columnMap[s] == Rename(columnMap, defs[i].name) && s != defs[i].name
  }

  /** Mapping yields exactly the kept schema columns in order, each with its own
      column's value, for every event and every iteration order of the column map,
      if and only if no mapping entry collides with a kept schema column. */
  lemma {:induction false} MappingExactIff(defs: seq<ColumnDef>, keep: Option<set<string>>,
                                           columnMap: map<string, string>)
    ensures AlwaysExact(defs, keep, columnMap) <==> CollisionFree(defs, keep, columnMap)
  {
    if CollisionFree(defs, keep, columnMap) {
      forall columns, out | IsOutput(Renamed(columnMap, defs), keep, columnMap, columns, out)
        ensures out == Exact(defs, keep, columnMap, columns)
      {
        OutputIsExact(defs, keep, columnMap, columns, out);
      }
    } else {
      var i: nat, s :| Collides(defs, keep, columnMap, i, s);
      CollisionShows(defs, keep, columnMap, i, s);
      var columns := [ColumnValue(defs[i].name, "x", false)];
      OutputWithIsOutput(Renamed(columnMap, defs), keep, columnMap, columns, s);
    }
  }

  /** A snapshot of a schema version, under a collision-free rename, maps every event
      to exactly the kept columns of that version. */
  lemma {:induction false} SnapshotMapsExactly(cs: Changes, rs: Rules, table: string, version: nat,
                                               columns: seq<ColumnValue>, out: seq<ColumnValue>)
    requires Built(cs, rs, table, version).Ok?
    requires var snap, defs := Built(cs, rs, table, version).value, SchemaSpec(cs, table, version).value.columns;
             && CollisionFree(defs, snap.keep, snap.columnMap)
             && IsOutput(snap.columns, snap.keep, snap.columnMap, columns, out)
    ensures var snap := Built(cs, rs, table, version).value;
            out == Exact(SchemaSpec(cs, table, version).value.columns, snap.keep, snap.columnMap, columns)
  {
    var snap := Built(cs, rs, table, version).value;
    OutputIsExact(SchemaSpec(cs, table, version).value.columns, snap.keep, snap.columnMap, columns, out);
  }

  // ----- The mapper's snapshots -----

  type Key = (nat, nat)  // schema version, filter revision

  datatype MapperState = MapperState(snapshots: map<Key, Snapshot>, currentVersion: nat, currentRevision: nat)

  /** The registry, the rules and the mapper. */
  datatype System = System(cs: Changes, rs: Rules, m: MapperState)

  datatype Update = SchemaUpdate(change: SchemaChange) | FilterUpdate(filter: FilterRule)
    | MappingUpdate(mapping: MappingRule)

  function SchemaChanged(s: System, change: SchemaChange): System {
    if change.columns == [] then s
    else
      var cs := Recorded(s.cs, change);
      var version := |cs[change.table]|;
      match Built(cs, s.rs, change.table, version)
      case Err(_) => s.(cs := cs)
      case Ok(snap) =>
        System(cs, s.rs, s.m.(snapshots := s.m.snapshots[(version, s.rs.revision) := snap], currentVersion := version))
  }

  function FilterUpdated(s: System, rule: FilterRule): System {
    if rule.table == "" then s
    else
      var rs := WithFilter(s.rs, rule);
      if s.m.currentVersion == 0 then s.(rs := rs)
      else
        match Built(s.cs, rs, rule.table, s.m.currentVersion)
        case Err(_) => s.(rs := rs)
        case Ok(snap) =>
          System(s.cs, rs, s.m.(snapshots := s.m.snapshots[(s.m.currentVersion, rs.revision) := snap],
                                currentRevision := rs.revision))
  }

  /** A filter update succeeds when its rule names a table and, once there is a current
      version, the table has that version. */
  predicate FilterSucceeds(s: System, rule: FilterRule) {
    rule.table != "" && (s.m.currentVersion == 0 || s.m.currentVersion <= |ChangesOf(s.cs, rule.table)|)
  }

  function Updated(s: System, u: Update): System {
    match u
    case SchemaUpdate(change) => SchemaChanged(s, change)
    case FilterUpdate(rule) => FilterUpdated(s, rule)
    case MappingUpdate(rule) =>
      if rule.sourceTable == "" || rule.targetTable == "" then s else s.(rs := WithMapping(s.rs, rule))
  }

  function UpdatedAll(s: System, us: seq<Update>): System {
    if us == [] then s else Updated(UpdatedAll(s, us[..|us| - 1]), us[|us| - 1])
  }

  /** The snapshot an event is mapped with: its own, then the unfiltered one of its
      version, then the current one. */
  function SnapshotFor(m: MapperState, version: nat, revision: nat): Option<Snapshot> {
    if (version, revision) in m.snapshots then Some(m.snapshots[(version, revision)])
    else if (version, 0) in m.snapshots then Some(m.snapshots[(version, 0)])
    else if (m.currentVersion, m.currentRevision) in m.snapshots then
      Some(m.snapshots[(m.currentVersion, m.currentRevision)])
    else None
  }

  /** Snapshots are for versions their table has, and for revisions given out. */
  ghost predicate Consistent(s: System) {
    forall k | k in s.m.snapshots :: k.0 <= |ChangesOf(s.cs, s.m.snapshots[k].table)| && k.1 <= s.rs.revision
  }

  ghost predicate KeepsAll(a: MapperState, b: MapperState) {
    forall k | k in a.snapshots :: k in b.snapshots && b.snapshots[k] == a.snapshots[k]
  }

  lemma {:induction false} UpdateConsistent(s: System, u: Update)
    requires Consistent(s)
    ensures Consistent(Updated(s, u))
  {
  }

  lemma BuiltForTable(cs: Changes, rs: Rules, table: string, version: nat)
    ensures Built(cs, rs, table, version).Ok? <==> 1 <= version <= |ChangesOf(cs, table)|
    ensures Built(cs, rs, table, version).Ok? ==> Built(cs, rs, table, version).value.table == table
  {
  }

  /** A schema change keeps every snapshot made so far exactly when its version and
      the current revision are not taken, by another table's snapshot. */
  lemma {:induction false} SchemaChangeFrozenIff(s: System, change: SchemaChange)
    requires Consistent(s) && change.columns != []
    ensures KeepsAll(s.m, SchemaChanged(s, change).m) <==>
              (|ChangesOf(s.cs, change.table)| + 1, s.rs.revision) !in s.m.snapshots
  {
    var cs := Recorded(s.cs, change);
    BuiltForTable(cs, s.rs, change.table, |cs[change.table]|);
    var k := (|cs[change.table]|, s.rs.revision);
    if k in s.m.snapshots {
      assert s.m.snapshots[k].table != change.table;
    }
  }

  /** A filter update never touches an existing snapshot: its revision is new. */
  lemma FilterUpdateKeepsAll(s: System, rule: FilterRule)
    requires Consistent(s)
    ensures KeepsAll(s.m, FilterUpdated(s, rule).m)
  {
  }

  /** Only `table` has schemas and snapshots. */
  ghost predicate SingleTable(s: System, table: string) {
    && (forall t | t in s.cs :: t == table)
    && forall k | k in s.m.snapshots :: s.m.snapshots[k].table == table
  }

  lemma {:induction false} UpdateSingleTable(s: System, u: Update, table: string)
    requires Consistent(s) && SingleTable(s, table) && (u.SchemaUpdate? ==> u.change.table == table)
    ensures SingleTable(Updated(s, u), table) && KeepsAll(s.m, Updated(s, u).m)
  {
    match u
    case SchemaUpdate(change) =>
      if change.columns != [] {
        SchemaChangeFrozenIff(s, change);
      }
    case FilterUpdate(rule) =>
      FilterUpdateKeepsAll(s, rule);
      BuiltForTable(s.cs, WithFilter(s.rs, rule), rule.table, s.m.currentVersion);
    case MappingUpdate(_) =>
  }

  /** No update of the run replaces a snapshot made before it. */
  ghost predicate FrozenThroughout(s: System, us: seq<Update>) {
    us == [] ||
    var n := |us| - 1;
    FrozenThroughout(s, us[..n]) && KeepsAll(UpdatedAll(s, us[..n]).m, UpdatedAll(s, us).m)
  }

  /** The key a schema change gives its snapshot is not that of another snapshot. */
  ghost predicate KeyIsFree(s: System, u: Update) {
    u.SchemaUpdate? && u.change.columns != [] ==>
      (|ChangesOf(s.cs, u.change.table)| + 1, s.rs.revision) !in s.m.snapshots
  }

  ghost predicate KeysAreFree(s: System, us: seq<Update>) {
    us == [] ||
    var n := |us| - 1;
    KeysAreFree(s, us[..n]) && KeyIsFree(UpdatedAll(s, us[..n]), us[n])
  }

  lemma {:induction false} UpdateFrozenIff(s: System, u: Update)
    requires Consistent(s)
    ensures KeepsAll(s.m, Updated(s, u).m) <==> KeyIsFree(s, u)
  {
    match u
    case SchemaUpdate(change) =>
      if change.columns != [] {
        SchemaChangeFrozenIff(s, change);
      }
    case FilterUpdate(rule) => FilterUpdateKeepsAll(s, rule);
    case MappingUpdate(_) =>
  }

  lemma {:induction false} UpdatesConsistent(s: System, us: seq<Update>)
    requires Consistent(s)
    ensures Consistent(UpdatedAll(s, us))
  {
    if us == [] {
    } else {
      UpdatesConsistent(s, us[..|us| - 1]);
      UpdateConsistent(UpdatedAll(s, us[..|us| - 1]), us[|us| - 1]);
    }
  }

  /** For any registry, a run of schema, filter and mapping updates keeps every snapshot
      once made, exactly when no schema change meets its version and revision taken. */
  lemma {:induction false} MappingsAreFrozenIff(s: System, us: seq<Update>)
    requires Consistent(s)
    ensures FrozenThroughout(s, us) <==> KeysAreFree(s, us)
    ensures FrozenThroughout(s, us) ==> KeepsAll(s.m, UpdatedAll(s, us).m)
  {
    if us == [] {
    } else {
      var n := |us| - 1;
      MappingsAreFrozenIff(s, us[..n]);
      UpdatesConsistent(s, us[..n]);
      UpdateFrozenIff(UpdatedAll(s, us[..n]), us[n]);
    }
  }

  /** For a single-table registry, no run of schema, filter and mapping updates
      changes how an event is mapped once its snapshot exists. */
  lemma {:induction false} MappingsAreFrozen(s: System, us: seq<Update>, table: string, version: nat, revision: nat)
    requires Consistent(s) && SingleTable(s, table)
    requires forall i | 0 <= i < |us| && us[i].SchemaUpdate? :: us[i].change.table == table
    requires (version, revision) in s.m.snapshots
    ensures SnapshotFor(UpdatedAll(s, us).m, version, revision) == SnapshotFor(s.m, version, revision)
    ensures Consistent(UpdatedAll(s, us)) && SingleTable(UpdatedAll(s, us), table)
    ensures (version, revision) in UpdatedAll(s, us).m.snapshots
  {
    if us == [] {
    } else {
      var n := |us| - 1;
      MappingsAreFrozen(s, us[..n], table, version, revision);
      UpdateSingleTable(UpdatedAll(s, us[..n]), us[n], table);
      UpdateConsistent(UpdatedAll(s, us[..n]), us[n]);
    }
  }

  // ----- The mapper as an object -----

  method ApplySnapshot(snap: Snapshot, event: ChangeEvent) returns (r: Result<ChangeEvent, MapError>)
    ensures r.Ok? <==> event.table == snap.table
    ensures r.Ok? ==> r.value == event.(table := snap.target, columns := r.value.columns)
                      && IsOutput(snap.columns, snap.keep, snap.columnMap, event.columns, r.value.columns)
    ensures r.Err? ==> r.error == WrongTable
  {
    if event.table != snap.table {
      return Err(WrongTable);
    }
    var cols: seq<ColumnValue> := [];
    for i := 0 to |snap.columns|
      invariant IsOutput(snap.columns[..i], snap.keep, snap.columnMap, event.columns, cols)
    {
      var target := snap.columns[i];
      assert snap.columns[..i + 1][..i] == snap.columns[..i];
      if snap.keep.Some? && target !in snap.keep.value {
        continue;
      }
      var source := FindSource(snap.columnMap, target);
      var col := FindColumn(event.columns, source, target);
      assert (cols + [col])[..|cols|] == cols;
      cols := cols + [col];
    }
    assert snap.columns[..|snap.columns|] == snap.columns;
    r := Ok(event.(table := snap.target, columns := cols));
  }

  /** The search of the column map, in arbitrary order, up to the first hit. */
  method FindSource(columnMap: map<string, string>, target: string) returns (source: string)
    ensures IsSource(columnMap, target, source)
  {
    var remaining := columnMap.Keys;
    while remaining != {}
      invariant remaining <= columnMap.Keys
      invariant forall s | s in columnMap && s !in remaining :: columnMap[s] != target
    {
      var s :| s in remaining;
      if columnMap[s] == target {
        return s;
      }
      remaining := remaining - {s};
    }
    source := target;
  }

  method FindColumn(columns: seq<ColumnValue>, name: string, target: string) returns (col: ColumnValue)
    ensures col == Fetch(columns, name, target)
  {
    for i := 0 to |columns|
      invariant Fetch(columns[i..], name, target) == Fetch(columns, name, target)
    {
      assert columns[i..][1..] == columns[i + 1..];
      if columns[i].name == name {
        return ColumnValue(target, columns[i].value, columns[i].isNull);
      }
    }
    col := ColumnValue(target, "", true);
  }

  /** The given tables have snapshots of their latest versions, and no others exist; the
      current version is the highest of them and the current revision that of the rules. */
  ghost predicate Covers(cs: Changes, rs: Rules, tables: set<string>, m: MapperState) {
    && (forall k | k in m.snapshots :: IsLatest(cs, rs, k, m.snapshots[k]))
    && (forall t | t in tables && t in cs :: (|cs[t]|, rs.revision) in m.snapshots && |cs[t]| <= m.currentVersion)
    && (m.currentVersion == 0 || exists t :: t in tables && t in cs && |cs[t]| == m.currentVersion)
    && m.currentRevision == rs.revision
  }

  /** The snapshot of its table's latest version under the current rules. */
  ghost predicate IsLatest(cs: Changes, rs: Rules, k: Key, snap: Snapshot) {
    Built(cs, rs, snap.table, k.0) == Ok(snap) && k == (|ChangesOf(cs, snap.table)|, rs.revision)
  }

  lemma CoverOneMore(cs: Changes, rs: Rules, tables: set<string>, m: MapperState, t: string, m': MapperState)
    requires Covers(cs, rs, tables, m) && t in cs && cs[t] != []
    requires Built(cs, rs, t, |cs[t]|).Ok?
    requires m' == m.(snapshots := m.snapshots[(|cs[t]|, rs.revision) := Built(cs, rs, t, |cs[t]|).value],
                      currentVersion := Max(m.currentVersion, |cs[t]|))
    ensures Covers(cs, rs, tables + {t}, m')
  {
    BuiltForTable(cs, rs, t, |cs[t]|);
    assert IsLatest(cs, rs, (|cs[t]|, rs.revision), Built(cs, rs, t, |cs[t]|).value);
    assert t in tables + {t};
    if m'.currentVersion == m.currentVersion != 0 {
      var u :| u in tables && u in cs && |cs[u]| == m.currentVersion;
      assert u in tables + {t};
    }
  }

  lemma CoversConsistent(cs: Changes, rs: Rules, m: MapperState)
    requires Covers(cs, rs, cs.Keys, m)
    ensures Consistent(System(cs, rs, m))
  {
    assert forall k | k in m.snapshots :: IsLatest(cs, rs, k, m.snapshots[k]);
  }

  class Mapper {
    const reg: Registry
    const rules: RuleStore
    var snapshots: map<Key, Snapshot>
    var currentVersion: nat
    var currentRevision: nat

    ghost predicate Valid()
      reads reg, reg.historyIndex
    {
      reg.Valid()
    }

    ghost function State(): System
      reads this, reg, reg.historyIndex, rules
    {
      System(reg.Value(), rules.State(), MapperState(snapshots, currentVersion, currentRevision))
    }

    /** One snapshot per registered table at its latest version; tables are visited
        in an arbitrary order. */
    constructor (reg: Registry, rules: RuleStore)
      requires reg.Valid()
      ensures this.reg == reg && this.rules == rules && Valid()
      ensures Consistent(State())
      ensures Covers(reg.Value(), rules.State(), reg.Value().Keys, State().m)
    {
      this.reg := reg;
      this.rules := rules;
      snapshots, currentVersion, currentRevision := map[], 0, rules.revision;
      new;
      SnapshotTables();
      CoversConsistent(reg.Value(), rules.State(), State().m);
    }

    method SnapshotTables()
      requires Valid() && State().m == MapperState(map[], 0, rules.revision)
      modifies this`snapshots, this`currentVersion
      ensures Covers(reg.Value(), rules.State(), reg.Value().Keys, State().m)
    {
      ghost var done: set<string> := {};
      var remaining := reg.nextVer.Keys;
      while remaining != {}
        invariant forall t :: t in reg.Value() <==> t in done || t in remaining
        invariant Covers(reg.Value(), rules.State(), done, State().m)
      {
        var table :| table in remaining;
        SnapshotTable(table, done);
        remaining, done := remaining - {table}, done + {table};
      }
      assert done == reg.Value().Keys;
    }

    method SnapshotTable(table: string, ghost tables: set<string>)
      requires Valid() && table in reg.Value()
      requires Covers(reg.Value(), rules.State(), tables, State().m)
      modifies this`snapshots, this`currentVersion
      ensures Covers(reg.Value(), rules.State(), tables + {table}, State().m)
    {
      ghost var before := State().m;
      var version := reg.CurrentVersion(table);
      var snap := BuildSnapshot(table, version);
      BuiltForTable(reg.Value(), rules.State(), table, version);
      if snap.Ok? {
        snapshots := snapshots[(version, currentRevision) := snap.value];
      }
      if version > currentVersion {
        currentVersion := version;
      }
      CoverOneMore(reg.Value(), rules.State(), tables, before, table, State().m);
    }

    method BuildSnapshot(table: string, version: nat) returns (r: Result<Snapshot, MapError>)
      requires Valid()
      ensures r == Built(reg.Value(), rules.State(), table, version)
    {
      var schema := reg.Schema(table, version);
      if schema.Err? {
        return Err(BadSchema(schema.error));
      }
      var columnMap: map<string, string>, target, keep: Option<set<string>>, revision := map[], table, None, 0;
      if table in rules.mappings {
        columnMap := rules.mappings[table].columnMap;
        target := rules.mappings[table].targetTable;
        if rules.mappings[table].keepColumns.Some? {
          keep := Some(SetOf(rules.mappings[table].keepColumns.value));
        }
      }
      if table in rules.filters {
        revision := rules.filters[table].revision;
        keep := Some(SetOf(rules.filters[table].keep));
      }
      var defs, names := schema.value.columns, [];
      for i := 0 to |defs|
        invariant names == Renamed(columnMap, defs[..i])
      {
        assert defs[..i + 1][..i] == defs[..i];
        names := names + [if defs[i].name in columnMap then columnMap[defs[i].name] else defs[i].name];
      }
      assert defs[..|defs|] == defs;
      r := Ok(Snapshot(table, target, names, columnMap, keep, revision));
    }

    method ApplySchemaChange(change: SchemaChange) returns (ok: bool)
      requires Valid()
      modifies this, reg, reg.historyIndex
      ensures Valid() && State() == SchemaChanged(old(State()), change)
      ensures ok <==> change.columns != []
    {
      var version := reg.Apply(change);
      if version.Err? {
        return false;
      }
      var snap := BuildSnapshot(change.table, version.value);
      BuiltForTable(reg.Value(), rules.State(), change.table, version.value);
      snapshots := snapshots[(version.value, rules.revision) := snap.value];
      currentVersion := version.value;
      ok := true;
    }

    method ApplyFilterUpdate(rule: FilterRule) returns (ok: bool)
      requires Valid()
      modifies this, rules
      ensures Valid() && State() == FilterUpdated(old(State()), rule)
      ensures ok <==> FilterSucceeds(old(State()), rule)
    {
      ok := rules.ApplyFilter(rule);
      if !ok || currentVersion == 0 {
        return;
      }
      var snap := BuildSnapshot(rule.table, currentVersion);
      BuiltForTable(reg.Value(), rules.State(), rule.table, currentVersion);
      if snap.Err? {
        return false;
      }
      snapshots := snapshots[(currentVersion, rules.revision) := snap.value];
      currentRevision := rules.revision;
    }

    method Map(event: ChangeEvent) returns (r: Result<ChangeEvent, MapError>)
      requires Valid()
      ensures Mapped(State().m, event, r)
    {
      var key := (event.schemaVersion, event.filterRevision);
      if key !in snapshots {
        key := (event.schemaVersion, 0);
      }
      if key !in snapshots {
        key := (currentVersion, currentRevision);
      }
      if key !in snapshots {
        return Err(NoSnapshot);
      }
      r := ApplySnapshot(snapshots[key], event);
    }

    method MapBatch(events: seq<ChangeEvent>) returns (r: Result<seq<ChangeEvent>, MapError>)
      requires Valid()
      ensures r.Ok? ==> MappedAll(State().m, events, r.value)
      ensures r.Err? ==> exists i :: 0 <= i < |events| && Mapped(State().m, events[i], Err(r.error))
                                     && forall k | 0 <= k < i :: Mappable(State().m, events[k])
      ensures r.Ok? <==> forall i | 0 <= i < |events| :: Mappable(State().m, events[i])
    {
      var out: seq<ChangeEvent> := [];
      for i := 0 to |events|
        invariant MappedAll(State().m, events[..i], out)
        invariant forall k | 0 <= k < i :: Mappable(State().m, events[k])
      {
        var mapped := Map(events[i]);
        if mapped.Err? {
          assert !Mappable(State().m, events[i]);
          return Err(mapped.error);
        }
        assert Mapped(State().m, events[i], Ok(mapped.value));
        out := out + [mapped.value];
      }
      assert events[..|events|] == events;
      r := Ok(out);
    }
  }

  /** `r` can be the result of mapping `event`: with the event's snapshot, if there
      is one and it is for the event's table. */
  ghost predicate Mapped(m: MapperState, event: ChangeEvent, r: Result<ChangeEvent, MapError>) {
    match SnapshotFor(m, event.schemaVersion, event.filterRevision)
    case None => r == Err(NoSnapshot)
    case Some(snap) =>
      if event.table != snap.table then r == Err(WrongTable)
      else r.Ok? && r.value == event.(table := snap.target, columns := r.value.columns)
           && IsOutput(snap.columns, snap.keep, snap.columnMap, event.columns, r.value.columns)
  }

  /** There is a snapshot to map the event with, and it is for the event's table. */
  ghost predicate Mappable(m: MapperState, event: ChangeEvent) {
    match SnapshotFor(m, event.schemaVersion, event.filterRevision)
    case None => false
    case Some(snap) => snap.table == event.table
  }

  ghost predicate MappedAll(m: MapperState, events: seq<ChangeEvent>, mapped: seq<ChangeEvent>) {
    |mapped| == |events| && forall i | 0 <= i < |events| :: Mapped(m, events[i], Ok(mapped[i]))
  }

  /** Mapping a batch keeps the entries' positions and transactions, one for one. */
  lemma MapIsOneToOne(m: MapperState, entries: seq<LogEntry>, events: seq<ChangeEvent>, mapped: seq<ChangeEvent>)
    requires OneToOne(entries, events) && MappedAll(m, events, mapped)
    ensures OneToOne(entries, mapped)
  {
    forall i | 0 <= i < |entries|
      ensures StandsFor(mapped[i], entries[i])
    {
      assert Mapped(m, events[i], Ok(mapped[i]));
    }
  }
}
