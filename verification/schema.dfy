/** The versioned schema registry and its position index. */
module Schema {
  import opened Model

  datatype ColumnDef = ColumnDef(name: string, typ: string)

  datatype TableSchema = TableSchema(table: string, version: nat, columns: seq<ColumnDef>)

  datatype SchemaChange = SchemaChange(table: string, columns: seq<ColumnDef>, appliedAt: nat, changeId: string)

  datatype SchemaError = NoColumns | NotFound | NoSchema

  /** The registry's abstract value: the accepted changes of each table, in order.
      The version of a change is its place, counted from 1. */
  type Changes = map<string, seq<SchemaChange>>

  function ChangesOf(cs: Changes, table: string): seq<SchemaChange> {
    if table in cs then cs[table] else []
  }

  function Recorded(cs: Changes, c: SchemaChange): Changes {
    cs[c.table := ChangesOf(cs, c.table) + [c]]
  }

  function SchemaFor(changes: seq<SchemaChange>, i: nat): TableSchema
    requires i < |changes|
  {
    TableSchema(changes[i].table, i + 1, changes[i].columns)
  }

  // ----- The binary search -----

  /** Go's `sort.Search` for the first change applied after `pos`, on `[lo, hi)`. */
  function SearchIn(changes: seq<SchemaChange>, pos: nat, lo: nat, hi: nat): (r: nat)
    requires lo <= hi <= |changes|
    ensures lo <= r <= hi
    decreases hi - lo
  {
    if lo == hi then lo
    else
      var mid := (lo + hi) / 2;
      if changes[mid].appliedAt > pos then SearchIn(changes, pos, lo, mid) else SearchIn(changes, pos, mid + 1, hi)
  }

  function VersionIn(changes: seq<SchemaChange>, pos: nat): nat
    requires changes != []
  {
    var idx := SearchIn(changes, pos, 0, |changes|);
    if idx == 0 then 1 else idx
  }

  function VersionAtSpec(cs: Changes, table: string, pos: nat): Result<nat, SchemaError> {
    if ChangesOf(cs, table) == [] then Err(NoSchema) else Ok(VersionIn(cs[table], pos))
  }

  function SchemaSpec(cs: Changes, table: string, version: nat): Result<TableSchema, SchemaError> {
    if 1 <= version <= |ChangesOf(cs, table)| then Ok(SchemaFor(cs[table], version - 1)) else Err(NotFound)
  }

  ghost predicate Nondecreasing(changes: seq<SchemaChange>) {
    forall i, j | 0 <= i < j < |changes| :: changes[i].appliedAt <= changes[j].appliedAt
  }

  /** `v` is the version of the last change at or before `pos`, the first version
      when there is none. */
  ghost predicate IsVersionAt(changes: seq<SchemaChange>, pos: nat, v: nat) {
    && 1 <= v <= |changes|
    && (v == 1 || changes[v - 1].appliedAt <= pos)
    && forall i | v <= i < |changes| :: changes[i].appliedAt > pos
  }

  lemma {:induction false} SearchIsExact(changes: seq<SchemaChange>, pos: nat, lo: nat, hi: nat)
    requires Nondecreasing(changes) && lo <= hi <= |changes|
    requires forall i | 0 <= i < lo :: changes[i].appliedAt <= pos
    requires forall i | hi <= i < |changes| :: changes[i].appliedAt > pos
    ensures forall i | 0 <= i < |changes| :: changes[i].appliedAt > pos <==> i >= SearchIn(changes, pos, lo, hi)
    decreases hi - lo
  {
    if lo == hi {
    } else {
      var mid := (lo + hi) / 2;
      if changes[mid].appliedAt > pos {
        SearchIsExact(changes, pos, lo, mid);
      } else {
        SearchIsExact(changes, pos, mid + 1, hi);
      }
    }
  }

  lemma VersionAtUnique(changes: seq<SchemaChange>, pos: nat, v: nat, w: nat)
    requires Nondecreasing(changes) && IsVersionAt(changes, pos, v) && IsVersionAt(changes, pos, w)
    ensures v == w
  {
  }

  /** With nondecreasing DDL positions the lookup is exact, and only the exact
      version satisfies its description. */
  lemma {:induction false} LookupIsExact(changes: seq<SchemaChange>, pos: nat, v: nat)
    requires changes != [] && Nondecreasing(changes)
    ensures IsVersionAt(changes, pos, v) <==> v == VersionIn(changes, pos)
  {
    SearchIsExact(changes, pos, 0, |changes|);
    var w := VersionIn(changes, pos);
    assert IsVersionAt(changes, pos, w);
    if IsVersionAt(changes, pos, v) {
      VersionAtUnique(changes, pos, v, w);
    }
  }

  lemma {:induction false} LookupIsMonotone(changes: seq<SchemaChange>, a: nat, b: nat)
    requires changes != [] && Nondecreasing(changes) && a <= b
    ensures VersionIn(changes, a) <= VersionIn(changes, b)
  {
    LookupIsExact(changes, a, VersionIn(changes, a));
    LookupIsExact(changes, b, VersionIn(changes, b));
  }

  /** Every version a lookup returns has a schema, that of its change. */
  lemma {:induction false} LookupHasSchema(cs: Changes, table: string, pos: nat)
    requires VersionAtSpec(cs, table, pos).Ok?
    ensures var v := VersionAtSpec(cs, table, pos).value;
            SchemaSpec(cs, table, v) == Ok(TableSchema(cs[table][v - 1].table, v, cs[table][v - 1].columns))
  {
  }

  /** The version differs between two positions exactly when a change other than the
      first lies between them. */
  lemma {:induction false} VersionDiffersIff(changes: seq<SchemaChange>, a: nat, b: nat)
    requires changes != [] && Nondecreasing(changes) && a <= b
    ensures VersionIn(changes, a) != VersionIn(changes, b) <==>
              exists i :: 1 <= i < |changes| && a < changes[i].appliedAt <= b
  {
    var v, w := VersionIn(changes, a), VersionIn(changes, b);
    LookupIsExact(changes, a, v);
    LookupIsExact(changes, b, w);
    LookupIsMonotone(changes, a, b);
    if v != w {
      assert a < changes[w - 1].appliedAt <= b;
    }
  }

  /** A change applied after `pos` does not move the lookup at `pos`. */
  lemma {:induction false} LaterChangeIsInvisible(changes: seq<SchemaChange>, c: SchemaChange, pos: nat)
    requires changes != [] && Nondecreasing(changes + [c]) && c.appliedAt > pos
    ensures VersionIn(changes + [c], pos) == VersionIn(changes, pos)
  {
    var v := VersionIn(changes, pos);
    assert forall i | 0 <= i < |changes| :: (changes + [c])[i] == changes[i];
    assert Nondecreasing(changes);
    LookupIsExact(changes, pos, v);
    assert IsVersionAt(changes + [c], pos, v);
    LookupIsExact(changes + [c], pos, v);
  }

  // ----- The registry as an object -----

  /** The versions 1 to n. */
  function UpTo(n: nat): (s: seq<nat>)
    ensures |s| == n && forall i | 0 <= i < n :: s[i] == i + 1
  {
    seq(n, i => i + 1)
  }

  ghost predicate TableInStep(t: string, cs: seq<SchemaChange>, next: nat, schemas: seq<TableSchema>,
                              versions: seq<nat>, indexed: seq<nat>) {
    && cs != [] && next == |cs| == |schemas|
    && versions == indexed == UpTo(|cs|)
    && (forall i | 0 <= i < |cs| :: cs[i].table == t && cs[i].columns != [])
    && (forall i | 0 <= i < |cs| :: schemas[i] == SchemaFor(cs, i))
  }

  lemma OneMoreVersion(t: string, cs: seq<SchemaChange>, schemas: seq<TableSchema>, versions: seq<nat>, c: SchemaChange)
    requires (cs == [] && schemas == [] && versions == []) || TableInStep(t, cs, |cs|, schemas, versions, versions)
    requires c.table == t && c.columns != []
    ensures TableInStep(t, cs + [c], |cs| + 1, schemas + [TableSchema(t, |cs| + 1, c.columns)],
                        versions + [|cs| + 1], versions + [|cs| + 1])
  {
    assert versions + [|cs| + 1] == UpTo(|cs| + 1);
  }

  function Get<T>(m: map<string, seq<T>>, t: string): seq<T> {
    if t in m then m[t] else []
  }

  ghost predicate AllInStep(cs: Changes, next: map<string, nat>, schemas: map<string, seq<TableSchema>>,
                            versions: map<string, seq<nat>>, indexed: map<string, seq<nat>>) {
    && next.Keys == cs.Keys == schemas.Keys && versions.Keys == indexed.Keys == cs.Keys
    && forall t | t in cs :: TableInStep(t, cs[t], next[t], schemas[t], versions[t], indexed[t])
  }

  lemma ApplyKeepsInStep(cs: Changes, next: map<string, nat>, schemas: map<string, seq<TableSchema>>,
                         versions: map<string, seq<nat>>, indexed: map<string, seq<nat>>, c: SchemaChange, t: string,
                         v: nat)
    requires AllInStep(cs, next, schemas, versions, indexed) && c.columns != [] && t == c.table
    requires v == (if t in next then next[t] else 0) + 1
    ensures v == |ChangesOf(cs, t)| + 1
    ensures AllInStep(Recorded(cs, c), next[t := v], schemas[t := Get(schemas, t) + [TableSchema(t, v, c.columns)]],
                      versions[t := Get(versions, t) + [v]], indexed[t := Get(indexed, t) + [v]])
  {
    assert t in cs ==> TableInStep(t, cs[t], next[t], schemas[t], versions[t], indexed[t]);
    OneMoreVersion(t, ChangesOf(cs, t), Get(schemas, t), Get(versions, t), c);
    forall u | u in cs && u != t
      ensures TableInStep(u, cs[u], next[u], schemas[u], versions[u], indexed[u])
    {
    }
  }

  class ChangeHistory {
    var changes: Changes
    var version: map<string, seq<nat>>

    constructor ()
      ensures changes == map[] && version == map[]
    {
      changes, version := map[], map[];
    }

    method Add(change: SchemaChange, v: nat)
      modifies this
      ensures changes == Recorded(old(changes), change)
      ensures version == old(version)[change.table := Get(old(version), change.table) + [v]]
    {
      changes := changes[change.table := (if change.table in changes then changes[change.table] else []) + [change]];
      version := version[change.table := (if change.table in version then version[change.table] else []) + [v]];
    }

    method VersionAt(table: string, pos: nat, fallback: nat) returns (v: nat)
      requires |ChangesOf(changes, table)| == |if table in version then version[table] else []|
      ensures var cs := ChangesOf(changes, table);
              v == if cs == [] then fallback
                   else var idx := SearchIn(cs, pos, 0, |cs|);
                        version[table][if idx == 0 then 0 else idx - 1]
    {
      var cs := if table in changes then changes[table] else [];
      if |cs| == 0 {
        return fallback;
      }
      var lo, hi := 0, |cs|;
      while lo < hi
        invariant 0 <= lo <= hi <= |cs|
        invariant SearchIn(cs, pos, lo, hi) == SearchIn(cs, pos, 0, |cs|)
      {
        var mid := (lo + hi) / 2;
        if cs[mid].appliedAt > pos {
          hi := mid;
        } else {
          lo := mid + 1;
        }
      }
      if lo == 0 {
        return version[table][0];
      }
      v := version[table][lo - 1];
    }
  }

  class Registry {
    var nextVer: map<string, nat>
    var history: map<string, seq<TableSchema>>
    var versions: map<string, seq<nat>>
    const historyIndex: ChangeHistory

    /** The three indexes and the counters agree: each table's entries are the
        versions 1 to n of its n changes. */
    ghost predicate Valid()
      reads this, historyIndex
    {
      AllInStep(historyIndex.changes, nextVer, history, versions, historyIndex.version)
    }

    ghost function Value(): Changes
      reads this, historyIndex
    {
      historyIndex.changes
    }

    constructor ()
      ensures Valid() && Value() == map[] && fresh(historyIndex)
    {
      nextVer, history, versions := map[], map[], map[];
      historyIndex := new ChangeHistory();
    }

    method Apply(change: SchemaChange) returns (r: Result<nat, SchemaError>)
      requires Valid()
      modifies this, historyIndex
      ensures Valid()
      ensures change.columns == [] ==> r == Err(NoColumns) && Value() == old(Value())
      ensures change.columns != [] ==> Value() == Recorded(old(Value()), change) && r == Ok(|Value()[change.table]|)
    {
      if |change.columns| == 0 {
        return Err(NoColumns);
      }
      var t := change.table;
      var version := (if t in nextVer then nextVer[t] else 0) + 1;
      ApplyKeepsInStep(Value(), nextVer, history, versions, historyIndex.version, change, t, version);
      nextVer := nextVer[t := version];
      history := history[t := Get(history, t) + [TableSchema(t, version, change.columns)]];
      versions := versions[t := Get(versions, t) + [version]];
      historyIndex.Add(change, version);
      r := Ok(version);
    }

    method CurrentVersion(table: string) returns (v: nat)
      requires Valid()
      ensures v == |ChangesOf(Value(), table)|
    {
      v := if table in nextVer then nextVer[table] else 0;
    }

    method Schema(table: string, version: nat) returns (r: Result<TableSchema, SchemaError>)
      requires Valid()
      ensures r == SchemaSpec(Value(), table, version)
    {
      var list := if table in history then history[table] else [];
      var i := |list| - 1;
      while i >= 0
        invariant -1 <= i < |list|
        invariant forall k | i < k < |list| :: list[k].version != version
      {
        if list[i].version == version {
          return Ok(list[i]);
        }
        i := i - 1;
      }
      assert forall k | 0 <= k < |list| :: list[k].version == k + 1;
      r := Err(NotFound);
    }

    method VersionAt(table: string, pos: nat) returns (r: Result<nat, SchemaError>)
      requires Valid()
      ensures r == VersionAtSpec(Value(), table, pos)
    {
      var latest := if table in nextVer then nextVer[table] else 0;
      if latest == 0 {
        return Err(NoSchema);
      }
      var v := historyIndex.VersionAt(table, pos, latest);
      r := Ok(v);
    }

    method Versions(table: string) returns (vs: seq<nat>)
      requires Valid()
      ensures vs == UpTo(|ChangesOf(Value(), table)|)
    {
      vs := if table in versions then versions[table] else [];
    }

    /** Whether a table's version differs between two positions. */
    method VersionChanged(table: string, before: nat, after: nat) returns (changed: bool)
      requires Valid()
      ensures changed <==> VersionAtSpec(Value(), table, before) != VersionAtSpec(Value(), table, after)
      ensures before <= after && Nondecreasing(ChangesOf(Value(), table)) ==>
                (changed <==> exists i ::
                  1 <= i < |ChangesOf(Value(), table)| && before < Value()[table][i].appliedAt <= after)
    {
      var left := VersionAt(table, before);
      if left.Err? {
        return false;
      }
      var right := VersionAt(table, after);
      if before <= after && Nondecreasing(Value()[table]) {
        VersionDiffersIff(Value()[table], before, after);
      }
      changed := left.value != right.value;
    }
  }
}
