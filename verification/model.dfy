/** The events, batches and keys that every stage of the pipeline exchanges. */
module Model {

  datatype Option<+T> = None | Some(value: T)

  datatype Result<+T, +E> = Ok(value: T) | Err(error: E)

  datatype OpType = OpInsert | OpUpdate | OpDelete | OpDDL

  datatype ColumnValue = ColumnValue(name: string, value: string, isNull: bool)

  datatype ChangeEvent = ChangeEvent(
    seqNo: nat,
    table: string,
    op: OpType,
    columns: seq<ColumnValue>,
    key: string,
    txnId: string,
    txnSeq: nat,
    schemaVersion: nat,
    filterRevision: nat,
    sourcePos: nat)

  datatype Batch = Batch(events: seq<ChangeEvent>, minPos: nat, maxPos: nat)

  datatype TableBatch = TableBatch(table: string, events: seq<ChangeEvent>, position: nat)

  datatype FKEdge = FKEdge(parent: string, child: string)

  function Max(a: nat, b: nat): nat {
    if a < b then b else a
  }

  // ----- Keys -----

  const DIGITS := "0123456789"

  /** The decimal rendering of a sequence number. */
  function Decimal(n: nat): string {
    if n < 10 then [DIGITS[n]] else Decimal(n / 10) + [DIGITS[n % 10]]
  }

  /** The delivery key of a row: two changes of one keyed row share it. */
  function TableKey(e: ChangeEvent): string {
    if e.key != "" then e.table + "/" + e.key else e.table + "/seq/" + Decimal(e.seqNo)
  }

  /** The sink's identity of one source event. */
  function DeliveryIdentity(e: ChangeEvent): string {
    e.table + "/" + Decimal(e.seqNo)
  }

  lemma {:induction false} DecimalHasNoSlash(n: nat)
    ensures Decimal(n) != []
    ensures '/' !in Decimal(n)
  {
    if n < 10 {
    } else {
      DecimalHasNoSlash(n / 10);
    }
  }

  lemma {:induction false} DecimalInjective(m: nat, n: nat)
    requires Decimal(m) == Decimal(n)
    ensures m == n
  {
    var a, b := Decimal(m), Decimal(n);
    DecimalHasNoSlash(m / 10);
    DecimalHasNoSlash(n / 10);
    if m < 10 && n < 10 {
      assert a[0] == b[0];
    } else {
      assert |a| >= 2 && |b| >= 2;
      assert a[..|a| - 1] == Decimal(m / 10);
      assert b[..|b| - 1] == Decimal(n / 10);
      DecimalInjective(m / 10, n / 10);
      assert a[|a| - 1] == b[|b| - 1];
    }
  }

  /** Two strings whose last slash is the separator split in only one way. */
  lemma {:induction false} LastSlashSplits(a: string, x: string, b: string, y: string)
    requires '/' !in x && '/' !in y
    requires a + "/" + x == b + "/" + y
    ensures a == b && x == y
  {
    var s := a + "/" + x;
    assert s[|a|] == '/' && s[|b|] == '/';
    assert forall k | |a| < k < |s| :: s[k] == x[k - |a| - 1] && s[k] != '/';
    assert forall k | |b| < k < |s| :: s[k] == y[k - |b| - 1] && s[k] != '/';
    assert |a| == |b|;
    assert a == s[..|a|] && b == s[..|b|];
    assert x == s[|a| + 1..] && y == s[|b| + 1..];
  }

  /** The sink identity tells two events apart exactly by table and sequence
      number, whatever characters the table names contain. */
  lemma {:induction false} DeliveryIdentityIsExact(e: ChangeEvent, f: ChangeEvent)
    ensures DeliveryIdentity(e) == DeliveryIdentity(f) <==> e.table == f.table && e.seqNo == f.seqNo
  {
    DecimalHasNoSlash(e.seqNo);
    DecimalHasNoSlash(f.seqNo);
    if DeliveryIdentity(e) == DeliveryIdentity(f) {
      LastSlashSplits(e.table, Decimal(e.seqNo), f.table, Decimal(f.seqNo));
      DecimalInjective(e.seqNo, f.seqNo);
    }
  }

  /** Keyless events of the pipeline carry distinct delivery keys exactly when
      they differ in table or sequence number ... */
  lemma {:induction false} KeylessTableKeyIsExact(e: ChangeEvent, f: ChangeEvent)
    requires e.key == "" && f.key == ""
    ensures TableKey(e) == TableKey(f) <==> e.table == f.table && e.seqNo == f.seqNo
  {
    DecimalHasNoSlash(e.seqNo);
    DecimalHasNoSlash(f.seqNo);
    if TableKey(e) == TableKey(f) {
      assert TableKey(e) == (e.table + "/seq") + "/" + Decimal(e.seqNo);
      assert TableKey(f) == (f.table + "/seq") + "/" + Decimal(f.seqNo);
      LastSlashSplits(e.table + "/seq", Decimal(e.seqNo), f.table + "/seq", Decimal(f.seqNo));
      assert e.table == (e.table + "/seq")[..|e.table|];
      assert f.table == (f.table + "/seq")[..|f.table|];
      DecimalInjective(e.seqNo, f.seqNo);
    }
  }

  /** ... while keyed events of one table share a key whenever they change the
      same row, at whatever positions. */
  lemma KeyedTableKeyIgnoresPosition(e: ChangeEvent, f: ChangeEvent)
    requires e.key != "" && f.key != "" && e.table == f.table
    ensures TableKey(e) == TableKey(f) <==> e.key == f.key
  {
    assert TableKey(e)[|e.table| + 1..] == e.key;
    assert TableKey(f)[|f.table| + 1..] == f.key;
  }

  // ----- Column values as rows -----

  /** The non-null columns as a row; of equally named ones the last. */
  function Values(columns: seq<ColumnValue>): map<string, string> {
    if columns == [] then map[]
    else
      var before, col := Values(columns[..|columns| - 1]), columns[|columns| - 1];
      if col.isNull then before else before[col.name := col.value]
  }

  // ----- Batches -----

  predicate IsMaxPos(events: seq<ChangeEvent>, m: nat) {
    && (forall e | e in events :: e.sourcePos <= m)
    && (m == 0 || exists e | e in events :: e.sourcePos == m)
  }

  function MaxPos(events: seq<ChangeEvent>): (m: nat)
    ensures IsMaxPos(events, m)
  {
    if events == [] then 0
    else
      var n := |events| - 1;
      var m := MaxPos(events[..n]);
      assert events == events[..n] + [events[n]];
      if events[n].sourcePos > m then events[n].sourcePos else m
  }

  lemma MaxPosUnique(events: seq<ChangeEvent>, m: nat, n: nat)
    requires IsMaxPos(events, m) && IsMaxPos(events, n)
    ensures m == n
  {
  }

  /** The running minimum as the code keeps it, with 0 standing for "none yet". */
  function MinPos(events: seq<ChangeEvent>): nat {
    if events == [] then 0
    else
      var n := |events| - 1;
      var m := MinPos(events[..n]);
      if m == 0 || events[n].sourcePos < m then events[n].sourcePos else m
  }

  lemma {:induction false} MinPosIsMinimum(events: seq<ChangeEvent>)
    requires events != [] && forall e | e in events :: e.sourcePos > 0
    ensures exists e | e in events :: e.sourcePos == MinPos(events)
    ensures forall e | e in events :: MinPos(events) <= e.sourcePos
  {
    var n := |events| - 1;
    assert events == events[..n] + [events[n]];
    if n > 0 {
      MinPosIsMinimum(events[..n]);
    } else {
      assert events[0] in events;
    }
  }

  /** A position 0 makes the loop start over, so the minimum is taken of what comes behind
      the last one. */
  lemma {:induction false} MinPosStartsOver(events: seq<ChangeEvent>, k: nat)
    requires k < |events| && events[k].sourcePos == 0
    ensures MinPos(events) == MinPos(events[k + 1..])
  {
    var n := |events| - 1;
    if k < n {
      MinPosStartsOver(events[..n], k);
      assert events[..n][k + 1..] == events[k + 1..][..n - k - 1];
    }
  }

  method NewBatch(events: seq<ChangeEvent>) returns (b: Batch)
    ensures b == Batch(events, MinPos(events), MaxPos(events))
  {
    var minPos: nat, maxPos: nat := 0, 0;
    for i := 0 to |events|
      invariant minPos == MinPos(events[..i])
      invariant maxPos == MaxPos(events[..i])
    {
      assert events[..i + 1][..i] == events[..i];
      var pos := events[i].sourcePos;
      if minPos == 0 || pos < minPos {
        minPos := pos;
      }
      if pos > maxPos {
        maxPos := pos;
      }
    }
    assert events[..|events|] == events;
    b := Batch(events, minPos, maxPos);
  }
}
