/** The source log: appending, reading by position, and chained reading. */
module Source {
  import opened Model

  type Row = map<string, string>

  datatype LogEntry = LogEntry(seqNo: nat, table: string, op: OpType, row: Row, txnId: string, txnSeq: nat)

  datatype LogState = LogState(entries: seq<LogEntry>, pos: nat)

  datatype ReadError = ErrNoMore

  datatype SnapshotRow = SnapshotRow(table: string, row: Row)

  /** The event has the entry's number, position, operation and transaction, the row's
      id as its key, and when untagged the sequence the entry carries. */
  ghost predicate StandsFor(event: ChangeEvent, entry: LogEntry) {
    && event.seqNo == event.sourcePos == entry.seqNo && event.op == entry.op
    && event.key == (if "id" in entry.row then entry.row["id"] else "")
    && event.txnId == entry.txnId && (entry.txnId == "" ==> event.txnSeq == entry.txnSeq)
  }

  /** The events are the entries, one for one and in order. */
  ghost predicate OneToOne(entries: seq<LogEntry>, events: seq<ChangeEvent>) {
    |events| == |entries| && forall i | 0 <= i < |entries| :: StandsFor(events[i], entries[i])
  }

  // ----- Appending -----

  function AppendOne(s: LogState, e: LogEntry): LogState {
    if e.seqNo == 0 then LogState(s.entries + [e.(seqNo := s.pos + 1)], s.pos + 1)
    else LogState(s.entries + [e], Max(s.pos, e.seqNo))
  }

  function Appended(s: LogState, es: seq<LogEntry>): LogState {
    if es == [] then s else AppendOne(Appended(s, es[..|es| - 1]), es[|es| - 1])
  }

  ghost predicate Ascending(entries: seq<LogEntry>) {
    forall i, j | 0 <= i < j < |entries| :: Precedes(entries, i, j)
  }

  ghost predicate Precedes(entries: seq<LogEntry>, i: nat, j: nat)
    requires i < |entries| && j < |entries|
  {
    entries[i].seqNo < entries[j].seqNo
  }

  /** Strictly ascending from 1 on, with `pos` the last sequence number. */
  ghost predicate LogValid(s: LogState) {
    && Ascending(s.entries)
    && (forall e | e in s.entries :: e.seqNo >= 1)
    && s.pos == if s.entries == [] then 0 else s.entries[|s.entries| - 1].seqNo
  }

  /** Each entry asks for a number, or brings one above the log's position. */
  ghost predicate FreshFor(s: LogState, es: seq<LogEntry>) {
    es == [] ||
    (FreshFor(s, es[..|es| - 1])
     && (es[|es| - 1].seqNo == 0 || es[|es| - 1].seqNo > Appended(s, es[..|es| - 1]).pos))
  }

  lemma {:induction false} AppendedExtends(s: LogState, es: seq<LogEntry>)
    ensures s.entries <= Appended(s, es).entries && s.pos <= Appended(s, es).pos
    ensures |Appended(s, es).entries| == |s.entries| + |es|
  {
    if es == [] {
    } else {
      AppendedExtends(s, es[..|es| - 1]);
    }
  }

  /** Entry `i` of those appended: as it was but for its number, which is its own or, when
      it brings none, the one after the log's position. */
  ghost predicate AppendedAt(s: LogState, es: seq<LogEntry>, t: LogState, i: nat) {
    && i < |es| && |s.entries| + i < |t.entries|
    && t.entries[|s.entries| + i] ==
         es[i].(seqNo := if es[i].seqNo != 0 then es[i].seqNo else Appended(s, es[..i]).pos + 1)
  }

  /** The position is the highest of where the log was and of the numbers appended. */
  ghost predicate HighestNumber(s: LogState, t: LogState) {
    && s.pos <= t.pos && (forall i | |s.entries| <= i < |t.entries| :: t.entries[i].seqNo <= t.pos)
    && (t.pos == s.pos || exists i :: |s.entries| <= i < |t.entries| && t.entries[i].seqNo == t.pos)
  }

  lemma {:induction false} HighestNumberStep(s: LogState, t: LogState, e: LogEntry)
    requires HighestNumber(s, t) && |s.entries| <= |t.entries|
    ensures HighestNumber(s, AppendOne(t, e))
  {
    var u := AppendOne(t, e);
    assert u.entries[|t.entries|].seqNo <= u.pos;
    if i :| |s.entries| <= i < |t.entries| && t.entries[i].seqNo == t.pos {
      assert u.entries[i] == t.entries[i];
    }
  }

  /** What is appended: the given entries in order behind the old ones, numbered as asked
      or on from the log's position, which follows the highest number. */
  lemma {:induction false} AppendedAre(s: LogState, es: seq<LogEntry>)
    ensures s.entries <= Appended(s, es).entries && |Appended(s, es).entries| == |s.entries| + |es|
    ensures forall i: nat | i < |es| :: AppendedAt(s, es, Appended(s, es), i)
    ensures HighestNumber(s, Appended(s, es))
  {
    AppendedExtends(s, es);
    if es == [] {
    } else {
      var n := |es| - 1;
      AppendedAre(s, es[..n]);
      HighestNumberStep(s, Appended(s, es[..n]), es[n]);
      forall i: nat | i < |es|
        ensures AppendedAt(s, es, Appended(s, es), i)
      {
        assert i < n ==> AppendedAt(s, es[..n], Appended(s, es[..n]), i) && es[..n][..i] == es[..i];
      }
    }
  }

  lemma {:induction false} AppendOneAscendingIff(s: LogState, e: LogEntry)
    requires LogValid(s)
    ensures e.seqNo == 0 || e.seqNo > s.pos ==> LogValid(AppendOne(s, e))
    ensures e.seqNo != 0 && e.seqNo <= s.pos ==> !Ascending(AppendOne(s, e).entries)
  {
    var n, after := |s.entries|, AppendOne(s, e).entries;
    if e.seqNo == 0 || e.seqNo > s.pos {
      forall i, j | 0 <= i < j < |after|
        ensures Precedes(after, i, j)
      {
        assert after[i] == s.entries[i];
        if j < n {
          assert Precedes(s.entries, i, j);
        } else {
          LogBound(s, s.entries[i]);
        }
      }
    } else {
      assert after[n - 1].seqNo == s.pos && after[n] == e;
      assert !Precedes(after, n - 1, n);
    }
  }

  lemma LogBound(log: LogState, e: LogEntry)
    requires LogValid(log) && e in log.entries
    ensures e.seqNo <= log.pos
  {
    var i :| 0 <= i < |log.entries| && log.entries[i] == e;
    if i < |log.entries| - 1 {
      assert Precedes(log.entries, i, |log.entries| - 1);
    }
  }

  /** The log stays strictly ascending exactly when every append is fresh; the code
      accepts the others too. */
  lemma {:induction false} AppendAscendingIff(s: LogState, es: seq<LogEntry>)
    requires LogValid(s)
    ensures Ascending(Appended(s, es).entries) <==> FreshFor(s, es)
    ensures FreshFor(s, es) ==> LogValid(Appended(s, es))
  {
    if es == [] {
    } else {
      var n := |es| - 1;
      AppendAscendingIff(s, es[..n]);
      var t, u := Appended(s, es[..n]), Appended(s, es);
      assert u.entries[..|t.entries|] == t.entries;
      if FreshFor(s, es[..n]) {
        AppendOneAscendingIff(t, es[n]);
      } else {
        var i, j :| 0 <= i < j < |t.entries| && !Precedes(t.entries, i, j);
        assert u.entries[i] == t.entries[i] && u.entries[j] == t.entries[j];
        assert !Precedes(u.entries, i, j);
      }
    }
  }

  // ----- Reading -----

  /** The entries strictly after `pos`, in log order. */
  function After(entries: seq<LogEntry>, pos: nat): seq<LogEntry> {
    if entries == [] then []
    else
      var last := entries[|entries| - 1];
      if last.seqNo > pos then After(entries[..|entries| - 1], pos) + [last] else After(entries[..|entries| - 1], pos)
  }

  lemma {:induction false} AfterMembers(entries: seq<LogEntry>, pos: nat)
    ensures forall e :: e in After(entries, pos) <==> e in entries && e.seqNo > pos
  {
    if entries == [] {
    } else {
      var n := |entries| - 1;
      AfterMembers(entries[..n], pos);
      assert entries == entries[..n] + [entries[n]];
    }
  }

  lemma {:induction false} AfterConcat(a: seq<LogEntry>, b: seq<LogEntry>, pos: nat)
    ensures After(a + b, pos) == After(a, pos) + After(b, pos)
  {
    if b == [] {
      assert a + b == a;
    } else {
      var n := |b| - 1;
      AfterConcat(a, b[..n], pos);
      assert (a + b)[..|a + b| - 1] == a + b[..n];
    }
  }

  lemma {:induction false} AfterAll(entries: seq<LogEntry>, pos: nat)
    requires forall i | 0 <= i < |entries| :: entries[i].seqNo > pos
    ensures After(entries, pos) == entries
  {
    if entries == [] {
    } else {
      AfterAll(entries[..|entries| - 1], pos);
    }
  }

  lemma {:induction false} AfterNone(entries: seq<LogEntry>, pos: nat)
    requires forall i | 0 <= i < |entries| :: entries[i].seqNo <= pos
    ensures After(entries, pos) == []
  {
    if entries == [] {
    } else {
      AfterNone(entries[..|entries| - 1], pos);
    }
  }

  /** The number of leading entries at or below `pos`. */
  function Below(entries: seq<LogEntry>, pos: nat): (k: nat)
    ensures k <= |entries| && (forall i | 0 <= i < k :: entries[i].seqNo <= pos)
    ensures k < |entries| ==> entries[k].seqNo > pos
  {
    if entries == [] || entries[0].seqNo > pos then 0 else 1 + Below(entries[1..], pos)
  }

  lemma AboveFrom(entries: seq<LogEntry>, pos: nat, k: nat)
    requires Ascending(entries) && k <= |entries| && (k < |entries| ==> entries[k].seqNo > pos)
    ensures forall i | k <= i < |entries| :: entries[i].seqNo > pos
  {
    forall i | k <= i < |entries|
      ensures entries[i].seqNo > pos
    {
      assert i > k ==> Precedes(entries, k, i);
    }
  }

  /** In an ascending log the entries after `pos` are a suffix of it. */
  lemma {:induction false} AfterIsSuffix(entries: seq<LogEntry>, pos: nat) returns (k: nat)
    requires Ascending(entries)
    ensures k <= |entries| && After(entries, pos) == entries[k..]
    ensures forall i | 0 <= i < |entries| :: entries[i].seqNo > pos <==> i >= k
  {
    k := Below(entries, pos);
    AboveFrom(entries, pos, k);
    AfterNone(entries[..k], pos);
    AfterAll(entries[k..], pos);
    AfterConcat(entries[..k], entries[k..], pos);
    assert entries == entries[..k] + entries[k..];
  }

  datatype Read = Read(entries: seq<LogEntry>, next: nat)

  /** At least one entry is returned even for a limit of 0. */
  function ReadSpec(entries: seq<LogEntry>, pos: nat, limit: nat): Result<Read, ReadError> {
    var rest := After(entries, pos);
    var n := if limit == 0 then 1 else limit;
    if rest == [] then Err(ErrNoMore)
    else if |rest| <= n then Ok(Read(rest, rest[|rest| - 1].seqNo))
    else Ok(Read(rest[..n], rest[n - 1].seqNo))
  }

  /** From an ascending log a read takes the next entries above the position, as many as
      the limit says and there are, at least one; it ends at the last one taken, and fails
      exactly when there is none. */
  lemma {:induction false} ReadTakesNext(entries: seq<LogEntry>, pos: nat, limit: nat) returns (k: nat)
    requires Ascending(entries)
    ensures k <= |entries| && forall i | 0 <= i < |entries| :: entries[i].seqNo > pos <==> i >= k
    ensures match ReadSpec(entries, pos, limit)
            case Err(_) => k == |entries|
            case Ok(r) =>
              var n := |r.entries|;
              && n >= 1 && k + n <= |entries| && r.entries == entries[k..k + n] && r.next == entries[k + n - 1].seqNo
              && n <= Max(limit, 1) && (n == Max(limit, 1) || k + n == |entries|)
  {
    k := AfterIsSuffix(entries, pos);
  }

  class InMemoryLog {
    var entries: seq<LogEntry>
    var snap: map<string, seq<Row>>
    var pos: nat

    ghost function State(): LogState
      reads this
    {
      LogState(entries, pos)
    }

    constructor ()
      ensures State() == LogState([], 0) && LogValid(State()) && snap == map[]
    {
      entries, snap, pos := [], map[], 0;
    }

    method Append(es: seq<LogEntry>)
      modifies this
      ensures State() == Appended(old(State()), es)
      ensures snap == old(snap)
    {
      for i := 0 to |es|
        invariant State() == Appended(old(State()), es[..i])
        invariant snap == old(snap)
      {
        assert es[..i + 1][..i] == es[..i];
        var entry := es[i];
        if entry.seqNo == 0 {
          pos := pos + 1;
          entry := entry.(seqNo := pos);
        } else if entry.seqNo > pos {
          pos := entry.seqNo;
        }
        entries := entries + [entry];
      }
      assert es[..|es|] == es;
    }

    method ReadAfter(pos: nat, limit: nat) returns (r: Result<Read, ReadError>)
      ensures r == ReadSpec(entries, pos, limit)
    {
      var out: seq<LogEntry>, next := [], pos;
      for i := 0 to |entries|
        invariant out == After(entries[..i], pos)
        invariant out == [] || (|out| < (if limit == 0 then 1 else limit) && next == out[|out| - 1].seqNo)
      {
        assert entries[..i + 1][..i] == entries[..i];
        var entry := entries[i];
        if entry.seqNo <= pos {
          continue;
        }
        out := out + [entry];
        next := entry.seqNo;
        if |out| >= limit {
          assert entries == entries[..i + 1] + entries[i + 1..];
          AfterConcat(entries[..i + 1], entries[i + 1..], pos);
          ghost var whole := After(entries, pos);
          assert whole[..|out|] == out && |out| == if limit == 0 then 1 else limit;
          assert |whole| == |out| ==> whole == out;
          return Ok(Read(out, next));
        }
      }
      assert entries[..|entries|] == entries;
      if |out| == 0 {
        return Err(ErrNoMore);
      }
      r := Ok(Read(out, next));
    }

    method MaxPosition() returns (p: nat)
      ensures p == pos
    {
      p := pos;
    }

    method PutSnapshot(table: string, rows: seq<Row>)
      modifies this`snap
      ensures snap == old(snap)[table := rows]
    {
      snap := snap[table := rows];
    }
  }

  // ----- Chained reading -----

  datatype ChainStep = Arrive(entries: seq<LogEntry>) | ReadUpTo(limit: nat)

  /** A reader that continues from where its last read stopped. */
  datatype Chain = Chain(log: LogState, cursor: nat, out: seq<LogEntry>)

  function Step(c: Chain, s: ChainStep): Chain {
    match s
    case Arrive(es) => c.(log := Appended(c.log, es))
    case ReadUpTo(limit) =>
      match ReadSpec(c.log.entries, c.cursor, limit)
      case Err(_) => c
      case Ok(r) => Chain(c.log, r.next, c.out + r.entries)
  }

  function Steps(c: Chain, steps: seq<ChainStep>): Chain {
    if steps == [] then c else Step(Steps(c, steps[..|steps| - 1]), steps[|steps| - 1])
  }

  /** Every arrival of the run is fresh for the log it meets. */
  ghost predicate FreshRun(c: Chain, steps: seq<ChainStep>) {
    forall i | 0 <= i < |steps| && steps[i].Arrive? :: FreshFor(Steps(c, steps[..i]).log, steps[i].entries)
  }

  ghost predicate ChainValid(c: Chain, start: nat) {
    && LogValid(c.log) && start <= c.cursor <= c.log.pos
    && After(c.log.entries, start) == c.out + After(c.log.entries, c.cursor)
  }

  lemma {:induction false} ArriveKeeps(c: Chain, start: nat, es: seq<LogEntry>)
    requires ChainValid(c, start) && FreshFor(c.log, es)
    ensures ChainValid(Step(c, Arrive(es)), start)
  {
    NewsAfter(c.log, es, start);
    NewsAfter(c.log, es, c.cursor);
    AppendAscendingIff(c.log, es);
    AppendedExtends(c.log, es);
  }

  lemma {:induction false} NewsAfter(log: LogState, es: seq<LogEntry>, p: nat)
    requires LogValid(log) && FreshFor(log, es) && p <= log.pos
    ensures log.entries <= Appended(log, es).entries
    ensures After(Appended(log, es).entries, p) == After(log.entries, p) + Appended(log, es).entries[|log.entries|..]
  {
    var after, n := Appended(log, es).entries, |log.entries|;
    AppendAscendingIff(log, es);
    AppendedExtends(log, es);
    assert after[..n] == log.entries && after == log.entries + after[n..];
    forall i | 0 <= i < |after| - n
      ensures after[n..][i].seqNo > p
    {
      NewPositionsAreHigher(log, after, n + i);
    }
    AfterConcat(log.entries, after[n..], p);
    AfterAll(after[n..], p);
  }

  lemma NewPositionsAreHigher(log: LogState, after: seq<LogEntry>, i: nat)
    requires LogValid(log) && Ascending(after) && log.entries <= after && |log.entries| <= i < |after|
    requires forall e | e in after :: e.seqNo >= 1
    ensures after[i].seqNo > log.pos
  {
    assert after[i] in after;
    if log.entries != [] {
      assert after[|log.entries| - 1] == log.entries[|log.entries| - 1];
      assert Precedes(after, |log.entries| - 1, i);
    }
  }

  lemma {:induction false} ReadKeeps(c: Chain, start: nat, limit: nat)
    requires ChainValid(c, start)
    ensures ChainValid(Step(c, ReadUpTo(limit)), start)
  {
    match ReadSpec(c.log.entries, c.cursor, limit)
    case Err(_) =>
    case Ok(r) =>
      var n := ReadIsPrefix(c.log.entries, c.cursor, limit);
      var rest := After(c.log.entries, c.cursor);
      AfterNext(c.log.entries, c.cursor, n);
      LogBound(c.log, rest[n - 1]);
      SplitOut(c.out, rest, n);
  }

  lemma SplitOut(out: seq<LogEntry>, rest: seq<LogEntry>, n: nat)
    requires n <= |rest|
    ensures out + rest == (out + rest[..n]) + rest[n..]
  {
    assert rest == rest[..n] + rest[n..];
    assert out + (rest[..n] + rest[n..]) == (out + rest[..n]) + rest[n..];
  }

  lemma {:induction false} ReadIsPrefix(entries: seq<LogEntry>, pos: nat, limit: nat) returns (n: nat)
    requires ReadSpec(entries, pos, limit).Ok?
    ensures 0 < n <= |After(entries, pos)|
    ensures ReadSpec(entries, pos, limit).value == Read(After(entries, pos)[..n], After(entries, pos)[n - 1].seqNo)
  {
    var rest := After(entries, pos);
    n := |ReadSpec(entries, pos, limit).value.entries|;
    assert n == |rest| ==> rest[..n] == rest;
  }

  /** Past the first `n` entries after `pos` come the others. */
  lemma {:induction false} AfterNext(entries: seq<LogEntry>, pos: nat, n: nat)
    requires Ascending(entries) && 0 < n <= |After(entries, pos)|
    ensures After(entries, After(entries, pos)[n - 1].seqNo) == After(entries, pos)[n..]
    ensures After(entries, pos)[n - 1] in entries && After(entries, pos)[n - 1].seqNo > pos
  {
    var rest := After(entries, pos);
    var k := AfterIsSuffix(entries, pos);
    assert rest[n - 1] == entries[k + n - 1];
    var j := AfterIsSuffix(entries, rest[n - 1].seqNo);
    assert k + n - 1 < j;
    if k + n < |entries| {
      assert Precedes(entries, k + n - 1, k + n);
    }
    assert j == k + n;
  }

  /** From any starting position, whatever limits are used and whatever arrives in
      between: what was read and what is left are exactly the entries above the
      start, each once and in order; once drained, everything was read. */
  lemma {:induction false} ChainReadsExactlyOnce(log: LogState, start: nat, steps: seq<ChainStep>)
    requires LogValid(log) && start <= log.pos && FreshRun(Chain(log, start, []), steps)
    ensures var c := Steps(Chain(log, start, []), steps);
            && After(c.log.entries, start) == c.out + After(c.log.entries, c.cursor)
            && (ReadSpec(c.log.entries, c.cursor, 1) == Err(ErrNoMore) ==> c.out == After(c.log.entries, start))
            && ChainValid(c, start)
  {
    var c := Chain(log, start, []);
    if steps == [] {
    } else {
      var n := |steps| - 1;
      assert FreshRun(c, steps[..n]) by {
        assert forall i | 0 <= i < n :: steps[..n][..i] == steps[..i];
      }
      ChainReadsExactlyOnce(log, start, steps[..n]);
      match steps[n]
      case Arrive(es) => ArriveKeeps(Steps(c, steps[..n]), start, es);
      case ReadUpTo(limit) => ReadKeeps(Steps(c, steps[..n]), start, limit);
    }
  }

  /** An entry that arrives with a number at or below the cursor is never read: the
      reader sees an arrival exactly when its number is above the cursor. */
  lemma {:induction false} LateArrivalIsInvisible(s: LogState, e: LogEntry, cursor: nat)
    requires cursor <= s.pos
    ensures After(AppendOne(s, e).entries, cursor) == After(s.entries, cursor) <==> e.seqNo != 0 && e.seqNo <= cursor
  {
    assert AppendOne(s, e).entries[..|s.entries|] == s.entries;
  }

  // ----- The full scan -----

  function Rows(table: string, rows: seq<Row>): seq<SnapshotRow> {
    if rows == [] then [] else Rows(table, rows[..|rows| - 1]) + [SnapshotRow(table, rows[|rows| - 1])]
  }

  function AllRows(snap: map<string, seq<Row>>, tables: seq<string>): seq<SnapshotRow> {
    if tables == [] then []
    else
      var t := tables[|tables| - 1];
      AllRows(snap, tables[..|tables| - 1]) + Rows(t, if t in snap then snap[t] else [])
  }

  /** The log after the arrivals that follow each of the first `n` tables. */
  function ArrivedDuring(s: LogState, arrivals: nat -> seq<LogEntry>, n: nat): LogState {
    if n == 0 then s else Appended(ArrivedDuring(s, arrivals, n - 1), arrivals(n - 1))
  }

  class FullScanner {
    const log: InMemoryLog
    const tables: seq<string>

    constructor (log: InMemoryLog, tables: seq<string>)
      ensures this.log == log && this.tables == tables
    {
      this.log := log;
      this.tables := tables;
    }

    /** The watermark is fixed before the scan; `arrivals` are what the hook after
        each table appends, `cancelled` the context at each table. */
    method Snapshot(arrivals: nat -> seq<LogEntry>, cancelled: nat -> bool)
      returns (r: Option<(seq<SnapshotRow>, nat)>, ghost scanned: nat)
      modifies log
      ensures log.snap == old(log.snap)
      ensures scanned <= |tables| && log.State() == ArrivedDuring(old(log.State()), arrivals, scanned)
      ensures r.None? <==> scanned < |tables|
      ensures r.None? <==> exists i :: 0 <= i < |tables| && cancelled(i)
      ensures r.Some? ==> r.value == (AllRows(log.snap, tables), old(log.pos))
    {
      var start := log.MaxPosition();
      var rows: seq<SnapshotRow> := [];
      for i := 0 to |tables|
        invariant log.snap == old(log.snap)
        invariant log.State() == ArrivedDuring(old(log.State()), arrivals, i)
        invariant rows == AllRows(log.snap, tables[..i])
        invariant forall k | 0 <= k < i :: !cancelled(k)
      {
        assert tables[..i + 1][..i] == tables[..i];
        if cancelled(i) {
          return None, i;
        }
        var more := ScanTable(tables[i]);
        rows := rows + more;
        log.Append(arrivals(i));
      }
      assert tables[..|tables|] == tables;
      r, scanned := Some((rows, start)), |tables|;
    }

    method ScanTable(table: string) returns (rows: seq<SnapshotRow>)
      ensures rows == Rows(table, if table in log.snap then log.snap[table] else [])
    {
      var snapshot := if table in log.snap then log.snap[table] else [];
      rows := [];
      for j := 0 to |snapshot|
        invariant rows == Rows(table, snapshot[..j])
      {
        assert snapshot[..j + 1][..j] == snapshot[..j];
        rows := rows + [SnapshotRow(table, snapshot[j])];
      }
      assert snapshot[..|snapshot|] == snapshot;
    }
  }

  /** What arrives during the scan, as steps of a chain that has not read yet. */
  function ScanSteps(arrivals: nat -> seq<LogEntry>, n: nat): seq<ChainStep> {
    if n == 0 then [] else ScanSteps(arrivals, n - 1) + [Arrive(arrivals(n - 1))]
  }

  lemma {:induction false} ScanIsChain(log: LogState, start: nat, arrivals: nat -> seq<LogEntry>, n: nat)
    ensures |ScanSteps(arrivals, n)| == n
    ensures Steps(Chain(log, start, []), ScanSteps(arrivals, n)) == Chain(ArrivedDuring(log, arrivals, n), start, [])
  {
    if n == 0 {
    } else {
      ScanIsChain(log, start, arrivals, n - 1);
      var steps := ScanSteps(arrivals, n);
      assert steps[..|steps| - 1] == ScanSteps(arrivals, n - 1);
    }
  }

  lemma {:induction false} StepsConcat(c: Chain, a: seq<ChainStep>, b: seq<ChainStep>)
    ensures Steps(c, a + b) == Steps(Steps(c, a), b)
  {
    if b == [] {
      assert a + b == a;
    } else {
      StepsConcat(c, a, b[..|b| - 1]);
      assert (a + b)[..|a + b| - 1] == a + b[..|b| - 1];
    }
  }

  /** The handoff neither loses nor repeats: reading from the watermark fixed before
      the scan yields, once drained, exactly the entries above the watermark, those
      that arrived during the scan included. */
  lemma {:induction false} HandoffReadsExactlyOnce(log: LogState, arrivals: nat -> seq<LogEntry>, tables: nat,
                                                   steps: seq<ChainStep>)
    requires LogValid(log) && FreshRun(Chain(log, log.pos, []), ScanSteps(arrivals, tables) + steps)
    ensures var c := Steps(Chain(ArrivedDuring(log, arrivals, tables), log.pos, []), steps);
            && After(c.log.entries, log.pos) == c.out + After(c.log.entries, c.cursor)
            && (ReadSpec(c.log.entries, c.cursor, 1) == Err(ErrNoMore) ==> c.out == After(c.log.entries, log.pos))
  {
    ScanIsChain(log, log.pos, arrivals, tables);
    StepsConcat(Chain(log, log.pos, []), ScanSteps(arrivals, tables), steps);
    ChainReadsExactlyOnce(log, log.pos, ScanSteps(arrivals, tables) + steps);
  }
}
