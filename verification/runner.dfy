/** The coordinator, the full-to-incremental handoff and the runner's loop as
    objects, tied to the stores, the dispatcher and the pipeline's moves. */
module Runner {
  import opened Model
  import opened Delivery
  import opened Source
  import Parsing
  import Mapping
  import Offset
  import Pipeline
  import Sink
  import Transport
  import Schema
  import Acknowledged
  import Conservation
  import SinkRows

  class Coordinator {
    const store: Offset.Store
    const dispatcher: Transport.Dispatcher

    constructor (store: Offset.Store, dispatcher: Transport.Dispatcher)
      ensures this.store == store && this.dispatcher == dispatcher
    {
      this.store := store;
      this.dispatcher := dispatcher;
    }

    /** Delivers, then advances the committed position to what was acknowledged, then
        records the read; a failed delivery commits and records nothing. With a sink that
        accepts everything the committed position moves up to the last event of the batch
        whose key was new. */
    method ProcessBatch(cancelled: nat -> bool, batch: Batch) returns (ok: bool)
      requires dispatcher.Valid() && dispatcher.rollback == store
      modifies dispatcher`status, dispatcher`delivered, dispatcher`log, dispatcher`pending,
               dispatcher.sink, dispatcher.dedup, dispatcher.order, store
      ensures var r := DeliverEvents(dispatcher.EnvOf(cancelled), dispatcher.Cfg(), old(dispatcher.State()),
                                     batch.events);
              && dispatcher.State() == r.d && (ok <==> r.verdict == Delivered)
              && store.State() == (
                if r.verdict == Delivered then
                  Offset.Recorded(Offset.Advanced(old(store.State()), r.acked), batch.maxPos)
                else if r.rollback.Some? then Offset.RolledBack(old(store.State()), r.rollback.value)
                else old(store.State()))
              && store.committed == (if ok then Max(old(store.committed), r.acked) else old(store.committed))
              && (ok ==> store.readWatermark == Max(old(store.readWatermark), batch.maxPos))
      ensures var env, d := dispatcher.EnvOf(cancelled), old(dispatcher.State());
              Conservation.AcceptsFrom(env, d.p.calls) && dispatcher.Cfg().maxAttempts >= 1
              && Acknowledged.PlainBatch(batch.events) ==>
                ok && store.committed == Max(old(store.committed),
                                             Acknowledged.LastNew(env, d.p.seen, batch.events))
    {
      ghost var env, cfg, d := dispatcher.EnvOf(cancelled), dispatcher.Cfg(), dispatcher.State();
      if Conservation.AcceptsFrom(env, d.p.calls) && cfg.maxAttempts >= 1 && Acknowledged.PlainBatch(batch.events) {
        Acknowledged.AcceptedAcksLastNew(env, cfg, d, batch.events);
      }
      var acked, verdict := dispatcher.Deliver(cancelled, batch);
      if verdict != Delivered {
        return false;
      }
      store.Advance(acked);
      store.RecordRead(batch.maxPos);
      ok := true;
    }
  }

  datatype PhaseCheckpoint = PhaseCheckpoint(phase: Offset.SyncPhase, snapshotAt: nat, nextPos: nat,
    tables: seq<string>)

  class PhaseCoordinator {
    const scanner: FullScanner
    const store: Offset.Store
    const loader: Sink.InMemorySink

    constructor (scanner: FullScanner, store: Offset.Store, loader: Sink.InMemorySink)
      ensures this.scanner == scanner && this.store == store && this.loader == loader
    {
      this.scanner := scanner;
      this.store := store;
      this.loader := loader;
    }

    /** On success the store is at the watermark fixed before the scan, which is also
        where incremental reading starts, and the target shows the scanned rows. */
    method RunFull(arrivals: nat -> seq<LogEntry>, cancelled: nat -> bool) returns (r: Option<PhaseCheckpoint>)
      modifies scanner.log, store, loader, loader.guard
      ensures r.None? <==> exists i :: 0 <= i < |scanner.tables| && cancelled(i)
      ensures r.None? ==> store.State() == old(store.State()) && loader.Now() == old(loader.Now())
      ensures r.None? ==> exists n :: 0 <= n < |scanner.tables|
                                      && scanner.log.State() == ArrivedDuring(old(scanner.log.State()), arrivals, n)
      ensures r.Some? ==>
                var w := old(scanner.log.pos);
                && r.value == PhaseCheckpoint(Offset.PhaseIncremental, w, w, scanner.tables)
                && scanner.log.State() == ArrivedDuring(old(scanner.log.State()), arrivals, |scanner.tables|)
                && store.State()
                     == Offset.Advanced(Offset.Recorded(old(store.State()), w), w).(phase := Offset.PhaseIncremental)
                && loader.Now() == Sink.SnapshotLoaded(loader.guard.hash, old(loader.Now()),
                                                       AllRows(old(scanner.log.snap), scanner.tables))
      ensures r.Some? ==> SinkRows.ShowsScan(old(loader.Now().rows), loader.Now().rows, old(scanner.log.snap),
                                             scanner.tables)
    {
      var scan, scanned := scanner.Snapshot(arrivals, cancelled);
      if scan.None? {
        return None;
      }
      var (rows, watermark) := scan.value;
      SinkRows.ScanShowsAll(loader.guard.hash, loader.Now(), old(scanner.log.snap), scanner.tables);
      loader.LoadSnapshot(rows);
      store.RecordRead(watermark);
      store.Advance(watermark);
      store.SetPhase(Offset.PhaseIncremental);
      r := Some(PhaseCheckpoint(Offset.PhaseIncremental, watermark, watermark, scanner.tables));
    }
  }

  function Stamped(events: seq<ChangeEvent>, revision: nat): seq<ChangeEvent> {
    seq(|events|, i requires 0 <= i < |events| => events[i].(filterRevision := revision))
  }

  /** What preparing the entries comes to: nothing when one does not parse or its event
      cannot be mapped, otherwise the parsed and stamped events, mapped one by one. */
  ghost predicate IsPrepared(cs: Schema.Changes, m: Mapping.MapperState, revision: nat, entries: seq<LogEntry>,
                             r: Option<seq<ChangeEvent>>) {
    match Parsing.ParseSpec(cs, entries)
    case Err(_) => r.None?
    case Ok(events) =>
      var stamped := Stamped(events, revision);
      && (r.Some? <==> forall i | 0 <= i < |stamped| :: Mapping.Mappable(m, stamped[i]))
      && (r.Some? ==> Mapping.MappedAll(m, stamped, r.value))
  }

  /** The event stands for the entry, with the version active at its position and the
      runner's filter revision. */
  ghost predicate PreparedFrom(cs: Schema.Changes, revision: nat, entry: LogEntry, event: ChangeEvent) {
    && StandsFor(event, entry) && event.filterRevision == revision
    && Schema.VersionAtSpec(cs, entry.table, entry.seqNo) == Ok(event.schemaVersion)
  }

  lemma PreparedStandFor(cs: Schema.Changes, m: Mapping.MapperState, revision: nat, entries: seq<LogEntry>,
                         events: seq<ChangeEvent>)
    requires IsPrepared(cs, m, revision, entries, Some(events))
    ensures |events| == |entries| && forall i | 0 <= i < |entries| :: PreparedFrom(cs, revision, entries[i], events[i])
  {
    var parsed := Parsing.ParseSpec(cs, entries).value;
    Parsing.ParseIsOneToOne(cs, entries);
    forall i | 0 <= i < |entries|
      ensures PreparedFrom(cs, revision, entries[i], events[i])
    {
      assert StandsFor(parsed[i], entries[i]);
      assert Mapping.Mapped(m, Stamped(parsed, revision)[i], Ok(events[i]));
    }
  }

  class Runner {
    const log: InMemoryLog
    const batchSize: nat
    const parser: Parsing.Parser
    const mapper: Mapping.Mapper
    const coordinator: Coordinator
    const checkpoint: Offset.CheckpointManager
    var filterRevision: nat
    var pos: nat

    ghost predicate Valid()
      reads mapper.reg, mapper.reg.historyIndex
    {
      && parser.Valid() && parser.reg == mapper.reg && mapper.Valid()
      && coordinator.dispatcher.Valid() && coordinator.dispatcher.rollback == coordinator.store
    }

    ghost function State(): Pipeline.Sys
      reads this, log, coordinator.store, checkpoint, coordinator.dispatcher, coordinator.dispatcher.sink,
            coordinator.dispatcher.dedup, coordinator.dispatcher.order
    {
      Pipeline.Sys(log.State(), pos, coordinator.store.State(), checkpoint.last, coordinator.dispatcher.State(),
                   Pipeline.Idle)
    }

    constructor (log: InMemoryLog, batchSize: nat, parser: Parsing.Parser, mapper: Mapping.Mapper,
                 coordinator: Coordinator, checkpoint: Offset.CheckpointManager, pos: nat)
      ensures this.log == log && this.parser == parser && this.mapper == mapper && this.coordinator == coordinator
      ensures this.checkpoint == checkpoint && this.pos == pos && this.batchSize == batchSize
      ensures filterRevision == mapper.rules.revision
    {
      this.log, this.batchSize, this.parser, this.mapper := log, batchSize, parser, mapper;
      this.coordinator, this.checkpoint, this.pos := coordinator, checkpoint, pos;
      filterRevision := mapper.rules.revision;
    }

    /** One turn of the loop with nothing interleaved: a sequence of the pipeline's
        moves, in which the prepared events are the fetched entries one for one. */
    method Turn(cancelled: nat -> bool) returns (ghost moves: seq<Pipeline.Move>)
      requires Valid()
      modifies this`pos, coordinator.store, coordinator.dispatcher`status, coordinator.dispatcher`delivered,
               coordinator.dispatcher`log, coordinator.dispatcher`pending, coordinator.dispatcher.sink,
               coordinator.dispatcher.dedup, coordinator.dispatcher.order
      ensures State() ==
              Pipeline.Moves(coordinator.dispatcher.EnvOf(cancelled), coordinator.dispatcher.Cfg(), old(State()), moves)
      ensures moves == [Pipeline.Fetch(batchSize)] || moves == [Pipeline.Fetch(batchSize), Pipeline.PrepareFails]
              || exists events :: moves == Pipeline.TurnMoves(batchSize, events)
    {
      ghost var env, cfg := coordinator.dispatcher.EnvOf(cancelled), coordinator.dispatcher.Cfg();
      ghost var s0 := State();
      var read := log.ReadAfter(pos, batchSize);
      Pipeline.IdleMoves(env, cfg, s0, batchSize);
      if read.Err? {
        return [Pipeline.Fetch(batchSize)];
      }
      var mapped := ParseAndMap(read.value.entries);
      if mapped.None? {
        return [Pipeline.Fetch(batchSize), Pipeline.PrepareFails];
      }
      moves := Pipeline.TurnMoves(batchSize, mapped.value);
      Pipeline.TurnReaches(env, cfg, s0, batchSize, mapped.value);
      DeliverMapped(cancelled, mapped.value);
    }

    /** Delivering a prepared batch and moving on: to its end, or to the replay
        position when it failed. */
    method DeliverMapped(cancelled: nat -> bool, events: seq<ChangeEvent>)
      requires Valid()
      modifies this`pos, coordinator.store, coordinator.dispatcher`status, coordinator.dispatcher`delivered,
               coordinator.dispatcher`log, coordinator.dispatcher`pending, coordinator.dispatcher.sink,
               coordinator.dispatcher.dedup, coordinator.dispatcher.order
      ensures State() == Pipeline.AfterTurn(coordinator.dispatcher.EnvOf(cancelled), coordinator.dispatcher.Cfg(),
                                            old(State()).(stage := Pipeline.Prepared(events)))
    {
      ghost var r := DeliverEvents(coordinator.dispatcher.EnvOf(cancelled), coordinator.dispatcher.Cfg(),
                                   coordinator.dispatcher.State(), events);
      var delivery := NewBatch(events);
      var ok := coordinator.ProcessBatch(cancelled, delivery);
      assert coordinator.dispatcher.State() == r.d;
      if !ok {
        pos := coordinator.store.replayFrom;
      } else {
        pos := delivery.maxPos;
      }
    }

    method Stamp(events: seq<ChangeEvent>) returns (stamped: seq<ChangeEvent>)
      ensures stamped == Stamped(events, filterRevision)
    {
      stamped := events;
      for i := 0 to |events|
        invariant |stamped| == |events|
        invariant forall k | 0 <= k < |events| ::
                    stamped[k] == if k < i then events[k].(filterRevision := filterRevision) else events[k]
      {
        stamped := stamped[i := stamped[i].(filterRevision := filterRevision)];
      }
    }

    /** Parsing, stamping the filter revision and mapping: one for one, or nothing when
        an entry does not parse or an event cannot be mapped. */
    method ParseAndMap(entries: seq<LogEntry>) returns (r: Option<seq<ChangeEvent>>)
      requires Valid()
      ensures r.Some? ==> OneToOne(entries, r.value)
      ensures r.Some? ==> forall i | 0 <= i < |entries| ::
                            PreparedFrom(mapper.reg.Value(), filterRevision, entries[i], r.value[i])
      ensures IsPrepared(mapper.reg.Value(), mapper.State().m, filterRevision, entries, r)
    {
      var parsed := parser.Parse(entries);
      if parsed.Err? {
        return None;
      }
      var events := Stamp(parsed.value);
      var mapped := mapper.MapBatch(events);
      if mapped.Err? {
        return None;
      }
      PreparedStandFor(mapper.reg.Value(), mapper.State().m, filterRevision, entries, mapped.value);
      r := Some(mapped.value);
    }
  }
}
