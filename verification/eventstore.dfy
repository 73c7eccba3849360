/** The event store: one stream per inventory item, appended with optimistic
    concurrency; each event row is committed in one atomic write together
    with the read-model includes the bus computes for it. */
module EventStore {
  import opened Outcomes
  import opened Seqs
  import opened Guids
  import opened Messages
  import opened ReadModel
  import opened FakeBus

  const StreamPrefix: string := "Items|"

  /** The key of the stream that holds item `id`'s events. */
  function Partition(id: Guid): (key: string)
    ensures HasPrefix(key, StreamPrefix)
    ensures key[|StreamPrefix|..] == FormatD(id)
  {
    StreamPrefix + FormatD(id)
  }

  /** Distinct aggregates never share a stream. */
  lemma PartitionInjective(a: Guid, b: Guid)
    ensures Partition(a) == Partition(b) <==> a == b
  {
    if Partition(a) == Partition(b) {
      FormatDInjective(a, b);
    }
  }

  /** A stored event together with the includes committed alongside it. */
  datatype EventData = EventData(event: Event, includes: seq<Include>)

  /** A stream's version and its rows, oldest first. */
  datatype Stream = Stream(version: int, entries: seq<EventData>)

  /** The backend: streams by key, and the read-model table. */
  datatype Store = Store(streams: map<string, Stream>, table: Table)

  /** A stream that does not exist has version 0. */
  function StreamVersion(store: Store, key: string): (v: int)
    ensures key !in store.streams ==> v == 0
    ensures key in store.streams ==> v == store.streams[key].version
  {
    if key in store.streams then store.streams[key].version else 0
  }

  function EntriesOf(store: Store, key: string): seq<EventData>
  {
    if key in store.streams then store.streams[key].entries else []
  }

  /** The version numbering of SaveEvents: the i-th event (from 0) gets
      `expectedVersion + i + 1`, every other field kept. */
  function Stamp(events: seq<Event>, expectedVersion: int): (r: seq<Event>)
    ensures |r| == |events|
    ensures forall i :: 0 <= i < |events| ==> r[i] == events[i].(version := expectedVersion + i + 1)
    decreases |events|
  {
    if events == [] then []
    else Stamp(events[..|events| - 1], expectedVersion) + [events[|events| - 1].(version := expectedVersion + |events|)]
  }

  /** The projection handlers run against the table as it was before the write. */
  function Runner(table: Table): (InventoryItemProjection, Event) -> Result<seq<Include>>
  {
    (p, e) => Project(p, e, table)
  }

  /** `events.Select(e => _publisher.Publish(e))`, fully evaluated: one block
      of includes per event, or the first failure. */
  function ComputeIncludes<H>(bus: Bus<H, InventoryItemProjection>, table: Table, events: seq<Event>)
    : (r: Result<seq<seq<Include>>>)
    ensures r.Ok? <==> forall i :: 0 <= i < |events| ==> Publish(bus, events[i], Runner(table)).Ok?
    ensures r.Ok? ==> |r.value| == |events|
    ensures r.Ok? ==> forall i :: 0 <= i < |events| ==> Publish(bus, events[i], Runner(table)) == Ok(r.value[i])
    ensures r.Err? ==> exists i :: 0 <= i < |events| && Publish(bus, events[i], Runner(table)) == Err(r.failure)
    decreases |events|
  {
    if events == [] then Ok([])
    else
      var first :- Publish(bus, events[0], Runner(table));
      var rest :- ComputeIncludes(bus, table, events[1..]);
      Ok([first] + rest)
  }

  /** `events.Zip(projections, ToEventData)`. */
  function Zip(events: seq<Event>, includes: seq<seq<Include>>): (r: seq<EventData>)
    requires |events| == |includes|
    ensures |r| == |events|
    ensures forall i :: 0 <= i < |r| ==> r[i].event == events[i] && r[i].includes == includes[i]
    ensures IncludesOf(r) == includes
  {
    seq(|events|, i requires 0 <= i < |events| => EventData(events[i], includes[i]))
  }

  function IncludesOf(entries: seq<EventData>): seq<seq<Include>>
  {
    seq(|entries|, i requires 0 <= i < |entries| => entries[i].includes)
  }

  /** The stream side of a successful SaveEvents, relative to `before`:
      stream `key` grew by exactly the stamped events, its version by their
      number, and no other stream changed. */
  predicate Appended(before: Store, after: Store, key: string, stamped: seq<Event>)
  {
    var prior := EntriesOf(before, key);
    && key in after.streams
    && after.streams[key].version == StreamVersion(before, key) + |stamped|
    && var es := after.streams[key].entries;
    && |es| == |prior| + |stamped|
    && es[..|prior|] == prior
    && (forall i :: 0 <= i < |stamped| ==> es[|prior| + i].event == stamped[i])
    && after.streams.Keys == before.streams.Keys + {key}
    && (forall k :: k in before.streams && k != key ==> after.streams[k] == before.streams[k])
  }

  /** What a successful SaveEvents leaves behind: the append above, each
      event paired with the includes Publish returned for it, and those
      includes applied to partition `includePartition`. */
  predicate Committed<H>(before: Store, after: Store, bus: Bus<H, InventoryItemProjection>,
                         key: string, includePartition: string, stamped: seq<Event>)
  {
    && Appended(before, after, key, stamped)
    && var prior := EntriesOf(before, key);
    && var es := after.streams[key].entries;
    && (forall i :: 0 <= i < |stamped| ==>
          Publish(bus, stamped[i], Runner(before.table)) == Ok(es[|prior| + i].includes))
    && after.table == before.table[includePartition :=
         ApplyIncludes(RowsOf(before.table, includePartition), Flatten(IncludesOf(es[|prior|..])))]
  }

  /** The stream rows after appending the zipped batch to `prior`. */
  function Append(prior: seq<EventData>, stamped: seq<Event>, includes: seq<seq<Include>>): (es: seq<EventData>)
    requires |stamped| == |includes|
    ensures |es| == |prior| + |stamped|
    ensures es[..|prior|] == prior
    ensures forall i :: 0 <= i < |stamped| ==> es[|prior| + i] == EventData(stamped[i], includes[i])
    ensures IncludesOf(es[|prior|..]) == includes
  {
    var es := prior + Zip(stamped, includes);
    assert es[|prior|..] == Zip(stamped, includes);
    es
  }

  /** `Stream.Write` accepting the batch: one state transition. */
  function Write<H>(store: Store, bus: Bus<H, InventoryItemProjection>, key: string, includePartition: string,
                    stamped: seq<Event>, includes: seq<seq<Include>>): (after: Store)
    requires |stamped| == |includes|
    requires forall i :: 0 <= i < |stamped| ==> Publish(bus, stamped[i], Runner(store.table)) == Ok(includes[i])
    ensures Committed(store, after, bus, key, includePartition, stamped)
  {
    var es := Append(EntriesOf(store, key), stamped, includes);
    Store(store.streams[key := Stream(StreamVersion(store, key) + |stamped|, es)],
          store.table[includePartition := ApplyIncludes(RowsOf(store.table, includePartition), Flatten(includes))])
  }

  /** The one grouped write of a batch's includes has the effect of applying
      each event's block of includes in turn, the last event's block last. */
  lemma ApplyBlocks(rows: Rows, blocks: seq<seq<Include>>, last: seq<Include>)
    ensures ApplyIncludes(rows, Flatten(blocks + [last])) == ApplyIncludes(ApplyIncludes(rows, Flatten(blocks)), last)
  {
    FlattenAppend(blocks, last);
    ApplyIncludesConcat(rows, Flatten(blocks), last);
  }

  /** The events as stamped (versions are assigned even when the save then
      fails), the resulting store, and whether the save succeeded. */
  datatype SaveOutcome = SaveOutcome(stamped: seq<Event>, store: Store, outcome: Outcome)

  /** `EventStore.SaveEvents`. `backendAccepts` is the backend's verdict on
      the conditional batch write; false stands for a ConcurrencyConflict
      raised by a competing writer or a stale row. Includes land in table
      partition `includePartition`. */
  function SaveEvents<H>(store: Store, bus: Bus<H, InventoryItemProjection>, includePartition: string,
                         id: Guid, events: seq<Event>, expectedVersion: int, backendAccepts: bool): (out: SaveOutcome)
    ensures |out.stamped| == |events|
    ensures forall i :: 0 <= i < |events| ==> out.stamped[i] == events[i].(version := expectedVersion + i + 1)
    ensures StreamVersion(store, Partition(id)) != expectedVersion ==> out.outcome == Fail(Concurrency)
    ensures out.outcome.Pass? <==>
              && StreamVersion(store, Partition(id)) == expectedVersion
              && (forall i :: 0 <= i < |events| ==> Publish(bus, out.stamped[i], Runner(store.table)).Ok?)
              && backendAccepts
    ensures out.outcome.Fail? ==> out.store == store
    ensures out.outcome.Fail? ==> out.outcome.failure == Concurrency || out.outcome.failure == EntityNotFound
    ensures StreamVersion(store, Partition(id)) == expectedVersion
            && (exists i :: 0 <= i < |events| && Publish(bus, out.stamped[i], Runner(store.table)).Err?) ==>
              out.outcome == Fail(EntityNotFound)
    ensures out.outcome.Fail? && out.outcome.failure == EntityNotFound ==>
              exists i :: 0 <= i < |events| && Publish(bus, out.stamped[i], Runner(store.table)) == Err(EntityNotFound)
    ensures out.outcome.Pass? ==> Committed(store, out.store, bus, Partition(id), includePartition, out.stamped)
  {
    var stamped := Stamp(events, expectedVersion);
    var key := Partition(id);
    if StreamVersion(store, key) != expectedVersion then SaveOutcome(stamped, store, Fail(Concurrency))
    else
      match ComputeIncludes(bus, store.table, stamped)
      case Err(f) =>
        assert f == EntityNotFound by {
          var i :| 0 <= i < |stamped| && Publish(bus, stamped[i], Runner(store.table)) == Err(f);
          PublishFailsOnlyOnMiss(bus, stamped[i], store.table);
        }
        SaveOutcome(stamped, store, Fail(f))
      case Ok(includes) =>
        if !backendAccepts then SaveOutcome(stamped, store, Fail(Concurrency))
        else SaveOutcome(stamped, Write(store, bus, key, includePartition, stamped, includes), Pass)
  }

  /** The only failure the inventory projection raises is the fetch miss. */
  lemma PublishFailsOnlyOnMiss<H>(bus: Bus<H, InventoryItemProjection>, e: Event, table: Table)
    ensures Publish(bus, e, Runner(table)).Err? ==> Publish(bus, e, Runner(table)).failure == EntityNotFound
  {
    var r := Publish(bus, e, Runner(table));
    if r.Err? {
      var hs := HandlersFor(bus, TypeOf(e));
      var i :| 0 <= i < |hs| && Runner(table)(hs[i], e) == Err(r.failure);
      assert Project(hs[i], e, table).Err?;
    }
  }

  /** `EventStore.GetEventsForAggregate`: the events of an existing stream in
      stored order; a missing stream is AggregateNotFound. */
  function GetEventsForAggregate(store: Store, id: Guid): (r: Result<seq<Event>>)
    ensures r.Err? <==> Partition(id) !in store.streams
    ensures r.Err? ==> r.failure == AggregateNotFound
    ensures r.Ok? ==> var es := store.streams[Partition(id)].entries;
              |r.value| == |es| && forall i :: 0 <= i < |es| ==> r.value[i] == es[i].event
  {
    var key := Partition(id);
    if key !in store.streams then Err(AggregateNotFound)
    else
      var es := store.streams[key].entries;
      Ok(seq(|es|, i requires 0 <= i < |es| => es[i].event))
  }

  /** The events already in item `id`'s stream; none when it does not exist. */
  function PriorEvents(store: Store, id: Guid): seq<Event>
  {
    var r := GetEventsForAggregate(store, id);
    if r.Ok? then r.value else []
  }

  /** After a commit, reading the aggregate gives the earlier events
      followed by the committed batch. */
  lemma {:induction false} ReadAfterCommit(before: Store, after: Store, id: Guid, stamped: seq<Event>)
    requires Appended(before, after, Partition(id), stamped)
    ensures GetEventsForAggregate(after, id) == Ok(PriorEvents(before, id) + stamped)
  {
    var key := Partition(id);
    var prior := EntriesOf(before, key);
    var es := after.streams[key].entries;
    var r := GetEventsForAggregate(after, id).value;
    var want := PriorEvents(before, id) + stamped;
    assert |PriorEvents(before, id)| == |prior|;
    forall i | 0 <= i < |es|
      ensures r[i] == want[i]
    {
      if i < |prior| {
        assert es[i] == es[..|prior|][i];
      } else {
        assert es[|prior| + (i - |prior|)].event == stamped[i - |prior|];
      }
    }
    assert r == want;
  }

  /** After a successful save, reading the aggregate gives the earlier events
      followed by the new batch as stamped, in order. */
  lemma ReadAfterSave<H>(store: Store, bus: Bus<H, InventoryItemProjection>, includePartition: string,
                         id: Guid, events: seq<Event>, expectedVersion: int, backendAccepts: bool)
    requires SaveEvents(store, bus, includePartition, id, events, expectedVersion, backendAccepts).outcome.Pass?
    ensures var out := SaveEvents(store, bus, includePartition, id, events, expectedVersion, backendAccepts);
            GetEventsForAggregate(out.store, id) == Ok(PriorEvents(store, id) + out.stamped)
  {
    var out := SaveEvents(store, bus, includePartition, id, events, expectedVersion, backendAccepts);
    ReadAfterCommit(store, out.store, id, out.stamped);
  }

  /** A gap-free stream: its version counts its events and the i-th event
      (from 0) carries version i + 1. */
  predicate WellFormed(s: Stream)
  {
    s.version == |s.entries| && forall i :: 0 <= i < |s.entries| ==> s.entries[i].event.version == i + 1
  }

  predicate AllWellFormed(store: Store)
  {
    forall k :: k in store.streams ==> WellFormed(store.streams[k])
  }

  /** A commit of events numbered on from the stream's version keeps every
      stream gap-free. */
  lemma {:induction false} WellFormedAfterCommit(before: Store, after: Store, key: string, stamped: seq<Event>)
    requires AllWellFormed(before)
    requires Appended(before, after, key, stamped)
    requires forall i :: 0 <= i < |stamped| ==> stamped[i].version == StreamVersion(before, key) + i + 1
    ensures AllWellFormed(after)
  {
    var prior := EntriesOf(before, key);
    var es := after.streams[key].entries;
    assert |prior| == StreamVersion(before, key);
    forall i | 0 <= i < |es|
      ensures es[i].event.version == i + 1
    {
      if i < |prior| {
        assert es[i] == es[..|prior|][i];
      } else {
        assert es[|prior| + (i - |prior|)].event == stamped[i - |prior|];
      }
    }
    assert WellFormed(after.streams[key]);
  }

  /** Saving keeps every stream gap-free. */
  lemma SaveKeepsStreamsWellFormed<H>(store: Store, bus: Bus<H, InventoryItemProjection>,
                                      includePartition: string, id: Guid, events: seq<Event>,
                                      expectedVersion: int, backendAccepts: bool)
    requires AllWellFormed(store)
    ensures AllWellFormed(SaveEvents(store, bus, includePartition, id, events, expectedVersion, backendAccepts).store)
  {
    var out := SaveEvents(store, bus, includePartition, id, events, expectedVersion, backendAccepts);
    if out.outcome.Pass? {
      WellFormedAfterCommit(store, out.store, Partition(id), out.stamped);
    }
  }

  /** A save for one aggregate never changes what another aggregate reads. */
  lemma SaveIsolatesAggregates<H>(store: Store, bus: Bus<H, InventoryItemProjection>, includePartition: string,
                                  id: Guid, events: seq<Event>, expectedVersion: int, backendAccepts: bool, other: Guid)
    requires other != id
    ensures var out := SaveEvents(store, bus, includePartition, id, events, expectedVersion, backendAccepts);
            GetEventsForAggregate(out.store, other) == GetEventsForAggregate(store, other)
  {
    var out := SaveEvents(store, bus, includePartition, id, events, expectedVersion, backendAccepts);
    var k := Partition(other);
    PartitionInjective(id, other);
    if out.outcome.Pass? {
      assert Appended(store, out.store, Partition(id), out.stamped);
      assert k in out.store.streams <==> k in store.streams;
      if k in store.streams {
        assert out.store.streams[k] == store.streams[k];
      }
    }
  }

  /** A fresh aggregate saved at expected version 0 gets versions 1, 2, ...
      and becomes readable. */
  lemma FreshStreamStartsAtOne<H>(store: Store, bus: Bus<H, InventoryItemProjection>, includePartition: string,
                                  id: Guid, events: seq<Event>)
    requires Partition(id) !in store.streams
    requires forall i :: 0 <= i < |events| ==>
               Publish(bus, events[i].(version := i + 1), Runner(store.table)).Ok?
    ensures var out := SaveEvents(store, bus, includePartition, id, events, 0, true);
            && out.outcome == Pass
            && (events != [] ==> out.stamped[0].version == 1)
            && GetEventsForAggregate(out.store, id) == Ok(out.stamped)
  {
    var out := SaveEvents(store, bus, includePartition, id, events, 0, true);
    assert forall i :: 0 <= i < |events| ==> out.stamped[i] == events[i].(version := i + 1);
    ReadAfterSave(store, bus, includePartition, id, events, 0, true);
    assert PriorEvents(store, id) == [];
    assert [] + out.stamped == out.stamped;
  }

  /** Saving a single event whose type has the inventory projection as its
      only handler, with includes landing in the partition that projection
      reads, moves the item's details exactly as Evolve says. */
  lemma {:induction false} SaveThenQuery<H>(store: Store, bus: Bus<H, InventoryItemProjection>, partition: string,
                                            id: Guid, e: Event, expectedVersion: int, backendAccepts: bool)
    requires HandlersFor(bus, TypeOf(e)) == [InventoryItemProjection(partition)]
    requires WellKeyed(RowsOf(store.table, partition))
    requires SaveEvents(store, bus, partition, id, [e], expectedVersion, backendAccepts).outcome.Pass?
    ensures var out := SaveEvents(store, bus, partition, id, [e], expectedVersion, backendAccepts);
            && WellKeyed(RowsOf(out.store.table, partition))
            && GetInventoryItemDetails(out.store.table, partition, e.id)
               == Evolve(GetInventoryItemDetails(store.table, partition, e.id), out.stamped[0])
  {
    var out := SaveEvents(store, bus, partition, id, [e], expectedVersion, backendAccepts);
    var p := InventoryItemProjection(partition);
    var s := out.stamped[0];
    var key := Partition(id);
    var prior := EntriesOf(store, key);
    var es := out.store.streams[key].entries;
    assert TypeOf(s) == TypeOf(e);
    var incs := Project(p, s, store.table).value;
    assert RunAll([p], s, Runner(store.table)) == Ok(incs + []);
    assert Committed(store, out.store, bus, key, partition, out.stamped);
    assert |es| == |prior| + 1;
    assert es[|prior|..] == [es[|prior| + 0]];
    assert es[|prior| + 0].includes == incs + [];
    assert incs + [] == incs;
    assert IncludesOf([es[|prior| + 0]]) == [incs];
    assert Flatten([incs]) == incs;
    ProjectThenQuery(p, s, store.table);
  }
}
