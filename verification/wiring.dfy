/** The composition root of the web application: the bus registrations it
    performs at start-up, and the inventory life cycle driven through the
    event store and read back through the facade. */
module Wiring {
  import opened Outcomes
  import opened Guids
  import opened Messages
  import opened ReadModel
  import opened FakeBus
  import opened EventStore

  /** The one command-handler object whose `Handle` overloads are registered. */
  datatype CommandHandler = InventoryCommandHandlers

  /** The partition the projection and the facade are built with. */
  const ItemsPartition: string := "Items"

  predicate Distinct<T(==)>(ts: seq<T>)
  {
    forall i, j :: 0 <= i < j < |ts| ==> ts[i] != ts[j]
  }

  /** Registers `h` for each type of `ts` in turn, stopping at the first refusal. */
  function RegisterCommandHandlers<H, P>(b: Bus<H, P>, ts: seq<CommandType>, h: H): (r: Result<Bus<H, P>>)
    ensures (Distinct(ts) && forall t :: t in ts ==> t !in b.commandHandlers) ==>
              && r.Ok?
              && r.value.commandHandlers.Keys == b.commandHandlers.Keys + (set t | t in ts)
              && (forall t :: t in ts ==> t in r.value.commandHandlers && r.value.commandHandlers[t] == h)
              && (forall t :: t in b.commandHandlers ==>
                    t in r.value.commandHandlers && r.value.commandHandlers[t] == b.commandHandlers[t])
              && r.value.projectionHandlers == b.projectionHandlers
    ensures (exists t :: t in ts && t in b.commandHandlers) ==> r == Err(DuplicateCommandHandler)
    decreases |ts|
  {
    if ts == [] then Ok(b)
    else
      assert Distinct(ts) ==> Distinct(ts[1..]);
      assert forall t :: t in ts[1..] ==> t in ts;
      match RegisterCommandHandler(b, ts[0], h)
      case Err(f) => Err(f)
      case Ok(b') => RegisterCommandHandlers(b', ts[1..], h)
  }

  /** Registers `p` for each type of `ts` in turn. */
  function RegisterProjectionHandlers<H, P>(b: Bus<H, P>, ts: seq<EventType>, p: P): (r: Bus<H, P>)
    ensures Distinct(ts) ==>
              forall t :: HandlersFor(r, t) == if t in ts then HandlersFor(b, t) + [p] else HandlersFor(b, t)
    ensures r.commandHandlers == b.commandHandlers
    decreases |ts|
  {
    if ts == [] then b
    else
      assert Distinct(ts) ==> Distinct(ts[1..]) && ts[0] !in ts[1..];
      assert forall t :: t in ts <==> t == ts[0] || t in ts[1..];
      RegisterProjectionHandlers(RegisterProjectionHandler(b, ts[0], p), ts[1..], p)
  }

  /** Start-up registrations, in the order the application performs them. */
  function Application(): Result<Bus<CommandHandler, InventoryItemProjection>>
  {
    var b :- RegisterCommandHandlers(NewBus(), CommandTypes, InventoryCommandHandlers);
    Ok(RegisterProjectionHandlers(b, EventTypes, InventoryItemProjection(ItemsPartition)))
  }

  const CommandTypes: seq<CommandType> := [CheckInItems, CreateItem, DeactivateItem, RemoveItems, RenameItem]
  const EventTypes: seq<EventType> := [Created, Deactivated, Renamed, CheckedIn, Removed]

  lemma EveryCommandTypeListed(t: CommandType)
    ensures t in CommandTypes
  {
    match t
    case CheckInItems => assert CommandTypes[0] == t;
    case CreateItem => assert CommandTypes[1] == t;
    case DeactivateItem => assert CommandTypes[2] == t;
    case RemoveItems => assert CommandTypes[3] == t;
    case RenameItem => assert CommandTypes[4] == t;
  }

  lemma EveryEventTypeListed(t: EventType)
    ensures t in EventTypes
  {
    match t
    case Created => assert EventTypes[0] == t;
    case Deactivated => assert EventTypes[1] == t;
    case Renamed => assert EventTypes[2] == t;
    case CheckedIn => assert EventTypes[3] == t;
    case Removed => assert EventTypes[4] == t;
  }

  lemma CommandRegistrations()
    ensures var r := RegisterCommandHandlers(NewBus<CommandHandler, InventoryItemProjection>(), CommandTypes, InventoryCommandHandlers);
            && r.Ok?
            && (forall t: CommandType :: t in r.value.commandHandlers && r.value.commandHandlers[t] == InventoryCommandHandlers)
            && r.value.projectionHandlers == map[]
  {
    assert Distinct(CommandTypes);
    forall t: CommandType
      ensures t in CommandTypes
    {
      EveryCommandTypeListed(t);
    }
  }

  lemma ProjectionRegistrations(b: Bus<CommandHandler, InventoryItemProjection>)
    requires b.projectionHandlers == map[]
    ensures forall t: EventType ::
              HandlersFor(RegisterProjectionHandlers(b, EventTypes, InventoryItemProjection(ItemsPartition)), t)
              == [InventoryItemProjection(ItemsPartition)]
  {
    assert Distinct(EventTypes);
    forall t: EventType
      ensures t in EventTypes && HandlersFor(b, t) == []
    {
      EveryEventTypeListed(t);
    }
  }

  /** Start-up succeeds; every command type is routed to the handler object
      and every event type has the item projection as its only projection. */
  lemma ApplicationWiring()
    ensures Application().Ok?
    ensures forall t: CommandType :: t in Application().value.commandHandlers
                                     && Application().value.commandHandlers[t] == InventoryCommandHandlers
    ensures forall t: EventType :: HandlersFor(Application().value, t) == [InventoryItemProjection(ItemsPartition)]
  {
    CommandRegistrations();
    var r := RegisterCommandHandlers(NewBus<CommandHandler, InventoryItemProjection>(), CommandTypes, InventoryCommandHandlers);
    ProjectionRegistrations(r.value);
  }

  /** A bus that, like the wired one, gives every event type the item
      projection on the wired partition as its only projection handler. */
  predicate ProjectsItems<H>(bus: Bus<H, InventoryItemProjection>)
  {
    forall t: EventType :: HandlersFor(bus, t) == [InventoryItemProjection(ItemsPartition)]
  }

  /** One command's worth of events saved through `bus`, the backend
      accepting the write. */
  function Step<H>(bus: Bus<H, InventoryItemProjection>, store: Store, id: Guid, body: EventBody,
                   expectedVersion: int): SaveOutcome
  {
    SaveEvents(store, bus, ItemsPartition, id, [Event(id, 0, body)], expectedVersion, true)
  }

  /** The facade's details query on the wired partition. */
  function Details(store: Store, id: Guid): Option<InventoryItemDetailsDto>
  {
    GetInventoryItemDetails(store.table, ItemsPartition, id)
  }

  /** Where item `id` stands in `store`: the version of its stream, its row
      in the wired partition, and the events its stream reads back. */
  predicate AtStage(store: Store, id: Guid, v: int, details: Option<InventoryItemDetailsDto>, events: seq<Event>)
  {
    && StreamVersion(store, Partition(id)) == v
    && WellKeyed(RowsOf(store.table, ItemsPartition))
    && Details(store, id) == details
    && PriorEvents(store, id) == events
  }

  /** A save at the stream's current version, which the backend accepts,
      succeeds when the event creates an item that has no row yet or changes
      one that has, and stamps the event with the next version. */
  lemma StepPasses<H>(bus: Bus<H, InventoryItemProjection>, store: Store, id: Guid, body: EventBody, v: int,
                      details: Option<InventoryItemDetailsDto>)
    requires ProjectsItems(bus)
    requires StreamVersion(store, Partition(id)) == v
    requires Details(store, id) == details
    requires body.InventoryItemCreated? <==> details.None?
    ensures Step(bus, store, id, body, v).outcome == Pass
    ensures Step(bus, store, id, body, v).stamped == [Event(id, v + 1, body)]
  {
    var s := Event(id, v + 1, body);
    assert Step(bus, store, id, body, v).stamped == [s];
    assert HandlersFor(bus, TypeOf(s)) == [InventoryItemProjection(ItemsPartition)];
    assert Project(InventoryItemProjection(ItemsPartition), s, store.table).Ok?;
  }

  /** After such a save the stream has grown by that one event and the
      details have moved as Evolve says. */
  lemma {:induction false} StepEffect<H>(bus: Bus<H, InventoryItemProjection>, store: Store, id: Guid,
                                         body: EventBody, v: int,
                                         details: Option<InventoryItemDetailsDto>, events: seq<Event>)
    requires ProjectsItems(bus)
    requires AtStage(store, id, v, details, events)
    requires body.InventoryItemCreated? <==> details.None?
    ensures var o := Step(bus, store, id, body, v);
            && o.outcome == Pass
            && AtStage(o.store, id, v + 1, Evolve(details, Event(id, v + 1, body)), events + [Event(id, v + 1, body)])
            && GetEventsForAggregate(o.store, id) == Ok(events + [Event(id, v + 1, body)])
  {
    var e := Event(id, 0, body);
    StepPasses(bus, store, id, body, v, details);
    assert HandlersFor(bus, TypeOf(e)) == [InventoryItemProjection(ItemsPartition)];
    SaveThenQuery(store, bus, ItemsPartition, id, e, v, true);
    ReadAfterSave(store, bus, ItemsPartition, id, [e], v, true);
  }

  /** The details the Widget life cycle passes through, by Evolve alone. */
  lemma WidgetDetails(id: Guid)
    ensures var d1 := InventoryItemDetailsDto(id, "Widget", 0, 1);
            && Evolve(None, Event(id, 1, InventoryItemCreated("Widget"))) == Some(d1)
            && Evolve(Some(d1), Event(id, 2, ItemsCheckedInToInventory(10))) == Some(d1.(currentCount := 10, version := 2))
            && Evolve(Some(d1.(currentCount := 10, version := 2)), Event(id, 3, ItemsRemovedFromInventory(4)))
               == Some(d1.(currentCount := 6, version := 3))
            && Evolve(Some(d1.(currentCount := 6, version := 3)), Event(id, 4, InventoryItemDeactivated)) == None
  {
  }

  /** The Widget life cycle, one save at a time: create "Widget", check in
      10, remove 4, deactivate. Each lemma starts from the stage the previous
      one reaches; the details go (Widget, 0, v1), (Widget, 10, v2),
      (Widget, 6, v3) and then disappear, while the stream keeps all four
      events with versions 1 to 4. */
  lemma WidgetCreated<H>(bus: Bus<H, InventoryItemProjection>, id: Guid)
    requires ProjectsItems(bus)
    ensures var o := Step(bus, Store(map[], map[]), id, InventoryItemCreated("Widget"), 0);
            && o.outcome == Pass
            && AtStage(o.store, id, 1, Some(InventoryItemDetailsDto(id, "Widget", 0, 1)),
                       [Event(id, 1, InventoryItemCreated("Widget"))])
  {
    var s0 := Store(map[], map[]);
    assert AtStage(s0, id, 0, None, []);
    StepEffect(bus, s0, id, InventoryItemCreated("Widget"), 0, None, []);
    assert [] + [Event(id, 1, InventoryItemCreated("Widget"))] == [Event(id, 1, InventoryItemCreated("Widget"))];
  }

  lemma WidgetCheckedIn<H>(bus: Bus<H, InventoryItemProjection>, id: Guid, store: Store)
    requires ProjectsItems(bus)
    requires AtStage(store, id, 1, Some(InventoryItemDetailsDto(id, "Widget", 0, 1)),
                     [Event(id, 1, InventoryItemCreated("Widget"))])
    ensures var o := Step(bus, store, id, ItemsCheckedInToInventory(10), 1);
            && o.outcome == Pass
            && AtStage(o.store, id, 2, Some(InventoryItemDetailsDto(id, "Widget", 10, 2)),
                       [Event(id, 1, InventoryItemCreated("Widget")), Event(id, 2, ItemsCheckedInToInventory(10))])
  {
    WidgetDetails(id);
    assert [Event(id, 1, InventoryItemCreated("Widget"))] + [Event(id, 2, ItemsCheckedInToInventory(10))] == [Event(id, 1, InventoryItemCreated("Widget")), Event(id, 2, ItemsCheckedInToInventory(10))];
    StepEffect(bus, store, id, ItemsCheckedInToInventory(10), 1, Some(InventoryItemDetailsDto(id, "Widget", 0, 1)),
               [Event(id, 1, InventoryItemCreated("Widget"))]);
  }

  lemma WidgetRemoved<H>(bus: Bus<H, InventoryItemProjection>, id: Guid, store: Store)
    requires ProjectsItems(bus)
    requires AtStage(store, id, 2, Some(InventoryItemDetailsDto(id, "Widget", 10, 2)),
                     [Event(id, 1, InventoryItemCreated("Widget")), Event(id, 2, ItemsCheckedInToInventory(10))])
    ensures var o := Step(bus, store, id, ItemsRemovedFromInventory(4), 2);
            && o.outcome == Pass
            && AtStage(o.store, id, 3, Some(InventoryItemDetailsDto(id, "Widget", 6, 3)),
                       [Event(id, 1, InventoryItemCreated("Widget")), Event(id, 2, ItemsCheckedInToInventory(10)),
                        Event(id, 3, ItemsRemovedFromInventory(4))])
  {
    WidgetDetails(id);
    assert [Event(id, 1, InventoryItemCreated("Widget")), Event(id, 2, ItemsCheckedInToInventory(10))] + [Event(id, 3, ItemsRemovedFromInventory(4))] == [Event(id, 1, InventoryItemCreated("Widget")), Event(id, 2, ItemsCheckedInToInventory(10)), Event(id, 3, ItemsRemovedFromInventory(4))];
    StepEffect(bus, store, id, ItemsRemovedFromInventory(4), 2, Some(InventoryItemDetailsDto(id, "Widget", 10, 2)),
               [Event(id, 1, InventoryItemCreated("Widget")), Event(id, 2, ItemsCheckedInToInventory(10))]);
  }

  lemma WidgetDeactivated<H>(bus: Bus<H, InventoryItemProjection>, id: Guid, store: Store)
    requires ProjectsItems(bus)
    requires AtStage(store, id, 3, Some(InventoryItemDetailsDto(id, "Widget", 6, 3)),
                     [Event(id, 1, InventoryItemCreated("Widget")), Event(id, 2, ItemsCheckedInToInventory(10)),
                      Event(id, 3, ItemsRemovedFromInventory(4))])
    ensures var o := Step(bus, store, id, InventoryItemDeactivated, 3);
            && o.outcome == Pass
            && Details(o.store, id) == None
            && GetEventsForAggregate(o.store, id) == Ok([
                 Event(id, 1, InventoryItemCreated("Widget")), Event(id, 2, ItemsCheckedInToInventory(10)),
                 Event(id, 3, ItemsRemovedFromInventory(4)), Event(id, 4, InventoryItemDeactivated)])
  {
    WidgetDetails(id);
    assert [Event(id, 1, InventoryItemCreated("Widget")), Event(id, 2, ItemsCheckedInToInventory(10)),
            Event(id, 3, ItemsRemovedFromInventory(4))] + [Event(id, 4, InventoryItemDeactivated)]
        == [Event(id, 1, InventoryItemCreated("Widget")), Event(id, 2, ItemsCheckedInToInventory(10)),
            Event(id, 3, ItemsRemovedFromInventory(4)), Event(id, 4, InventoryItemDeactivated)];
    StepEffect(bus, store, id, InventoryItemDeactivated, 3, Some(InventoryItemDetailsDto(id, "Widget", 6, 3)),
               [Event(id, 1, InventoryItemCreated("Widget")), Event(id, 2, ItemsCheckedInToInventory(10)),
                Event(id, 3, ItemsRemovedFromInventory(4))]);
  }

  /** The application's own bus is one the life cycle above applies to. */
  lemma ApplicationProjectsItems()
    ensures Application().Ok? && ProjectsItems(Application().value)
  {
    ApplicationWiring();
  }
}
