# SimpleCQRS on Streamstone — a Dafny model of the event store, read model and bus

This project models the write and read paths of the SimpleCQRS inventory
sample built on Streamstone (Azure Table Storage):

- **Event store** (`eventstore.dfy`). Each inventory item has one stream, keyed
  `"Items|" + id` in GUID "D" form. `SaveEvents` first stamps the versions
  `expectedVersion + 1, …` onto the incoming events. It then refuses the batch
  with a concurrency failure if the stream is not at `expectedVersion`; a
  missing stream counts as version 0. Otherwise it asks the bus for each
  event's read-model includes and commits every event together with its own
  includes in one atomic write. A backend conflict is reported as the same
  concurrency failure. `GetEventsForAggregate` reads a stream back and fails
  with AggregateNotFound when the stream does not exist.
- **Read model** (`readmodel.dfy`). The inventory item row is keyed
  `"item|" + id`. The projection turns one event into one include:
  - Created inserts a fresh row.
  - Renamed, CheckedIn and Removed replace a copy of the current row.
  - Deactivated deletes a copy of it.
  - When the current row is missing, the projection fails.

  The facade lists the item rows of a partition and reads one item's details.
- **Bus** (`fakebus.dfy`). The bus keeps at most one command handler per
  command type and an ordered list of projection handlers per event type.
  `Send` runs the registered handler. `Publish` concatenates the outputs of
  all projection handlers in registration order, and gives an empty result
  when the event type has none.
- **Wiring** (`wiring.dfy`). This is the registration list of the web
  application's start-up. It also walks one item ("Widget") through create,
  check-in, removal and deactivation, each save followed by a read through
  the event store and the facade.

Supporting modules:
- `outcomes.dfy`: the failure kinds and the `Result`/`Option` wrappers.
- `boundedints.dfy`: C# `int` wrap-around.
- `seqs.dfy`: `Flatten`, LINQ's `SelectMany`.
- `guids.dfy`: GUIDs as 32 hex digits, with the "D" text format and its parser.
- `messages.dfy`: events and commands, each carrying a closed type tag in place of the .NET runtime type.

The backend is an immutable value. A `Store` holds a map from stream key
to stream (version and rows) and a table: a map from partition key to rows
keyed by row key. The atomic write is one state transition. The backend's
verdict on the conditional write is the parameter `backendAccepts`. When it
is false, the outcome is a concurrency failure and the store is unchanged.
The table partition that receives the includes is also a parameter,
`includePartition`. It is kept distinct from the stream key
`"Items|<id>"` and from the partition the projection reads (`"Items"`).
The lemmas that need them equal say so in their preconditions.

A projection fetch miss raises `InvalidOperationException`
(SimpleCQRS/ReadModel.cs:117-118). The model gives it its own failure kind,
`EntityNotFound`, which `SaveEvents` passes on untouched: only
`ConcurrencyConflictException` is caught (SimpleCQRS/EventStore.cs:54-57).
The failures are checked in the code's order: version mismatch, then
projection miss, then backend conflict.

## Model

| member | source | states |
|---|---|---|
| BoundedInts.WrapInt32 | SimpleCQRS/ReadModel.cs:88-99 | Count arithmetic is unchecked C# `int` arithmetic: the result is the int32 congruent to the exact value modulo 2^32, and equals the exact value whenever that fits |
| Guids.ParseFormatD | SimpleCQRS/EventStore.cs:76 | Reading back the "D" text of a GUID gives the same GUID |
| Guids.FormatParseD | SimpleCQRS/EventStore.cs:76 | Every well-formed "D" text is the formatting of the GUID parsed from it |
| Guids.FormatDInjective | SimpleCQRS/ReadModel.cs:148 | Two GUIDs have the same "D" text exactly when they are equal |
| ReadModel.EntityRowKey | SimpleCQRS/ReadModel.cs:146-149 | The row key starts with the entity prefix (the constant `Prefix`) and the rest is the item id in "D" form |
| ReadModel.EntityRowKeyInjective | SimpleCQRS/ReadModel.cs:146-149 | Two items share a row key exactly when they are the same item |
| ReadModel.NewEntity | SimpleCQRS/ReadModel.cs:131-135 | A new entity carries the given id and the row key built from it; name and ETag are unset, count and version are 0 |
| ReadModel.CopyOf | SimpleCQRS/ReadModel.cs:137-144 | The copy constructor gives the original entity with its row key recomputed from its id; name, count, version and ETag are kept |
| ReadModel.GetItemEntity | SimpleCQRS/ReadModel.cs:110-121 | The fetch fails exactly when the partition has no row under the item's row key, and the failure is EntityNotFound; otherwise it returns that row |
| ReadModel.Project | SimpleCQRS/ReadModel.cs:62-108 | Every event gives exactly one include. Created inserts a row with the event's name and version, count 0 and no ETag, and never fails. Every other kind fails exactly when the item's row is missing. Otherwise it keeps id, row key and ETag of the fetched row. Renamed replaces the name. CheckedIn adds to the count and Removed subtracts from it, with no lower bound. All three take the event's version. Deactivated deletes an unchanged copy |
| ReadModel.ProjectThenQuery | SimpleCQRS/ReadModel.cs:62-108 | Committing the projection's includes to the partition it reads changes that item's details exactly as the reference function Evolve says, keeps every row under its own key, and leaves every other row untouched |
| ReadModel.ApplyInclude | SimpleCQRS/EventStore.cs:52 | The backend's effect of one committed include: Insert and Replace put the entity under its row key, Delete removes that key, and every other row is kept |
| ReadModel.ApplyIncludesFrame | SimpleCQRS/EventStore.cs:52 | A row that none of the committed includes names is kept as it was |
| ReadModel.ApplyIncludesConcat | SimpleCQRS/EventStore.cs:52 | Applying two runs of includes one after the other is the same as applying their concatenation |
| ReadModel.GetInventoryItems | SimpleCQRS/ReadModel.cs:168-174 | The list is the entries of the partition's item rows (keys with the item prefix) taken in some order that names every such row exactly once, each entry carrying that row's id and name; hence an entry is listed exactly when such a row carries it, and the length is the number of such rows |
| ReadModel.GetInventoryItemDetails | SimpleCQRS/ReadModel.cs:176-183 | Details exist exactly when the item's row exists, and then carry that row's id, name, count and version; otherwise none (null) |
| FakeBus.RegisterCommandHandler | SimpleCQRS/FakeBus.cs:17-23 | Registering for a command type that already has a handler fails with DuplicateCommandHandler. Otherwise exactly that type is added with the new handler, and every other entry and the projection registry are unchanged |
| FakeBus.RegisterProjectionHandler | SimpleCQRS/FakeBus.cs:25-36 | Never fails: the new handler goes after those already registered for the event type, creating the list if absent; other event types and the command registry are unchanged |
| FakeBus.Send | SimpleCQRS/FakeBus.cs:38-46 | Sending a command whose type has no handler fails with NoCommandHandler; otherwise the one registered handler runs and its result is returned |
| FakeBus.RegisterThenSend | SimpleCQRS/FakeBus.cs:17-46 | After a successful registration, Send runs that very handler and a second registration for the type is refused |
| FakeBus.RunAll | SimpleCQRS/FakeBus.cs:55 | Running a handler list succeeds exactly when every handler does, and then yields their outputs concatenated in list order; on failure it reports the first failing handler's failure |
| FakeBus.Publish | SimpleCQRS/FakeBus.cs:48-56 | An event type with no handlers yields the empty sequence. Otherwise Publish succeeds exactly when every registered handler does, and returns their outputs concatenated in registration order; a failure is the failure of the first handler, in registration order, that fails |
| FakeBus.RunAllAppend | SimpleCQRS/FakeBus.cs:55 | A handler appended to the list contributes its output after all earlier handlers' outputs |
| FakeBus.PublishAfterRegistration | SimpleCQRS/FakeBus.cs:25-56 | Registering one more projection handler for an event's type makes Publish return the previous output followed by the new handler's output |
| EventStore.Partition | SimpleCQRS/EventStore.cs:74-77 | The stream key is the stream prefix (the constant `StreamPrefix`) followed by the aggregate id in "D" form |
| EventStore.PartitionInjective | SimpleCQRS/EventStore.cs:74-77 | Distinct aggregates have distinct stream keys |
| EventStore.StreamVersion | SimpleCQRS/EventStore.cs:41-46 | A stream that does not exist counts as version 0; an existing one has its stored version |
| EventStore.Stamp | SimpleCQRS/EventStore.cs:30-37 | The i-th event (from 0) gets version expectedVersion + i + 1; order, count and every other field are kept |
| EventStore.ComputeIncludes | SimpleCQRS/EventStore.cs:51 | Publishing the batch succeeds exactly when Publish succeeds for every event; then there is one block of includes per event, equal to what Publish returned for it; otherwise the failure is one event's Publish failure |
| EventStore.Zip | SimpleCQRS/EventStore.cs:52 | Pairs each event with the includes computed for it, position by position; the includes read back from the pairs are exactly the blocks given |
| EventStore.ApplyBlocks | SimpleCQRS/EventStore.cs:51-52 | The single grouped write of a batch's includes has the same effect as applying each event's block of includes in turn, the last event's block last |
| EventStore.Write | SimpleCQRS/EventStore.cs:52 | The accepted write appends every stamped event paired with its own includes after the stream's earlier rows, raises the version by the batch size, applies the includes to the table, and leaves every other stream unchanged |
| EventStore.SaveEvents | SimpleCQRS/EventStore.cs:28-58 | Versions are stamped even when the save fails. A stored version other than the expected one (a missing stream counting as 0) is a concurrency failure. The save succeeds exactly when the version matches, every event's projections succeed and the backend accepts. With the version matching, a projection miss of any event is reported as EntityNotFound, not as a concurrency failure; a backend refusal is a concurrency failure. Any failure leaves the store unchanged. Success is the commit above |
| EventStore.PublishFailsOnlyOnMiss | SimpleCQRS/ReadModel.cs:110-121 | The only way publishing to the item projection fails is the fetch miss |
| EventStore.GetEventsForAggregate | SimpleCQRS/EventStore.cs:62-72 | Reading fails with AggregateNotFound exactly when the stream does not exist; otherwise it returns the stream's events in stored order |
| EventStore.ReadAfterCommit | SimpleCQRS/EventStore.cs:52-71 | After a commit, reading the aggregate returns the earlier events followed by the committed batch |
| EventStore.ReadAfterSave | SimpleCQRS/EventStore.cs:28-72 | After a successful save, reading the aggregate returns the earlier events followed by the new batch as stamped, in order |
| EventStore.WellFormedAfterCommit | SimpleCQRS/EventStore.cs:30-52 | A commit of events numbered on from the stream's version keeps every stream gap-free: version equals event count and the i-th event has version i + 1 |
| EventStore.SaveKeepsStreamsWellFormed | SimpleCQRS/EventStore.cs:28-58 | Every save, successful or not, keeps all streams gap-free |
| EventStore.SaveIsolatesAggregates | SimpleCQRS/EventStore.cs:39-77 | A save for one aggregate never changes what another aggregate reads back |
| EventStore.FreshStreamStartsAtOne | SimpleCQRS/EventStore.cs:41-46 | For an aggregate with no stream, a save at expected version 0 that the backend accepts succeeds (given the projections succeed), numbers the events from 1 and makes them readable |
| EventStore.SaveThenQuery | SimpleCQRS/EventStore.cs:49-57 | When the item projection is the only handler and the includes land in the partition it reads, a successful single-event save moves the item's details exactly as Evolve says and keeps the partition well keyed |
| Wiring.RegisterCommandHandlers | CQRSGui/Global.asax.cs:46-50 | Registering one handler for a list of distinct, unregistered command types succeeds and adds exactly those types; any type already present makes it fail with DuplicateCommandHandler |
| Wiring.RegisterProjectionHandlers | CQRSGui/Global.asax.cs:53-57 | Registering one projection for a list of distinct event types appends it once to each listed type and leaves the others alone |
| Wiring.CommandRegistrations | CQRSGui/Global.asax.cs:45-50 | The start-up command registrations succeed and route every command type to the inventory command handlers |
| Wiring.ProjectionRegistrations | CQRSGui/Global.asax.cs:52-57 | The start-up projection registrations give every event type the item projection on partition "Items" as its only handler |
| Wiring.ApplicationWiring | CQRSGui/Global.asax.cs:35-57 | Start-up as a whole succeeds with both registries as above |
| Wiring.ApplicationProjectsItems | CQRSGui/Global.asax.cs:52-57 | The application's bus is one the item life-cycle lemmas apply to |
| Wiring.StepPasses | SimpleCQRS/EventStore.cs:28-57 | On a bus that gives every event type only the item projection, a save at the stream's current version that the backend accepts succeeds when the event creates an item with no row or changes an item that has one, and stamps the event with the next version |
| Wiring.StepEffect | SimpleCQRS/EventStore.cs:28-72 | In that case, when the backend accepts the write, the stream grows by that one event, the read-back is the old events plus that one, and the details move as Evolve says |
| Wiring.WidgetDetails | SimpleCQRS/ReadModel.cs:62-108 | The reference details of the Widget life cycle: created with count 0, 10 after checking in 10, 6 after removing 4, gone after deactivation |
| Wiring.WidgetCreated | SimpleCQRS/ReadModel.cs:62-69 | With the backend accepting every write, creating "Widget" on an empty store succeeds, giving stream version 1, details (Widget, 0, version 1) and one stored event |
| Wiring.WidgetCheckedIn | SimpleCQRS/ReadModel.cs:93-101 | Checking in 10 at version 1 succeeds, giving details (Widget, 10, version 2) and two stored events |
| Wiring.WidgetRemoved | SimpleCQRS/ReadModel.cs:82-91 | Removing 4 at version 2 succeeds, giving details (Widget, 6, version 3) and three stored events |
| Wiring.WidgetDeactivated | SimpleCQRS/ReadModel.cs:104-108 | Deactivating at version 3 succeeds; the details disappear while the stream reads back all four events with versions 1 to 4 |

## Left out

- Serialization: `ToEvent` and `ToEventData` (JSON, `Type.GetType` reflection) and the fresh `Guid.NewGuid` event id. Stored rows hold the event value itself, so the round trip through JSON is taken as exact.
- The domain layer: the `Repository`, the `InventoryItem` aggregate and the command handlers' bodies. The command handler is an opaque value, and `Send` takes the function that runs it as a parameter.
- FakeBus.Send: the source picks the handler by the static type argument `typeof(T)`. The model picks it by the command's own tag, which coincides whenever the caller uses the concrete command type, as every caller in the application does.
- Streamstone and Azure Table internals:
  - The conditional checks of the grouped write (insert of an existing row, stale ETag, duplicate rows in one batch) are not modelled; the backend's verdict is the single parameter `backendAccepts`.
  - New ETags are not assigned, and query results come back in no fixed order.
  - Streamstone's mapping of a stream's virtual partition onto the physical table partition is not modelled; the target partition is the parameter `includePartition`.
- EventStore.SaveEvents: with `backendAccepts` true, an Insert of a row that already exists overwrites it. The real grouped write refuses such an Insert, and SaveEvents then reports a concurrency failure; in the model that case is the caller's choice of `backendAccepts`. The lemmas that prove success (Wiring.StepPasses, Wiring.StepEffect) only create items that have no row.
- EventStore.SaveEvents: events are values here, so each copy in a batch gets its own version. The source stamps event objects in place, so an object listed twice in one batch carries the last version it was given in both rows. EventStore.SaveKeepsStreamsWellFormed relies on the value semantics.
- EventStore.GetEventsForAggregate: it returns every stored event. The source reads with one Streamstone `Read` call; whether that returns the whole stream or only one bounded slice from version 1 depends on Streamstone, which is not part of this model. EventStore.ReadAfterSave inherits the same assumption.
- EventStore.SaveEvents: an empty batch is modelled as a successful write of nothing, which creates a missing stream at version 0. Streamstone's own treatment of an empty write is not part of this model.
- EventStore.SaveEvents: stream versions are unbounded integers, so the source's `int` wrap-around of `i++` after 2^31 - 1 events is not modelled. Item counts do wrap (BoundedInts.WrapInt32).
- EventStore.SaveThenQuery: stated for single-event batches only. In a longer batch every projection reads the table as it was before the write (the model computes them exactly so), and a later event's include can then overwrite an earlier one's.
- Racing writers and transport failures (timeouts, unavailable backend): only the sequential version check and the conflict outcome are modelled.
- Lazy `IEnumerable` evaluation: every sequence is fully materialised.
- The MVC route table, the service locator and the storage-client set-up of the web application's start-up.
