/** The inventory domain's events and commands. The source routes them by
    their runtime .NET type; here each carries a closed type tag instead. */
module Messages {
  import opened BoundedInts
  import opened Guids

  /** Registry key for projection handlers: one tag per event class. */
  datatype EventType = Created | Deactivated | Renamed | CheckedIn | Removed

  datatype EventBody =
    | InventoryItemCreated(name: string)
    | InventoryItemDeactivated
    | InventoryItemRenamed(newName: string)
    | ItemsCheckedInToInventory(count: int32)
    | ItemsRemovedFromInventory(count: int32)

  /** An event about inventory item `id`; `version` is assigned by the event store. */
  datatype Event = Event(id: Guid, version: int, body: EventBody)

  function TypeOf(e: Event): EventType
  {
    match e.body
    case InventoryItemCreated(_) => Created
    case InventoryItemDeactivated => Deactivated
    case InventoryItemRenamed(_) => Renamed
    case ItemsCheckedInToInventory(_) => CheckedIn
    case ItemsRemovedFromInventory(_) => Removed
  }

  /** Registry key for command handlers: one tag per command class. */
  datatype CommandType = CreateItem | DeactivateItem | RenameItem | CheckInItems | RemoveItems

  datatype CommandBody =
    | CreateInventoryItem(name: string)
    | DeactivateInventoryItem(originalVersion: int)
    | RenameInventoryItem(newName: string, originalVersion: int)
    | CheckInItemsToInventory(count: int32, originalVersion: int)
    | RemoveItemsFromInventory(count: int32, originalVersion: int)

  datatype Command = Command(id: Guid, body: CommandBody)

  function CommandTypeOf(c: Command): CommandType
  {
    match c.body
    case CreateInventoryItem(_) => CreateItem
    case DeactivateInventoryItem(_) => DeactivateItem
    case RenameInventoryItem(_, _) => RenameItem
    case CheckInItemsToInventory(_, _) => CheckInItems
    case RemoveItemsFromInventory(_, _) => RemoveItems
  }
}
