/** The denormalised inventory read model: item rows, the includes that
    mutate them, the projection that derives includes from events, and the
    query facade. The table is a map from partition key to the rows of that
    partition, each keyed by its row key. */
module ReadModel {
  import opened Outcomes
  import opened BoundedInts
  import opened Guids
  import opened Messages

  /** Row-key prefix shared by every inventory item row. */
  const Prefix: string := "item|"

  predicate HasPrefix(s: string, p: string)
  {
    |p| <= |s| && s[..|p|] == p
  }

  /** An inventory item row. `name` and `etag` start out as the empty string
      where the source leaves them null. */
  datatype ItemEntity = ItemEntity(
    id: Guid,
    rowKey: string,
    name: string,
    currentCount: int32,
    version: int,
    etag: string)

  function EntityRowKey(id: Guid): (key: string)
    ensures HasPrefix(key, Prefix)
    ensures key[|Prefix|..] == FormatD(id)
  {
    Prefix + FormatD(id)
  }

  /** Distinct items never share a row. */
  lemma EntityRowKeyInjective(a: Guid, b: Guid)
    ensures EntityRowKey(a) == EntityRowKey(b) <==> a == b
  {
    if EntityRowKey(a) == EntityRowKey(b) {
      FormatDInjective(a, b);
    }
  }

  /** `new InventoryItemEntity(id)`: keyed by the id, every other field at its default. */
  function NewEntity(id: Guid): (e: ItemEntity)
    ensures e.id == id && e.rowKey == EntityRowKey(id)
    ensures e.name == "" && e.currentCount == 0 && e.version == 0 && e.etag == ""
  {
    ItemEntity(id, EntityRowKey(id), "", 0, 0, "")
  }

  /** The copy constructor: recomputes the row key from the id and copies the rest. */
  function CopyOf(from: ItemEntity): (e: ItemEntity)
    ensures e == from.(rowKey := EntityRowKey(from.id))
  {
    NewEntity(from.id).(name := from.name, currentCount := from.currentCount,
                        version := from.version, etag := from.etag)
  }

  /** A pending mutation of one row, committed together with an event. */
  datatype Include = Insert(entity: ItemEntity) | Replace(entity: ItemEntity) | Delete(entity: ItemEntity)

  type Rows = map<string, ItemEntity>
  type Table = map<string, Rows>

  function RowsOf(table: Table, partition: string): Rows
  {
    if partition in table then table[partition] else map[]
  }

  /** Every row sits under the key of its own item. */
  predicate WellKeyed(rows: Rows)
  {
    forall k :: k in rows ==> rows[k].rowKey == k && k == EntityRowKey(rows[k].id)
  }

  /** The projection's fetch of the current row of item `id`; a miss is an error. */
  function GetItemEntity(table: Table, partition: string, id: Guid): (r: Result<ItemEntity>)
    ensures r.Err? <==> EntityRowKey(id) !in RowsOf(table, partition)
    ensures r.Err? ==> r.failure == EntityNotFound
    ensures r.Ok? ==> r.value == RowsOf(table, partition)[EntityRowKey(id)]
  {
    var rows := RowsOf(table, partition);
    var key := EntityRowKey(id);
    if key in rows then Ok(rows[key]) else Err(EntityNotFound)
  }

  /** The inventory item projection, bound to the partition it reads from. */
  datatype InventoryItemProjection = InventoryItemProjection(partition: string)

  /** What the projection promises of the include `inc` it derives from the
      fetched row `cur` for an event other than Created: identity, row key and
      concurrency token come from `cur`; the event changes only its own field. */
  predicate Follows(cur: ItemEntity, e: Event, inc: Include)
  {
    var n := inc.entity;
    && n.id == cur.id
    && n.rowKey == EntityRowKey(cur.id)
    && n.etag == cur.etag
    && match e.body
       case InventoryItemCreated(_) => false
       case InventoryItemRenamed(newName) =>
         inc.Replace? && n.name == newName && n.currentCount == cur.currentCount && n.version == e.version
       case ItemsCheckedInToInventory(c) =>
         inc.Replace? && n.name == cur.name && n.currentCount == WrapInt32(cur.currentCount + c) && n.version == e.version
       case ItemsRemovedFromInventory(c) =>
         inc.Replace? && n.name == cur.name && n.currentCount == WrapInt32(cur.currentCount - c) && n.version == e.version
       case InventoryItemDeactivated =>
         inc.Delete? && n.name == cur.name && n.currentCount == cur.currentCount && n.version == cur.version
  }

  /** `InventoryItemProjection.Project`, all five overloads: the includes for one event. */
  function Project(p: InventoryItemProjection, e: Event, table: Table): (r: Result<seq<Include>>)
    ensures r.Ok? ==> |r.value| == 1
    ensures e.body.InventoryItemCreated? ==>
              && r.Ok? && r.value[0].Insert?
              && r.value[0].entity == ItemEntity(e.id, EntityRowKey(e.id), e.body.name, 0, e.version, "")
    ensures !e.body.InventoryItemCreated? ==>
              && (r.Err? <==> EntityRowKey(e.id) !in RowsOf(table, p.partition))
              && (r.Ok? ==> Follows(RowsOf(table, p.partition)[EntityRowKey(e.id)], e, r.value[0]))
    ensures r.Err? ==> r.failure == EntityNotFound
  {
    match e.body
    case InventoryItemCreated(name) =>
      Ok([Insert(NewEntity(e.id).(name := name, version := e.version))])
    case InventoryItemRenamed(newName) =>
      var cur :- GetItemEntity(table, p.partition, e.id);
      Ok([Replace(CopyOf(cur).(name := newName, version := e.version))])
    case ItemsRemovedFromInventory(c) =>
      var cur :- GetItemEntity(table, p.partition, e.id);
      Ok([Replace(CopyOf(cur).(currentCount := WrapInt32(cur.currentCount - c), version := e.version))])
    case ItemsCheckedInToInventory(c) =>
      var cur :- GetItemEntity(table, p.partition, e.id);
      Ok([Replace(CopyOf(cur).(currentCount := WrapInt32(cur.currentCount + c), version := e.version))])
    case InventoryItemDeactivated =>
      var cur :- GetItemEntity(table, p.partition, e.id);
      Ok([Delete(CopyOf(cur))])
  }

  /** The backend's effect of one committed include on its partition: the
      row under the entity's key is written or removed, every other row is
      kept. The conditional checks (insert of an existing row, stale ETag)
      are not modelled here: the event store treats any backend rejection as
      one nondeterministic conflict outcome. */
  function ApplyInclude(rows: Rows, inc: Include): (r: Rows)
    ensures inc.Delete? ==> inc.entity.rowKey !in r
    ensures !inc.Delete? ==> inc.entity.rowKey in r && r[inc.entity.rowKey] == inc.entity
    ensures forall k :: k != inc.entity.rowKey ==> (k in r <==> k in rows) && (k in rows ==> r[k] == rows[k])
  {
    match inc
    case Insert(n) => rows[n.rowKey := n]
    case Replace(n) => rows[n.rowKey := n]
    case Delete(n) => rows - {n.rowKey}
  }

  /** The includes applied in order. */
  function ApplyIncludes(rows: Rows, incs: seq<Include>): Rows
    decreases |incs|
  {
    if incs == [] then rows else ApplyIncludes(ApplyInclude(rows, incs[0]), incs[1..])
  }

  /** A row that no include names is kept as it was. */
  lemma {:induction false} ApplyIncludesFrame(rows: Rows, incs: seq<Include>, k: string)
    requires forall i :: 0 <= i < |incs| ==> incs[i].entity.rowKey != k
    ensures k in ApplyIncludes(rows, incs) <==> k in rows
    ensures k in rows ==> ApplyIncludes(rows, incs)[k] == rows[k]
    decreases |incs|
  {
    if incs != [] {
      ApplyIncludesFrame(ApplyInclude(rows, incs[0]), incs[1..], k);
    }
  }

  /** Applying two runs of includes one after the other is applying their
      concatenation. */
  lemma {:induction false} ApplyIncludesConcat(rows: Rows, a: seq<Include>, b: seq<Include>)
    ensures ApplyIncludes(rows, a + b) == ApplyIncludes(ApplyIncludes(rows, a), b)
    decreases |a|
  {
    if a == [] {
      assert [] + b == b;
    } else {
      assert (a + b)[0] == a[0];
      assert (a + b)[1..] == a[1..] + b;
      ApplyIncludesConcat(ApplyInclude(rows, a[0]), a[1..], b);
    }
  }

  datatype InventoryItemListDto = InventoryItemListDto(id: Guid, name: string)

  datatype InventoryItemDetailsDto = InventoryItemDetailsDto(id: Guid, name: string, currentCount: int32, version: int)

  /** Row keys of the item rows among `rows`. */
  function ItemKeys(rows: Rows): set<string>
  {
    set k | k in rows && HasPrefix(k, Prefix)
  }

  /** `ks` lists every item row key of `rows` exactly once, in some order. */
  ghost predicate EnumeratesItems(rows: Rows, ks: seq<string>)
  {
    && (forall i, j :: 0 <= i < j < |ks| ==> ks[i] != ks[j])
    && (forall k :: k in ks <==> k in rows && HasPrefix(k, Prefix))
  }

  /** The list entries of the rows under `ks`, in that order. */
  function ListEntries(rows: Rows, ks: seq<string>): (items: seq<InventoryItemListDto>)
    requires forall k :: k in ks ==> k in rows
    ensures |items| == |ks|
  {
    seq(|ks|, i requires 0 <= i < |ks| => InventoryItemListDto(rows[ks[i]].id, rows[ks[i]].name))
  }

  /** `ReadModelFacade.GetInventoryItems`: one list entry per item row of the
      partition, in whatever order the store yields the rows. */
  method GetInventoryItems(table: Table, partition: string) returns (items: seq<InventoryItemListDto>)
    ensures exists ks :: EnumeratesItems(RowsOf(table, partition), ks) && items == ListEntries(RowsOf(table, partition), ks)
    ensures forall d :: d in items <==>
              exists k :: k in RowsOf(table, partition) && HasPrefix(k, Prefix)
                          && d == InventoryItemListDto(RowsOf(table, partition)[k].id, RowsOf(table, partition)[k].name)
    ensures |items| == |ItemKeys(RowsOf(table, partition))|
  {
    var rows := RowsOf(table, partition);
    var todo := rows.Keys;
    ghost var seen: set<string> := {};
    ghost var ks: seq<string> := [];
    items := [];
    while todo != {}
      invariant todo <= rows.Keys
      invariant forall k :: k in seen <==> k in rows && k !in todo && HasPrefix(k, Prefix)
      invariant forall k :: k in ks <==> k in seen
      invariant forall i, j :: 0 <= i < j < |ks| ==> ks[i] != ks[j]
      invariant items == ListEntries(rows, ks)
      invariant forall d :: d in items <==> exists k :: k in seen && d == InventoryItemListDto(rows[k].id, rows[k].name)
      invariant |items| == |seen|
      decreases |todo|
    {
      var k :| k in todo;
      if HasPrefix(k, Prefix) {
        assert k !in seen;
        items := items + [InventoryItemListDto(rows[k].id, rows[k].name)];
        ks := ks + [k];
        seen := seen + {k};
        assert items == ListEntries(rows, ks);
      }
      todo := todo - {k};
    }
    assert EnumeratesItems(rows, ks);
    assert seen == ItemKeys(rows);
  }

  /** `ReadModelFacade.GetInventoryItemDetails`: the item's row, if any, as a details record. */
  function GetInventoryItemDetails(table: Table, partition: string, id: Guid): (r: Option<InventoryItemDetailsDto>)
    ensures r.Some? <==> EntityRowKey(id) in RowsOf(table, partition)
    ensures r.Some? ==> var n := RowsOf(table, partition)[EntityRowKey(id)];
              r.value == InventoryItemDetailsDto(n.id, n.name, n.currentCount, n.version)
  {
    var rows := RowsOf(table, partition);
    var key := EntityRowKey(id);
    if key in rows then Some(InventoryItemDetailsDto(rows[key].id, rows[key].name, rows[key].currentCount, rows[key].version))
    else None
  }

  /** Reference semantics of the projection at the level of the details query:
      what an item's details become after event `e`. */
  function Evolve(before: Option<InventoryItemDetailsDto>, e: Event): Option<InventoryItemDetailsDto>
  {
    match e.body
    case InventoryItemCreated(name) => Some(InventoryItemDetailsDto(e.id, name, 0, e.version))
    case InventoryItemDeactivated => None
    case _ =>
      if before.None? then None
      else
        var d := before.value;
        match e.body
        case InventoryItemRenamed(newName) => Some(d.(name := newName, version := e.version))
        case ItemsCheckedInToInventory(c) => Some(d.(currentCount := WrapInt32(d.currentCount + c), version := e.version))
        case ItemsRemovedFromInventory(c) => Some(d.(currentCount := WrapInt32(d.currentCount - c), version := e.version))
        case _ => before
  }

  /** Committing the projection's includes for `e` to the partition it reads
      changes the item's details exactly as Evolve says, keeps the partition
      well keyed, and leaves every other row as it was. */
  lemma {:induction false} ProjectThenQuery(p: InventoryItemProjection, e: Event, table: Table)
    requires WellKeyed(RowsOf(table, p.partition))
    requires Project(p, e, table).Ok?
    ensures var after := table[p.partition := ApplyIncludes(RowsOf(table, p.partition), Project(p, e, table).value)];
            && WellKeyed(RowsOf(after, p.partition))
            && GetInventoryItemDetails(after, p.partition, e.id)
               == Evolve(GetInventoryItemDetails(table, p.partition, e.id), e)
            && forall k :: k != EntityRowKey(e.id) ==>
                 (k in RowsOf(after, p.partition) <==> k in RowsOf(table, p.partition))
                 && (k in RowsOf(table, p.partition) ==> RowsOf(after, p.partition)[k] == RowsOf(table, p.partition)[k])
  {
    var rows := RowsOf(table, p.partition);
    var incs := Project(p, e, table).value;
    var key := EntityRowKey(e.id);
    assert ApplyIncludes(rows, incs) == ApplyInclude(rows, incs[0]) by {
      assert incs[1..] == [];
    }
    if !e.body.InventoryItemCreated? {
      var cur := rows[key];
      assert EntityRowKey(cur.id) == key;
      EntityRowKeyInjective(cur.id, e.id);
    }
  }
}
