/** The two routes by which order facts reach the analytics store. */
module OrderFacts {
  import opened Basics

  /** Times are counted from Go's zero time. */
  type Time = nat

  datatype OrderRow = OrderRow(
    id: string, identifier: string, realm: string, contactId: string, createdAt: Option<Time>, updatedAt: Option<Time>)

  datatype Item = Item(
    sku: string, alternateName: string, productId: string, resolutionSource: string, quantity: int, value: real)

  datatype ItemRow = ItemRow(orderId: string, item: Item)

  datatype OrderFact = OrderFact(
    orderId: string, identifier: string, realm: string, contactId: string, status: string,
    totalValue: real, itemCount: int, createdAt: Time, updatedAt: Time)

  datatype ItemFact = ItemFact(orderId: string, contactId: string, item: Item, createdAt: Time, updatedAt: Time)

  /** White-space trimming; nothing below depends on what it does. */
  type Trim = string -> string

  function TrimItem(trim: Trim, item: Item): Item {
    Item(trim(item.sku), trim(item.alternateName), trim(item.productId), trim(item.resolutionSource),
         item.quantity, item.value)
  }

  function OrNow(t: Option<Time>, now: Time): Time {
    if t.Some? then t.value else now
  }

  function RowFact(trim: Trim, order: OrderRow, item: Item, now: Time): ItemFact {
    ItemFact(trim(order.id), trim(order.contactId), TrimItem(trim, item),
             OrNow(order.createdAt, now), OrNow(order.updatedAt, now))
  }

  // ----- sums -----

  function ValueOf(trim: Trim, rows: seq<ItemRow>, id: string): real {
    if rows == [] then 0.0
    else ValueOf(trim, rows[..|rows| - 1], id) +
         (if trim(rows[|rows| - 1].orderId) == id then rows[|rows| - 1].item.value else 0.0)
  }

  function CountOf(trim: Trim, rows: seq<ItemRow>, id: string): int {
    if rows == [] then 0
    else CountOf(trim, rows[..|rows| - 1], id) +
         (if trim(rows[|rows| - 1].orderId) == id then rows[|rows| - 1].item.quantity else 0)
  }

  /** The emitted item facts of one order. */
  function FactsOf(facts: seq<ItemFact>, id: string): seq<ItemFact> {
    if facts == [] then []
    else
      var rest := FactsOf(facts[..|facts| - 1], id);
      if facts[|facts| - 1].orderId == id then rest + [facts[|facts| - 1]] else rest
  }

  function ItemValues(facts: seq<ItemFact>): real {
    if facts == [] then 0.0 else ItemValues(facts[..|facts| - 1]) + facts[|facts| - 1].item.value
  }

  function ItemQuantities(facts: seq<ItemFact>): int {
    if facts == [] then 0 else ItemQuantities(facts[..|facts| - 1]) + facts[|facts| - 1].item.quantity
  }

  function OrderValues(facts: seq<OrderFact>): real {
    if facts == [] then 0.0 else OrderValues(facts[..|facts| - 1]) + facts[|facts| - 1].totalValue
  }

  // ----- the seed -----

  type ById = map<string, OrderRow>

  function Index(trim: Trim, orders: seq<OrderRow>): ById {
    if orders == [] then map[]
    else Index(trim, orders[..|orders| - 1])[trim(orders[|orders| - 1].id) := orders[|orders| - 1]]
  }

  ghost predicate IsIndex(trim: Trim, byId: ById) {
    forall id :: id in byId ==> trim(byId[id].id) == id
  }

  method IndexOrders(trim: Trim, orders: seq<OrderRow>) returns (ids: seq<string>, byId: ById)
    ensures byId == Index(trim, orders) && |ids| == |orders|
    ensures forall i :: 0 <= i < |orders| ==> ids[i] == trim(orders[i].id)
  {
    ids, byId := [], map[];
    for n := 0 to |orders|
      invariant byId == Index(trim, orders[..n]) && |ids| == n
      invariant forall i :: 0 <= i < n ==> ids[i] == trim(orders[i].id)
    {
      assert orders[..n + 1][..n] == orders[..n];
      ids := ids + [trim(orders[n].id)];
      byId := byId[trim(orders[n].id) := orders[n]];
    }
    assert orders[..|orders|] == orders;
  }

  lemma {:induction false} IndexHoldsOrders(trim: Trim, orders: seq<OrderRow>)
    ensures IsIndex(trim, Index(trim, orders))
    ensures forall id :: id in Index(trim, orders) <==> exists i :: 0 <= i < |orders| && trim(orders[i].id) == id
    decreases |orders|
  {
    if orders == [] {
    } else {
      IndexHoldsOrders(trim, orders[..|orders| - 1]);
    }
  }

  function SeededItems(trim: Trim, byId: ById, rows: seq<ItemRow>, now: Time): seq<ItemFact> {
    if rows == [] then []
    else
      var id := trim(rows[|rows| - 1].orderId);
      var rest := SeededItems(trim, byId, rows[..|rows| - 1], now);
      if id in byId then rest + [RowFact(trim, byId[id], rows[|rows| - 1].item, now)] else rest
  }

  function SeededOrder(trim: Trim, order: OrderRow, rows: seq<ItemRow>, statusById: map<string, string>,
                       now: Time): OrderFact {
    var id := trim(order.id);
    OrderFact(id, trim(order.identifier), trim(order.realm), trim(order.contactId),
              if id in statusById then trim(statusById[id]) else trim(""),
              ValueOf(trim, rows, id), CountOf(trim, rows, id),
              OrNow(order.createdAt, now), OrNow(order.updatedAt, now))
  }

  /** The order facts that a batch of orders seeds. */
  function SeededOrders(trim: Trim, orders: seq<OrderRow>, rows: seq<ItemRow>, statusById: map<string, string>,
                        now: Time): seq<OrderFact> {
    seq(|orders|, i requires 0 <= i < |orders| => SeededOrder(trim, orders[i], rows, statusById, now))
  }

  function ValueAt(m: map<string, real>, id: string): real {
    if id in m then m[id] else 0.0
  }

  function CountAt(m: map<string, int>, id: string): int {
    if id in m then m[id] else 0
  }

  /** The sums per known order, and the item facts. */
  method Accumulate(trim: Trim, byId: ById, rows: seq<ItemRow>, now: Time)
    returns (totalById: map<string, real>, countById: map<string, int>, items: seq<ItemFact>)
    ensures items == SeededItems(trim, byId, rows, now)
    ensures forall id :: id in byId ==> ValueAt(totalById, id) == ValueOf(trim, rows, id)
    ensures forall id :: id in byId ==> CountAt(countById, id) == CountOf(trim, rows, id)
  {
    totalById, countById, items := map[], map[], [];
    for n := 0 to |rows|
      invariant items == SeededItems(trim, byId, rows[..n], now)
      invariant forall id :: id in byId ==> ValueAt(totalById, id) == ValueOf(trim, rows[..n], id)
      invariant forall id :: id in byId ==> CountAt(countById, id) == CountOf(trim, rows[..n], id)
    {
      assert rows[..n + 1][..n] == rows[..n];
      var id := trim(rows[n].orderId);
      if id in byId {
        totalById := totalById[id := ValueAt(totalById, id) + rows[n].item.value];
        countById := countById[id := CountAt(countById, id) + rows[n].item.quantity];
        items := items + [RowFact(trim, byId[id], rows[n].item, now)];
      }
    }
    assert rows[..|rows|] == rows;
  }

  /** The item has the same fields, its texts trimmed. */
  ghost predicate SameItem(trim: Trim, given: Item, item: Item) {
    && item.sku == trim(given.sku) && item.alternateName == trim(given.alternateName)
    && item.productId == trim(given.productId) && item.resolutionSource == trim(given.resolutionSource)
    && item.quantity == given.quantity && item.value == given.value
  }

  /** The time, or the present if there is none. */
  ghost predicate IsTime(given: Option<Time>, t: Time, now: Time) {
    match given case None => t == now case Some(g) => t == g
  }

  /** What an order fact takes over from its row. */
  ghost predicate ReportsOrder(trim: Trim, f: OrderFact, order: OrderRow, statusById: map<string, string>, now: Time) {
    && f.orderId == trim(order.id) && f.identifier == trim(order.identifier) && f.realm == trim(order.realm)
    && f.contactId == trim(order.contactId)
    && IsTime(order.createdAt, f.createdAt, now) && IsTime(order.updatedAt, f.updatedAt, now)
    && (f.orderId in statusById ==> f.status == trim(statusById[f.orderId]))
    && (f.orderId !in statusById ==> f.status == trim(""))
  }

  /** What an item fact takes over from its own row and from the row of its order. */
  ghost predicate ReportsItem(trim: Trim, f: ItemFact, order: OrderRow, row: ItemRow, now: Time) {
    && f.orderId == trim(order.id) == trim(row.orderId) && f.contactId == trim(order.contactId)
    && SameItem(trim, row.item, f.item)
    && IsTime(order.createdAt, f.createdAt, now) && IsTime(order.updatedAt, f.updatedAt, now)
  }

  /** The rows that belong to a known order. */
  function KnownRows(trim: Trim, byId: ById, rows: seq<ItemRow>): seq<ItemRow> {
    if rows == [] then []
    else
      var rest := KnownRows(trim, byId, rows[..|rows| - 1]);
      if trim(rows[|rows| - 1].orderId) in byId then rest + [rows[|rows| - 1]] else rest
  }

  /** The seeded item facts report the rows of known orders, in stored order; the order facts report the orders. */
  lemma {:induction false} SeedReports(trim: Trim, byId: ById, rows: seq<ItemRow>, now: Time)
    requires IsIndex(trim, byId)
    ensures var known, facts := KnownRows(trim, byId, rows), SeededItems(trim, byId, rows, now);
            && |facts| == |known|
            && forall i :: 0 <= i < |facts| ==>
                 trim(known[i].orderId) in byId
                 && ReportsItem(trim, facts[i], byId[trim(known[i].orderId)], known[i], now)
    decreases |rows|
  {
    if rows == [] {
    } else {
      SeedReports(trim, byId, rows[..|rows| - 1], now);
    }
  }

  method BuildOrderPayloads(trim: Trim, orders: seq<OrderRow>, byId: ById, rows: seq<ItemRow>,
                            statusById: map<string, string>, now: Time)
    returns (facts: seq<OrderFact>, items: seq<ItemFact>)
    requires forall i :: 0 <= i < |orders| ==> trim(orders[i].id) in byId
    ensures items == SeededItems(trim, byId, rows, now)
    ensures facts == SeededOrders(trim, orders, rows, statusById, now)
    ensures |facts| == |orders|
    ensures forall i :: 0 <= i < |orders| ==> ReportsOrder(trim, facts[i], orders[i], statusById, now)
  {
    var totalById: map<string, real>, countById: map<string, int>;
    totalById, countById, items := Accumulate(trim, byId, rows, now);
    facts := [];
    for n := 0 to |orders|
      invariant |facts| == n
      invariant forall i :: 0 <= i < n ==> facts[i] == SeededOrder(trim, orders[i], rows, statusById, now)
    {
      var id := trim(orders[n].id);
      facts := facts + [OrderFact(
        id, trim(orders[n].identifier), trim(orders[n].realm), trim(orders[n].contactId),
        if id in statusById then trim(statusById[id]) else trim(""),
        ValueAt(totalById, id), CountAt(countById, id),
        OrNow(orders[n].createdAt, now), OrNow(orders[n].updatedAt, now))];
    }
  }

  lemma FactsOfAppended(facts: seq<ItemFact>, f: ItemFact, id: string)
    ensures FactsOf(facts + [f], id) == if f.orderId == id then FactsOf(facts, id) + [f] else FactsOf(facts, id)
  {
    assert (facts + [f])[..|facts|] == facts;
  }

  lemma SumsAppended(facts: seq<ItemFact>, f: ItemFact)
    ensures ItemValues(facts + [f]) == ItemValues(facts) + f.item.value
    ensures ItemQuantities(facts + [f]) == ItemQuantities(facts) + f.item.quantity
  {
    assert (facts + [f])[..|facts|] == facts;
  }

  /** The totals of an order are the sums over its own emitted item facts. */
  lemma {:induction false} TotalsAreSumsOfItems(trim: Trim, byId: ById, rows: seq<ItemRow>, now: Time, id: string)
    requires IsIndex(trim, byId) && id in byId
    ensures ItemValues(FactsOf(SeededItems(trim, byId, rows, now), id)) == ValueOf(trim, rows, id)
    ensures ItemQuantities(FactsOf(SeededItems(trim, byId, rows, now), id)) == CountOf(trim, rows, id)
    decreases |rows|
  {
    if rows == [] {
    } else {
      TotalsAreSumsOfItems(trim, byId, rows[..|rows| - 1], now, id);
      OwnGrows(trim, byId, rows, now, id);
    }
  }

  /** What the last item row adds to the facts of an order. */
  lemma OwnGrows(trim: Trim, byId: ById, rows: seq<ItemRow>, now: Time, id: string)
    requires IsIndex(trim, byId) && id in byId && rows != []
    ensures var before := FactsOf(SeededItems(trim, byId, rows[..|rows| - 1], now), id);
            var after := FactsOf(SeededItems(trim, byId, rows, now), id);
            var last := rows[|rows| - 1];
            var own := trim(last.orderId) == id;
            && after == (if own then before + [RowFact(trim, byId[id], last.item, now)] else before)
            && ItemValues(after) == ItemValues(before) + (if own then last.item.value else 0.0)
            && ItemQuantities(after) == ItemQuantities(before) + (if own then last.item.quantity else 0)
  {
    var front := SeededItems(trim, byId, rows[..|rows| - 1], now);
    var last := rows[|rows| - 1];
    var rowId := trim(last.orderId);
    if rowId in byId {
      var f := RowFact(trim, byId[rowId], last.item, now);
      FactsOfAppended(front, f, id);
      SumsAppended(FactsOf(front, id), f);
    }
  }

  // ----- conservation -----

  /** All seeded order totals together. */
  function AllValues(trim: Trim, orders: seq<OrderRow>, rows: seq<ItemRow>): real {
    if orders == [] then 0.0
    else AllValues(trim, orders[..|orders| - 1], rows) + ValueOf(trim, rows, trim(orders[|orders| - 1].id))
  }

  lemma {:induction false} AllValuesAreOrderValues(
    trim: Trim, orders: seq<OrderRow>, rows: seq<ItemRow>, statusById: map<string, string>, now: Time)
    ensures OrderValues(SeededOrders(trim, orders, rows, statusById, now)) == AllValues(trim, orders, rows)
    decreases |orders|
  {
    if orders == [] {
    } else {
      var front := orders[..|orders| - 1];
      AllValuesAreOrderValues(trim, front, rows, statusById, now);
      var facts := SeededOrders(trim, orders, rows, statusById, now);
      assert facts[..|front|] == SeededOrders(trim, front, rows, statusById, now);
    }
  }

  /** How many orders have this identifier. */
  function Holders(trim: Trim, orders: seq<OrderRow>, id: string): nat {
    if orders == [] then 0
    else Holders(trim, orders[..|orders| - 1], id) + (if trim(orders[|orders| - 1].id) == id then 1 else 0)
  }

  ghost predicate DistinctIds(trim: Trim, orders: seq<OrderRow>) {
    forall i, j :: 0 <= i < j < |orders| ==> trim(orders[i].id) != trim(orders[j].id)
  }

  lemma {:induction false} HoldersOfDistinct(trim: Trim, orders: seq<OrderRow>, id: string)
    requires DistinctIds(trim, orders)
    ensures Holders(trim, orders, id) == if id in Index(trim, orders) then 1 else 0
    decreases |orders|
  {
    if orders == [] {
    } else {
      HoldersOfDistinct(trim, orders[..|orders| - 1], id);
      IndexHoldsOrders(trim, orders[..|orders| - 1]);
    }
  }

  /** A shared identifier has more than one holder. */
  lemma {:induction false} HoldersOfShared(trim: Trim, orders: seq<OrderRow>, i: nat, j: nat)
    requires i < j < |orders| && trim(orders[i].id) == trim(orders[j].id)
    ensures Holders(trim, orders, trim(orders[i].id)) >= 2
    decreases |orders|
  {
    var front := orders[..|orders| - 1];
    if j < |front| {
      HoldersOfShared(trim, front, i, j);
    } else {
      AHolder(trim, front, i);
    }
  }

  lemma {:induction false} AHolder(trim: Trim, orders: seq<OrderRow>, i: nat)
    requires i < |orders|
    ensures Holders(trim, orders, trim(orders[i].id)) >= 1
    decreases |orders|
  {
    if i < |orders| - 1 { AHolder(trim, orders[..|orders| - 1], i); }
  }

  function Times(n: nat, v: real): real {
    if n == 0 then 0.0 else Times(n - 1, v) + v
  }

  lemma AtLeastTwice(n: nat)
    requires n >= 2
    ensures Times(n, 1.0) >= 2.0
  {
  }

  /** One more item row is counted once for every order with its identifier. */
  lemma {:induction false} OneMoreRow(trim: Trim, orders: seq<OrderRow>, rows: seq<ItemRow>, row: ItemRow)
    ensures AllValues(trim, orders, rows + [row]) ==
            AllValues(trim, orders, rows) + Times(Holders(trim, orders, trim(row.orderId)), row.item.value)
    decreases |orders|
  {
    if orders == [] {
    } else {
      OneMoreRow(trim, orders[..|orders| - 1], rows, row);
      assert (rows + [row])[..|rows|] == rows;
    }
  }

  lemma {:induction false} NoRows(trim: Trim, orders: seq<OrderRow>)
    ensures AllValues(trim, orders, []) == 0.0
    decreases |orders|
  {
    if orders == [] {
    } else {
      NoRows(trim, orders[..|orders| - 1]);
    }
  }

  /** What the last item row adds to all item facts. */
  lemma ItemsGrow(trim: Trim, byId: ById, rows: seq<ItemRow>, now: Time)
    requires rows != []
    ensures ItemValues(SeededItems(trim, byId, rows, now)) ==
            ItemValues(SeededItems(trim, byId, rows[..|rows| - 1], now)) +
            (if trim(rows[|rows| - 1].orderId) in byId then rows[|rows| - 1].item.value else 0.0)
  {
    var last := rows[|rows| - 1];
    var id := trim(last.orderId);
    if id in byId {
      SumsAppended(SeededItems(trim, byId, rows[..|rows| - 1], now), RowFact(trim, byId[id], last.item, now));
    }
  }

  /** What it adds to all order totals, if the identifiers differ. */
  lemma TotalsGrow(trim: Trim, orders: seq<OrderRow>, rows: seq<ItemRow>)
    requires DistinctIds(trim, orders) && rows != []
    ensures AllValues(trim, orders, rows) ==
            AllValues(trim, orders, rows[..|rows| - 1]) +
            (if trim(rows[|rows| - 1].orderId) in Index(trim, orders) then rows[|rows| - 1].item.value else 0.0)
  {
    var front, last := rows[..|rows| - 1], rows[|rows| - 1];
    assert rows == front + [last];
    OneMoreRow(trim, orders, front, last);
    HoldersOfDistinct(trim, orders, trim(last.orderId));
    assert Times(1, last.item.value) == Times(0, last.item.value) + last.item.value;
  }

  lemma {:induction false} DistinctConserves(trim: Trim, orders: seq<OrderRow>, rows: seq<ItemRow>, now: Time)
    requires DistinctIds(trim, orders)
    ensures AllValues(trim, orders, rows) == ItemValues(SeededItems(trim, Index(trim, orders), rows, now))
    decreases |rows|
  {
    if rows == [] {
      NoRows(trim, orders);
    } else {
      DistinctConserves(trim, orders, rows[..|rows| - 1], now);
      TotalsGrow(trim, orders, rows);
      ItemsGrow(trim, Index(trim, orders), rows, now);
    }
  }

  /** All emitted order facts together have the value of all emitted item facts. */
  ghost predicate Conserves(trim: Trim, orders: seq<OrderRow>, rows: seq<ItemRow>, statusById: map<string, string>,
                            now: Time) {
    OrderValues(SeededOrders(trim, orders, rows, statusById, now)) ==
    ItemValues(SeededItems(trim, Index(trim, orders), rows, now))
  }

  /** No value is counted twice, whatever the items, if and only if the orders have different identifiers. */
  lemma ConservesExactly(trim: Trim, orders: seq<OrderRow>, statusById: map<string, string>, now: Time)
    ensures (forall rows :: Conserves(trim, orders, rows, statusById, now)) <==> DistinctIds(trim, orders)
  {
    if DistinctIds(trim, orders) {
      forall rows ensures Conserves(trim, orders, rows, statusById, now) {
        DistinctConserves(trim, orders, rows, now);
        AllValuesAreOrderValues(trim, orders, rows, statusById, now);
      }
    } else {
      var i, j :| 0 <= i < j < |orders| && trim(orders[i].id) == trim(orders[j].id);
      SharedCountsTwice(trim, orders, i, j, statusById, now);
    }
  }

  lemma SharedCountsTwice(trim: Trim, orders: seq<OrderRow>, i: nat, j: nat, statusById: map<string, string>, now: Time)
    requires i < j < |orders| && trim(orders[i].id) == trim(orders[j].id)
    ensures exists rows :: !Conserves(trim, orders, rows, statusById, now)
  {
    var id := trim(orders[i].id);
    var row := ItemRow(orders[i].id, Item("", "", "", "", 1, 1.0));
    HoldersOfShared(trim, orders, i, j);
    AtLeastTwice(Holders(trim, orders, id));
    OneMoreRow(trim, orders, [], row);
    NoRows(trim, orders);
    AllValuesAreOrderValues(trim, orders, [row], statusById, now);
    IndexHoldsOrders(trim, orders);
    assert [] + [row] == [row] && [row][..0] == [];
    assert SeededItems(trim, Index(trim, orders), [row], now) ==
           [] + [RowFact(trim, Index(trim, orders)[id], row.item, now)];
    SumsAppended([], RowFact(trim, Index(trim, orders)[id], row.item, now));
    assert !Conserves(trim, orders, [row], statusById, now);
  }

  // ----- the event -----

  /** A zero time stands for a missing one. */
  datatype OrderEvent = OrderEvent(
    id: string, identifier: string, realm: string, contactId: string, currentStatus: string, latestStatus: string,
    items: seq<Item>, createdAt: Time, updatedAt: Time)

  datatype EventError = MissingOrderId | MissingContactId

  function NormalizeTime(t: Time, now: Time): Time {
    if t == 0 then now else t
  }

  function EventStatus(trim: Trim, e: OrderEvent): string {
    if trim(e.currentStatus) == "" then trim(e.latestStatus) else trim(e.currentStatus)
  }

  function ItemsValue(items: seq<Item>): real {
    if items == [] then 0.0 else ItemsValue(items[..|items| - 1]) + items[|items| - 1].value
  }

  function ItemsQuantity(items: seq<Item>): int {
    if items == [] then 0 else ItemsQuantity(items[..|items| - 1]) + items[|items| - 1].quantity
  }

  function EventOrder(trim: Trim, e: OrderEvent, now: Time): OrderFact {
    OrderFact(trim(e.id), trim(e.identifier), trim(e.realm), trim(e.contactId), EventStatus(trim, e),
              ItemsValue(e.items), ItemsQuantity(e.items),
              NormalizeTime(e.createdAt, now), NormalizeTime(e.updatedAt, now))
  }

  function EventItems(trim: Trim, e: OrderEvent, now: Time): seq<ItemFact> {
    seq(|e.items|, i requires 0 <= i < |e.items| =>
      ItemFact(trim(e.id), trim(e.contactId), TrimItem(trim, e.items[i]),
               NormalizeTime(e.createdAt, now), NormalizeTime(e.updatedAt, now)))
  }

  type EventResult = Result<(OrderFact, seq<ItemFact>), EventError>

  /** What the handler passes on for an event, unless it refuses it. */
  function Handled(trim: Trim, e: OrderEvent, now: Time): EventResult {
    if trim(e.id) == "" then Err(MissingOrderId)
    else if trim(e.contactId) == "" then Err(MissingContactId)
    else Ok((EventOrder(trim, e, now), EventItems(trim, e, now)))
  }

  /** The time, or the present for the zero time. */
  ghost predicate IsEventTime(given: Time, t: Time, now: Time) {
    if given == 0 then t == now else t == given
  }

  /** What the order fact takes over from the event; a blank current status gives way to the latest one. */
  ghost predicate ReportsEvent(trim: Trim, f: OrderFact, e: OrderEvent, now: Time) {
    && f.orderId == trim(e.id) != "" && f.identifier == trim(e.identifier) && f.realm == trim(e.realm)
    && f.contactId == trim(e.contactId) != ""
    && (trim(e.currentStatus) != "" ==> f.status == trim(e.currentStatus))
    && (trim(e.currentStatus) == "" ==> f.status == trim(e.latestStatus))
    && IsEventTime(e.createdAt, f.createdAt, now) && IsEventTime(e.updatedAt, f.updatedAt, now)
  }

  /** The item facts are the event's own items, in order, and the order carries their sums. */
  ghost predicate ReportsItems(trim: Trim, order: OrderFact, items: seq<ItemFact>, e: OrderEvent) {
    && |items| == |e.items|
    && (forall i :: 0 <= i < |items| ==>
          && items[i].orderId == order.orderId && items[i].contactId == order.contactId
          && items[i].createdAt == order.createdAt && items[i].updatedAt == order.updatedAt
          && SameItem(trim, e.items[i], items[i].item))
    && order.totalValue == ItemValues(items) && order.itemCount == ItemQuantities(items)
  }

  lemma {:induction false} EventSums(items: seq<Item>, facts: seq<ItemFact>)
    requires |items| == |facts|
    requires forall i :: 0 <= i < |facts| ==>
               facts[i].item.value == items[i].value && facts[i].item.quantity == items[i].quantity
    ensures ItemsValue(items) == ItemValues(facts) && ItemsQuantity(items) == ItemQuantities(facts)
    decreases |items|
  {
    if items == [] {
    } else {
      EventSums(items[..|items| - 1], facts[..|items| - 1]);
    }
  }

  /** The handler's result, told from the event's own fields. */
  ghost predicate IsResultFor(trim: Trim, e: OrderEvent, now: Time, r: EventResult) {
    match r
    case Err(MissingOrderId) => trim(e.id) == ""
    case Err(MissingContactId) => trim(e.id) != "" && trim(e.contactId) == ""
    case Ok((order, items)) => ReportsEvent(trim, order, e, now) && ReportsItems(trim, order, items, e)
  }

  lemma HandledMeans(trim: Trim, e: OrderEvent, now: Time)
    ensures IsResultFor(trim, e, now, Handled(trim, e, now))
  {
    EventSums(e.items, EventItems(trim, e, now));
  }

  /** The facts of an event that is not refused. */
  method EventFacts(trim: Trim, e: OrderEvent, now: Time) returns (order: OrderFact, items: seq<ItemFact>)
    ensures order == EventOrder(trim, e, now) && items == EventItems(trim, e, now)
  {
    var createdAt, updatedAt := NormalizeTime(e.createdAt, now), NormalizeTime(e.updatedAt, now);
    var status := trim(e.currentStatus);
    if status == "" {
      status := trim(e.latestStatus);
    }
    order := OrderFact(trim(e.id), trim(e.identifier), trim(e.realm), trim(e.contactId), status,
                       0.0, 0, createdAt, updatedAt);
    items := [];
    ghost var all := EventOrder(trim, e, now);
    for n := 0 to |e.items|
      invariant order == all.(totalValue := ItemsValue(e.items[..n]), itemCount := ItemsQuantity(e.items[..n]))
      invariant items == EventItems(trim, e, now)[..n]
    {
      assert e.items[..n + 1][..n] == e.items[..n];
      var item := e.items[n];
      order := order.(totalValue := order.totalValue + item.value, itemCount := order.itemCount + item.quantity);
      items := items + [ItemFact(order.orderId, order.contactId, TrimItem(trim, item), createdAt, updatedAt)];
    }
    assert e.items[..|e.items|] == e.items;
  }

  method HandleOrderEvent(trim: Trim, e: OrderEvent, now: Time) returns (r: EventResult)
    ensures r == Handled(trim, e, now)
    ensures IsResultFor(trim, e, now, r)
  {
    HandledMeans(trim, e, now);
    if trim(e.id) == "" {
      return Err(MissingOrderId);
    }
    if trim(e.contactId) == "" {
      return Err(MissingContactId);
    }
    var order, items := EventFacts(trim, e, now);
    r := Ok((order, items));
  }

  /** The stored items of one order, in stored order. */
  function ItemsOf(trim: Trim, rows: seq<ItemRow>, id: string): seq<Item> {
    if rows == [] then []
    else
      var rest := ItemsOf(trim, rows[..|rows| - 1], id);
      if trim(rows[|rows| - 1].orderId) == id then rest + [rows[|rows| - 1].item] else rest
  }

  /** The event says what the row says; a time that is missing in the row is missing in the event. */
  ghost predicate Tells(trim: Trim, e: OrderEvent, order: OrderRow, rows: seq<ItemRow>,
                        statusById: map<string, string>) {
    var id := trim(order.id);
    && e.id == order.id && e.identifier == order.identifier && e.realm == order.realm && e.contactId == order.contactId
    && e.items == ItemsOf(trim, rows, id)
    && order.createdAt == (if e.createdAt == 0 then None else Some(e.createdAt))
    && order.updatedAt == (if e.updatedAt == 0 then None else Some(e.updatedAt))
    && (if trim(e.currentStatus) == "" then trim(e.latestStatus) else trim(e.currentStatus)) ==
       (if id in statusById then trim(statusById[id]) else trim(""))
  }

  lemma {:induction false} ItemsOfSums(trim: Trim, rows: seq<ItemRow>, id: string)
    ensures ItemsValue(ItemsOf(trim, rows, id)) == ValueOf(trim, rows, id)
    ensures ItemsQuantity(ItemsOf(trim, rows, id)) == CountOf(trim, rows, id)
    decreases |rows|
  {
    if rows == [] {
    } else {
      ItemsOfSums(trim, rows[..|rows| - 1], id);
      var own := ItemsOf(trim, rows[..|rows| - 1], id);
      assert (own + [rows[|rows| - 1].item])[..|own|] == own;
    }
  }

  lemma {:induction false} ItemsOfFacts(trim: Trim, byId: ById, rows: seq<ItemRow>, now: Time, id: string)
    requires IsIndex(trim, byId) && id in byId
    ensures var own, items := FactsOf(SeededItems(trim, byId, rows, now), id), ItemsOf(trim, rows, id);
            |own| == |items| && forall i :: 0 <= i < |own| ==> own[i] == RowFact(trim, byId[id], items[i], now)
    decreases |rows|
  {
    if rows == [] {
    } else {
      ItemsOfFacts(trim, byId, rows[..|rows| - 1], now, id);
      OwnGrows(trim, byId, rows, now, id);
    }
  }

  /** Both routes produce the same facts for the same order, exactly if it has an identifier and a contact. */
  lemma RoutesAgree(trim: Trim, byId: ById, order: OrderRow, rows: seq<ItemRow>, statusById: map<string, string>,
                    now: Time, e: OrderEvent)
    requires IsIndex(trim, byId) && trim(order.id) in byId && byId[trim(order.id)] == order
    requires Tells(trim, e, order, rows, statusById)
    ensures var seeded := (SeededOrder(trim, order, rows, statusById, now),
                           FactsOf(SeededItems(trim, byId, rows, now), trim(order.id)));
            Handled(trim, e, now) == Ok(seeded) <==> trim(order.id) != "" && trim(order.contactId) != ""
  {
    ItemsOfSums(trim, rows, trim(order.id));
    ItemsOfFacts(trim, byId, rows, now, trim(order.id));
    assert EventItems(trim, e, now) == FactsOf(SeededItems(trim, byId, rows, now), trim(order.id));
  }
}
