/** backend/controllers/orderController.js: the order handlers. A handler maps the
    shop state (the plants catalog and the orders tables) and the parsed request to
    a reply and the new shop state. Route parameters that are missing or NaN are
    None; `req.user` is the verified claims. */
module OrderController {
  import opened Wrappers
  import opened Helpers
  import opened PlantStock
  import opened OrderStore
  import Text

  datatype Shop = Shop(catalog: Catalog, db: OrderDb)

  /** One element of `req.body.items`. A field that is absent or not a number is
      None. `clientPrice` is whatever price the client sent; the handler never reads it. */
  datatype ItemRequest = ItemRequest(plantId: Option<int>, quantity: Option<int>, clientPrice: Option<int>)

  /** The shape test of the validation loop: a truthy plant id and a positive quantity. */
  predicate WellFormed(it: ItemRequest) {
    it.plantId.Some? && it.plantId.value != 0 && it.quantity.Some? && it.quantity.value > 0
  }

  /** An item passes the loop: well formed, its plant exists, and that plant's
      stock covers the item's quantity on its own. */
  predicate ItemAcceptable(c: Catalog, it: ItemRequest) {
    WellFormed(it) && it.plantId.value in c && c[it.plantId.value].stock >= it.quantity.value
  }

  /** The request the handler accepts: a non-empty array of acceptable items. */
  predicate Acceptable(c: Catalog, items: Option<seq<ItemRequest>>) {
    items.Some? && |items.value| > 0
    && forall i :: 0 <= i < |items.value| ==> ItemAcceptable(c, items.value[i])
  }

  /** The order line an accepted item becomes: the catalog price replaces the client's. */
  function Snapshot(c: Catalog, it: ItemRequest): OrderItem
    requires ItemAcceptable(c, it)
  {
    OrderItem(it.plantId.value, it.quantity.value, c[it.plantId.value].price)
  }

  /** Sum of price × quantity over the lines: the order total. */
  function Subtotal(lines: seq<OrderItem>): int {
    if |lines| == 0 then 0 else lines[0].price * lines[0].quantity + Subtotal(lines[1..])
  }

  /** Total quantity of plant `p` over the lines. */
  function Demand(lines: seq<OrderItem>, p: int): int {
    if |lines| == 0 then 0
    else (if lines[0].plantId == p then lines[0].quantity else 0) + Demand(lines[1..], p)
  }

  // ---------------------------------------------------------------------------
  // createOrder

  /** One pass of the validation loop, with its three rejection messages. */
  function CheckItem(c: Catalog, it: ItemRequest): (r: Result<OrderItem, string>)
    ensures r.Ok? <==> ItemAcceptable(c, it)
    ensures r.Ok? ==> r.value == Snapshot(c, it)
    ensures r.Err? ==> r.error != ""
  {
    if !WellFormed(it) then Err("Each item must have plant_id and quantity > 0.")
    else
      match GetPlantById(c, it.plantId.value)
      case None => Err("Plant with ID " + Text.IntToString(it.plantId.value) + " not found.")
      case Some(plant) =>
        if plant.stock < it.quantity.value then
          Err("Insufficient stock for " + plant.name + ". Available: " + Text.IntToString(plant.stock))
        else Ok(OrderItem(it.plantId.value, it.quantity.value, plant.price))
  }

  /** The validation loop: every item is checked against the catalog as it was
      before the request, and the first failure answers the request. */
  function ValidateItems(c: Catalog, items: seq<ItemRequest>): (r: Result<seq<OrderItem>, string>)
    ensures r.Ok? <==> forall i :: 0 <= i < |items| ==> ItemAcceptable(c, items[i])
    ensures r.Ok? ==> |r.value| == |items|
    ensures r.Ok? ==> forall i :: 0 <= i < |items| ==> r.value[i] == Snapshot(c, items[i])
    ensures r.Err? ==> r.error != ""
  {
    if |items| == 0 then Ok([])
    else
      match CheckItem(c, items[0])
      case Err(m) => Err(m)
      case Ok(line) =>
        match ValidateItems(c, items[1..])
        case Err(m) => Err(m)
        case Ok(rest) => Ok([line] + rest)
  }

  /** Item `k` is the first one the loop rejects. */
  ghost predicate FirstRejected(c: Catalog, items: seq<ItemRequest>, k: int) {
    0 <= k < |items| && !ItemAcceptable(c, items[k])
    && forall j :: 0 <= j < k ==> ItemAcceptable(c, items[j])
  }

  /** A rejected request is answered with the message of its first bad item. */
  lemma {:induction false} ValidateItemsStopsAtFirst(c: Catalog, items: seq<ItemRequest>)
    requires ValidateItems(c, items).Err?
    ensures exists k :: FirstRejected(c, items, k)
                        && ValidateItems(c, items).error == CheckItem(c, items[k]).error
  {
    if CheckItem(c, items[0]).Ok? {
      ValidateItemsStopsAtFirst(c, items[1..]);
      var k :| FirstRejected(c, items[1..], k)
               && ValidateItems(c, items[1..]).error == CheckItem(c, items[1..][k]).error;
      assert FirstRejected(c, items, k + 1);
    } else {
      assert FirstRejected(c, items, 0);
    }
  }

  /** The `addOrderItem` calls of the second loop: each line joins the order. */
  function AddLines(db: OrderDb, orderId: int, lines: seq<OrderItem>): (r: OrderDb)
    requires OrderStore.GetOrderById(db, orderId).Some?
    ensures r.nextId == db.nextId && |r.orders| == |db.orders|
    ensures forall i :: 0 <= i < |db.orders| ==>
              r.orders[i] == if db.orders[i].orderId == orderId
                             then db.orders[i].(items := db.orders[i].items + lines)
                             else db.orders[i]
    decreases |lines|
  {
    if |lines| == 0 then db
    else
      var db1 := AddOrderItem(db, orderId, lines[0].plantId, lines[0].quantity, lines[0].price).value.0;
      var r := AddLines(db1, orderId, lines[1..]);
      AppendTwice(db.orders, db1.orders, r.orders, orderId, lines);
      r
  }

  /** Adding the first line and then the rest to the same orders adds all of them. */
  lemma AppendTwice(before: seq<Order>, mid: seq<Order>, after: seq<Order>, orderId: int, lines: seq<OrderItem>)
    requires |lines| > 0
    requires |mid| == |before| && |after| == |before|
    requires forall i :: 0 <= i < |before| ==>
               mid[i] == if before[i].orderId == orderId then before[i].(items := before[i].items + [lines[0]]) else before[i]
    requires forall i :: 0 <= i < |mid| ==>
               after[i] == if mid[i].orderId == orderId then mid[i].(items := mid[i].items + lines[1..]) else mid[i]
    ensures forall i :: 0 <= i < |before| ==>
              after[i] == if before[i].orderId == orderId then before[i].(items := before[i].items + lines) else before[i]
  {
    forall i | 0 <= i < |before| && before[i].orderId == orderId
      ensures after[i] == before[i].(items := before[i].items + lines)
    {
      assert before[i].items + lines == before[i].items + [lines[0]] + lines[1..];
    }
  }

  /** The `updatePlantStock(id, -quantity)` calls of the second loop. */
  function Deduct(c: Catalog, lines: seq<OrderItem>): (r: Catalog)
    ensures r.Keys == c.Keys
    ensures forall p :: p in c ==> r[p] == c[p].(stock := c[p].stock - Demand(lines, p))
    decreases |lines|
  {
    if |lines| == 0 then c
    else Deduct(UpdatePlantStock(c, lines[0].plantId, -lines[0].quantity), lines[1..])
  }

  /** The second loop. Its two calls per line touch different tables, so the
      loop is the two passes one after the other. */
  function PlaceItems(shop: Shop, orderId: int, lines: seq<OrderItem>): Shop
    requires OrderStore.GetOrderById(shop.db, orderId).Some?
  {
    Shop(Deduct(shop.catalog, lines), AddLines(shop.db, orderId, lines))
  }

  /** Lines 48-62 of the handler, run once the lines are validated: a pending
      order with the lines' total, the lines placed, and the order echoed back. */
  function Place(shop: Shop, userId: int, lines: seq<OrderItem>, now: nat): (r: (Response<Order>, Shop))
    requires forall i :: 0 <= i < |lines| ==> lines[i].plantId in shop.catalog
    ensures r.0.code == 201 && r.0.status == Success && r.0.data.Some?
    ensures r.1.catalog.Keys == shop.catalog.Keys
    ensures forall p :: p in shop.catalog ==>
              r.1.catalog[p] == shop.catalog[p].(stock := shop.catalog[p].stock - Demand(lines, p))
    ensures Valid(shop.db) ==>
              var o := r.0.data.value;
              && Valid(r.1.db)
              && r.1.db.orders == shop.db.orders + [o]
              && o.orderId == shop.db.nextId && OrderStore.GetOrderById(shop.db, o.orderId).None?
              && o.userId == userId && o.status == Pending && o.updatedAt == now
              && o.items == lines && o.totalAmount == Subtotal(lines)
  {
    var (db1, order) := OrderStore.CreateOrder(shop.db, userId, Subtotal(lines), Pending, now);
    assert db1.orders[|shop.db.orders|] == order;
    var shop' := PlaceItems(Shop(shop.catalog, db1), order.orderId, lines);
    var placed := order.(items := GetOrderItems(shop'.db, shop'.catalog.Keys, order.orderId));
    PlaceOrderShape(shop.db, db1, order, lines, shop'.db, shop.catalog.Keys);
    (SendResponse(201, Some(placed), Some("Order created successfully.")), shop')
  }

  /** On a valid table the new order is the last row, alone with its id, and
      carries exactly the placed lines. */
  lemma PlaceOrderShape(db: OrderDb, db1: OrderDb, order: Order, lines: seq<OrderItem>, db2: OrderDb, plants: set<int>)
    requires forall i :: 0 <= i < |lines| ==> lines[i].plantId in plants
    requires db1 == OrderDb(db.orders + [order], db.nextId + 1)
    requires order.orderId == db.nextId && order.items == []
    requires OrderStore.GetOrderById(db1, order.orderId).Some?
    requires db2 == AddLines(db1, order.orderId, lines)
    ensures Valid(db) ==>
              && Valid(db2) && db2.orders == db.orders + [order.(items := GetOrderItems(db2, plants, order.orderId))]
              && GetOrderItems(db2, plants, order.orderId) == lines
  {
    if Valid(db) {
      var o := order.(items := lines);
      AddLinesToLast(db, db1, order, lines, db2);
      assert db2 == OrderDb(db.orders + [o], db.nextId + 1);
      OrderStore.CreateOrderFresh(db, o, db2);
      assert JoinPlants(lines, plants) == lines;
    }
  }

  /** Lines added to the newest order land on the last row only. */
  lemma AddLinesToLast(db: OrderDb, db1: OrderDb, order: Order, lines: seq<OrderItem>, db2: OrderDb)
    requires db1 == OrderDb(db.orders + [order], db.nextId + 1)
    requires order.orderId == db.nextId && order.items == []
    requires OrderStore.GetOrderById(db1, order.orderId).Some?
    requires db2 == AddLines(db1, order.orderId, lines)
    requires forall i :: 0 <= i < |db.orders| ==> db.orders[i].orderId < db.nextId
    ensures db2.orders == db.orders + [order.(items := lines)]
  {
    var n := |db.orders|;
    var want := db.orders + [order.(items := lines)];
    forall i | 0 <= i <= n ensures db2.orders[i] == want[i] {
      if i < n {
        assert db1.orders[i] == db.orders[i] && db.orders[i].orderId != order.orderId;
      } else {
        assert db1.orders[n] == order && order.items + lines == lines;
      }
    }
    assert db2.orders == want;
  }

  /** `createOrder` as written: 201 exactly when the request is a non-empty
      array of items each acceptable on its own; a 400 changes nothing. */
  function CreateOrder(shop: Shop, userId: int, items: Option<seq<ItemRequest>>, now: nat): (r: (Response<Order>, Shop))
    ensures r.0.code == 201 || r.0.code == 400
    ensures r.0.code == 201 <==> Acceptable(shop.catalog, items)
    ensures r.0.code == 400 ==> r.1 == shop && r.0.status == Error && r.0.data.None?
  {
    if items.None? || |items.value| == 0 then (Reply(400, "Order must contain at least one item."), shop)
    else
      match ValidateItems(shop.catalog, items.value)
      case Err(m) => (Reply(400, m), shop)
      case Ok(lines) => Place(shop, userId, lines, now)
  }

  /** What an accepted order does: one new pending order, numbered by the
      counter, holding the validated lines at catalog prices, totalled at
      catalog prices, and every plant's stock lowered by its ordered quantity. */
  lemma CreateOrderPlaces(shop: Shop, userId: int, items: Option<seq<ItemRequest>>, now: nat)
    requires Valid(shop.db) && Acceptable(shop.catalog, items)
    ensures var (resp, shop') := CreateOrder(shop, userId, items, now);
            var o := resp.data.value;
            && resp.code == 201
            && Valid(shop'.db) && shop'.db.orders == shop.db.orders + [o]
            && o.orderId == shop.db.nextId && o.userId == userId && o.status == Pending
            && |o.items| == |items.value|
            && (forall i :: 0 <= i < |o.items| ==> o.items[i] == Snapshot(shop.catalog, items.value[i]))
            && o.totalAmount == Subtotal(o.items)
            && shop'.catalog.Keys == shop.catalog.Keys
            && forall p :: p in shop.catalog ==>
                 shop'.catalog[p].stock == shop.catalog[p].stock - Demand(o.items, p)
  {
  }

  /** The price a client sends with an item never reaches the order. */
  lemma {:induction false} ValidateIgnoresClientPrice(c: Catalog, a: seq<ItemRequest>, b: seq<ItemRequest>)
    requires |a| == |b|
    requires forall i :: 0 <= i < |a| ==> a[i].plantId == b[i].plantId && a[i].quantity == b[i].quantity
    ensures ValidateItems(c, a) == ValidateItems(c, b)
  {
    if |a| > 0 {
      ValidateIgnoresClientPrice(c, a[1..], b[1..]);
    }
  }

  lemma ClientPriceIgnored(shop: Shop, userId: int, a: seq<ItemRequest>, b: seq<ItemRequest>, now: nat)
    requires |a| == |b|
    requires forall i :: 0 <= i < |a| ==> a[i].plantId == b[i].plantId && a[i].quantity == b[i].quantity
    ensures CreateOrder(shop, userId, Some(a), now) == CreateOrder(shop, userId, Some(b), now)
  {
    ValidateIgnoresClientPrice(shop.catalog, a, b);
  }

  /** Two lines for the same plant, each within stock but together beyond it,
      are accepted and drive the stock negative. */
  lemma DuplicateLinesOversell()
    ensures var shop := Shop(map[1 := PlantRecord("Fern", 1000, 5)], OrderDb([], 1));
            var items := Some([ItemRequest(Some(1), Some(5), None), ItemRequest(Some(1), Some(5), None)]);
            var (resp, shop') := CreateOrder(shop, 7, items, 0);
            resp.code == 201 && shop'.catalog[1].stock == -5
  {
    var shop := Shop(map[1 := PlantRecord("Fern", 1000, 5)], OrderDb([], 1));
    var items := Some([ItemRequest(Some(1), Some(5), None), ItemRequest(Some(1), Some(5), None)]);
    assert Acceptable(shop.catalog, items);
    CreateOrderPlaces(shop, 7, items, 0);
    var o := CreateOrder(shop, 7, items, 0).0.data.value;
    assert o.items == [OrderItem(1, 5, 1000), OrderItem(1, 5, 1000)];
    assert Demand(o.items, 1) == 10;
  }

  // ---------------------------------------------------------------------------
  // createOrder, corrected: stock is checked against what earlier lines took

  /** Total quantity the request asks of plant `p`. */
  function Requested(items: seq<ItemRequest>, p: int): int {
    if |items| == 0 then 0
    else (if items[0].plantId == Some(p) then items[0].quantity.GetOr(0) else 0) + Requested(items[1..], p)
  }

  /** Every item well formed and naming a known plant, and for every plant the
      request's total quantity within its stock. */
  predicate Fits(c: Catalog, items: seq<ItemRequest>) {
    (forall i :: 0 <= i < |items| ==> WellFormed(items[i]) && items[i].plantId.value in c)
    && forall p :: p in c ==> Requested(items, p) == 0 || Requested(items, p) <= c[p].stock
  }

  lemma {:induction false} RequestedNonNegative(items: seq<ItemRequest>, p: int)
    requires forall i :: 0 <= i < |items| ==> WellFormed(items[i])
    ensures Requested(items, p) >= 0
  {
    if |items| > 0 {
      RequestedNonNegative(items[1..], p);
    }
  }

  /** The validation loop with a running copy of the stock: each accepted line
      is deducted before the next is checked. */
  function ValidateRunning(c: Catalog, items: seq<ItemRequest>): (r: Result<seq<OrderItem>, string>)
    ensures r.Ok? <==> Fits(c, items)
    ensures r.Ok? ==> |r.value| == |items|
    ensures r.Ok? ==> forall i :: 0 <= i < |items| ==>
              ItemAcceptable(c, items[i]) && r.value[i] == Snapshot(c, items[i])
    ensures r.Err? ==> r.error != ""
    decreases |items|
  {
    if |items| == 0 then Ok([])
    else
      match CheckItem(c, items[0])
      case Err(m) =>
        FitsHead(c, items);
        Err(m)
      case Ok(line) =>
        var c1 := UpdatePlantStock(c, line.plantId, -line.quantity);
        FitsStep(c, items, c1);
        match ValidateRunning(c1, items[1..])
        case Err(m) => Err(m)
        case Ok(rest) => Ok([line] + rest)
  }

  /** A request that fits has an acceptable first item. */
  lemma FitsHead(c: Catalog, items: seq<ItemRequest>)
    requires |items| > 0
    ensures Fits(c, items) ==> ItemAcceptable(c, items[0])
  {
    if Fits(c, items) {
      var p := items[0].plantId.value;
      RequestedNonNegative(items[1..], p);
      assert Requested(items, p) == items[0].quantity.value + Requested(items[1..], p);
    }
  }

  /** After deducting an acceptable first item, the rest fits the reduced stock
      exactly when the whole request fits the original stock. */
  lemma FitsStep(c: Catalog, items: seq<ItemRequest>, c1: Catalog)
    requires |items| > 0 && ItemAcceptable(c, items[0])
    requires c1 == UpdatePlantStock(c, items[0].plantId.value, -items[0].quantity.value)
    ensures Fits(c1, items[1..]) <==> Fits(c, items)
  {
    var p0 := items[0].plantId.value;
    var q0 := items[0].quantity.value;
    forall p | p in c
      ensures (Requested(items[1..], p) == 0 || Requested(items[1..], p) <= c1[p].stock)
              <==> (Requested(items, p) == 0 || Requested(items, p) <= c[p].stock)
    {
      if p == p0 {
        if (forall i :: 0 <= i < |items[1..]| ==> WellFormed(items[1..][i])) {
          RequestedNonNegative(items[1..], p);
        }
        assert Requested(items, p) == q0 + Requested(items[1..], p);
      } else {
        assert Requested(items, p) == Requested(items[1..], p);
      }
    }
    if Fits(c1, items[1..]) {
      assert forall i :: 0 <= i < |items| ==> WellFormed(items[i]) && items[i].plantId.value in c by {
        forall i | 0 <= i < |items| ensures WellFormed(items[i]) && items[i].plantId.value in c {
          if i > 0 {
            assert items[i] == items[1..][i - 1];
          }
        }
      }
    }
    if Fits(c, items) {
      forall i | 0 <= i < |items[1..]| ensures WellFormed(items[1..][i]) && items[1..][i].plantId.value in c1 {
        assert items[1..][i] == items[i + 1];
      }
      forall p | p in c ensures Requested(items[1..], p) >= 0 {
        RequestedNonNegative(items[1..], p);
      }
    }
  }

  /** The lines a fitting request becomes ask of each plant what the request asks. */
  lemma {:induction false} DemandOfSnapshots(c: Catalog, items: seq<ItemRequest>, lines: seq<OrderItem>, p: int)
    requires |lines| == |items|
    requires forall i :: 0 <= i < |items| ==> ItemAcceptable(c, items[i]) && lines[i] == Snapshot(c, items[i])
    ensures Demand(lines, p) == Requested(items, p)
  {
    if |items| > 0 {
      DemandOfSnapshots(c, items[1..], lines[1..], p);
    }
  }

  /** `createOrder` with the corrected stock check: 201 exactly when the whole
      request fits the stock; every order it accepts the original also accepts;
      and stock that was never negative stays so. */
  function CreateOrderChecked(shop: Shop, userId: int, items: Option<seq<ItemRequest>>, now: nat): (r: (Response<Order>, Shop))
    ensures r.0.code == 201 || r.0.code == 400
    ensures r.0.code == 201 <==> items.Some? && |items.value| > 0 && Fits(shop.catalog, items.value)
    ensures r.0.code == 201 ==> Acceptable(shop.catalog, items)
    ensures r.0.code == 400 ==> r.1 == shop && r.0.status == Error
    ensures NonNegativeStock(shop.catalog) ==> NonNegativeStock(r.1.catalog)
  {
    if items.None? || |items.value| == 0 then (Reply(400, "Order must contain at least one item."), shop)
    else
      match ValidateRunning(shop.catalog, items.value)
      case Err(m) => (Reply(400, m), shop)
      case Ok(lines) =>
        var r := Place(shop, userId, lines, now);
        forall p | p in shop.catalog ensures Demand(lines, p) == Requested(items.value, p) {
          DemandOfSnapshots(shop.catalog, items.value, lines, p);
        }
        r
  }

  /** The corrected handler refuses the request that oversells above. */
  lemma CheckedRefusesOversell()
    ensures var shop := Shop(map[1 := PlantRecord("Fern", 1000, 5)], OrderDb([], 1));
            var items := Some([ItemRequest(Some(1), Some(5), None), ItemRequest(Some(1), Some(5), None)]);
            var (resp, shop') := CreateOrderChecked(shop, 7, items, 0);
            resp.code == 400 && shop' == shop
  {
    var items := [ItemRequest(Some(1), Some(5), None), ItemRequest(Some(1), Some(5), None)];
    assert Requested(items, 1) == 10;
  }

  // ---------------------------------------------------------------------------
  // reads

  /** Each order with its items as `getOrderItems` returns them. */
  function WithItems(shop: Shop, orders: seq<Order>): (r: seq<Order>)
    ensures |r| == |orders|
    ensures forall i :: 0 <= i < |r| ==>
              r[i].orderId == orders[i].orderId && r[i].userId == orders[i].userId
              && r[i].status == orders[i].status && r[i].totalAmount == orders[i].totalAmount
  {
    if |orders| == 0 then []
    else [orders[0].(items := GetOrderItems(shop.db, shop.catalog.Keys, orders[0].orderId))]
         + WithItems(shop, orders[1..])
  }

  /** `getOrderById`: 400 for a missing or non-numeric id, 404 for an unknown
      one, 403 unless the caller is an admin or the order's owner. Staff get no
      exception here. */
  function GetOrderById(shop: Shop, caller: Claims, id: Option<int>): (r: Response<Order>)
    ensures r.code in {200, 400, 403, 404}
    ensures r.code == 400 <==> id.None?
    ensures r.code == 404 <==> id.Some? && OrderStore.GetOrderById(shop.db, id.value).None?
    ensures r.code == 200 <==> id.Some? && OrderStore.GetOrderById(shop.db, id.value).Some?
                               && (caller.role == Admin || OrderStore.GetOrderById(shop.db, id.value).value.userId == caller.userId)
    ensures r.code == 200 ==> r.data.Some? && r.data.value.orderId == id.value
                              && r.data.value.userId == OrderStore.GetOrderById(shop.db, id.value).value.userId
  {
    if id.None? then Reply(400, "Valid order ID is required.")
    else
      match OrderStore.GetOrderById(shop.db, id.value)
      case None => Reply(404, "Order not found.")
      case Some(order) =>
        if caller.role != Admin && order.userId != caller.userId then
          Reply(403, "You do not have access to this order.")
        else
          SendResponse(200, Some(order.(items := GetOrderItems(shop.db, shop.catalog.Keys, order.orderId))),
                       Some("Order retrieved successfully."))
  }

  /** `getMyOrders`: the caller's own orders, newest first. */
  function GetMyOrders(shop: Shop, caller: Claims): (r: Response<seq<Order>>)
    ensures r.code == 200 && r.data.Some?
    ensures forall i :: 0 <= i < |r.data.value| ==> r.data.value[i].userId == caller.userId
    ensures forall i :: 0 <= i < |shop.db.orders| && shop.db.orders[i].userId == caller.userId ==>
              exists j :: 0 <= j < |r.data.value| && r.data.value[j].orderId == shop.db.orders[i].orderId
    ensures Valid(shop.db) ==> Seqs.Decreasing(Id, r.data.value)
  {
    var mine := OrderStore.GetOrdersByUserId(shop.db, caller.userId);
    var data := WithItems(shop, mine);
    forall i | 0 <= i < |shop.db.orders| && shop.db.orders[i].userId == caller.userId
      ensures exists j :: 0 <= j < |data| && data[j].orderId == shop.db.orders[i].orderId
    {
      ListedById(shop, mine, shop.db.orders[i]);
    }
    SendResponse(200, Some(data), Some("Order history retrieved successfully."))
  }

  /** An order of the list keeps its id in the list with items attached. */
  lemma ListedById(shop: Shop, orders: seq<Order>, o: Order)
    requires o in orders
    ensures exists j :: 0 <= j < |WithItems(shop, orders)| && WithItems(shop, orders)[j].orderId == o.orderId
  {
    var j :| 0 <= j < |orders| && orders[j] == o;
    assert WithItems(shop, orders)[j].orderId == o.orderId;
  }

  /** `getAllOrders`: `status || null` turns an empty filter into no filter.
      `users` is the set of ids in the users table the store joins with. */
  function GetAllOrders(shop: Shop, users: set<int>, status: Option<string>): (r: Response<seq<Order>>)
    ensures r.code == 200 && r.data.Some?
    ensures forall i :: 0 <= i < |r.data.value| ==>
              (!Truthy(status) || StatusName(r.data.value[i].status) == status.value)
              && r.data.value[i].userId in users
    ensures forall i :: 0 <= i < |shop.db.orders| && shop.db.orders[i].userId in users
                        && (!Truthy(status) || StatusName(shop.db.orders[i].status) == status.value) ==>
              exists j :: 0 <= j < |r.data.value| && r.data.value[j].orderId == shop.db.orders[i].orderId
    ensures !Truthy(status) && (forall i :: 0 <= i < |shop.db.orders| ==> shop.db.orders[i].userId in users) ==>
              |r.data.value| == |shop.db.orders|
    ensures Valid(shop.db) ==> Seqs.Decreasing(Id, r.data.value)
  {
    var filter := if Truthy(status) then status else None;
    var listed := OrderStore.GetAllOrders(shop.db, users, filter);
    var data := WithItems(shop, listed);
    forall i | 0 <= i < |shop.db.orders| && shop.db.orders[i].userId in users
               && (!Truthy(status) || StatusName(shop.db.orders[i].status) == status.value)
      ensures exists j :: 0 <= j < |data| && data[j].orderId == shop.db.orders[i].orderId
    {
      assert StatusMatches(shop.db.orders[i], filter);
      ListedById(shop, listed, shop.db.orders[i]);
    }
    SendResponse(200, Some(data), Some("Orders retrieved successfully."))
  }

  /** `getOrderStats`. */
  function GetOrderStats(shop: Shop): (r: Response<OrderStats>)
    ensures r.code == 200 && r.data == Some(OrderStore.GetOrderStats(shop.db))
    ensures r.data.value.totalOrders == |shop.db.orders|
    ensures r.data.value.totalRevenue.None? <==> |shop.db.orders| == 0
    ensures r.data.value.deliveredOrders == Tally(shop.db.orders, Delivered)
    ensures r.data.value.pendingOrders == Tally(shop.db.orders, Pending)
  {
    SendResponse(200, Some(OrderStore.GetOrderStats(shop.db)), Some("Order statistics retrieved successfully."))
  }

  // ---------------------------------------------------------------------------
  // updateOrderStatus

  /** `updateOrderStatus`: 400 for a bad id, 400 for a status outside the five,
      404 for an unknown order, otherwise the status is overwritten with no
      check on which status the order is leaving. */
  function UpdateOrderStatus(shop: Shop, id: Option<int>, status: Option<string>, now: nat): (r: (Response<Order>, Shop))
    ensures r.0.code in {200, 400, 404}
    ensures r.0.code == 400 <==> id.None? || status.None? || ParseStatus(status.value).None?
    ensures r.0.code == 200 <==> id.Some? && status.Some? && ParseStatus(status.value).Some?
                                 && OrderStore.GetOrderById(shop.db, id.value).Some?
    ensures r.0.code != 200 ==> r.1 == shop
    ensures r.0.code == 200 ==> r.1.catalog == shop.catalog && r.0.data.Some?
                                && r.0.data.value.orderId == id.value
                                && StatusName(r.0.data.value.status) == status.value
    ensures r.0.code == 200 && Valid(shop.db) ==>
              Valid(r.1.db)
              && OrderStore.GetOrderById(r.1.db, id.value)
                 == Some(OrderStore.GetOrderById(shop.db, id.value).value.(status := ParseStatus(status.value).value, updatedAt := now))
  {
    if id.None? then (Reply(400, "Valid order ID is required."), shop)
    else if status.None? || ParseStatus(status.value).None? then
      (Reply(400, "Status must be one of: pending, processing, shipped, delivered, cancelled"), shop)
    else
      match OrderStore.UpdateOrderStatus(shop.db, id.value, ParseStatus(status.value).value, now)
      case None => (Reply(404, "Order not found."), shop)
      case Some((db', updated)) =>
        var shop' := Shop(shop.catalog, db');
        (SendResponse(200, Some(updated.(items := GetOrderItems(db', shop.catalog.Keys, id.value))),
                      Some("Order status updated successfully.")), shop')
  }

  // ---------------------------------------------------------------------------
  // deleteOrder

  /** The refund loop: each line's quantity goes back to its plant. */
  function Restock(c: Catalog, lines: seq<OrderItem>): (r: Catalog)
    ensures r.Keys == c.Keys
    ensures forall p :: p in c ==> r[p] == c[p].(stock := c[p].stock + Demand(lines, p))
    decreases |lines|
  {
    if |lines| == 0 then c
    else Restock(UpdatePlantStock(c, lines[0].plantId, lines[0].quantity), lines[1..])
  }

  /** Items dropped by the join with the plants table are for plants outside the
      catalog, so for every catalogued plant the joined lines ask the same. */
  lemma {:induction false} DemandJoin(lines: seq<OrderItem>, plants: set<int>, p: int)
    requires p in plants
    ensures Demand(JoinPlants(lines, plants), p) == Demand(lines, p)
  {
    if |lines| > 0 {
      DemandJoin(lines[1..], plants, p);
      var head := if lines[0].plantId in plants then [lines[0]] else [];
      DemandAppend(head, JoinPlants(lines[1..], plants), p);
    }
  }

  lemma {:induction false} DemandAppend(a: seq<OrderItem>, b: seq<OrderItem>, p: int)
    ensures Demand(a + b, p) == Demand(a, p) + Demand(b, p)
  {
    if |a| > 0 {
      DemandAppend(a[1..], b, p);
      assert (a + b)[1..] == a[1..] + b;
    } else {
      assert a + b == b;
    }
  }

  /** `deleteOrder`: 400 for a bad id, 404 for an unknown order; otherwise every
      line's quantity is returned to stock and the order is removed. */
  function DeleteOrder(shop: Shop, id: Option<int>): (r: (Response<()>, Shop))
    ensures r.0.code in {200, 400, 404}
    ensures r.0.code == 400 <==> id.None?
    ensures r.0.code == 200 <==> id.Some? && OrderStore.GetOrderById(shop.db, id.value).Some?
    ensures r.0.code != 200 ==> r.1 == shop
    ensures r.0.code == 200 ==> OrderStore.GetOrderById(r.1.db, id.value).None?
                                && r.1.catalog.Keys == shop.catalog.Keys
    ensures r.0.code == 200 ==>
              forall p :: p in shop.catalog ==>
                r.1.catalog[p] == shop.catalog[p].(stock := shop.catalog[p].stock
                                    + Demand(OrderStore.GetOrderById(shop.db, id.value).value.items, p))
    ensures r.0.code == 200 ==> forall other :: other != id.value ==>
              OrderStore.GetOrderById(r.1.db, other) == OrderStore.GetOrderById(shop.db, other)
  {
    if id.None? then (Reply(400, "Valid order ID is required."), shop)
    else
      match OrderStore.GetOrderById(shop.db, id.value)
      case None => (Reply(404, "Order not found."), shop)
      case Some(order) =>
        var items := GetOrderItems(shop.db, shop.catalog.Keys, id.value);
        var c' := Restock(shop.catalog, items);
        var db' := OrderStore.DeleteOrder(shop.db, id.value).value.0;
        forall p | p in shop.catalog ensures Demand(items, p) == Demand(order.items, p) {
          DemandJoin(order.items, shop.catalog.Keys, p);
        }
        forall other | other != id.value
          ensures OrderStore.GetOrderById(db', other) == OrderStore.GetOrderById(shop.db, other)
        {
          DeleteOrderOthers(shop.db, id.value, other);
        }
        (Reply(200, "Order deleted successfully."), Shop(c', db'))
  }

  /** Deleting the order just created puts the catalog and the orders table
      back as they were. */
  lemma CreateThenDeleteRestores(shop: Shop, userId: int, items: Option<seq<ItemRequest>>, now: nat)
    requires Valid(shop.db) && Acceptable(shop.catalog, items)
    ensures var s1 := CreateOrder(shop, userId, items, now).1;
            var (resp, s2) := DeleteOrder(s1, Some(shop.db.nextId));
            resp.code == 200 && s2.catalog == shop.catalog && s2.db.orders == shop.db.orders
  {
    CreateOrderPlaces(shop, userId, items, now);
    var r := CreateOrder(shop, userId, items, now);
    DeleteNewest(shop, r.1, r.0.data.value);
  }

  /** Deleting the newest order, whose lines were taken off the stock, undoes both. */
  lemma DeleteNewest(before: Shop, after: Shop, o: Order)
    requires Valid(before.db) && Valid(after.db)
    requires after.db.orders == before.db.orders + [o] && o.orderId == before.db.nextId
    requires after.catalog.Keys == before.catalog.Keys
    requires forall p :: p in before.catalog ==>
               after.catalog[p] == before.catalog[p].(stock := before.catalog[p].stock - Demand(o.items, p))
    ensures var (resp, s2) := DeleteOrder(after, Some(o.orderId));
            resp.code == 200 && s2.catalog == before.catalog && s2.db.orders == before.db.orders
  {
    var id := o.orderId;
    assert OrderStore.GetOrderById(after.db, id) == Some(o) by {
      OrderStore.FindOrderUnique(after.db.orders, |before.db.orders|);
      assert after.db.orders[|before.db.orders|] == o;
    }
    var s2 := DeleteOrder(after, Some(id)).1;
    assert s2.catalog == before.catalog by {
      forall p | p in before.catalog ensures s2.catalog[p] == before.catalog[p] {
      }
    }
    RemoveIdLast(before.db.orders, o);
  }
}
