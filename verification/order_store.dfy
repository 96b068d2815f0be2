/** backend/models/Order.js: the orders and order_items tables.
    The orders table is a sequence in insertion order; ids come from a serial
    counter, so insertion order is also `order_date` order, and "ORDER BY
    order_date DESC" is the reverse of the sequence. Each order carries its
    order_items rows. Timestamps are an opaque clock value `now` passed in. */
module OrderStore {
  import opened Wrappers
  import Seqs

  /** The values the order controller lets into the status column. */
  datatype Status = Pending | Processing | Shipped | Delivered | Cancelled

  function StatusName(s: Status): string {
    match s
    case Pending => "pending"
    case Processing => "processing"
    case Shipped => "shipped"
    case Delivered => "delivered"
    case Cancelled => "cancelled"
  }

  /** The status a string names, if it names one of the five. */
  function ParseStatus(name: string): (r: Option<Status>)
    ensures r.Some? ==> StatusName(r.value) == name
    ensures r.None? ==> forall s: Status :: StatusName(s) != name
  {
    if name == "pending" then Some(Pending)
    else if name == "processing" then Some(Processing)
    else if name == "shipped" then Some(Shipped)
    else if name == "delivered" then Some(Delivered)
    else if name == "cancelled" then Some(Cancelled)
    else None
  }

  /** Names and statuses correspond one to one. */
  lemma ParseStatusName(s: Status)
    ensures ParseStatus(StatusName(s)) == Some(s)
  {
  }

  /** One order_items row: plant, quantity and the unit price snapshotted at purchase. */
  datatype OrderItem = OrderItem(plantId: int, quantity: int, price: int)

  datatype Order = Order(orderId: nat, userId: int, status: Status, totalAmount: int,
                         items: seq<OrderItem>, updatedAt: nat)

  datatype OrderDb = OrderDb(orders: seq<Order>, nextId: nat)

  function Id(o: Order): int {
    o.orderId
  }

  /** Table invariant: ids strictly increase along the table and stay below the counter. */
  ghost predicate Valid(db: OrderDb) {
    Seqs.Increasing(Id, db.orders)
    && forall i :: 0 <= i < |db.orders| ==> db.orders[i].orderId < db.nextId
  }

  // ---------------------------------------------------------------------------
  // lookups

  /** `rows[0] || null` of a `WHERE order_id = id` query. */
  function FindOrder(orders: seq<Order>, id: int): (r: Option<Order>)
    ensures r.Some? ==> r.value in orders && r.value.orderId == id
    ensures r.None? <==> forall i :: 0 <= i < |orders| ==> orders[i].orderId != id
  {
    if |orders| == 0 then None
    else if orders[0].orderId == id then Some(orders[0])
    else FindOrder(orders[1..], id)
  }

  /** With distinct ids the row found is the one row with that id. */
  lemma {:induction false} FindOrderUnique(orders: seq<Order>, k: nat)
    requires Seqs.Increasing(Id, orders)
    requires k < |orders|
    ensures FindOrder(orders, orders[k].orderId) == Some(orders[k])
  {
    if k > 0 {
      assert Id(orders[0]) < Id(orders[k]);
      assert Seqs.Increasing(Id, orders[1..]) by {
        forall i, j | 0 <= i < j < |orders[1..]| ensures Id(orders[1..][i]) < Id(orders[1..][j]) {
          assert orders[1..][i] == orders[i + 1] && orders[1..][j] == orders[j + 1];
        }
      }
      FindOrderUnique(orders[1..], k - 1);
    }
  }

  /** `getOrderById(orderId)`. */
  function GetOrderById(db: OrderDb, id: int): (r: Option<Order>)
    ensures r.None? <==> forall i :: 0 <= i < |db.orders| ==> db.orders[i].orderId != id
    ensures r.Some? ==> r.value in db.orders && r.value.orderId == id
  {
    FindOrder(db.orders, id)
  }

  /** `getOrdersByUserId(userId)`: exactly that user's orders, newest first. */
  function GetOrdersByUserId(db: OrderDb, userId: int): (r: seq<Order>)
    ensures forall i :: 0 <= i < |r| ==> r[i] in db.orders && r[i].userId == userId
    ensures forall i :: 0 <= i < |db.orders| && db.orders[i].userId == userId ==> db.orders[i] in r
    ensures Valid(db) ==> Seqs.Decreasing(Id, r)
  {
    var keep := (o: Order) => o.userId == userId;
    NewestFirst(db, keep);
    Seqs.Reverse(Seqs.Filter(keep, db.orders))
  }

  /** The `WHERE o.status = $1` test: the status filter is any truthy string and
      is compared with the stored status name. */
  predicate StatusMatches(o: Order, status: Option<string>) {
    status.None? || status.value == "" || StatusName(o.status) == status.value
  }

  /** `getAllOrders(status)`: the orders with that status, or all orders when
      the status is null, newest first. `users` is the set of ids in the users
      table: the inner `JOIN users` drops an order whose user row is gone. */
  function GetAllOrders(db: OrderDb, users: set<int>, status: Option<string>): (r: seq<Order>)
    ensures forall i :: 0 <= i < |r| ==> r[i] in db.orders && StatusMatches(r[i], status) && r[i].userId in users
    ensures forall i :: 0 <= i < |db.orders| && StatusMatches(db.orders[i], status) && db.orders[i].userId in users ==>
              db.orders[i] in r
    ensures status.None? && (forall i :: 0 <= i < |db.orders| ==> db.orders[i].userId in users) ==>
              |r| == |db.orders|
    ensures Valid(db) ==> Seqs.Decreasing(Id, r)
  {
    NewestFirst(db, Listed(users, status));
    Seqs.FilterAll(Listed(users, status), db.orders);
    Seqs.Reverse(Seqs.Filter(Listed(users, status), db.orders))
  }

  /** The rows the joined, filtered query returns. */
  function Listed(users: set<int>, status: Option<string>): Order -> bool {
    (o: Order) => StatusMatches(o, status) && o.userId in users
  }

  /** A filtered table read backwards lists the newest order first. */
  lemma NewestFirst(db: OrderDb, keep: Order -> bool)
    ensures Valid(db) ==> Seqs.Decreasing(Id, Seqs.Reverse(Seqs.Filter(keep, db.orders)))
  {
    if Valid(db) {
      Seqs.FilterIncreasing(keep, Id, db.orders);
      Seqs.ReverseIncreasing(Id, Seqs.Filter(keep, db.orders));
    }
  }

  // ---------------------------------------------------------------------------
  // writes

  /** `createOrder(userId, totalAmount, status = "pending")`: inserts a header
      with no items under the next serial id. */
  function CreateOrder(db: OrderDb, userId: int, totalAmount: int, status: Status, now: nat): (r: (OrderDb, Order))
    ensures r.0.orders == db.orders + [r.1]
    ensures r.1.userId == userId && r.1.totalAmount == totalAmount && r.1.status == status && r.1.items == []
    ensures Valid(db) ==> Valid(r.0) && GetOrderById(r.0, r.1.orderId) == Some(r.1)
    ensures Valid(db) ==> GetOrderById(db, r.1.orderId).None?
  {
    var o := Order(db.nextId, userId, status, totalAmount, [], now);
    var db' := OrderDb(db.orders + [o], db.nextId + 1);
    CreateOrderFresh(db, o, db');
    (db', o)
  }

  lemma CreateOrderFresh(db: OrderDb, o: Order, db': OrderDb)
    requires o.orderId == db.nextId && db' == OrderDb(db.orders + [o], db.nextId + 1)
    ensures Valid(db) ==> Valid(db') && FindOrder(db'.orders, o.orderId) == Some(o)
    ensures Valid(db) ==> FindOrder(db.orders, o.orderId).None?
  {
    if Valid(db) {
      assert Valid(db');
      FindOrderUnique(db'.orders, |db.orders|);
    }
  }

  /** Every order whose id is `id` gets the new status and timestamp. */
  function SetStatus(orders: seq<Order>, id: int, status: Status, now: nat): (r: seq<Order>)
    ensures |r| == |orders|
    ensures forall i :: 0 <= i < |orders| ==>
              r[i] == if orders[i].orderId == id then orders[i].(status := status, updatedAt := now) else orders[i]
  {
    if |orders| == 0 then []
    else
      [if orders[0].orderId == id then orders[0].(status := status, updatedAt := now) else orders[0]]
      + SetStatus(orders[1..], id, status, now)
  }

  /** `updateOrderStatus(orderId, newStatus)`: null when the id is absent; otherwise
      the order's status and `updated_at` are overwritten, whatever the old status. */
  function UpdateOrderStatus(db: OrderDb, id: int, status: Status, now: nat): (r: Option<(OrderDb, Order)>)
    ensures r.None? <==> GetOrderById(db, id).None?
    ensures r.Some? ==> r.value.1 == GetOrderById(db, id).value.(status := status, updatedAt := now)
    ensures r.Some? ==> r.value.0.nextId == db.nextId && |r.value.0.orders| == |db.orders|
    ensures r.Some? ==> forall i :: 0 <= i < |db.orders| && db.orders[i].orderId != id ==>
                          r.value.0.orders[i] == db.orders[i]
    ensures r.Some? && Valid(db) ==> Valid(r.value.0) && GetOrderById(r.value.0, id) == Some(r.value.1)
  {
    match FindOrder(db.orders, id)
    case None => None
    case Some(o) =>
      var db' := OrderDb(SetStatus(db.orders, id, status, now), db.nextId);
      SetStatusValid(db, id, status, now, o);
      Some((db', o.(status := status, updatedAt := now)))
  }

  lemma SetStatusValid(db: OrderDb, id: int, status: Status, now: nat, o: Order)
    requires FindOrder(db.orders, id) == Some(o)
    ensures var db' := OrderDb(SetStatus(db.orders, id, status, now), db.nextId);
            Valid(db) ==> Valid(db') && FindOrder(db'.orders, id) == Some(o.(status := status, updatedAt := now))
  {
    var db' := OrderDb(SetStatus(db.orders, id, status, now), db.nextId);
    if Valid(db) {
      assert forall i :: 0 <= i < |db.orders| ==> Id(db'.orders[i]) == Id(db.orders[i]);
      assert Valid(db');
      var k :| 0 <= k < |db.orders| && db.orders[k] == o;
      FindOrderUnique(db'.orders, k);
    }
  }

  /** `deleteOrder(orderId)`: null when absent; otherwise the row is gone. */
  function DeleteOrder(db: OrderDb, id: int): (r: Option<(OrderDb, int)>)
    ensures r.None? <==> GetOrderById(db, id).None?
    ensures r.Some? ==> r.value.1 == id && r.value.0.nextId == db.nextId
    ensures r.Some? ==> GetOrderById(r.value.0, id).None?
    ensures r.Some? ==> forall i :: 0 <= i < |db.orders| && db.orders[i].orderId != id ==>
                          db.orders[i] in r.value.0.orders
    ensures r.Some? && Valid(db) ==> Valid(r.value.0)
  {
    match FindOrder(db.orders, id)
    case None => None
    case Some(_) =>
      var db' := OrderDb(RemoveId(db.orders, id), db.nextId);
      RemoveIdMembers(db.orders, id);
      RemoveIdValid(db, id);
      Some((db', id))
  }

  /** `DELETE ... WHERE order_id = id`: every row with that id goes, the rest stay in order. */
  function RemoveId(orders: seq<Order>, id: int): (r: seq<Order>)
    ensures |r| <= |orders|
  {
    if |orders| == 0 then []
    else (if orders[0].orderId != id then [orders[0]] else []) + RemoveId(orders[1..], id)
  }

  /** The rows left are exactly the rows without that id. */
  lemma {:induction false} RemoveIdMembers(orders: seq<Order>, id: int)
    ensures forall i :: 0 <= i < |RemoveId(orders, id)| ==>
              RemoveId(orders, id)[i] in orders && RemoveId(orders, id)[i].orderId != id
    ensures forall i :: 0 <= i < |orders| && orders[i].orderId != id ==> orders[i] in RemoveId(orders, id)
  {
    if |orders| > 0 {
      var t := orders[1..];
      RemoveIdMembers(t, id);
      RemoveIdCons(orders[0], t, id);
      assert orders == [orders[0]] + t;
      var r := RemoveId(orders, id);
      var rest := RemoveId(t, id);
      var h := if orders[0].orderId != id then 1 else 0;
      forall i | 0 <= i < |r| ensures r[i] in orders && r[i].orderId != id {
        if i >= h { assert r[i] == rest[i - h]; }
      }
      forall i | 0 <= i < |orders| && orders[i].orderId != id ensures orders[i] in r {
        if i > 0 { assert orders[i] == t[i - 1]; }
      }
    }
  }

  lemma {:induction false} RemoveIdIncreasing(orders: seq<Order>, id: int)
    requires Seqs.Increasing(Id, orders)
    ensures Seqs.Increasing(Id, RemoveId(orders, id))
  {
    if |orders| > 0 {
      assert Seqs.Increasing(Id, orders[1..]) by {
        forall i, j | 0 <= i < j < |orders[1..]| ensures Id(orders[1..][i]) < Id(orders[1..][j]) {
          assert orders[1..][i] == orders[i + 1] && orders[1..][j] == orders[j + 1];
        }
      }
      RemoveIdIncreasing(orders[1..], id);
      RemoveIdMembers(orders[1..], id);
      var rest := RemoveId(orders[1..], id);
      forall x | x in rest ensures Id(orders[0]) < Id(x) {
        var k :| 0 <= k < |orders[1..]| && orders[1..][k] == x;
        assert orders[k + 1] == x;
      }
    }
  }

  /** One unfolding step of `RemoveId`. */
  lemma RemoveIdCons(x: Order, t: seq<Order>, id: int)
    ensures RemoveId([x] + t, id) == (if x.orderId != id then [x] else []) + RemoveId(t, id)
  {
    assert ([x] + t)[0] == x && ([x] + t)[1..] == t;
  }

  /** Removal works piecewise on a concatenation. */
  lemma {:induction false} RemoveIdAppend(a: seq<Order>, b: seq<Order>, id: int)
    ensures RemoveId(a + b, id) == RemoveId(a, id) + RemoveId(b, id)
  {
    if |a| > 0 {
      var t := a[1..];
      var h := if a[0].orderId != id then [a[0]] else [];
      calc {
        RemoveId(a + b, id);
      == { assert a + b == [a[0]] + (t + b); RemoveIdCons(a[0], t + b, id); }
        h + RemoveId(t + b, id);
      == { RemoveIdAppend(t, b, id); }
        h + (RemoveId(t, id) + RemoveId(b, id));
      ==
        (h + RemoveId(t, id)) + RemoveId(b, id);
      == { assert a == [a[0]] + t; RemoveIdCons(a[0], t, id); }
        RemoveId(a, id) + RemoveId(b, id);
      }
    } else {
      assert a + b == b;
    }
  }

  /** Removing an id no row has changes nothing. */
  lemma {:induction false} RemoveIdAbsent(orders: seq<Order>, id: int)
    requires forall i :: 0 <= i < |orders| ==> orders[i].orderId != id
    ensures RemoveId(orders, id) == orders
  {
    if |orders| > 0 {
      var t := orders[1..];
      assert forall i :: 0 <= i < |t| ==> t[i].orderId != id by {
        forall i | 0 <= i < |t| ensures t[i].orderId != id { assert t[i] == orders[i + 1]; }
      }
      RemoveIdAbsent(t, id);
      assert orders == [orders[0]] + t;
      RemoveIdCons(orders[0], t, id);
    }
  }

  /** Removing the id of the last row, which no earlier row shares, gives back the earlier rows. */
  lemma RemoveIdLast(orders: seq<Order>, last: Order)
    requires forall i :: 0 <= i < |orders| ==> orders[i].orderId != last.orderId
    ensures RemoveId(orders + [last], last.orderId) == orders
  {
    RemoveIdAppend(orders, [last], last.orderId);
    RemoveIdAbsent(orders, last.orderId);
    assert [last] == [last] + [];
    RemoveIdCons(last, [], last.orderId);
  }

  lemma RemoveIdValid(db: OrderDb, id: int)
    ensures Valid(db) ==> Valid(OrderDb(RemoveId(db.orders, id), db.nextId))
  {
    if Valid(db) {
      RemoveIdIncreasing(db.orders, id);
      RemoveIdMembers(db.orders, id);
    }
  }

  /** Every order whose id is `id` gets one more item. */
  function AppendItem(orders: seq<Order>, id: int, item: OrderItem): (r: seq<Order>)
    ensures |r| == |orders|
    ensures forall i :: 0 <= i < |orders| ==>
              r[i] == if orders[i].orderId == id then orders[i].(items := orders[i].items + [item]) else orders[i]
  {
    if |orders| == 0 then []
    else
      [if orders[0].orderId == id then orders[0].(items := orders[0].items + [item]) else orders[0]]
      + AppendItem(orders[1..], id, item)
  }

  /** `addOrderItem(orderId, plantId, quantity, price)`. An absent order makes the
      insert fail its foreign key; that failure is None here. */
  function AddOrderItem(db: OrderDb, orderId: int, plantId: int, quantity: int, price: int): (r: Option<(OrderDb, OrderItem)>)
    ensures r.None? <==> GetOrderById(db, orderId).None?
    ensures r.Some? ==> r.value.1 == OrderItem(plantId, quantity, price)
    ensures r.Some? ==> r.value.0.nextId == db.nextId && |r.value.0.orders| == |db.orders|
    ensures r.Some? ==> forall i :: 0 <= i < |db.orders| ==>
              r.value.0.orders[i] == if db.orders[i].orderId == orderId
                                     then db.orders[i].(items := db.orders[i].items + [r.value.1])
                                     else db.orders[i]
  {
    if GetOrderById(db, orderId).None? then None
    else
      var item := OrderItem(plantId, quantity, price);
      Some((OrderDb(AppendItem(db.orders, orderId, item), db.nextId), item))
  }

  /** `getOrderItems(orderId)`: the order's items, inner-joined with the plants
      table, so items whose plant no longer exists are not returned. */
  function GetOrderItems(db: OrderDb, plants: set<int>, orderId: int): (r: seq<OrderItem>)
    ensures GetOrderById(db, orderId).None? ==> r == []
    ensures forall i :: 0 <= i < |r| ==> r[i].plantId in plants
    ensures GetOrderById(db, orderId).Some? ==>
              forall i :: 0 <= i < |r| ==> r[i] in GetOrderById(db, orderId).value.items
    ensures GetOrderById(db, orderId).Some? ==>
              forall it :: it in GetOrderById(db, orderId).value.items && it.plantId in plants ==> it in r
    ensures GetOrderById(db, orderId).Some? &&
            (forall it :: it in GetOrderById(db, orderId).value.items ==> it.plantId in plants) ==>
              r == GetOrderById(db, orderId).value.items
  {
    match FindOrder(db.orders, orderId)
    case None => []
    case Some(o) => JoinPlants(o.items, plants)
  }

  /** The inner join `order_items JOIN plants`: items whose plant row still exists. */
  function JoinPlants(items: seq<OrderItem>, plants: set<int>): (r: seq<OrderItem>)
    ensures forall i :: 0 <= i < |r| ==> r[i] in items && r[i].plantId in plants
    ensures forall i :: 0 <= i < |items| && items[i].plantId in plants ==> items[i] in r
    ensures (forall i :: 0 <= i < |items| ==> items[i].plantId in plants) ==> r == items
  {
    if |items| == 0 then []
    else (if items[0].plantId in plants then [items[0]] else []) + JoinPlants(items[1..], plants)
  }

  /** A line added with `addOrderItem` is listed by `getOrderItems` while its plant exists. */
  lemma AddedItemListed(db: OrderDb, plants: set<int>, orderId: int, plantId: int, quantity: int, price: int)
    requires AddOrderItem(db, orderId, plantId, quantity, price).Some?
    requires plantId in plants
    ensures OrderItem(plantId, quantity, price)
            in GetOrderItems(AddOrderItem(db, orderId, plantId, quantity, price).value.0, plants, orderId)
  {
    var (db', item) := AddOrderItem(db, orderId, plantId, quantity, price).value;
    var o := GetOrderById(db', orderId).value;
    var k :| 0 <= k < |db'.orders| && db'.orders[k] == o;
    assert db.orders[k].orderId == orderId;
    assert item in o.items;
  }

  // ---------------------------------------------------------------------------
  // statistics

  function SumTotals(orders: seq<Order>): int {
    if |orders| == 0 then 0 else orders[0].totalAmount + SumTotals(orders[1..])
  }

  datatype OrderStats = OrderStats(totalOrders: nat, totalRevenue: Option<int>, deliveredOrders: nat, pendingOrders: nat)

  /** `getOrderStats()`: COUNT(*), SUM(total_amount) over every order whatever its
      status (NULL on an empty table), and the delivered and pending counts. */
  function GetOrderStats(db: OrderDb): (r: OrderStats)
    ensures r.totalOrders == |db.orders|
    ensures r.totalRevenue.None? <==> |db.orders| == 0
    ensures r.totalRevenue.Some? ==> r.totalRevenue.value == SumTotals(db.orders)
    ensures r.deliveredOrders == Tally(db.orders, Delivered)
    ensures r.pendingOrders == Tally(db.orders, Pending)
    ensures r.deliveredOrders + r.pendingOrders <= r.totalOrders
  {
    Seqs.CountDisjoint(HasStatus(Delivered), HasStatus(Pending), db.orders);
    CountIsTally(db.orders, Delivered);
    CountIsTally(db.orders, Pending);
    OrderStats(|db.orders|,
               if |db.orders| == 0 then None else Some(SumTotals(db.orders)),
               Seqs.Count(HasStatus(Delivered), db.orders),
               Seqs.Count(HasStatus(Pending), db.orders))
  }

  function HasStatus(status: Status): Order -> bool {
    (o: Order) => o.status == status
  }

  /** Reference count of the orders in one status, one `CASE WHEN` at a time. */
  function Tally(orders: seq<Order>, status: Status): nat {
    if |orders| == 0 then 0
    else (if orders[0].status == status then 1 else 0) + Tally(orders[1..], status)
  }

  /** The filtered count the query computes is the reference tally. */
  lemma {:induction false} CountIsTally(orders: seq<Order>, status: Status)
    ensures Seqs.Count(HasStatus(status), orders) == Tally(orders, status)
  {
    if |orders| > 0 {
      CountIsTally(orders[1..], status);
      Seqs.CountStep(HasStatus(status), orders);
    }
  }

  /** Every order is in exactly one of the five status tallies. */
  lemma {:induction false} TalliesCover(orders: seq<Order>)
    ensures Tally(orders, Pending) + Tally(orders, Processing) + Tally(orders, Shipped)
            + Tally(orders, Delivered) + Tally(orders, Cancelled) == |orders|
  {
    if |orders| > 0 {
      TalliesCover(orders[1..]);
    }
  }

  /** Overwriting the status of the one row with id `id` moves that row from its
      old status's tally to the new one's. */
  lemma {:induction false} SetStatusTally(orders: seq<Order>, id: int, status: Status, now: nat, k: nat, s: Status)
    requires k < |orders| && orders[k].orderId == id
    requires forall i :: 0 <= i < |orders| && i != k ==> orders[i].orderId != id
    ensures Tally(SetStatus(orders, id, status, now), s)
            == Tally(orders, s) - (if orders[k].status == s then 1 else 0) + (if status == s then 1 else 0)
  {
    var r := SetStatus(orders, id, status, now);
    assert r[1..] == SetStatus(orders[1..], id, status, now);
    if k == 0 {
      assert SetStatus(orders[1..], id, status, now) == orders[1..];
    } else {
      SetStatusTally(orders[1..], id, status, now, k - 1, s);
    }
  }

  /** `updateOrderStatus` moves the order between the counts `getOrderStats` reports. */
  lemma UpdateMovesTally(db: OrderDb, id: int, status: Status, now: nat, s: Status)
    requires Valid(db) && GetOrderById(db, id).Some?
    ensures UpdateOrderStatus(db, id, status, now).Some?
    ensures Tally(UpdateOrderStatus(db, id, status, now).value.0.orders, s)
            == Tally(db.orders, s) - (if GetOrderById(db, id).value.status == s then 1 else 0)
               + (if status == s then 1 else 0)
  {
    var o := GetOrderById(db, id).value;
    var k :| 0 <= k < |db.orders| && db.orders[k] == o;
    forall i | 0 <= i < |db.orders| && i != k ensures db.orders[i].orderId != id {
      if i < k { assert Id(db.orders[i]) < Id(db.orders[k]); }
      else { assert Id(db.orders[k]) < Id(db.orders[i]); }
    }
    SetStatusTally(db.orders, id, status, now, k, s);
  }

  /** Revenue counts cancelled orders: a status change never moves it. */
  lemma {:induction false} SumTotalsSetStatus(orders: seq<Order>, id: int, status: Status, now: nat)
    ensures SumTotals(SetStatus(orders, id, status, now)) == SumTotals(orders)
  {
    if |orders| > 0 {
      SumTotalsSetStatus(orders[1..], id, status, now);
      assert SetStatus(orders, id, status, now)[1..] == SetStatus(orders[1..], id, status, now);
    }
  }

  /** `updateOrderStatus` (to "cancelled" or anything else) leaves `total_revenue` as it was. */
  lemma RevenueIgnoresStatus(db: OrderDb, id: int, status: Status, now: nat)
    requires UpdateOrderStatus(db, id, status, now).Some?
    ensures GetOrderStats(UpdateOrderStatus(db, id, status, now).value.0).totalRevenue
            == GetOrderStats(db).totalRevenue
  {
    SumTotalsSetStatus(db.orders, id, status, now);
  }

  /** Only the target order changes: every other id reads the same before and after. */
  lemma {:induction false} UpdateOrderStatusOthers(db: OrderDb, id: int, status: Status, now: nat, other: int)
    requires UpdateOrderStatus(db, id, status, now).Some?
    requires other != id
    ensures GetOrderById(UpdateOrderStatus(db, id, status, now).value.0, other) == GetOrderById(db, other)
  {
    FindOrderSetStatus(db.orders, id, status, now, other);
  }

  lemma {:induction false} FindOrderSetStatus(orders: seq<Order>, id: int, status: Status, now: nat, other: int)
    requires other != id
    ensures FindOrder(SetStatus(orders, id, status, now), other) == FindOrder(orders, other)
  {
    if |orders| > 0 {
      FindOrderSetStatus(orders[1..], id, status, now, other);
      assert SetStatus(orders, id, status, now)[1..] == SetStatus(orders[1..], id, status, now);
    }
  }

  /** Deleting one order leaves every other id reading the same. */
  lemma {:induction false} DeleteOrderOthers(db: OrderDb, id: int, other: int)
    requires DeleteOrder(db, id).Some?
    requires other != id
    ensures GetOrderById(DeleteOrder(db, id).value.0, other) == GetOrderById(db, other)
  {
    FindOrderRemoveId(db.orders, id, other);
  }

  lemma {:induction false} FindOrderRemoveId(orders: seq<Order>, id: int, other: int)
    requires other != id
    ensures FindOrder(RemoveId(orders, id), other) == FindOrder(orders, other)
  {
    if |orders| > 0 {
      FindOrderRemoveId(orders[1..], id, other);
      var rest := RemoveId(orders[1..], id);
      if orders[0].orderId != id {
        assert RemoveId(orders, id) == [orders[0]] + rest;
        assert ([orders[0]] + rest)[1..] == rest;
      } else {
        assert RemoveId(orders, id) == rest;
      }
    }
  }
}
