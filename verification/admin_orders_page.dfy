/** frontend/src/app/admin/orders/page.js: the admin orders page. It keeps its
    own list of orders in the browser, filters it by status and by a search
    box, lets the admin change an order's status, colours the status badge and
    shows the summary figures. Order totals are in integer cents. */
module AdminOrdersPage {
  import Text
  import Seqs

  /** An order as the page holds it (phone, date, items and address omitted). */
  datatype Order = Order(id: string, customerName: string, customerEmail: string,
                         status: string, total: int, paymentStatus: string)

  /** The five statuses the page offers in its drop-downs. */
  const Statuses: seq<string> := ["pending", "processing", "shipped", "delivered", "cancelled"]

  // ---------------------------------------------------------------------------
  // filtering

  /** The status drop-down: 'all' lets everything through. */
  predicate StatusPass(o: Order, statusFilter: string) {
    statusFilter == "all" || o.status == statusFilter
  }

  /** The search box: the term occurs, ignoring case, in the order id, the
      customer's name or the customer's e-mail. */
  predicate SearchHit(o: Order, term: string) {
    || Text.ContainsIgnoringCase(o.id, term)
    || Text.ContainsIgnoringCase(o.customerName, term)
    || Text.ContainsIgnoringCase(o.customerEmail, term)
  }

  /** The reference reading of the two controls together. */
  predicate Passes(o: Order, statusFilter: string, searchTerm: string) {
    StatusPass(o, statusFilter) && SearchHit(o, searchTerm)
  }

  function HasStatus(status: string): Order -> bool {
    (o: Order) => o.status == status
  }

  function Matches(term: string): Order -> bool {
    (o: Order) => SearchHit(o, term)
  }

  /** The filter effect: the status filter unless it is 'all', then the search
      filter if the term is non-empty. */
  function FilterOrders(orders: seq<Order>, statusFilter: string, searchTerm: string): (r: seq<Order>)
    ensures forall i :: 0 <= i < |r| ==> r[i] in orders && Passes(r[i], statusFilter, searchTerm)
    ensures forall i :: 0 <= i < |orders| && Passes(orders[i], statusFilter, searchTerm) ==> orders[i] in r
  {
    var byStatus := if statusFilter != "all" then Seqs.Filter(HasStatus(statusFilter), orders) else orders;
    EmptySearchHitsAll(byStatus);
    if searchTerm != "" then Seqs.Filter(Matches(searchTerm), byStatus) else byStatus
  }

  /** An empty term occurs in every string, so skipping the search when the
      box is empty changes nothing. */
  lemma EmptySearchHitsAll(orders: seq<Order>)
    ensures forall i :: 0 <= i < |orders| ==> SearchHit(orders[i], "")
  {
    forall i | 0 <= i < |orders| ensures SearchHit(orders[i], "") {
      EmptySearchHits(orders[i]);
    }
  }

  lemma EmptySearchHits(o: Order)
    ensures SearchHit(o, "")
  {
    assert Text.ToLower("") == "";
    Text.EmptyNeedleFound(Text.ToLower(o.id));
  }

  /** The two filters in sequence are one filter by the conjunction: the result
      is exactly the passing orders, in the list's order. */
  lemma FilterOrdersIsConjunction(orders: seq<Order>, statusFilter: string, searchTerm: string)
    ensures FilterOrders(orders, statusFilter, searchTerm)
            == Seqs.Filter((o: Order) => Passes(o, statusFilter, searchTerm), orders)
  {
    var pass := (o: Order) => Passes(o, statusFilter, searchTerm);
    EmptySearchHitsAll(orders);
    if statusFilter == "all" && searchTerm == "" {
      Seqs.FilterAll(pass, orders);
    } else if statusFilter == "all" {
      Seqs.FilterExt(Matches(searchTerm), pass, orders);
    } else if searchTerm == "" {
      Seqs.FilterExt(HasStatus(statusFilter), pass, orders);
    } else {
      var f, g := HasStatus(statusFilter), Matches(searchTerm);
      assert FilterOrders(orders, statusFilter, searchTerm) == Seqs.Filter(g, Seqs.Filter(f, orders));
      Seqs.FilterFilter(f, g, pass, orders);
    }
  }

  /** With both controls at rest the whole list is shown. */
  lemma NoFilterShowsAll(orders: seq<Order>)
    ensures FilterOrders(orders, "all", "") == orders
  {
    EmptySearchHitsAll(orders);
  }

  // ---------------------------------------------------------------------------
  // status change

  /** `updateOrderStatus(orderId, newStatus)`: every order with the id takes the
      new status; the value is not checked against the five statuses. */
  function UpdateOrderStatus(orders: seq<Order>, orderId: string, newStatus: string): (r: seq<Order>)
    ensures |r| == |orders|
    ensures forall i :: 0 <= i < |orders| ==> r[i].(status := orders[i].status) == orders[i]
    ensures forall i :: 0 <= i < |orders| ==>
              r[i].status == (if orders[i].id == orderId then newStatus else orders[i].status)
  {
    seq(|orders|, i requires 0 <= i < |orders| =>
      if orders[i].id == orderId then orders[i].(status := newStatus) else orders[i])
  }

  /** Setting the same status twice is setting it once. */
  lemma UpdateIdempotent(orders: seq<Order>, orderId: string, newStatus: string)
    ensures var once := UpdateOrderStatus(orders, orderId, newStatus);
            UpdateOrderStatus(once, orderId, newStatus) == once
  {
  }

  /** After the change every order with the id is listed under the new status. */
  lemma UpdateThenFilter(orders: seq<Order>, orderId: string, newStatus: string, i: nat)
    requires i < |orders| && orders[i].id == orderId && newStatus != "all"
    ensures var r := UpdateOrderStatus(orders, orderId, newStatus);
            r[i] in FilterOrders(r, newStatus, "")
  {
    var r := UpdateOrderStatus(orders, orderId, newStatus);
    EmptySearchHits(r[i]);
  }

  /** With no order under the id the list is unchanged. */
  lemma UpdateAbsent(orders: seq<Order>, orderId: string, newStatus: string)
    requires forall i :: 0 <= i < |orders| ==> orders[i].id != orderId
    ensures UpdateOrderStatus(orders, orderId, newStatus) == orders
  {
  }

  lemma UpdateTail(orders: seq<Order>, orderId: string, newStatus: string)
    requires |orders| > 0
    ensures UpdateOrderStatus(orders, orderId, newStatus)[1..] == UpdateOrderStatus(orders[1..], orderId, newStatus)
  {
  }

  // ---------------------------------------------------------------------------
  // badge colour

  /** `getStatusColor(status)`. */
  function GetStatusColor(status: string): (r: string)
    ensures r == "bg-gray-100 text-gray-800" <==> status !in Statuses
  {
    match status
    case "pending" => "bg-yellow-100 text-yellow-800"
    case "processing" => "bg-blue-100 text-blue-800"
    case "shipped" => "bg-purple-100 text-purple-800"
    case "delivered" => "bg-green-100 text-green-800"
    case "cancelled" => "bg-red-100 text-red-800"
    case _ => "bg-gray-100 text-gray-800"
  }

  /** The five statuses get five different badges. */
  lemma StatusColorsDistinct(a: string, b: string)
    requires a in Statuses && b in Statuses && a != b
    ensures GetStatusColor(a) != GetStatusColor(b)
  {
  }

  // ---------------------------------------------------------------------------
  // summary figures

  datatype Stats = Stats(total: nat, pending: nat, processing: nat, shipped: nat, delivered: nat,
                         totalRevenue: int)

  /** The orders whose total counts as revenue: paid and not cancelled. */
  predicate Earning(o: Order) {
    o.paymentStatus == "paid" && o.status != "cancelled"
  }

  /** A status outside the five. */
  predicate Unlisted(o: Order) {
    o.status !in Statuses
  }

  /** `reduce((sum, o) => sum + o.total, 0)`. */
  function SumTotals(orders: seq<Order>): int {
    if |orders| == 0 then 0 else orders[0].total + SumTotals(orders[1..])
  }

  /** Reference revenue: each order contributes its total when it earns. */
  function Earned(orders: seq<Order>): int {
    if |orders| == 0 then 0 else (if Earning(orders[0]) then orders[0].total else 0) + Earned(orders[1..])
  }

  /** `getOrderStats()`: the cancelled orders and those of any other status are
      in the total but in none of the four counts; the revenue is the sum over
      the paid orders that are not cancelled. */
  function GetOrderStats(orders: seq<Order>): (st: Stats)
    ensures st.total == |orders|
    ensures st.pending == Tally(orders, "pending") && st.processing == Tally(orders, "processing")
    ensures st.shipped == Tally(orders, "shipped") && st.delivered == Tally(orders, "delivered")
    ensures st.pending + st.processing + st.shipped + st.delivered
            + Tally(orders, "cancelled") + Seqs.Count(Unlisted, orders) == st.total
    ensures st.totalRevenue == Earned(orders)
    ensures (forall i :: 0 <= i < |orders| ==> orders[i].total >= 0) ==> st.totalRevenue >= 0
  {
    StatusesCover(orders);
    CountIsTally(orders, "pending");
    CountIsTally(orders, "processing");
    CountIsTally(orders, "shipped");
    CountIsTally(orders, "delivered");
    CountIsTally(orders, "cancelled");
    RevenueIsEarned(orders);
    EarnedNonNegative(orders);
    Stats(|orders|,
          Seqs.Count(HasStatus("pending"), orders),
          Seqs.Count(HasStatus("processing"), orders),
          Seqs.Count(HasStatus("shipped"), orders),
          Seqs.Count(HasStatus("delivered"), orders),
          SumTotals(Seqs.Filter(Earning, orders)))
  }

  /** Reference count of the orders showing one status. */
  function Tally(orders: seq<Order>, status: string): nat {
    if |orders| == 0 then 0
    else (if orders[0].status == status then 1 else 0) + Tally(orders[1..], status)
  }

  /** `orders.filter(o => o.status === status).length` is the reference count. */
  lemma {:induction false} CountIsTally(orders: seq<Order>, status: string)
    ensures Seqs.Count(HasStatus(status), orders) == Tally(orders, status)
  {
    if |orders| > 0 {
      CountIsTally(orders[1..], status);
      Seqs.CountStep(HasStatus(status), orders);
    }
  }

  /** Every order is in exactly one of the five status counts or unlisted. */
  lemma {:induction false} StatusesCover(orders: seq<Order>)
    ensures Seqs.Count(HasStatus("pending"), orders) + Seqs.Count(HasStatus("processing"), orders)
            + Seqs.Count(HasStatus("shipped"), orders) + Seqs.Count(HasStatus("delivered"), orders)
            + Seqs.Count(HasStatus("cancelled"), orders) + Seqs.Count(Unlisted, orders) == |orders|
  {
    if |orders| > 0 {
      StatusesCover(orders[1..]);
      Seqs.CountStep(HasStatus("pending"), orders);
      Seqs.CountStep(HasStatus("processing"), orders);
      Seqs.CountStep(HasStatus("shipped"), orders);
      Seqs.CountStep(HasStatus("delivered"), orders);
      Seqs.CountStep(HasStatus("cancelled"), orders);
      Seqs.CountStep(Unlisted, orders);
    }
  }

  /** Filtering and then summing is summing the earning contributions. */
  lemma {:induction false} RevenueIsEarned(orders: seq<Order>)
    ensures SumTotals(Seqs.Filter(Earning, orders)) == Earned(orders)
  {
    if |orders| > 0 {
      RevenueIsEarned(orders[1..]);
      var head := if Earning(orders[0]) then [orders[0]] else [];
      assert Seqs.Filter(Earning, orders) == head + Seqs.Filter(Earning, orders[1..]);
      SumAppend(head, Seqs.Filter(Earning, orders[1..]));
    }
  }

  lemma {:induction false} SumAppend(a: seq<Order>, b: seq<Order>)
    ensures SumTotals(a + b) == SumTotals(a) + SumTotals(b)
  {
    if |a| > 0 {
      SumAppend(a[1..], b);
      assert (a + b)[1..] == a[1..] + b;
    } else {
      assert a + b == b;
    }
  }

  lemma {:induction false} EarnedNonNegative(orders: seq<Order>)
    ensures (forall i :: 0 <= i < |orders| ==> orders[i].total >= 0) ==> Earned(orders) >= 0
  {
    if |orders| > 0 {
      EarnedNonNegative(orders[1..]);
    }
  }

  /** An unpaid or cancelled order added to the list leaves the revenue alone. */
  lemma {:induction false} NonEarningAddsNothing(orders: seq<Order>, o: Order)
    requires !Earning(o)
    ensures GetOrderStats(orders + [o]).totalRevenue == GetOrderStats(orders).totalRevenue
    ensures GetOrderStats(orders + [o]).total == GetOrderStats(orders).total + 1
  {
    EarnedAppend(orders, o);
  }

  lemma {:induction false} EarnedAppend(orders: seq<Order>, o: Order)
    ensures Earned(orders + [o]) == Earned(orders) + (if Earning(o) then o.total else 0)
  {
    if |orders| > 0 {
      EarnedAppend(orders[1..], o);
      assert (orders + [o])[1..] == orders[1..] + [o];
    } else {
      assert Earned([o][1..]) == 0;
    }
  }

  /** Cancelling the one order with an id takes its total out of the revenue
      when it was earning, and changes nothing else in the revenue. */
  lemma CancelDropsRevenue(orders: seq<Order>, orderId: string, k: nat)
    requires k < |orders| && orders[k].id == orderId
    requires forall j :: 0 <= j < |orders| && j != k ==> orders[j].id != orderId
    ensures GetOrderStats(UpdateOrderStatus(orders, orderId, "cancelled")).totalRevenue
            == GetOrderStats(orders).totalRevenue - (if Earning(orders[k]) then orders[k].total else 0)
  {
    CancelDropsEarned(orders, orderId, k);
  }

  /** The same, on the reference sum. */
  lemma {:induction false} CancelDropsEarned(orders: seq<Order>, orderId: string, k: nat)
    requires k < |orders| && orders[k].id == orderId
    requires forall j :: 0 <= j < |orders| && j != k ==> orders[j].id != orderId
    ensures Earned(UpdateOrderStatus(orders, orderId, "cancelled"))
            == Earned(orders) - (if Earning(orders[k]) then orders[k].total else 0)
  {
    UpdateTail(orders, orderId, "cancelled");
    if k == 0 {
      UpdateAbsent(orders[1..], orderId, "cancelled");
    } else {
      CancelDropsEarned(orders[1..], orderId, k - 1);
    }
  }
}
