/** frontend/src/app/orders/page.js: the customer's "My Orders" page. It sends
    admins to their own page, loads the caller's orders, and draws a status
    badge, an icon and a four-step timeline per order. */
module OrdersPage {
  import AdminOrdersPage

  // ---------------------------------------------------------------------------
  // loading

  /** The stored session: absent, or a user with a role. */
  datatype SavedUser = NoUser | SavedUser(role: string)

  /** The shape of the API's answer: a list, an envelope with a `data` field,
      some other truthy value, a falsy value that has properties (false, 0, ""),
      or null and undefined, which have none. */
  datatype Payload<T> = List(items: seq<T>) | Envelope(data: Payload<T>) | Other | Falsy | Nullish

  /** The fetch either answers or throws with a message (possibly empty). */
  datatype Fetch<T> = Answered(payload: Payload<T>) | Threw(message: string)

  datatype Outcome<T> = Redirect(path: string) | Loaded(orders: seq<T>, error: string)

  predicate Truthy<T>(p: Payload<T>) {
    !p.Falsy? && !p.Nullish?
  }

  /** `response.data || response`. */
  function OrderData<T>(response: Payload<T>): Payload<T> {
    if response.Envelope? && Truthy(response.data) then response.data else response
  }

  /** The catch block's message: the error's own, or a default when it is empty. */
  function Shown(message: string): string {
    if message == "" then "Failed to load orders" else message
  }

  /** The effect that loads the page: no stored user goes to /login, an admin
      to /admin/orders; otherwise the orders are the answer when it is a list and
      empty when it is not; a throw leaves the list empty and shows the message,
      or a default one when the message is empty. A null or undefined answer
      throws a TypeError at `response.data`; `typeError` is its message, whose
      wording is the JavaScript engine's. */
  function FetchOrders<T>(saved: SavedUser, fetch: Fetch<T>, typeError: string): (r: Outcome<T>)
    ensures saved.NoUser? <==> r == Redirect("/login")
    ensures saved.SavedUser? && saved.role == "admin" <==> r == Redirect("/admin/orders")
    ensures r.Loaded? <==> saved.SavedUser? && saved.role != "admin"
    ensures r.Loaded? && r.error != "" ==> (fetch.Threw? || fetch.payload.Nullish?) && r.orders == []
    ensures r.Loaded? && fetch.Threw? ==> r == Loaded([], Shown(fetch.message))
    ensures r.Loaded? && fetch.Answered? && fetch.payload.Nullish? ==> r == Loaded([], Shown(typeError))
    ensures r.Loaded? && fetch.Answered? && !fetch.payload.Nullish? ==>
              r.error == "" && (r.orders != [] ==> OrderData(fetch.payload).List?)
  {
    match saved
    case NoUser => Redirect("/login")
    case SavedUser(role) =>
      if role == "admin" then Redirect("/admin/orders")
      else match fetch
        case Threw(message) => Loaded([], Shown(message))
        case Answered(response) =>
          if response.Nullish? then Loaded([], Shown(typeError))
          else
            var data := OrderData(response);
            Loaded(if data.List? then data.items else [], "")
  }

  /** A bare list and a list wrapped in `data` load the same orders; anything
      else that answers loads none; null or undefined fails like a throw. */
  lemma PayloadShapes<T>(role: string, xs: seq<T>, p: Payload<T>, typeError: string)
    requires role != "admin"
    ensures FetchOrders(SavedUser(role), Answered(List(xs)), typeError) == Loaded(xs, "")
    ensures FetchOrders(SavedUser(role), Answered(Envelope(List(xs))), typeError) == Loaded(xs, "")
    ensures !p.List? && !(p.Envelope? && p.data.List?) && !p.Nullish? ==>
              FetchOrders(SavedUser(role), Answered(p), typeError) == Loaded([], "")
    ensures FetchOrders<T>(SavedUser(role), Answered(Nullish), typeError)
            == FetchOrders(SavedUser(role), Fetch<T>.Threw(typeError), typeError)
    ensures FetchOrders<T>(SavedUser(role), Answered(Envelope(Nullish)), typeError) == Outcome<T>.Loaded([], "")
  {
  }

  // ---------------------------------------------------------------------------
  // badge, icon, timeline

  /** `getStatusColor(status)` of this page. */
  function GetStatusColor(status: string): (r: string)
    ensures r == "bg-gray-100 text-gray-800" <==> status !in AdminOrdersPage.Statuses
  {
    match status
    case "pending" => "bg-yellow-100 text-yellow-800"
    case "processing" => "bg-blue-100 text-blue-800"
    case "shipped" => "bg-cyan-100 text-cyan-800"
    case "delivered" => "bg-green-100 text-green-800"
    case "cancelled" => "bg-red-100 text-red-800"
    case _ => "bg-gray-100 text-gray-800"
  }

  /** The customer's badge matches the admin's on every status but 'shipped',
      which is cyan here and purple there. */
  lemma BadgesAgreeButShipped(status: string)
    ensures status != "shipped" ==> GetStatusColor(status) == AdminOrdersPage.GetStatusColor(status)
    ensures GetStatusColor("shipped") != AdminOrdersPage.GetStatusColor("shipped")
  {
  }

  /** `getStatusIcon(status)`: hourglass, package, lorry, check mark, cross, or a
      question mark for anything else. */
  function GetStatusIcon(status: string): (r: string)
    ensures r == "\U{2753}" <==> status !in AdminOrdersPage.Statuses
  {
    match status
    case "pending" => "\U{23F3}"
    case "processing" => "\U{1F4E6}"
    case "shipped" => "\U{1F69A}"
    case "delivered" => "\U{2705}"
    case "cancelled" => "\U{274C}"
    case _ => "\U{2753}"
  }

  /** The five statuses get five different icons. */
  lemma IconsDistinct(a: string, b: string)
    requires a in AdminOrdersPage.Statuses && b in AdminOrdersPage.Statuses && a != b
    ensures GetStatusIcon(a) != GetStatusIcon(b)
  {
  }

  /** Which of "Order Placed", "Processing", "Shipped", "Delivered" are highlighted. */
  function Timeline(status: string): (r: seq<bool>)
    ensures |r| == 4
    ensures forall i, j :: 0 <= i < j < 4 && r[j] ==> r[i]
    ensures r[0] <==> status != "pending"
    ensures r[3] <==> status == "delivered"
  {
    [status != "pending",
     status in ["processing", "shipped", "delivered"],
     status in ["shipped", "delivered"],
     status == "delivered"]
  }

  /** Number of highlighted steps. */
  function Highlighted(marks: seq<bool>): nat {
    if |marks| == 0 then 0 else (if marks[0] then 1 else 0) + Highlighted(marks[1..])
  }

  /** Along pending, processing, shipped, delivered the highlighted steps are
      0, 2, 3 and 4; a cancelled order, or any other status, highlights only
      "Order Placed". */
  lemma TimelineProgress(status: string)
    ensures Highlighted(Timeline("pending")) == 0
    ensures Highlighted(Timeline("processing")) == 2
    ensures Highlighted(Timeline("shipped")) == 3
    ensures Highlighted(Timeline("delivered")) == 4
    ensures status !in ["pending", "processing", "shipped", "delivered"] ==> Highlighted(Timeline(status)) == 1
  {
  }
}
