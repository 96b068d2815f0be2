/** frontend/src/context/CartContext.js: the browser's copy of the cart. Every
    operation calls the cart API first and changes the local list only when the
    call succeeds; a failed call records its message and leaves the list alone. */
module CartContext {
  import opened Wrappers
  import CartStore

  /** The plant fields the catalogue passes to `addToCart`. */
  datatype Plant = Plant(plantId: int, name: string, price: int)

  /** A local cart line: the plant's fields spread, plus a quantity. */
  datatype Line = Line(plantId: int, name: string, price: int, quantity: int)

  /** How the awaited API call ended. */
  datatype ApiCall = Succeeded | Failed(message: string)

  datatype CartState = CartState(items: seq<Line>, error: string)

  /** At most one line per plant. */
  predicate Unique(items: seq<Line>) {
    forall i, j :: 0 <= i < j < |items| ==> items[i].plantId != items[j].plantId
  }

  /** `items.find(item => item.plant_id === plantId)`. */
  function Lookup(items: seq<Line>, plantId: int): (r: Option<Line>)
    ensures r.None? <==> forall i :: 0 <= i < |items| ==> items[i].plantId != plantId
    ensures r.Some? ==> r.value in items && r.value.plantId == plantId
  {
    if |items| == 0 then None
    else if items[0].plantId == plantId then Some(items[0])
    else Lookup(items[1..], plantId)
  }

  /** The quantity shown for a plant: its line's, or 0 without a line. */
  function Qty(items: seq<Line>, plantId: int): int {
    match Lookup(items, plantId)
    case None => 0
    case Some(l) => l.quantity
  }

  /** `items.map(item => item.plant_id === plantId ? {...item, quantity: f(item.quantity)} : item)`. */
  function MapQuantity(items: seq<Line>, plantId: int, f: int -> int): (r: seq<Line>)
    ensures |r| == |items|
    ensures forall i :: 0 <= i < |items| ==>
              r[i] == if items[i].plantId == plantId then items[i].(quantity := f(items[i].quantity)) else items[i]
  {
    if |items| == 0 then []
    else
      var head := if items[0].plantId == plantId then items[0].(quantity := f(items[0].quantity)) else items[0];
      [head] + MapQuantity(items[1..], plantId, f)
  }

  /** `items.filter(item => item.plant_id !== plantId)`. */
  function Drop(items: seq<Line>, plantId: int): (r: seq<Line>)
    ensures |r| <= |items|
    ensures forall i :: 0 <= i < |r| ==> r[i] in items && r[i].plantId != plantId
    ensures forall i :: 0 <= i < |items| && items[i].plantId != plantId ==> items[i] in r
  {
    if |items| == 0 then []
    else if items[0].plantId == plantId then Drop(items[1..], plantId)
    else [items[0]] + Drop(items[1..], plantId)
  }

  // ---------------------------------------------------------------------------
  // totals

  /** `getTotalItems`: the sum of the quantities. */
  function TotalItems(items: seq<Line>): int {
    if |items| == 0 then 0 else items[0].quantity + TotalItems(items[1..])
  }

  /** `getTotalPrice`: the sum of price times quantity. */
  function TotalPrice(items: seq<Line>): int {
    if |items| == 0 then 0 else items[0].price * items[0].quantity + TotalPrice(items[1..])
  }

  /** Appending a line adds its share to both totals. */
  lemma {:induction false} TotalsAppend(items: seq<Line>, l: Line)
    ensures TotalItems(items + [l]) == TotalItems(items) + l.quantity
    ensures TotalPrice(items + [l]) == TotalPrice(items) + l.price * l.quantity
  {
    if |items| > 0 {
      assert (items + [l])[1..] == items[1..] + [l];
      TotalsAppend(items[1..], l);
    }
  }

  lemma UniqueTail(items: seq<Line>)
    requires Unique(items) && |items| > 0
    ensures Unique(items[1..])
    ensures forall i :: 0 <= i < |items[1..]| ==> items[1..][i].plantId != items[0].plantId
  {
    assert forall i :: 0 <= i < |items[1..]| ==> items[1..][i] == items[i + 1];
  }

  /** Changing the one line of a plant changes the item count by that line's difference. */
  lemma {:induction false} ItemsMap(items: seq<Line>, plantId: int, f: int -> int)
    requires Unique(items)
    ensures var d := match Lookup(items, plantId) case None => 0 case Some(l) => f(l.quantity) - l.quantity;
            TotalItems(MapQuantity(items, plantId, f)) == TotalItems(items) + d
  {
    if |items| > 0 {
      var r := MapQuantity(items, plantId, f);
      assert r[1..] == MapQuantity(items[1..], plantId, f);
      UniqueTail(items);
      ItemsMap(items[1..], plantId, f);
    }
  }

  /** Changing the one line of a plant changes the price total by that line's difference. */
  lemma {:induction false} PriceMap(items: seq<Line>, plantId: int, f: int -> int)
    requires Unique(items)
    ensures var d := match Lookup(items, plantId) case None => 0 case Some(l) => l.price * f(l.quantity) - l.price * l.quantity;
            TotalPrice(MapQuantity(items, plantId, f)) == TotalPrice(items) + d
  {
    if |items| > 0 {
      var r := MapQuantity(items, plantId, f);
      assert r[1..] == MapQuantity(items[1..], plantId, f);
      UniqueTail(items);
      PriceMap(items[1..], plantId, f);
    }
  }

  /** Removing the one line of a plant takes its share off the totals. */
  lemma {:induction false} TotalsDrop(items: seq<Line>, plantId: int)
    requires Unique(items)
    ensures TotalItems(Drop(items, plantId)) == TotalItems(items) - Qty(items, plantId)
    ensures var d := match Lookup(items, plantId) case None => 0 case Some(l) => l.price * l.quantity;
            TotalPrice(Drop(items, plantId)) == TotalPrice(items) - d
  {
    if |items| > 0 {
      UniqueTail(items);
      TotalsDrop(items[1..], plantId);
      if items[0].plantId == plantId {
        DropAbsent(items[1..], plantId);
      }
    }
  }

  lemma {:induction false} DropAbsent(items: seq<Line>, plantId: int)
    requires forall i :: 0 <= i < |items| ==> items[i].plantId != plantId
    ensures Drop(items, plantId) == items
  {
    if |items| > 0 {
      DropAbsent(items[1..], plantId);
    }
  }

  // ---------------------------------------------------------------------------
  // lookups after the list operations

  lemma {:induction false} LookupMap(items: seq<Line>, plantId: int, f: int -> int, p: int)
    ensures Lookup(MapQuantity(items, plantId, f), p)
            == if p == plantId then (match Lookup(items, p) case None => None case Some(l) => Some(l.(quantity := f(l.quantity))))
               else Lookup(items, p)
  {
    if |items| > 0 {
      assert MapQuantity(items, plantId, f)[1..] == MapQuantity(items[1..], plantId, f);
      LookupMap(items[1..], plantId, f, p);
    }
  }

  lemma {:induction false} LookupDrop(items: seq<Line>, plantId: int, p: int)
    ensures Lookup(Drop(items, plantId), p) == if p == plantId then None else Lookup(items, p)
  {
    if |items| > 0 {
      LookupDrop(items[1..], plantId, p);
    }
  }

  lemma {:induction false} LookupAppend(items: seq<Line>, l: Line, p: int)
    ensures Lookup(items + [l], p) == if Lookup(items, p).Some? then Lookup(items, p)
                                      else if l.plantId == p then Some(l) else None
  {
    if |items| > 0 {
      assert (items + [l])[1..] == items[1..] + [l];
      LookupAppend(items[1..], l, p);
    }
  }

  lemma {:induction false} DropUnique(items: seq<Line>, plantId: int)
    requires Unique(items)
    ensures Unique(Drop(items, plantId))
  {
    if |items| > 0 {
      UniqueTail(items);
      DropUnique(items[1..], plantId);
      if items[0].plantId != plantId {
        var rest := Drop(items[1..], plantId);
        forall i | 0 <= i < |rest| ensures rest[i].plantId != items[0].plantId {
          var k :| 0 <= k < |items[1..]| && items[1..][k] == rest[i];
        }
        assert Drop(items, plantId) == [items[0]] + rest;
      }
    }
  }

  // ---------------------------------------------------------------------------
  // operations

  /** What the call's success does to the list in `addToCart`. */
  function AddLine(items: seq<Line>, plant: Plant): (r: seq<Line>)
    ensures Lookup(r, plant.plantId).Some?
    ensures Qty(r, plant.plantId) == Qty(items, plant.plantId) + 1
    ensures forall p :: p != plant.plantId ==> Lookup(r, p) == Lookup(items, p)
    ensures Unique(items) ==> Unique(r)
    ensures Unique(items) ==> TotalItems(r) == TotalItems(items) + 1
    ensures Unique(items) ==>
              TotalPrice(r) == TotalPrice(items)
                               + match Lookup(items, plant.plantId) case None => plant.price case Some(l) => l.price
  {
    if Lookup(items, plant.plantId).Some? then
      BumpLine(items, plant.plantId);
      MapQuantity(items, plant.plantId, Inc)
    else
      var l := Line(plant.plantId, plant.name, plant.price, 1);
      NewLine(items, l);
      items + [l]
  }

  function Inc(n: int): int {
    n + 1
  }

  lemma BumpLine(items: seq<Line>, plantId: int)
    requires Lookup(items, plantId).Some?
    ensures var r := MapQuantity(items, plantId, Inc);
            && Lookup(r, plantId).Some?
            && Qty(r, plantId) == Qty(items, plantId) + 1
            && (forall p :: p != plantId ==> Lookup(r, p) == Lookup(items, p))
    ensures Unique(items) ==> Unique(MapQuantity(items, plantId, Inc))
    ensures Unique(items) ==> TotalItems(MapQuantity(items, plantId, Inc)) == TotalItems(items) + 1
    ensures Unique(items) ==>
              TotalPrice(MapQuantity(items, plantId, Inc)) == TotalPrice(items) + Lookup(items, plantId).value.price
  {
    LookupMap(items, plantId, Inc, plantId);
    forall p | p != plantId ensures Lookup(MapQuantity(items, plantId, Inc), p) == Lookup(items, p) {
      LookupMap(items, plantId, Inc, p);
    }
    if Unique(items) {
      MapUnique(items, plantId, Inc);
      ItemsMap(items, plantId, Inc);
      BumpPrice(items, plantId);
    }
  }

  lemma BumpPrice(items: seq<Line>, plantId: int)
    requires Unique(items) && Lookup(items, plantId).Some?
    ensures TotalPrice(MapQuantity(items, plantId, Inc)) == TotalPrice(items) + Lookup(items, plantId).value.price
  {
    PriceMap(items, plantId, Inc);
    var l := Lookup(items, plantId).value;
    assert l.price * Inc(l.quantity) == l.price * l.quantity + l.price;
  }

  lemma MapUnique(items: seq<Line>, plantId: int, f: int -> int)
    requires Unique(items)
    ensures Unique(MapQuantity(items, plantId, f))
  {
    var r := MapQuantity(items, plantId, f);
    assert forall i :: 0 <= i < |r| ==> r[i].plantId == items[i].plantId;
  }

  lemma NewLine(items: seq<Line>, l: Line)
    requires Lookup(items, l.plantId).None? && l.quantity == 1
    ensures var r := items + [l];
            && Lookup(r, l.plantId) == Some(l)
            && (forall p :: p != l.plantId ==> Lookup(r, p) == Lookup(items, p))
            && (Unique(items) ==> Unique(r))
            && TotalItems(r) == TotalItems(items) + 1
            && TotalPrice(r) == TotalPrice(items) + l.price
  {
    LookupAppend(items, l, l.plantId);
    forall p | p != l.plantId ensures Lookup(items + [l], p) == Lookup(items, p) {
      LookupAppend(items, l, p);
    }
    TotalsAppend(items, l);
  }

  /** `addToCart(plant)`: the server is told to add one; locally an existing line
      goes up by one, otherwise the plant is appended with quantity 1. */
  function AddToCart(st: CartState, plant: Plant, api: ApiCall): (r: CartState)
    ensures api.Failed? ==> r == CartState(st.items, api.message)
    ensures api.Succeeded? ==> r.error == ""
    ensures api.Succeeded? ==> Lookup(r.items, plant.plantId).Some?
    ensures api.Succeeded? ==> Qty(r.items, plant.plantId) == Qty(st.items, plant.plantId) + 1
    ensures api.Succeeded? ==> forall p :: p != plant.plantId ==> Lookup(r.items, p) == Lookup(st.items, p)
    ensures Unique(st.items) ==> Unique(r.items)
    ensures api.Succeeded? && Unique(st.items) ==> TotalItems(r.items) == TotalItems(st.items) + 1
    ensures api.Succeeded? && Unique(st.items) ==>
              TotalPrice(r.items) == TotalPrice(st.items)
                                     + match Lookup(st.items, plant.plantId) case None => plant.price case Some(l) => l.price
  {
    match api
    case Failed(m) => CartState(st.items, m)
    case Succeeded => CartState(AddLine(st.items, plant), "")
  }

  /** `removeFromCart(plantId)`: every line of the plant goes. */
  function RemoveFromCart(st: CartState, plantId: int, api: ApiCall): (r: CartState)
    ensures api.Failed? ==> r == CartState(st.items, api.message)
    ensures api.Succeeded? ==> r.error == "" && Lookup(r.items, plantId).None?
    ensures api.Succeeded? ==> forall p :: p != plantId ==> Lookup(r.items, p) == Lookup(st.items, p)
    ensures Unique(st.items) ==> Unique(r.items)
    ensures api.Succeeded? && Unique(st.items) ==> TotalItems(r.items) == TotalItems(st.items) - Qty(st.items, plantId)
  {
    match api
    case Failed(m) => CartState(st.items, m)
    case Succeeded =>
      forall q ensures Lookup(Drop(st.items, plantId), q) == if q == plantId then None else Lookup(st.items, q) {
        LookupDrop(st.items, plantId, q);
      }
      if Unique(st.items) then
        DropUnique(st.items, plantId);
        TotalsDrop(st.items, plantId);
        CartState(Drop(st.items, plantId), "")
      else CartState(Drop(st.items, plantId), "")
  }

  /** `updateQuantity(plantId, quantity)`: zero or less is a removal; otherwise
      the plant's line takes the new quantity. */
  function UpdateQuantity(st: CartState, plantId: int, quantity: int, api: ApiCall): (r: CartState)
    ensures quantity <= 0 ==> r == RemoveFromCart(st, plantId, api)
    ensures api.Failed? ==> r == CartState(st.items, api.message)
    ensures api.Succeeded? && quantity > 0 ==>
              && r.error == ""
              && Lookup(r.items, plantId)
                 == (match Lookup(st.items, plantId) case None => None case Some(l) => Some(l.(quantity := quantity)))
    ensures api.Succeeded? ==> forall p :: p != plantId ==> Lookup(r.items, p) == Lookup(st.items, p)
    ensures Unique(st.items) ==> Unique(r.items)
    ensures api.Succeeded? && Unique(st.items) && quantity > 0 && Lookup(st.items, plantId).Some? ==>
              TotalItems(r.items) == TotalItems(st.items) - Qty(st.items, plantId) + quantity
  {
    if quantity <= 0 then RemoveFromCart(st, plantId, api)
    else
      match api
      case Failed(m) => CartState(st.items, m)
      case Succeeded =>
        var setTo := (n: int) => quantity;
        forall q ensures Lookup(MapQuantity(st.items, plantId, setTo), q)
                         == if q == plantId then (match Lookup(st.items, q) case None => None case Some(l) => Some(l.(quantity := setTo(l.quantity))))
                            else Lookup(st.items, q) {
          LookupMap(st.items, plantId, setTo, q);
        }
        if Unique(st.items) then
          ItemsMap(st.items, plantId, setTo);
          CartState(MapQuantity(st.items, plantId, setTo), "")
        else CartState(MapQuantity(st.items, plantId, setTo), "")
  }

  /** `clearCart()`. */
  function ClearCart(st: CartState, api: ApiCall): (r: CartState)
    ensures api.Failed? ==> r == CartState(st.items, api.message)
    ensures api.Succeeded? ==> r.error == "" && forall p :: Lookup(r.items, p).None?
    ensures api.Succeeded? ==> TotalItems(r.items) == 0 && TotalPrice(r.items) == 0
  {
    match api
    case Failed(m) => CartState(st.items, m)
    case Succeeded => CartState([], "")
  }

  // ---------------------------------------------------------------------------
  // the local list as a mirror of the server's cart

  /** The quantity the server holds for the user and plant, 0 without a row. */
  function ServerQty(cart: CartStore.Cart, userId: int, plantId: int): int {
    match CartStore.Find(cart, userId, plantId)
    case None => 0
    case Some(row) => row.quantity
  }

  /** The local list has a line exactly where the server has a row, with the
      server's quantity. */
  ghost predicate Mirrors(items: seq<Line>, cart: CartStore.Cart, userId: int) {
    forall p :: (Lookup(items, p).Some? <==> CartStore.Find(cart, userId, p).Some?)
                && Qty(items, p) == ServerQty(cart, userId, p)
  }

  /** A successful add, done on both sides, keeps the mirror. */
  lemma AddMirrors(st: CartState, plant: Plant, cart: CartStore.Cart, userId: int, now: nat)
    requires Mirrors(st.items, cart, userId)
    ensures Mirrors(AddToCart(st, plant, Succeeded).items, CartStore.AddToCart(cart, userId, plant.plantId, 1, now).0, userId)
  {
    var items' := AddToCart(st, plant, Succeeded).items;
    var (cart', row) := CartStore.AddToCart(cart, userId, plant.plantId, 1, now);
    forall p ensures (Lookup(items', p).Some? <==> CartStore.Find(cart', userId, p).Some?)
                     && Qty(items', p) == ServerQty(cart', userId, p) {
      assert Lookup(st.items, p).Some? <==> CartStore.Find(cart, userId, p).Some?;
      assert Qty(st.items, p) == ServerQty(cart, userId, p);
      if p == plant.plantId {
        assert CartStore.Find(cart', userId, p) == Some(row);
        assert row.quantity == ServerQty(cart, userId, p) + 1;
      } else {
        assert Lookup(items', p) == Lookup(st.items, p);
        assert CartStore.Find(cart', userId, p) == CartStore.Find(cart, userId, p);
      }
    }
  }

  /** A successful removal, done on both sides, keeps the mirror. */
  lemma RemoveMirrors(st: CartState, plantId: int, cart: CartStore.Cart, userId: int)
    requires Mirrors(st.items, cart, userId)
    ensures Mirrors(RemoveFromCart(st, plantId, Succeeded).items, CartStore.RemoveFromCart(cart, userId, plantId).0, userId)
  {
    var items' := RemoveFromCart(st, plantId, Succeeded).items;
    var cart' := CartStore.RemoveFromCart(cart, userId, plantId).0;
    forall p ensures (Lookup(items', p).Some? <==> CartStore.Find(cart', userId, p).Some?)
                     && Qty(items', p) == ServerQty(cart', userId, p) {
      assert Lookup(st.items, p).Some? <==> CartStore.Find(cart, userId, p).Some?;
      assert Qty(st.items, p) == ServerQty(cart, userId, p);
    }
  }

  /** A successful positive update, done on both sides, keeps the mirror. */
  lemma UpdateMirrors(st: CartState, plantId: int, quantity: int, cart: CartStore.Cart, userId: int)
    requires Mirrors(st.items, cart, userId) && quantity > 0
    ensures Mirrors(UpdateQuantity(st, plantId, quantity, Succeeded).items,
                    CartStore.UpdateCartItemQuantity(cart, userId, plantId, quantity).0, userId)
  {
    var items' := UpdateQuantity(st, plantId, quantity, Succeeded).items;
    var cart' := CartStore.UpdateCartItemQuantity(cart, userId, plantId, quantity).0;
    forall p ensures (Lookup(items', p).Some? <==> CartStore.Find(cart', userId, p).Some?)
                     && Qty(items', p) == ServerQty(cart', userId, p) {
      assert Lookup(st.items, p).Some? <==> CartStore.Find(cart, userId, p).Some?;
      assert Qty(st.items, p) == ServerQty(cart, userId, p);
    }
  }

  /** A successful clear, done on both sides, keeps the mirror. */
  lemma ClearMirrors(st: CartState, cart: CartStore.Cart, userId: int)
    requires Mirrors(st.items, cart, userId)
    ensures Mirrors(ClearCart(st, Succeeded).items, CartStore.ClearCart(cart, userId), userId)
  {
  }
}
