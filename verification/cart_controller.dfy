/** backend/controllers/cartController.js: the cart handlers. Each handler acts on
    the authenticated user's own rows only. A database error (a NaN plant id
    reaching a query) is the handler's 500 reply. */
module CartController {
  import opened Wrappers
  import opened Helpers
  import opened PlantStock
  import opened CartStore

  /** A JSON body field as the handler sees it: absent (or the empty string),
      text that is not a number, or a number. */
  datatype Field = Missing | NotNumber | Num(n: int)

  /** JavaScript truthiness of a field. */
  predicate Present(f: Field) {
    f.NotNumber? || (f.Num? && f.n != 0)
  }

  datatype CartShop = CartShop(cart: Cart, catalog: Catalog)

  /** `getCart`. */
  function GetCart(s: CartShop, user: Claims): (r: Response<seq<CartView>>)
    ensures r.code == 200 && r.data.Some?
    ensures forall i :: 0 <= i < |r.data.value| ==> Shows(s.cart, s.catalog, user.userId, r.data.value[i])
    ensures forall row :: row in s.cart && Listed(row, s.catalog, user.userId) ==> View(row, s.catalog) in r.data.value
    ensures Chronological(s.cart) ==> NewestFirst(r.data.value)
    ensures Unique(s.cart) ==> DistinctPlants(r.data.value)
  {
    SendResponse(200, Some(GetCartByUserId(s.cart, s.catalog, user.userId)), Some("Cart retrieved successfully."))
  }

  /** `addToCart`: both fields required and truthy, the quantity a positive
      number; a plant id that is not a number fails in the query. */
  function AddToCart(s: CartShop, user: Claims, plantId: Field, quantity: Field, now: nat): (r: (Response<CartRow>, CartShop))
    ensures r.0.code in {201, 400, 500}
    ensures r.0.code == 400 <==> !Present(plantId) || !Present(quantity) || !quantity.Num? || quantity.n <= 0
    ensures r.0.code == 201 <==> plantId.Num? && plantId.n != 0 && quantity.Num? && quantity.n > 0
    ensures r.0.code != 201 ==> r.1 == s
    ensures r.0.code == 201 ==>
              && r.1.catalog == s.catalog
              && Find(r.1.cart, user.userId, plantId.n).Some?
              && Find(r.1.cart, user.userId, plantId.n).value.quantity
                 == (match Find(s.cart, user.userId, plantId.n) case None => 0 case Some(row) => row.quantity) + quantity.n
  {
    if !Present(plantId) || !Present(quantity) then (Reply(400, "Plant ID and quantity are required."), s)
    else if quantity.NotNumber? || quantity.n <= 0 then (Reply(400, "Quantity must be a positive number."), s)
    else if plantId.NotNumber? then (Reply(500, "Server error adding to cart."), s)
    else
      var (cart', row) := CartStore.AddToCart(s.cart, user.userId, plantId.n, quantity.n, now);
      (SendResponse(201, Some(row), Some("Item added to cart successfully.")), CartShop(cart', s.catalog))
  }

  /** `updateCartItem`: `plantParam` is `parseInt(req.params.plant_id)`, None when
      NaN. A quantity of zero is "required"; a negative quantity passes the
      checks and deletes the line. */
  function UpdateCartItem(s: CartShop, user: Claims, plantParam: Option<int>, quantity: Field): (r: (Response<CartRow>, CartShop))
    ensures r.0.code in {200, 400, 404, 500}
    ensures r.0.code == 400 <==> !quantity.Num? || quantity.n == 0
    ensures r.0.code == 500 <==> quantity.Num? && quantity.n != 0 && plantParam.None?
    ensures r.0.code == 200 <==> quantity.Num? && quantity.n != 0 && plantParam.Some?
                                 && Find(s.cart, user.userId, plantParam.value).Some?
    ensures r.0.code != 200 ==> r.1 == s
    ensures r.0.code == 200 && quantity.n > 0 ==>
              Find(r.1.cart, user.userId, plantParam.value).Some?
              && Find(r.1.cart, user.userId, plantParam.value).value.quantity == quantity.n
    ensures r.0.code == 200 && quantity.n < 0 ==> Find(r.1.cart, user.userId, plantParam.value).None?
  {
    if !Present(quantity) then (Reply(400, "Quantity is required."), s)
    else if quantity.NotNumber? then (Reply(400, "Quantity must be a number."), s)
    else if plantParam.None? then (Reply(500, "Server error updating cart item."), s)
    else
      var (cart', row) := UpdateCartItemQuantity(s.cart, user.userId, plantParam.value, quantity.n);
      match row
      case None => (Reply(404, "Cart item not found."), s)
      case Some(updated) =>
        (SendResponse(200, Some(updated), Some("Cart item updated successfully.")), CartShop(cart', s.catalog))
  }

  /** `removeFromCart`. */
  function RemoveFromCart(s: CartShop, user: Claims, plantParam: Option<int>): (r: (Response<CartRow>, CartShop))
    ensures r.0.code in {200, 404, 500}
    ensures r.0.code == 500 <==> plantParam.None?
    ensures r.0.code == 200 <==> plantParam.Some? && Find(s.cart, user.userId, plantParam.value).Some?
    ensures r.0.code != 200 ==> r.1 == s
    ensures r.0.code == 200 ==> r.0.data == Find(s.cart, user.userId, plantParam.value)
                                && Find(r.1.cart, user.userId, plantParam.value).None?
  {
    if plantParam.None? then (Reply(500, "Server error removing from cart."), s)
    else
      var (cart', removed) := CartStore.RemoveFromCart(s.cart, user.userId, plantParam.value);
      if removed.None? then (Reply(404, "Cart item not found."), s)
      else (SendResponse(200, removed, Some("Item removed from cart successfully.")), CartShop(cart', s.catalog))
  }

  /** `clearCart`: always 200, whether or not the cart had lines. */
  function ClearCart(s: CartShop, user: Claims): (r: (Response<()>, CartShop))
    ensures r.0.code == 200
    ensures forall p :: Find(r.1.cart, user.userId, p).None?
    ensures GetCartByUserId(r.1.cart, r.1.catalog, user.userId) == []
  {
    var cart' := CartStore.ClearCart(s.cart, user.userId);
    EmptyCartNoView(cart', s.catalog, user.userId);
    (Reply(200, "Cart cleared successfully."), CartShop(cart', s.catalog))
  }

  /** A user with no rows sees an empty cart. */
  lemma EmptyCartNoView(cart: Cart, c: Catalog, userId: int)
    requires forall p :: Find(cart, userId, p).None?
    ensures GetCartByUserId(cart, c, userId) == []
  {
    forall i | 0 <= i < |cart| ensures cart[i].userId != userId {
      assert Find(cart, userId, cart[i].plantId).None?;
    }
    JoinUserAbsent(cart, c, userId);
  }

  /** `getCartItem`. */
  function GetCartItem(s: CartShop, user: Claims, plantParam: Option<int>): (r: Response<CartView>)
    ensures r.code in {200, 404, 500}
    ensures r.code == 500 <==> plantParam.None?
    ensures r.code == 200 <==> plantParam.Some? && Find(s.cart, user.userId, plantParam.value).Some?
                               && plantParam.value in s.catalog
    ensures r.code == 200 ==> r.data.Some? && r.data.value.quantity == Find(s.cart, user.userId, plantParam.value).value.quantity
  {
    if plantParam.None? then Reply(500, "Server error retrieving cart item.")
    else
      match CartStore.GetCartItem(s.cart, s.catalog, user.userId, plantParam.value)
      case None => Reply(404, "Cart item not found.")
      case Some(v) => SendResponse(200, Some(v), Some("Cart item retrieved successfully."))
  }

  // ---------------------------------------------------------------------------
  // properties

  /** No cart handler changes another user's lines. */
  lemma CartsAreIsolated(s: CartShop, user: Claims, other: int, p: int, plantId: Field, quantity: Field,
                         plantParam: Option<int>, now: nat)
    requires other != user.userId
    ensures Find(AddToCart(s, user, plantId, quantity, now).1.cart, other, p) == Find(s.cart, other, p)
    ensures Find(UpdateCartItem(s, user, plantParam, quantity).1.cart, other, p) == Find(s.cart, other, p)
    ensures Find(RemoveFromCart(s, user, plantParam).1.cart, other, p) == Find(s.cart, other, p)
    ensures Find(ClearCart(s, user).1.cart, other, p) == Find(s.cart, other, p)
  {
    CartStore.ClearCartOthers(s.cart, user.userId, other, p);
  }

  /** A successful add is visible to `getCartItem` with the accumulated quantity. */
  lemma AddThenGet(s: CartShop, user: Claims, p: int, q: int, now: nat)
    requires p != 0 && q > 0 && p in s.catalog
    ensures var (resp, s') := AddToCart(s, user, Num(p), Num(q), now);
            var got := GetCartItem(s', user, Some(p));
            resp.code == 201 && got.code == 200
            && got.data.value.quantity == (match Find(s.cart, user.userId, p) case None => 0 case Some(row) => row.quantity) + q
  {
  }

  /** PUT with a negative quantity answers 200 and deletes the line, the same
      as DELETE does. */
  lemma NegativeUpdateDeletes(s: CartShop, user: Claims, p: int, q: int)
    requires q < 0 && Find(s.cart, user.userId, p).Some?
    ensures UpdateCartItem(s, user, Some(p), Num(q)).0.code == 200
    ensures UpdateCartItem(s, user, Some(p), Num(q)).1 == RemoveFromCart(s, user, Some(p)).1
  {
  }
}
