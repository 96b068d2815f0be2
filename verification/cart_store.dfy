/** backend/models/Cart.js: the carts table. Rows are kept in insertion order;
    `added_at` is the clock value at insertion, so "ORDER BY added_at DESC" is
    the reverse of the table. The table's key is the (user, plant) pair. */
module CartStore {
  import opened Wrappers
  import Seqs
  import opened PlantStock

  datatype CartRow = CartRow(userId: int, plantId: int, quantity: int, addedAt: nat)

  type Cart = seq<CartRow>

  predicate Key(row: CartRow, userId: int, plantId: int) {
    row.userId == userId && row.plantId == plantId
  }

  /** No two rows share a (user, plant) pair. */
  ghost predicate Unique(cart: Cart) {
    forall i, j :: 0 <= i < j < |cart| ==>
      !(cart[i].userId == cart[j].userId && cart[i].plantId == cart[j].plantId)
  }

  /** Position of the first row for (user, plant). */
  function FindIndex(cart: Cart, userId: int, plantId: int): (r: Option<nat>)
    ensures r.None? <==> forall i :: 0 <= i < |cart| ==> !Key(cart[i], userId, plantId)
    ensures r.Some? ==> r.value < |cart| && Key(cart[r.value], userId, plantId)
    ensures r.Some? ==> forall j :: 0 <= j < r.value ==> !Key(cart[j], userId, plantId)
  {
    if |cart| == 0 then None
    else if Key(cart[0], userId, plantId) then Some(0)
    else match FindIndex(cart[1..], userId, plantId)
      case None => None
      case Some(k) => Some(k + 1)
  }

  /** `SELECT * FROM carts WHERE user_id = $1 AND plant_id = $2`, first row. */
  function Find(cart: Cart, userId: int, plantId: int): (r: Option<CartRow>)
    ensures r.None? <==> forall i :: 0 <= i < |cart| ==> !Key(cart[i], userId, plantId)
    ensures r.Some? ==> r.value in cart && Key(r.value, userId, plantId)
  {
    match FindIndex(cart, userId, plantId)
    case None => None
    case Some(k) => Some(cart[k])
  }

  /** Two tables whose rows carry the same keys place every key at the same position. */
  lemma SameKeysSameIndex(a: Cart, b: Cart, userId: int, plantId: int)
    requires |a| == |b|
    requires forall i :: 0 <= i < |a| ==> a[i].userId == b[i].userId && a[i].plantId == b[i].plantId
    ensures FindIndex(a, userId, plantId) == FindIndex(b, userId, plantId)
  {
    var x, y := FindIndex(a, userId, plantId), FindIndex(b, userId, plantId);
    if x.Some? {
      assert Key(b[x.value], userId, plantId);
    }
    if y.Some? {
      assert Key(a[y.value], userId, plantId);
    }
  }

  /** A first row with another key is skipped. */
  lemma FindSkip(cart: Cart, userId: int, plantId: int)
    requires |cart| > 0 && !Key(cart[0], userId, plantId)
    ensures Find(cart, userId, plantId) == Find(cart[1..], userId, plantId)
  {
    match FindIndex(cart[1..], userId, plantId)
    case None =>
    case Some(k) => assert cart[1..][k] == cart[k + 1];
  }

  /** Rows for (user, plant) get `quantity + delta`. */
  function Bump(cart: Cart, userId: int, plantId: int, delta: int): (r: Cart)
    ensures |r| == |cart|
    ensures forall i :: 0 <= i < |cart| ==>
              r[i] == if Key(cart[i], userId, plantId) then cart[i].(quantity := cart[i].quantity + delta) else cart[i]
  {
    if |cart| == 0 then []
    else [if Key(cart[0], userId, plantId) then cart[0].(quantity := cart[0].quantity + delta) else cart[0]]
         + Bump(cart[1..], userId, plantId, delta)
  }

  /** Rows for (user, plant) get quantity `quantity`. */
  function SetQuantity(cart: Cart, userId: int, plantId: int, quantity: int): (r: Cart)
    ensures |r| == |cart|
    ensures forall i :: 0 <= i < |cart| ==>
              r[i] == if Key(cart[i], userId, plantId) then cart[i].(quantity := quantity) else cart[i]
  {
    if |cart| == 0 then []
    else [if Key(cart[0], userId, plantId) then cart[0].(quantity := quantity) else cart[0]]
         + SetQuantity(cart[1..], userId, plantId, quantity)
  }

  /** The rows for which `keep` holds, in order. */
  function DropKey(cart: Cart, userId: int, plantId: int): (r: Cart)
    ensures forall i :: 0 <= i < |r| ==> r[i] in cart && !Key(r[i], userId, plantId)
    ensures forall i :: 0 <= i < |cart| && !Key(cart[i], userId, plantId) ==> cart[i] in r
  {
    if |cart| == 0 then []
    else (if Key(cart[0], userId, plantId) then [] else [cart[0]]) + DropKey(cart[1..], userId, plantId)
  }

  function DropUser(cart: Cart, userId: int): (r: Cart)
    ensures forall i :: 0 <= i < |r| ==> r[i] in cart && r[i].userId != userId
    ensures forall i :: 0 <= i < |cart| && cart[i].userId != userId ==> cart[i] in r
  {
    if |cart| == 0 then []
    else (if cart[0].userId == userId then [] else [cart[0]]) + DropUser(cart[1..], userId)
  }

  // ---------------------------------------------------------------------------
  // operations

  /** `addToCart(userId, plantId, quantity)`: adds to the quantity of an existing
      row, or inserts a new row stamped `now`; returns the row. */
  function AddToCart(cart: Cart, userId: int, plantId: int, quantity: int, now: nat): (r: (Cart, CartRow))
    ensures Key(r.1, userId, plantId)
    ensures r.1.quantity == (match Find(cart, userId, plantId) case None => 0 case Some(row) => row.quantity) + quantity
    ensures Find(r.0, userId, plantId) == Some(r.1)
    ensures forall u, p :: !(u == userId && p == plantId) ==> Find(r.0, u, p) == Find(cart, u, p)
    ensures Unique(cart) ==> Unique(r.0)
  {
    match FindIndex(cart, userId, plantId)
    case Some(k) =>
      AddExisting(cart, userId, plantId, quantity, k);
      (Bump(cart, userId, plantId, quantity), cart[k].(quantity := cart[k].quantity + quantity))
    case None =>
      var row := CartRow(userId, plantId, quantity, now);
      AddNew(cart, row);
      (cart + [row], row)
  }

  /** The update branch of `addToCart`. */
  lemma AddExisting(cart: Cart, userId: int, plantId: int, quantity: int, k: nat)
    requires FindIndex(cart, userId, plantId) == Some(k)
    ensures var c := Bump(cart, userId, plantId, quantity);
            && Find(c, userId, plantId) == Some(cart[k].(quantity := cart[k].quantity + quantity))
            && (forall u, p :: !(u == userId && p == plantId) ==> Find(c, u, p) == Find(cart, u, p))
            && (Unique(cart) ==> Unique(c))
  {
    var c := Bump(cart, userId, plantId, quantity);
    SameKeysSameIndex(c, cart, userId, plantId);
    assert c[k] == cart[k].(quantity := cart[k].quantity + quantity);
    assert Find(c, userId, plantId) == Some(c[k]);
    forall u, p | !(u == userId && p == plantId) ensures Find(c, u, p) == Find(cart, u, p) {
      SameKeysFind(cart, c, u, p);
    }
    SameKeysUnique(cart, c);
  }

  /** Where the keys agree row by row, a key whose rows are untouched reads the same. */
  lemma SameKeysFind(a: Cart, b: Cart, u: int, p: int)
    requires |a| == |b|
    requires forall i :: 0 <= i < |a| ==> a[i].userId == b[i].userId && a[i].plantId == b[i].plantId
    requires forall i :: 0 <= i < |a| && Key(a[i], u, p) ==> a[i] == b[i]
    ensures Find(a, u, p) == Find(b, u, p)
  {
    SameKeysSameIndex(a, b, u, p);
  }

  lemma SameKeysUnique(a: Cart, b: Cart)
    requires |a| == |b|
    requires forall i :: 0 <= i < |a| ==> a[i].userId == b[i].userId && a[i].plantId == b[i].plantId
    ensures Unique(a) ==> Unique(b)
  {
  }

  /** The insert branch of `addToCart`. */
  lemma AddNew(cart: Cart, row: CartRow)
    requires Find(cart, row.userId, row.plantId).None?
    ensures Find(cart + [row], row.userId, row.plantId) == Some(row)
    ensures forall u, p :: !(u == row.userId && p == row.plantId) ==> Find(cart + [row], u, p) == Find(cart, u, p)
    ensures Unique(cart) ==> Unique(cart + [row])
  {
    forall u, p ensures !Key(row, u, p) ==> Find(cart + [row], u, p) == Find(cart, u, p)
                ensures Key(row, u, p) && Find(cart, u, p).None? ==> Find(cart + [row], u, p) == Some(row) {
      AppendOther(cart, row, u, p);
    }
    if Unique(cart) {
      var c := cart + [row];
      forall i, j | 0 <= i < j < |c| ensures !(c[i].userId == c[j].userId && c[i].plantId == c[j].plantId) {
        assert c[i] == cart[i];
        if j < |cart| {
          assert c[j] == cart[j];
        } else {
          assert !Key(cart[i], row.userId, row.plantId);
        }
      }
    }
  }

  /** Appending a row leaves earlier keys where they were and finds the new key at the end. */
  lemma AppendOther(cart: Cart, row: CartRow, u: int, p: int)
    ensures !Key(row, u, p) ==> Find(cart + [row], u, p) == Find(cart, u, p)
    ensures Key(row, u, p) && Find(cart, u, p).None? ==> Find(cart + [row], u, p) == Some(row)
  {
    var c := cart + [row];
    var x, y := FindIndex(c, u, p), FindIndex(cart, u, p);
    assert c[|cart|] == row;
    if y.Some? {
      assert c[y.value] == cart[y.value];
    }
    if x.Some? && x.value < |cart| {
      assert c[x.value] == cart[x.value];
    }
  }

  /** `removeFromCart(userId, plantId)`: deletes the pair's row and returns it, or null. */
  function RemoveFromCart(cart: Cart, userId: int, plantId: int): (r: (Cart, Option<CartRow>))
    ensures r.1 == Find(cart, userId, plantId)
    ensures Find(r.0, userId, plantId).None?
    ensures r.1.None? ==> r.0 == cart
    ensures forall u, p :: !(u == userId && p == plantId) ==> Find(r.0, u, p) == Find(cart, u, p)
    ensures forall i :: 0 <= i < |r.0| ==> r.0[i] in cart
    ensures Unique(cart) ==> Unique(r.0)
  {
    var found := Find(cart, userId, plantId);
    DropKeyUnique(cart, userId, plantId);
    forall u, p | !(u == userId && p == plantId)
      ensures Find(DropKey(cart, userId, plantId), u, p) == Find(cart, u, p)
    {
      DropKeyOthers(cart, userId, plantId, u, p);
    }
    if found.None? then
      DropKeyAbsent(cart, userId, plantId);
      (cart, None)
    else (DropKey(cart, userId, plantId), found)
  }

  /** Deleting rows keeps the keys distinct. */
  lemma {:induction false} DropKeyUnique(cart: Cart, userId: int, plantId: int)
    ensures Unique(cart) ==> Unique(DropKey(cart, userId, plantId))
  {
    if |cart| > 0 && Unique(cart) {
      var rest := DropKey(cart[1..], userId, plantId);
      assert Unique(cart[1..]) by {
        forall i, j | 0 <= i < j < |cart[1..]|
          ensures !(cart[1..][i].userId == cart[1..][j].userId && cart[1..][i].plantId == cart[1..][j].plantId)
        {
          assert cart[1..][i] == cart[i + 1] && cart[1..][j] == cart[j + 1];
        }
      }
      DropKeyUnique(cart[1..], userId, plantId);
      if !Key(cart[0], userId, plantId) {
        var r := [cart[0]] + rest;
        forall j | 0 < j < |r| ensures !(r[0].userId == r[j].userId && r[0].plantId == r[j].plantId) {
          assert r[j] == rest[j - 1];
          var k :| 0 <= k < |cart[1..]| && cart[1..][k] == rest[j - 1];
          assert cart[k + 1] == rest[j - 1];
        }
        forall i, j | 0 < i < j < |r| ensures !(r[i].userId == r[j].userId && r[i].plantId == r[j].plantId) {
          assert r[i] == rest[i - 1] && r[j] == rest[j - 1];
        }
        assert DropKey(cart, userId, plantId) == r;
      } else {
        assert DropKey(cart, userId, plantId) == rest;
      }
    }
  }

  /** Deleting one key's rows leaves every other key reading the same. */
  lemma {:induction false} DropKeyOthers(cart: Cart, userId: int, plantId: int, u: int, p: int)
    requires !(u == userId && p == plantId)
    ensures Find(DropKey(cart, userId, plantId), u, p) == Find(cart, u, p)
  {
    if |cart| > 0 {
      DropKeyOthers(cart[1..], userId, plantId, u, p);
      var rest := DropKey(cart[1..], userId, plantId);
      if Key(cart[0], userId, plantId) {
        assert DropKey(cart, userId, plantId) == rest;
        FindSkip(cart, u, p);
      } else if !Key(cart[0], u, p) {
        var kept := [cart[0]] + rest;
        assert DropKey(cart, userId, plantId) == kept;
        assert kept[1..] == rest;
        FindSkip(kept, u, p);
        FindSkip(cart, u, p);
      } else {
        assert DropKey(cart, userId, plantId) == [cart[0]] + rest;
      }
    }
  }

  lemma {:induction false} DropKeyAbsent(cart: Cart, userId: int, plantId: int)
    requires forall i :: 0 <= i < |cart| ==> !Key(cart[i], userId, plantId)
    ensures DropKey(cart, userId, plantId) == cart
  {
    if |cart| > 0 {
      DropKeyAbsent(cart[1..], userId, plantId);
      assert [cart[0]] + cart[1..] == cart;
    }
  }

  /** `updateCartItemQuantity(userId, plantId, quantity)`: a quantity of zero or
      less removes the row; otherwise the row's quantity is overwritten. Either
      way the affected row is returned, or null when there was none. */
  function UpdateCartItemQuantity(cart: Cart, userId: int, plantId: int, quantity: int): (r: (Cart, Option<CartRow>))
    ensures r.1.None? <==> Find(cart, userId, plantId).None?
    ensures r.1.None? ==> r.0 == cart
    ensures quantity <= 0 ==> Find(r.0, userId, plantId).None?
    ensures quantity > 0 && r.1.Some? ==>
              r.1 == Find(r.0, userId, plantId) && r.1.value.quantity == quantity
              && r.1.value == Find(cart, userId, plantId).value.(quantity := quantity)
    ensures forall u, p :: !(u == userId && p == plantId) ==> Find(r.0, u, p) == Find(cart, u, p)
    ensures Unique(cart) ==> Unique(r.0)
  {
    if quantity <= 0 then RemoveFromCart(cart, userId, plantId)
    else
      match FindIndex(cart, userId, plantId)
      case None => (cart, None)
      case Some(k) =>
        var cart' := SetQuantity(cart, userId, plantId, quantity);
        SetExisting(cart, userId, plantId, quantity, k);
        (cart', Some(cart[k].(quantity := quantity)))
  }

  /** The overwrite branch of `updateCartItemQuantity`. */
  lemma SetExisting(cart: Cart, userId: int, plantId: int, quantity: int, k: nat)
    requires FindIndex(cart, userId, plantId) == Some(k)
    ensures var c := SetQuantity(cart, userId, plantId, quantity);
            && Find(c, userId, plantId) == Some(cart[k].(quantity := quantity))
            && (forall u, p :: !(u == userId && p == plantId) ==> Find(c, u, p) == Find(cart, u, p))
            && (Unique(cart) ==> Unique(c))
  {
    var c := SetQuantity(cart, userId, plantId, quantity);
    SameKeysSameIndex(c, cart, userId, plantId);
    assert c[k] == cart[k].(quantity := quantity);
    assert Find(c, userId, plantId) == Some(c[k]);
    forall u, p | !(u == userId && p == plantId) ensures Find(c, u, p) == Find(cart, u, p) {
      SameKeysFind(cart, c, u, p);
    }
    SameKeysUnique(cart, c);
  }

  /** `clearCart(userId)`: every row of that user goes; other users' rows stay, in order. */
  function ClearCart(cart: Cart, userId: int): (r: Cart)
    ensures forall p :: Find(r, userId, p).None?
    ensures forall i :: 0 <= i < |cart| && cart[i].userId != userId ==> cart[i] in r
    ensures forall i :: 0 <= i < |r| ==> r[i] in cart
  {
    DropUser(cart, userId)
  }

  /** One row of `getCartByUserId`/`getCartItem`: the cart row joined with its plant. */
  datatype CartView = CartView(plantId: int, quantity: int, addedAt: nat, name: string, price: int, stock: int)

  function View(row: CartRow, c: Catalog): CartView
    requires row.plantId in c
  {
    CartView(row.plantId, row.quantity, row.addedAt, c[row.plantId].name, c[row.plantId].price, c[row.plantId].stock)
  }

  /** A row that shows in the user's joined cart: theirs, with an existing plant. */
  predicate Listed(row: CartRow, c: Catalog, userId: int) {
    row.userId == userId && row.plantId in c
  }

  /** `v` is the joined view of one of the user's listed rows. */
  ghost predicate Shows(cart: Cart, c: Catalog, userId: int, v: CartView) {
    exists row :: row in cart && Listed(row, c, userId) && v == View(row, c)
  }

  /** The user's rows whose plant still exists, joined, in table order. */
  function JoinUser(cart: Cart, c: Catalog, userId: int): (r: seq<CartView>)
    ensures |r| <= |cart|
  {
    if |cart| == 0 then []
    else (if Listed(cart[0], c, userId) then [View(cart[0], c)] else []) + JoinUser(cart[1..], c, userId)
  }

  /** The join shows exactly the user's listed rows. */
  lemma {:induction false} JoinUserMembers(cart: Cart, c: Catalog, userId: int)
    ensures forall i :: 0 <= i < |JoinUser(cart, c, userId)| ==> Shows(cart, c, userId, JoinUser(cart, c, userId)[i])
    ensures forall row :: row in cart && Listed(row, c, userId) ==> View(row, c) in JoinUser(cart, c, userId)
  {
    if |cart| > 0 {
      var t := cart[1..];
      JoinUserMembers(t, c, userId);
      JoinUserCons(cart, c, userId);
      var rest := JoinUser(t, c, userId);
      var r := JoinUser(cart, c, userId);
      var h := if Listed(cart[0], c, userId) then 1 else 0;
      forall i | 0 <= i < |r| ensures Shows(cart, c, userId, r[i]) {
        if i < h {
          assert r[i] == View(cart[0], c) && cart[0] in cart;
        } else {
          assert r[i] == rest[i - h];
          var row :| row in t && Listed(row, c, userId) && rest[i - h] == View(row, c);
          assert row in cart;
        }
      }
      forall row | row in cart && Listed(row, c, userId) ensures View(row, c) in r {
        if row != cart[0] {
          assert row in t;
          assert View(row, c) in rest;
        }
      }
    }
  }

  /** A user with no rows at all joins to nothing. */
  lemma {:induction false} JoinUserAbsent(cart: Cart, c: Catalog, userId: int)
    requires forall i :: 0 <= i < |cart| ==> cart[i].userId != userId
    ensures JoinUser(cart, c, userId) == []
  {
    if |cart| > 0 {
      assert forall i :: 0 <= i < |cart[1..]| ==> cart[1..][i] == cart[i + 1];
      JoinUserAbsent(cart[1..], c, userId);
    }
  }

  /** Rows were inserted in `added_at` order: the clock never runs backwards. */
  ghost predicate Chronological(cart: Cart) {
    forall i, j :: 0 <= i < j < |cart| ==> cart[i].addedAt <= cart[j].addedAt
  }

  /** `addToCart` keeps the table chronological when the clock has not run
      backwards: an update leaves `added_at` alone, an insert stamps `now`. */
  lemma AddKeepsChronological(cart: Cart, userId: int, plantId: int, quantity: int, now: nat)
    requires Chronological(cart)
    requires forall i :: 0 <= i < |cart| ==> cart[i].addedAt <= now
    ensures Chronological(AddToCart(cart, userId, plantId, quantity, now).0)
  {
    var r := AddToCart(cart, userId, plantId, quantity, now).0;
    match FindIndex(cart, userId, plantId)
    case Some(k) =>
      assert forall i :: 0 <= i < |cart| ==> r[i].addedAt == cart[i].addedAt;
    case None =>
      assert r == cart + [CartRow(userId, plantId, quantity, now)];
  }

  /** Lines in ascending `added_at` order. */
  ghost predicate OldestFirst(vs: seq<CartView>) {
    forall a, b :: 0 <= a < b < |vs| ==> vs[a].addedAt <= vs[b].addedAt
  }

  /** Lines in descending `added_at` order: `ORDER BY c.added_at DESC`. */
  ghost predicate NewestFirst(vs: seq<CartView>) {
    forall a, b :: 0 <= a < b < |vs| ==> vs[a].addedAt >= vs[b].addedAt
  }

  /** No plant listed twice. */
  ghost predicate DistinctPlants(vs: seq<CartView>) {
    forall a, b :: 0 <= a < b < |vs| ==> vs[a].plantId != vs[b].plantId
  }

  /** Every joined line comes from a row of the table, so a bound on the rows'
      `added_at` bounds the lines'. */
  lemma {:induction false} JoinBound(cart: Cart, c: Catalog, userId: int, m: int)
    requires forall i :: 0 <= i < |cart| ==> cart[i].addedAt >= m
    ensures forall a :: 0 <= a < |JoinUser(cart, c, userId)| ==> JoinUser(cart, c, userId)[a].addedAt >= m
  {
    if |cart| > 0 {
      var t := cart[1..];
      assert forall i :: 0 <= i < |t| ==> t[i] == cart[i + 1];
      JoinBound(t, c, userId, m);
    }
  }

  /** A plant none of the user's rows hold appears in none of the joined lines. */
  lemma {:induction false} JoinAvoids(cart: Cart, c: Catalog, userId: int, p: int)
    requires forall i :: 0 <= i < |cart| && cart[i].userId == userId ==> cart[i].plantId != p
    ensures forall a :: 0 <= a < |JoinUser(cart, c, userId)| ==> JoinUser(cart, c, userId)[a].plantId != p
  {
    if |cart| > 0 {
      var t := cart[1..];
      assert forall i :: 0 <= i < |t| ==> t[i] == cart[i + 1];
      JoinAvoids(t, c, userId, p);
    }
  }

  /** One unfolding step of the join. */
  lemma JoinUserCons(cart: Cart, c: Catalog, userId: int)
    requires |cart| > 0
    ensures JoinUser(cart, c, userId)
            == (if Listed(cart[0], c, userId) then [View(cart[0], c)] else []) + JoinUser(cart[1..], c, userId)
  {
  }

  /** The join keeps table order, hence `added_at` order. */
  lemma {:induction false} JoinUserChronological(cart: Cart, c: Catalog, userId: int)
    requires Chronological(cart)
    ensures OldestFirst(JoinUser(cart, c, userId))
  {
    if |cart| > 0 {
      var t := cart[1..];
      assert forall i :: 0 <= i < |t| ==> t[i] == cart[i + 1];
      JoinUserChronological(t, c, userId);
      var rest := JoinUser(t, c, userId);
      var j := JoinUser(cart, c, userId);
      JoinUserCons(cart, c, userId);
      if !Listed(cart[0], c, userId) {
        assert j == rest;
      } else {
        JoinBound(t, c, userId, cart[0].addedAt);
        assert j[0] == View(cart[0], c);
        forall a, b | 0 <= a < b < |j| ensures j[a].addedAt <= j[b].addedAt {
          assert j[b] == rest[b - 1];
          if a > 0 { assert j[a] == rest[a - 1]; } else { assert j[a] == View(cart[0], c); }
        }
      }
    }
  }

  /** With one row per key the join lists each plant once. */
  lemma {:induction false} JoinUserDistinct(cart: Cart, c: Catalog, userId: int)
    requires Unique(cart)
    ensures DistinctPlants(JoinUser(cart, c, userId))
  {
    if |cart| > 0 {
      var t := cart[1..];
      assert forall i :: 0 <= i < |t| ==> t[i] == cart[i + 1];
      JoinUserDistinct(t, c, userId);
      var rest := JoinUser(t, c, userId);
      var j := JoinUser(cart, c, userId);
      JoinUserCons(cart, c, userId);
      if !Listed(cart[0], c, userId) {
        assert j == rest;
      } else {
        forall i | 0 <= i < |t| && t[i].userId == userId ensures t[i].plantId != cart[0].plantId {
          assert !(cart[0].userId == cart[i + 1].userId && cart[0].plantId == cart[i + 1].plantId);
        }
        JoinAvoids(t, c, userId, cart[0].plantId);
        assert j[0] == View(cart[0], c);
        forall a, b | 0 <= a < b < |j| ensures j[a].plantId != j[b].plantId {
          assert j[b] == rest[b - 1];
          if a > 0 { assert j[a] == rest[a - 1]; } else { assert j[a] == View(cart[0], c); }
        }
      }
    }
  }

  /** Reversal turns ascending `added_at` into descending. */
  lemma ReverseNewestFirst(vs: seq<CartView>)
    requires OldestFirst(vs)
    ensures NewestFirst(Seqs.Reverse(vs))
  {
    var r := Seqs.Reverse(vs);
    var n := |vs|;
    forall i, j | 0 <= i < j < |r| ensures r[i].addedAt >= r[j].addedAt {
      ReversedPair(vs, n - 1 - j, n - 1 - i);
    }
  }

  /** Two lines in ascending order, seen from the reversed end. */
  lemma ReversedPair(vs: seq<CartView>, a: int, b: int)
    requires OldestFirst(vs) && 0 <= a < b < |vs|
    ensures Seqs.Reverse(vs)[|vs| - 1 - b].addedAt >= Seqs.Reverse(vs)[|vs| - 1 - a].addedAt
  {
  }

  /** Reversal keeps plants distinct. */
  lemma ReverseDistinct(vs: seq<CartView>)
    requires DistinctPlants(vs)
    ensures DistinctPlants(Seqs.Reverse(vs))
  {
    var r := Seqs.Reverse(vs);
    var n := |vs|;
    forall i, j | 0 <= i < j < |r| ensures r[i].plantId != r[j].plantId {
      assert r[i] == vs[n - 1 - i] && r[j] == vs[n - 1 - j];
    }
  }

  /** Both orderings of the reversed join, under the table invariants they need. */
  lemma ReversedJoinOrdered(cart: Cart, c: Catalog, userId: int)
    ensures Chronological(cart) ==> NewestFirst(Seqs.Reverse(JoinUser(cart, c, userId)))
    ensures Unique(cart) ==> DistinctPlants(Seqs.Reverse(JoinUser(cart, c, userId)))
  {
    if Chronological(cart) {
      JoinUserChronological(cart, c, userId);
      ReverseNewestFirst(JoinUser(cart, c, userId));
    }
    if Unique(cart) {
      JoinUserDistinct(cart, c, userId);
      ReverseDistinct(JoinUser(cart, c, userId));
    }
  }

  /** `getCartByUserId(userId)`: the user's cart lines with plant details,
      most recently added first; lines whose plant is gone drop out of the join. */
  function GetCartByUserId(cart: Cart, c: Catalog, userId: int): (r: seq<CartView>)
    ensures forall i :: 0 <= i < |r| ==> Shows(cart, c, userId, r[i])
    ensures forall row :: row in cart && Listed(row, c, userId) ==> View(row, c) in r
    ensures Chronological(cart) ==> NewestFirst(r)
    ensures Unique(cart) ==> DistinctPlants(r)
  {
    var joined := JoinUser(cart, c, userId);
    JoinUserMembers(cart, c, userId);
    ReversedJoinOrdered(cart, c, userId);
    var r := Seqs.Reverse(joined);
    forall i | 0 <= i < |r| ensures Shows(cart, c, userId, r[i]) {
      assert r[i] == joined[|joined| - 1 - i];
      assert Shows(cart, c, userId, joined[|joined| - 1 - i]);
    }
    forall row | row in cart && Listed(row, c, userId) ensures View(row, c) in r {
      var k :| 0 <= k < |joined| && joined[k] == View(row, c);
      assert joined[k] in r;
    }
    r
  }

  /** `getCartItem(userId, plantId)`: the joined row, or null. */
  function GetCartItem(cart: Cart, c: Catalog, userId: int, plantId: int): (r: Option<CartView>)
    ensures r.Some? <==> Find(cart, userId, plantId).Some? && plantId in c
    ensures r.Some? ==> r.value.quantity == Find(cart, userId, plantId).value.quantity
                        && r.value.price == c[plantId].price && r.value.plantId == plantId
  {
    match Find(cart, userId, plantId)
    case None => None
    case Some(row) => if plantId in c then Some(View(row, c)) else None
  }

  // ---------------------------------------------------------------------------
  // properties

  /** Adding twice is adding the sum once. */
  lemma AddAccumulates(cart: Cart, userId: int, plantId: int, a: int, b: int, t1: nat, t2: nat)
    ensures var once := AddToCart(cart, userId, plantId, a + b, t1).0;
            var twice := AddToCart(AddToCart(cart, userId, plantId, a, t1).0, userId, plantId, b, t2).0;
            Find(twice, userId, plantId).value.quantity == Find(once, userId, plantId).value.quantity
  {
  }

  /** Removing twice: the second removal finds nothing and changes nothing. */
  lemma RemoveIdempotent(cart: Cart, userId: int, plantId: int)
    ensures var once := RemoveFromCart(cart, userId, plantId).0;
            RemoveFromCart(once, userId, plantId) == (once, None)
  {
  }

  /** Setting a quantity of zero or less is removing the row. */
  lemma UpdateNonPositiveRemoves(cart: Cart, userId: int, plantId: int, quantity: int)
    requires quantity <= 0
    ensures UpdateCartItemQuantity(cart, userId, plantId, quantity) == RemoveFromCart(cart, userId, plantId)
  {
  }

  /** Clearing one user's cart leaves every other user's lines readable as before. */
  lemma {:induction false} ClearCartOthers(cart: Cart, userId: int, other: int, plantId: int)
    requires other != userId
    ensures Find(ClearCart(cart, userId), other, plantId) == Find(cart, other, plantId)
  {
    if |cart| > 0 {
      ClearCartOthers(cart[1..], userId, other, plantId);
      var rest := DropUser(cart[1..], userId);
      if cart[0].userId == userId {
        assert DropUser(cart, userId) == rest;
        FindSkip(cart, other, plantId);
      } else if !Key(cart[0], other, plantId) {
        var kept := [cart[0]] + rest;
        assert DropUser(cart, userId) == kept;
        assert kept[1..] == rest;
        FindSkip(kept, other, plantId);
        FindSkip(cart, other, plantId);
      } else {
        assert DropUser(cart, userId) == [cart[0]] + rest;
      }
    }
  }
}
