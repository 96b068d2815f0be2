/** frontend/src/app/catalog/page.js: the customer catalog. The page filters the
    plant list by category and search box, sorts it by the chosen option and
    guards the "Add to Cart" button. Prices are integer cents. */
module CatalogPage {
  import opened Wrappers
  import Text
  import Seqs
  import CartContext

  /** A plant as the catalog receives it (image and care fields omitted). */
  datatype CatalogPlant = CatalogPlant(plantId: int, name: string, description: string, category: string,
                                       price: int, stockQuantity: int)

  // ---------------------------------------------------------------------------
  // filtering

  /** The category drop-down: the lower-cased category equals the selection,
      which is compared as given. */
  predicate CategoryPass(p: CatalogPlant, selected: string) {
    selected == "all" || Text.ToLower(p.category) == selected
  }

  /** The search box: the term occurs, ignoring case, in the name or the description. */
  predicate SearchHit(p: CatalogPlant, term: string) {
    Text.ContainsIgnoringCase(p.name, term) || Text.ContainsIgnoringCase(p.description, term)
  }

  /** The reference reading of the two controls together. */
  predicate Passes(p: CatalogPlant, selected: string, term: string) {
    CategoryPass(p, selected) && SearchHit(p, term)
  }

  function InCategory(selected: string): CatalogPlant -> bool {
    (p: CatalogPlant) => Text.ToLower(p.category) == selected
  }

  function Matches(term: string): CatalogPlant -> bool {
    (p: CatalogPlant) => SearchHit(p, term)
  }

  /** The category filter unless 'all', then the search filter if the term is non-empty. */
  function FilterPlants(plants: seq<CatalogPlant>, selected: string, term: string): (r: seq<CatalogPlant>)
    ensures forall i :: 0 <= i < |r| ==> r[i] in plants && Passes(r[i], selected, term)
    ensures forall i :: 0 <= i < |plants| && Passes(plants[i], selected, term) ==> plants[i] in r
  {
    var byCategory := if selected != "all" then Seqs.Filter(InCategory(selected), plants) else plants;
    forall p | p in byCategory ensures SearchHit(p, "") {
      EmptySearchHits(p);
    }
    if term != "" then Seqs.Filter(Matches(term), byCategory) else byCategory
  }

  /** An empty search box matches every plant. */
  lemma EmptySearchHits(p: CatalogPlant)
    ensures SearchHit(p, "")
  {
    assert Text.ToLower("") == "";
    Text.EmptyNeedleFound(Text.ToLower(p.name));
  }

  /** The two filters in sequence are one filter by the conjunction, in list order. */
  lemma FilterPlantsIsConjunction(plants: seq<CatalogPlant>, selected: string, term: string)
    ensures FilterPlants(plants, selected, term) == Seqs.Filter((p: CatalogPlant) => Passes(p, selected, term), plants)
  {
    var pass := (p: CatalogPlant) => Passes(p, selected, term);
    forall p | p in plants ensures SearchHit(p, "") {
      EmptySearchHits(p);
    }
    if selected == "all" && term == "" {
      Seqs.FilterAll(pass, plants);
    } else if selected == "all" {
      Seqs.FilterExt(Matches(term), pass, plants);
    } else if term == "" {
      Seqs.FilterExt(InCategory(selected), pass, plants);
    } else {
      var f, g := InCategory(selected), Matches(term);
      assert FilterPlants(plants, selected, term) == Seqs.Filter(g, Seqs.Filter(f, plants));
      Seqs.FilterFilter(f, g, pass, plants);
    }
  }

  // ---------------------------------------------------------------------------
  // sorting

  /** The "Sort By" options; any other value compares everything as equal. */
  datatype SortKey = ByName | PriceLow | PriceHigh | Unsorted

  function SortKeyOf(sortBy: string): SortKey {
    match sortBy
    case "name" => ByName
    case "price-low" => PriceLow
    case "price-high" => PriceHigh
    case _ => Unsorted
  }

  /** Code-point order on names, standing in for `localeCompare`. */
  predicate NameLe(a: string, b: string)
    decreases |a|
  {
    |a| == 0 || (|b| > 0 && (a[0] < b[0] || (a[0] == b[0] && NameLe(a[1..], b[1..]))))
  }

  lemma {:induction false} NameLeTotal(a: string, b: string)
    ensures NameLe(a, b) || NameLe(b, a)
    decreases |a|
  {
    if |a| > 0 && |b| > 0 && a[0] == b[0] {
      NameLeTotal(a[1..], b[1..]);
    }
  }

  /** The page's comparator: `a` may stay ahead of `b` when it returns at most 0.
      'price-low' returns `b.price - a.price` and 'price-high' `a.price - b.price`. */
  predicate AsWritten(key: SortKey, a: CatalogPlant, b: CatalogPlant) {
    match key
    case ByName => NameLe(a.name, b.name)
    case PriceLow => b.price - a.price <= 0
    case PriceHigh => a.price - b.price <= 0
    case Unsorted => true
  }

  /** The comparator the option labels describe: "Price (Low to High)" ascending. */
  predicate AsLabelled(key: SortKey, a: CatalogPlant, b: CatalogPlant) {
    match key
    case ByName => NameLe(a.name, b.name)
    case PriceLow => a.price <= b.price
    case PriceHigh => b.price <= a.price
    case Unsorted => true
  }

  function Written(key: SortKey): (CatalogPlant, CatalogPlant) -> bool {
    (a, b) => AsWritten(key, a, b)
  }

  function Labelled(key: SortKey): (CatalogPlant, CatalogPlant) -> bool {
    (a, b) => AsLabelled(key, a, b)
  }

  /** Any two plants compare one way or the other. */
  ghost predicate Total(le: (CatalogPlant, CatalogPlant) -> bool) {
    forall a, b :: le(a, b) || le(b, a)
  }

  lemma WrittenTotal(key: SortKey)
    ensures Total(Written(key))
  {
    forall a: CatalogPlant, b: CatalogPlant ensures Written(key)(a, b) || Written(key)(b, a) {
      NameLeTotal(a.name, b.name);
    }
  }

  lemma LabelledTotal(key: SortKey)
    ensures Total(Labelled(key))
  {
    forall a: CatalogPlant, b: CatalogPlant ensures Labelled(key)(a, b) || Labelled(key)(b, a) {
      NameLeTotal(a.name, b.name);
    }
  }

  /** Neighbours are in `le` order. */
  predicate Sorted(le: (CatalogPlant, CatalogPlant) -> bool, s: seq<CatalogPlant>) {
    forall i :: 0 <= i < |s| - 1 ==> le(s[i], s[i + 1])
  }

  /** Places `x` ahead of the first element it may precede; ties keep `x` first. */
  function Insert(le: (CatalogPlant, CatalogPlant) -> bool, x: CatalogPlant, ys: seq<CatalogPlant>): (r: seq<CatalogPlant>)
    ensures multiset(r) == multiset(ys) + multiset{x}
    ensures |r| == |ys| + 1 && (r[0] == x || (|ys| > 0 && r[0] == ys[0]))
    ensures Total(le) && Sorted(le, ys) ==> Sorted(le, r)
  {
    if |ys| == 0 then [x]
    else if le(x, ys[0]) then [x] + ys
    else
      assert ys == [ys[0]] + ys[1..];
      var rest := Insert(le, x, ys[1..]);
      assert Total(le) ==> le(ys[0], x);
      [ys[0]] + rest
  }

  /** A stable sort by `le`, as `Array.prototype.sort` is. */
  function SortBy(le: (CatalogPlant, CatalogPlant) -> bool, s: seq<CatalogPlant>): (r: seq<CatalogPlant>)
    ensures multiset(r) == multiset(s)
    ensures Total(le) ==> Sorted(le, r)
  {
    if |s| == 0 then []
    else
      assert s == [s[0]] + s[1..];
      Insert(le, s[0], SortBy(le, s[1..]))
  }

  /** A comparator that calls everything equal keeps the list as it is. */
  lemma {:induction false} SortByAllEqual(le: (CatalogPlant, CatalogPlant) -> bool, s: seq<CatalogPlant>)
    requires forall a, b :: le(a, b)
    ensures SortBy(le, s) == s
  {
    if |s| > 0 {
      SortByAllEqual(le, s[1..]);
      assert s == [s[0]] + s[1..];
    }
  }

  /** The filter-and-sort effect as written: a reordering of exactly the
      passing plants. */
  function FilterAndSort(plants: seq<CatalogPlant>, selected: string, term: string, sortBy: string): (r: seq<CatalogPlant>)
    ensures multiset(r) == multiset(FilterPlants(plants, selected, term))
    ensures forall i :: 0 <= i < |r| ==> r[i] in plants && Passes(r[i], selected, term)
    ensures forall i :: 0 <= i < |plants| && Passes(plants[i], selected, term) ==> plants[i] in r
    ensures Sorted(Written(SortKeyOf(sortBy)), r)
  {
    var le := Written(SortKeyOf(sortBy));
    WrittenTotal(SortKeyOf(sortBy));
    var filtered := FilterPlants(plants, selected, term);
    var r := SortBy(le, filtered);
    ReorderedFilter(r, plants, selected, term);
    r
  }

  lemma ReorderedFilter(r: seq<CatalogPlant>, plants: seq<CatalogPlant>, selected: string, term: string)
    requires multiset(r) == multiset(FilterPlants(plants, selected, term))
    ensures forall i :: 0 <= i < |r| ==> r[i] in plants && Passes(r[i], selected, term)
    ensures forall i :: 0 <= i < |plants| && Passes(plants[i], selected, term) ==> plants[i] in r
  {
    var filtered := FilterPlants(plants, selected, term);
    SameMembers(r, filtered);
    forall i | 0 <= i < |r| ensures r[i] in plants && Passes(r[i], selected, term) {
      assert r[i] in filtered;
      var k :| 0 <= k < |filtered| && filtered[k] == r[i];
    }
  }

  /** A reordering has the same members. */
  lemma SameMembers(a: seq<CatalogPlant>, b: seq<CatalogPlant>)
    requires multiset(a) == multiset(b)
    ensures forall x :: x in a <==> x in b
  {
    forall x ensures x in a <==> x in b {
      assert x in a <==> x in multiset(a);
      assert x in b <==> x in multiset(b);
    }
  }

  /** An option outside the three leaves the filtered list in its order. */
  lemma UnknownOptionKeepsOrder(plants: seq<CatalogPlant>, selected: string, term: string, sortBy: string)
    requires SortKeyOf(sortBy) == Unsorted
    ensures FilterAndSort(plants, selected, term, sortBy) == FilterPlants(plants, selected, term)
  {
    SortByAllEqual(Written(Unsorted), FilterPlants(plants, selected, term));
  }

  /** As written, "Price (Low to High)" lists prices falling and "Price (High
      to Low)" lists them rising. */
  lemma SortOptionsReversed(plants: seq<CatalogPlant>, selected: string, term: string)
    ensures var r := FilterAndSort(plants, selected, term, "price-low");
            forall i, j :: 0 <= i < j < |r| ==> r[i].price >= r[j].price
    ensures var r := FilterAndSort(plants, selected, term, "price-high");
            forall i, j :: 0 <= i < j < |r| ==> r[i].price <= r[j].price
  {
    assert SortKeyOf("price-low") == PriceLow && SortKeyOf("price-high") == PriceHigh;
    WrittenLowFalls(FilterAndSort(plants, selected, term, "price-low"));
    WrittenHighRises(FilterAndSort(plants, selected, term, "price-high"));
  }

  lemma WrittenLowFalls(s: seq<CatalogPlant>)
    requires Sorted(Written(PriceLow), s)
    ensures forall i, j :: 0 <= i < j < |s| ==> s[i].price >= s[j].price
  {
    forall i | 0 <= i < |s| - 1 ensures s[i].price >= s[i + 1].price {
      assert Written(PriceLow)(s[i], s[i + 1]);
    }
    DescendingEverywhere(s);
  }

  lemma WrittenHighRises(s: seq<CatalogPlant>)
    requires Sorted(Written(PriceHigh), s)
    ensures forall i, j :: 0 <= i < j < |s| ==> s[i].price <= s[j].price
  {
    forall i | 0 <= i < |s| - 1 ensures s[i].price <= s[i + 1].price {
      assert Written(PriceHigh)(s[i], s[i + 1]);
    }
    AscendingEverywhere(s);
  }

  /** "Price (Low to High)" as written puts a 20.00 plant ahead of a 10.00 one. */
  lemma PriceLowSortsDescending()
    ensures var cheap := CatalogPlant(1, "Fern", "", "indoor", 1000, 4);
            var dear := CatalogPlant(2, "Palm", "", "indoor", 2000, 4);
            FilterAndSort([cheap, dear], "all", "", "price-low") == [dear, cheap]
  {
    var cheap := CatalogPlant(1, "Fern", "", "indoor", 1000, 4);
    var dear := CatalogPlant(2, "Palm", "", "indoor", 2000, 4);
    var le := Written(PriceLow);
    NoFilterKeepsAll([cheap, dear]);
    assert [cheap, dear][1..] == [dear];
    assert SortBy(le, [dear]) == [dear] by {
      assert [dear][1..] == [];
    }
    assert Insert(le, cheap, [dear]) == [dear] + Insert(le, cheap, []);
  }

  lemma NoFilterKeepsAll(plants: seq<CatalogPlant>)
    ensures FilterPlants(plants, "all", "") == plants
  {
  }

  /** The filter-and-sort effect with the comparator the labels describe. */
  function FilterAndSortAsLabelled(plants: seq<CatalogPlant>, selected: string, term: string, sortBy: string): (r: seq<CatalogPlant>)
    ensures multiset(r) == multiset(FilterPlants(plants, selected, term))
    ensures Sorted(Labelled(SortKeyOf(sortBy)), r)
    ensures sortBy == "price-low" ==> forall i, j :: 0 <= i < j < |r| ==> r[i].price <= r[j].price
    ensures sortBy == "price-high" ==> forall i, j :: 0 <= i < j < |r| ==> r[i].price >= r[j].price
  {
    LabelledTotal(SortKeyOf(sortBy));
    var r := SortBy(Labelled(SortKeyOf(sortBy)), FilterPlants(plants, selected, term));
    if sortBy == "price-low" then
      LowToHigh(r);
      r
    else if sortBy == "price-high" then
      HighToLow(r);
      r
    else r
  }

  lemma LowToHigh(s: seq<CatalogPlant>)
    requires Sorted(Labelled(PriceLow), s)
    ensures forall i, j :: 0 <= i < j < |s| ==> s[i].price <= s[j].price
  {
    forall i | 0 <= i < |s| - 1 ensures s[i].price <= s[i + 1].price {
      assert Labelled(PriceLow)(s[i], s[i + 1]);
    }
    AscendingEverywhere(s);
  }

  lemma HighToLow(s: seq<CatalogPlant>)
    requires Sorted(Labelled(PriceHigh), s)
    ensures forall i, j :: 0 <= i < j < |s| ==> s[i].price >= s[j].price
  {
    forall i | 0 <= i < |s| - 1 ensures s[i].price >= s[i + 1].price {
      assert Labelled(PriceHigh)(s[i], s[i + 1]);
    }
    DescendingEverywhere(s);
  }

  /** Prices that rise between neighbours rise across the whole list. */
  lemma {:induction false} AscendingEverywhere(s: seq<CatalogPlant>)
    requires forall i :: 0 <= i < |s| - 1 ==> s[i].price <= s[i + 1].price
    ensures forall i, j :: 0 <= i < j < |s| ==> s[i].price <= s[j].price
  {
    if |s| > 1 {
      AscendingEverywhere(s[1..]);
      assert s[0].price <= s[1].price;
      forall j | 0 < j < |s| ensures s[0].price <= s[j].price {
        assert s[j] == s[1..][j - 1] && s[1] == s[1..][0];
      }
    }
  }

  lemma {:induction false} DescendingEverywhere(s: seq<CatalogPlant>)
    requires forall i :: 0 <= i < |s| - 1 ==> s[i].price >= s[i + 1].price
    ensures forall i, j :: 0 <= i < j < |s| ==> s[i].price >= s[j].price
  {
    if |s| > 1 {
      DescendingEverywhere(s[1..]);
      assert s[0].price >= s[1].price;
      forall j | 0 < j < |s| ensures s[0].price >= s[j].price {
        assert s[j] == s[1..][j - 1] && s[1] == s[1..][0];
      }
    }
  }

  // ---------------------------------------------------------------------------
  // add to cart

  datatype Notice = Alert(text: string) | Success(text: string)

  /** `handleAddToCart(plant)`: refuses without a signed-in user or when the
      stock figure is exactly 0, otherwise adds one unit through the cart
      context; a failed call becomes an alert. */
  function HandleAddToCart(signedIn: bool, plant: CatalogPlant, cart: CartContext.CartState,
                           api: CartContext.ApiCall): (r: (Notice, CartContext.CartState))
    ensures !signedIn ==> r == (Alert("Please login to add items to cart"), cart)
    ensures signedIn && plant.stockQuantity == 0 ==> r == (Alert("This item is out of stock"), cart)
    ensures r.1.items != cart.items ==> signedIn && plant.stockQuantity != 0 && api.Succeeded?
    ensures signedIn && plant.stockQuantity != 0 && api.Failed? ==>
              r.0 == Alert("Failed to add item to cart: " + api.message) && r.1.items == cart.items
    ensures signedIn && plant.stockQuantity != 0 && api.Succeeded? ==>
              && r.0 == Success(plant.name + " added to cart!")
              && CartContext.Qty(r.1.items, plant.plantId) == CartContext.Qty(cart.items, plant.plantId) + 1
    ensures signedIn && plant.stockQuantity != 0 && api.Succeeded? && CartContext.Unique(cart.items) ==>
              CartContext.TotalItems(r.1.items) == CartContext.TotalItems(cart.items) + 1
  {
    if !signedIn then (Alert("Please login to add items to cart"), cart)
    else if plant.stockQuantity == 0 then (Alert("This item is out of stock"), cart)
    else
      var cart' := CartContext.AddToCart(cart, CartContext.Plant(plant.plantId, plant.name, plant.price), api);
      match api
      case Failed(message) => (Alert("Failed to add item to cart: " + message), cart')
      case Succeeded => (Success(plant.name + " added to cart!"), cart')
  }

  /** Only an exact 0 is refused: a negative stock figure still reaches the cart. */
  lemma NegativeStockReachesCart(plant: CatalogPlant, cart: CartContext.CartState)
    requires plant.stockQuantity < 0
    ensures HandleAddToCart(true, plant, cart, CartContext.Succeeded).0.Success?
  {
  }
}
