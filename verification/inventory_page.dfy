/** frontend/src/app/admin/inventory/page.js: the admin inventory page's local
    plant list, its search and low-stock filter, the stock badge and the four
    summary tiles. The page works on its own list in the browser. */
module InventoryPage {
  import opened Wrappers
  import Text
  import Seqs
  import PublicApp

  /** A plant row as the page holds it (category, image, care fields omitted). */
  datatype InvPlant = InvPlant(id: int, name: string, price: int, stock: int, lastUpdated: string)

  // ---------------------------------------------------------------------------
  // badge and tiles

  datatype StockStatus = OutOfStock | LowStock | InStock

  /** `getStockStatus(quantity)`. */
  function GetStockStatus(quantity: int): (r: StockStatus)
    ensures r == OutOfStock <==> quantity == 0
    ensures r == LowStock <==> quantity != 0 && quantity <= 5
    ensures r == InStock <==> quantity > 5
  {
    if quantity == 0 then OutOfStock
    else if quantity <= 5 then LowStock
    else InStock
  }

  function StatusText(s: StockStatus): string {
    match s
    case OutOfStock => "Out of Stock"
    case LowStock => "Low Stock"
    case InStock => "In Stock"
  }

  function StatusColor(s: StockStatus): string {
    match s
    case OutOfStock => "bg-red-100 text-red-800"
    case LowStock => "bg-yellow-100 text-yellow-800"
    case InStock => "bg-green-100 text-green-800"
  }

  /** The tests of the "In Stock", "Low Stock" and "Out of Stock" tiles. */
  predicate InStockTile(p: InvPlant) { p.stock > 5 }
  predicate LowStockTile(p: InvPlant) { p.stock > 0 && p.stock <= 5 }
  predicate OutOfStockTile(p: InvPlant) { p.stock == 0 }

  /** A stock figure no tile counts. */
  predicate Uncounted(p: InvPlant) { p.stock < 0 }

  /** The three tile figures next to the "Total Plants" figure `|plants|`. */
  datatype Tiles = Tiles(total: nat, inStock: nat, lowStock: nat, outOfStock: nat)

  function CountTiles(plants: seq<InvPlant>): (t: Tiles)
    ensures t.total == |plants|
    ensures t.inStock + t.lowStock + t.outOfStock + Seqs.Count(Uncounted, plants) == |plants|
    ensures (forall i :: 0 <= i < |plants| ==> plants[i].stock >= 0) ==>
              t.inStock + t.lowStock + t.outOfStock == t.total
  {
    TilesCover(plants);
    NoneUncounted(plants);
    Tiles(|plants|, Seqs.Count(InStockTile, plants), Seqs.Count(LowStockTile, plants),
          Seqs.Count(OutOfStockTile, plants))
  }

  /** Every plant falls in exactly one of the tiles or is uncounted. */
  lemma {:induction false} TilesCover(plants: seq<InvPlant>)
    ensures Seqs.Count(InStockTile, plants) + Seqs.Count(LowStockTile, plants)
            + Seqs.Count(OutOfStockTile, plants) + Seqs.Count(Uncounted, plants) == |plants|
  {
    if |plants| > 0 {
      TilesCover(plants[1..]);
      Seqs.CountStep(InStockTile, plants);
      Seqs.CountStep(LowStockTile, plants);
      Seqs.CountStep(OutOfStockTile, plants);
      Seqs.CountStep(Uncounted, plants);
    }
  }

  lemma {:induction false} NoneUncounted(plants: seq<InvPlant>)
    ensures (forall i :: 0 <= i < |plants| ==> plants[i].stock >= 0) ==> Seqs.Count(Uncounted, plants) == 0
  {
    if |plants| > 0 {
      NoneUncounted(plants[1..]);
      Seqs.CountStep(Uncounted, plants);
    }
  }

  /** With no negative stock each badge is the tile the plant is counted in. */
  lemma BadgeMatchesTile(p: InvPlant)
    ensures GetStockStatus(p.stock) == InStock <==> InStockTile(p)
    ensures GetStockStatus(p.stock) == OutOfStock <==> OutOfStockTile(p)
    ensures GetStockStatus(p.stock) == LowStock <==> LowStockTile(p) || Uncounted(p)
  {
  }

  /** The static page's class scale and this badge agree except at exactly 5,
      which is "Low Stock" here and unmarked there. */
  lemma StockScalesDiffer(q: int)
    ensures q != 5 ==> (PublicApp.GetStockClass(q) == "" <==> GetStockStatus(q) == InStock)
    ensures PublicApp.GetStockClass(q) == "stock-out" <==> GetStockStatus(q) == OutOfStock
    ensures PublicApp.GetStockClass(5) == "" && GetStockStatus(5) == LowStock
  {
  }

  // ---------------------------------------------------------------------------
  // list operations

  /** A plant passes the search box and the "Low Stock Only" box. */
  predicate Shown(p: InvPlant, searchTerm: string, lowStockOnly: bool) {
    Text.ContainsIgnoringCase(p.name, searchTerm) && (!lowStockOnly || p.stock <= 5)
  }

  /** `filteredPlants`. */
  function FilteredPlants(plants: seq<InvPlant>, searchTerm: string, lowStockOnly: bool): (r: seq<InvPlant>)
    ensures forall i :: 0 <= i < |r| ==> r[i] in plants && Shown(r[i], searchTerm, lowStockOnly)
    ensures forall i :: 0 <= i < |plants| && Shown(plants[i], searchTerm, lowStockOnly) ==> plants[i] in r
    ensures lowStockOnly ==> forall i :: 0 <= i < |r| ==> GetStockStatus(r[i].stock) != InStock
    ensures searchTerm == "" && !lowStockOnly ==> r == plants
  {
    var keep := (p: InvPlant) => Shown(p, searchTerm, lowStockOnly);
    if searchTerm == "" && !lowStockOnly then
      forall i | 0 <= i < |plants| ensures keep(plants[i]) {
        Text.EmptyNeedleFound(Text.ToLower(plants[i].name));
      }
      Seqs.FilterAll(keep, plants);
      Seqs.Filter(keep, plants)
    else Seqs.Filter(keep, plants)
  }

  /** The "Low Stock Only" box lets out-of-stock plants through, though their
      badge reads "Out of Stock" rather than "Low Stock". */
  lemma LowFilterIncludesOutOfStock(plants: seq<InvPlant>, searchTerm: string, i: nat)
    requires i < |plants| && plants[i].stock == 0 && Text.ContainsIgnoringCase(plants[i].name, searchTerm)
    ensures plants[i] in FilteredPlants(plants, searchTerm, true)
    ensures GetStockStatus(plants[i].stock) == OutOfStock && !LowStockTile(plants[i])
  {
  }

  /** `parseInt(e.target.value) || 0`: NaN (None) and 0 both give 0. */
  function ParseStock(input: Option<int>): int {
    match input
    case None => 0
    case Some(n) => n
  }

  /** `handleUpdateStock(plantId, newStock)`: the matching rows take the new
      stock and today's date; the others are unchanged. */
  function HandleUpdateStock(plants: seq<InvPlant>, plantId: int, input: Option<int>, today: string): (r: seq<InvPlant>)
    ensures |r| == |plants|
    ensures forall i :: 0 <= i < |plants| ==>
              if plants[i].id == plantId
              then r[i] == plants[i].(stock := ParseStock(input), lastUpdated := today)
              else r[i] == plants[i]
  {
    seq(|plants|, i requires 0 <= i < |plants| =>
      if plants[i].id == plantId then plants[i].(stock := ParseStock(input), lastUpdated := today) else plants[i])
  }

  /** `handleDeletePlant(plantId)`: after confirmation, every row with the id goes. */
  function HandleDeletePlant(plants: seq<InvPlant>, plantId: int, confirmed: bool): (r: seq<InvPlant>)
    ensures !confirmed ==> r == plants
    ensures confirmed ==> forall i :: 0 <= i < |r| ==> r[i].id != plantId && r[i] in plants
    ensures confirmed ==> forall i :: 0 <= i < |plants| && plants[i].id != plantId ==> plants[i] in r
  {
    if confirmed then Seqs.Filter((p: InvPlant) => p.id != plantId, plants) else plants
  }

  /** No stock figure on the list is negative. */
  predicate NonNegative(plants: seq<InvPlant>) {
    forall i :: 0 <= i < |plants| ==> plants[i].stock >= 0
  }

  /** The stock box's `min="0"` does not stop a typed "-3": the plant then
      shows a "Low Stock" badge that no tile counts. */
  lemma NegativeStockUncounted()
    ensures var before := [InvPlant(1, "Fern", 1000, 3, "2024-12-10")];
            var after := HandleUpdateStock(before, 1, Some(-3), "2024-12-11");
            && CountTiles(before).inStock + CountTiles(before).lowStock + CountTiles(before).outOfStock == 1
            && GetStockStatus(after[0].stock) == LowStock
            && CountTiles(after).total == 1
            && CountTiles(after).inStock + CountTiles(after).lowStock + CountTiles(after).outOfStock == 0
  {
    var before := [InvPlant(1, "Fern", 1000, 3, "2024-12-10")];
    var after := HandleUpdateStock(before, 1, Some(-3), "2024-12-11");
    assert after[0].stock == -3;
    Seqs.CountStep(InStockTile, before);
    Seqs.CountStep(LowStockTile, before);
    Seqs.CountStep(OutOfStockTile, before);
    Seqs.CountStep(InStockTile, after);
    Seqs.CountStep(LowStockTile, after);
    Seqs.CountStep(OutOfStockTile, after);
  }

  /** `handleUpdateStock` with the field's minimum enforced: a negative entry
      is read as 0. */
  function HandleUpdateStockClamped(plants: seq<InvPlant>, plantId: int, input: Option<int>, today: string): (r: seq<InvPlant>)
    ensures |r| == |plants|
    ensures forall i :: 0 <= i < |plants| && plants[i].id != plantId ==> r[i] == plants[i]
    ensures forall i :: 0 <= i < |plants| && plants[i].id == plantId ==>
              r[i].stock == (if ParseStock(input) < 0 then 0 else ParseStock(input)) && r[i].lastUpdated == today
    ensures NonNegative(plants) ==> NonNegative(r)
    ensures NonNegative(plants) ==> CountTiles(r).inStock + CountTiles(r).lowStock + CountTiles(r).outOfStock == |r|
  {
    var n := ParseStock(input);
    HandleUpdateStock(plants, plantId, if n < 0 then Some(0) else Some(n), today)
  }

  /** Deleting keeps the list free of negative stock and the tiles complete. */
  lemma DeleteKeepsTilesComplete(plants: seq<InvPlant>, plantId: int, confirmed: bool)
    requires NonNegative(plants)
    ensures var r := HandleDeletePlant(plants, plantId, confirmed);
            CountTiles(r).inStock + CountTiles(r).lowStock + CountTiles(r).outOfStock == |r|
  {
  }
}
