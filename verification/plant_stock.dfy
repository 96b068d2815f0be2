/** The plants table as the order controller sees it. The controller calls
    `Plant.getPlantById` and `Plant.updatePlantStock`, which backend/models/Plant.js
    does not define; they are modelled as a lookup and an add-delta update on a
    map from plant id to the row's name, price (integer cents) and stock. */
module PlantStock {
  import opened Wrappers

  datatype PlantRecord = PlantRecord(name: string, price: int, stock: int)

  type Catalog = map<int, PlantRecord>

  /** `getPlantById(id)`: the row, or null. */
  function GetPlantById(catalog: Catalog, id: int): (r: Option<PlantRecord>)
    ensures r.Some? <==> id in catalog
    ensures r.Some? ==> r.value == catalog[id]
  {
    if id in catalog then Some(catalog[id]) else None
  }

  /** `updatePlantStock(id, delta)`: adds `delta` to one plant's stock, like an
      `UPDATE ... SET stock_quantity = stock_quantity + delta WHERE plant_id = id`;
      an unknown id matches no row and changes nothing. */
  function UpdatePlantStock(catalog: Catalog, id: int, delta: int): (r: Catalog)
    ensures r.Keys == catalog.Keys
    ensures id in catalog ==> r[id] == catalog[id].(stock := catalog[id].stock + delta)
    ensures forall p :: p in catalog && p != id ==> r[p] == catalog[p]
  {
    if id in catalog then catalog[id := catalog[id].(stock := catalog[id].stock + delta)] else catalog
  }

  /** Adding a delta and then its negation restores the catalog. */
  lemma UpdatePlantStockUndo(catalog: Catalog, id: int, delta: int)
    ensures UpdatePlantStock(UpdatePlantStock(catalog, id, delta), id, -delta) == catalog
  {
    var r := UpdatePlantStock(UpdatePlantStock(catalog, id, delta), id, -delta);
    assert forall p :: p in catalog ==> r[p] == catalog[p];
  }

  /** Every plant's stock is at least zero. */
  ghost predicate NonNegativeStock(catalog: Catalog) {
    forall p :: p in catalog ==> catalog[p].stock >= 0
  }
}
