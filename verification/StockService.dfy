/** `StockService.setQuantity`, the only other writer of stock rows. */
module StockService {
  import opened Wrappers
  import opened Ledger
  import opened Catalog

  datatype StockError = WarehouseNotFound | ProductNotFound

  method SetQuantity(db: Database, cat: Catalog, warehouse: Id, product: Id, quantity: int)
    returns (r: Result<int, StockError>)
    requires quantity >= 0
    modifies db`stock
    ensures warehouse !in cat.warehouses ==> r == Err(WarehouseNotFound)
    ensures warehouse in cat.warehouses && product !in cat.products ==> r == Err(ProductNotFound)
    ensures r.Err? ==> db.stock == old(db.stock)
    ensures r.Ok? ==> Apply(old(db.View()), QuantitySet(StockKey(warehouse, product), quantity)) == Some(db.View())
    ensures r.Ok? ==> r.value == quantity && db.stock == old(db.stock)[StockKey(warehouse, product) := quantity]
    ensures r.Ok? <==> warehouse in cat.warehouses && product in cat.products
  {
    if warehouse !in cat.warehouses {
      return Err(WarehouseNotFound);
    }
    if product !in cat.products {
      return Err(ProductNotFound);
    }
    var key := StockKey(warehouse, product);
    RunSingle(db.stock, Put(key, quantity));
    db.stock := db.stock[key := quantity];
    return Ok(quantity);
  }
}
