/** The rows other services only read: leads, users, warehouses, products, delivery options and quotes. */
module Catalog {
  import opened Wrappers
  import opened Ledger

  datatype Role = OWNER | MANAGER

  datatype User = User(role: Role, commissionPercent: real, maxDiscountPercent: real, baseSalary: int)

  datatype CurrentUser = CurrentUser(id: Id, role: Role)

  datatype Lead = Lead(responsible: Option<Id>, legalEntity: bool)

  datatype Warehouse = Warehouse(city: string, active: bool)

  /** Prices and weights are columns with two decimals: whole kopecks, hundredths of a kilogram. */
  datatype Product = Product(price: int, weight: Option<int>)

  datatype Catalog = Catalog(leads: map<Id, Lead>, users: map<Id, User>, warehouses: map<Id, Warehouse>,
                             products: map<Id, Product>, optionPrices: map<Id, int>, quoteCosts: map<Id, int>,
                             markupPercent: real)

  ghost predicate CatalogOk(cat: Catalog) {
    && (forall p | p in cat.products :: cat.products[p].price >= 0)
    && (forall o | o in cat.optionPrices :: cat.optionPrices[o] >= 0)
    && (forall q | q in cat.quoteCosts :: cat.quoteCosts[q] >= 0)
    && (forall u | u in cat.users :: 0.0 <= cat.users[u].commissionPercent <= 100.0 && cat.users[u].baseSalary >= 0)
    && cat.markupPercent >= 0.0
  }

  datatype OrderLine = OrderLine(product: Id, quantity: int)

  predicate DistinctProducts(items: seq<OrderLine>) {
    forall i, j | 0 <= i < j < |items| :: items[i].product != items[j].product
  }

  /** `quantity` is validated to be at least one before the services see an order. */
  ghost predicate PositiveQuantities(items: seq<OrderLine>) {
    forall i | 0 <= i < |items| :: items[i].quantity >= 1
  }
}
