/** `DeliveryCalcService.quote`: merging the order, its subtotal and weight, and the eligible warehouses. */
module DeliveryQuote {
  import opened Money
  import opened Ledger
  import opened LedgerProofs
  import opened Catalog
  import opened DealsService

  // ----- the merged order

  function Requested(items: seq<OrderLine>, p: Id): int {
    if items == [] then 0
    else
      var last := items[|items| - 1];
      Requested(items[..|items| - 1], p) + (if last.product == p then last.quantity else 0)
  }

  ghost predicate Merges(m: map<Id, int>, items: seq<OrderLine>) {
    && (forall p :: p in m <==> exists i | 0 <= i < |items| :: items[i].product == p)
    && (forall p | p in m :: m[p] == Requested(items, p))
  }

  /** The running map of requested quantities; a product named twice is merged. */
  method MergeItems(items: seq<OrderLine>) returns (m: map<Id, int>)
    ensures Merges(m, items)
  {
    m := map[];
    for i := 0 to |items|
      invariant Merges(m, items[..i])
    {
      var line := items[i];
      MergesSnoc(m, items[..i], line);
      assert items[..i + 1] == items[..i] + [line];
      m := m[line.product := (if line.product in m then m[line.product] else 0) + line.quantity];
    }
    assert items[..|items|] == items;
  }

  lemma MergesSnoc(m: map<Id, int>, items: seq<OrderLine>, line: OrderLine)
    requires Merges(m, items)
    ensures Merges(m[line.product := (if line.product in m then m[line.product] else 0) + line.quantity],
                   items + [line])
  {
    var next := items + [line];
    assert next[..|items|] == items && next[|items|] == line;
    if line.product !in m {
      NotRequested(items, line.product);
    }
    forall p | p in m ensures exists j | 0 <= j < |next| :: next[j].product == p {
      var j :| 0 <= j < |items| && items[j].product == p;
      assert next[j].product == p;
    }
  }

  lemma {:induction false} NotRequested(items: seq<OrderLine>, p: Id)
    requires forall i | 0 <= i < |items| :: items[i].product != p
    ensures Requested(items, p) == 0
  {
    if items != [] {
      NotRequested(items[..|items| - 1], p);
    }
  }

  // ----- subtotal, weight and markup

  function Price(cat: Catalog): Id -> int {
    (p: Id) => if p in cat.products then cat.products[p].price else 0
  }

  /** In hundredths of a kilogram; a product without a weight adds nothing. */
  function Weight(cat: Catalog): Id -> int {
    (p: Id) => if p in cat.products && cat.products[p].weight.Some? then cat.products[p].weight.value else 0
  }

  function QuantityIn(m: map<Id, int>, p: Id): int {
    if p in m then m[p] else 0
  }

  /** The sum over the products, in whatever order the table returns them. */
  function MergedSum(f: Id -> int, products: seq<Id>, m: map<Id, int>): int {
    if products == [] then 0
    else
      var p := products[|products| - 1];
      MergedSum(f, products[..|products| - 1], m) + f(p) * QuantityIn(m, p)
  }

  /** The sum over the order, line by line. */
  function LineSum(f: Id -> int, items: seq<OrderLine>): int {
    if items == [] then 0
    else LineSum(f, items[..|items| - 1]) + f(items[|items| - 1].product) * items[|items| - 1].quantity
  }

  method SumProducts(cat: Catalog, products: seq<Id>, m: map<Id, int>) returns (subtotal: int, totalWeight: int)
    requires forall p | p in products :: p in cat.products
    ensures subtotal == MergedSum(Price(cat), products, m) && totalWeight == MergedSum(Weight(cat), products, m)
  {
    subtotal, totalWeight := 0, 0;
    for i := 0 to |products|
      invariant subtotal == MergedSum(Price(cat), products[..i], m)
      invariant totalWeight == MergedSum(Weight(cat), products[..i], m)
    {
      assert products[..i + 1][..i] == products[..i];
      var product, quantity := cat.products[products[i]], QuantityIn(m, products[i]);
      subtotal := subtotal + product.price * quantity;
      if product.weight.Some? {
        totalWeight := totalWeight + product.weight.value * quantity;
      }
    }
    assert products[..|products|] == products;
  }

  ghost predicate Distinct(products: seq<Id>) {
    forall i, j | 0 <= i < j < |products| :: products[i] != products[j]
  }

  /** Requested quantities as a map of its own, to sum over. */
  function RequestedMap(items: seq<OrderLine>, products: seq<Id>): map<Id, int> {
    map p | p in products :: Requested(items, p)
  }

  lemma {:induction false} SumOfNothing(f: Id -> int, products: seq<Id>, m: map<Id, int>)
    requires forall p | p in m :: m[p] == 0
    ensures MergedSum(f, products, m) == 0
  {
    if products != [] {
      SumOfNothing(f, products[..|products| - 1], m);
    }
  }

  /** Raising one product's quantity raises the sum by its value times the rise. */
  lemma {:induction false} SumWithMore(f: Id -> int, products: seq<Id>, m: map<Id, int>, n: map<Id, int>, x: Id, q: int)
    requires Distinct(products)
    requires forall p | p in products :: QuantityIn(n, p) == QuantityIn(m, p) + (if p == x then q else 0)
    ensures MergedSum(f, products, n) == MergedSum(f, products, m) + (if x in products then f(x) * q else 0)
  {
    if products != [] {
      var rest, p := products[..|products| - 1], products[|products| - 1];
      SumWithMore(f, rest, m, n, x, q);
      assert p in products;
      if p == x {
        assert f(p) * (QuantityIn(m, p) + q) == f(p) * QuantityIn(m, p) + f(p) * q;
      }
    }
  }

  lemma {:induction false} SumOfRequested(f: Id -> int, items: seq<OrderLine>, products: seq<Id>)
    requires Distinct(products) && forall i | 0 <= i < |items| :: items[i].product in products
    ensures MergedSum(f, products, RequestedMap(items, products)) == LineSum(f, items)
  {
    if items == [] {
      SumOfNothing(f, products, RequestedMap(items, products));
    } else {
      var rest, last := items[..|items| - 1], items[|items| - 1];
      SumOfRequested(f, rest, products);
      SumWithMore(f, products, RequestedMap(rest, products), RequestedMap(items, products),
                  last.product, last.quantity);
    }
  }

  lemma {:induction false} SumDependsOnQuantities(f: Id -> int, products: seq<Id>, m: map<Id, int>, n: map<Id, int>)
    requires forall p | p in products :: QuantityIn(m, p) == QuantityIn(n, p)
    ensures MergedSum(f, products, m) == MergedSum(f, products, n)
  {
    if products != [] {
      SumDependsOnQuantities(f, products[..|products| - 1], m, n);
    }
  }

  /** Summing over the merged products, in any order, is summing over the order line by line. */
  lemma MergedIsLineByLine(f: Id -> int, items: seq<OrderLine>, m: map<Id, int>, products: seq<Id>)
    requires Merges(m, items) && Distinct(products) && forall p :: p in products <==> p in m
    ensures MergedSum(f, products, m) == LineSum(f, items)
  {
    SumOfRequested(f, items, products);
    SumDependsOnQuantities(f, products, m, RequestedMap(items, products));
  }

  lemma {:induction false} LinesArePriced(cat: Catalog, items: seq<OrderLine>)
    requires Known(cat, items)
    ensures LineSum(Price(cat), items) == Subtotal(Priced(cat, items))
  {
    if items != [] {
      var rest := items[..|items| - 1];
      LinesArePriced(cat, rest);
      assert Priced(cat, items)[..|items| - 1] == Priced(cat, rest);
    }
  }

  /** The weight of the order, line by line; a product without a weight weighs nothing. */
  function OrderWeight(cat: Catalog, items: seq<OrderLine>): int
    requires Known(cat, items)
  {
    if items == [] then 0
    else
      var last := items[|items| - 1];
      OrderWeight(cat, items[..|items| - 1])
      + (match cat.products[last.product].weight case Some(w) => w * last.quantity case None => 0)
  }

  lemma {:induction false} LinesAreWeighed(cat: Catalog, items: seq<OrderLine>)
    requires Known(cat, items)
    ensures LineSum(Weight(cat), items) == OrderWeight(cat, items)
  {
    if items != [] {
      LinesAreWeighed(cat, items[..|items| - 1]);
    }
  }

  /** The quote's weight is the order's, repeated products included and in any product order. */
  lemma QuoteWeighsTheOrder(cat: Catalog, items: seq<OrderLine>, m: map<Id, int>, products: seq<Id>)
    requires Known(cat, items) && Merges(m, items)
    requires Distinct(products) && forall p :: p in products <==> p in m
    ensures MergedSum(Weight(cat), products, m) == OrderWeight(cat, items)
  {
    MergedIsLineByLine(Weight(cat), items, m, products);
    LinesAreWeighed(cat, items);
  }

  /** What the quote adds for a legal entity that wants a VAT invoice. */
  function QuoteMarkup(cat: Catalog, legalEntity: bool, vatInvoice: bool, subtotal: int): real {
    if legalEntity && vatInvoice then Percent(subtotal as real, cat.markupPercent) else 0.0
  }

  /** For every order, repeated products included, the quote's subtotal is the sum of the order's lines,
      and for the same buyer type and VAT flag its markup is the one `create` charges. */
  lemma QuoteCostsWhatCreateCosts(cat: Catalog, deals: seq<Deal>, dto: CreateDto, user: CurrentUser,
                                  m: map<Id, int>, products: seq<Id>)
    requires Known(cat, dto.items) && Merges(m, dto.items)
    requires Distinct(products) && forall p :: p in products <==> p in m
    requires dto.lead in cat.leads
    ensures MergedSum(Price(cat), products, m) == Subtotal(Priced(cat, dto.items))
    ensures var subtotal := Subtotal(Priced(cat, dto.items));
            Negotiate(cat, deals, dto, user, subtotal).Ok? ==>
              Negotiate(cat, deals, dto, user, subtotal).value.markup
              == QuoteMarkup(cat, cat.leads[dto.lead].legalEntity, dto.vatInvoice, MergedSum(Price(cat), products, m))
  {
    MergedIsLineByLine(Price(cat), dto.items, m, products);
    LinesArePriced(cat, dto.items);
  }

  // ----- eligible warehouses

  datatype StockRow = StockRow(warehouse: Id, product: Id, quantity: int)

  /** The stock table's rows for the requested products, each key once. */
  ghost predicate RowsOf(rows: seq<StockRow>, stock: Stock, m: map<Id, int>) {
    && (forall i | 0 <= i < |rows| ::
          && StockKey(rows[i].warehouse, rows[i].product) in stock
          && stock[StockKey(rows[i].warehouse, rows[i].product)] == rows[i].quantity)
    && (forall w, p | p in m && StockKey(w, p) in stock ::
          exists i | 0 <= i < |rows| :: rows[i].warehouse == w && rows[i].product == p)
  }

  predicate Covers(available: map<Id, int>, m: map<Id, int>) {
    forall p | p in m :: QuantityIn(available, p) >= m[p]
  }

  /** What the loop over the first `n` rows has collected. */
  ghost predicate Collected(grouped: map<Id, map<Id, int>>, rows: seq<StockRow>, cat: Catalog) {
    && (forall w | w in grouped :: IsActive(cat, w))
    && (forall w, p | w in grouped && p in grouped[w] ::
          exists i | 0 <= i < |rows| :: rows[i] == StockRow(w, p, grouped[w][p]))
    && (forall i | 0 <= i < |rows| && IsActive(cat, rows[i].warehouse) ::
          rows[i].warehouse in grouped && rows[i].product in grouped[rows[i].warehouse])
  }

  predicate IsActive(cat: Catalog, w: Id) {
    w in cat.warehouses && cat.warehouses[w].active
  }

  method GroupStock(rows: seq<StockRow>, cat: Catalog) returns (grouped: map<Id, map<Id, int>>)
    ensures Collected(grouped, rows, cat)
  {
    grouped := map[];
    for n := 0 to |rows|
      invariant Collected(grouped, rows[..n], cat)
    {
      var row := rows[n];
      ghost var before, next := grouped, rows[..n + 1];
      if IsActive(cat, row.warehouse) {
        var perProduct := if row.warehouse in grouped then grouped[row.warehouse] else map[];
        grouped := grouped[row.warehouse := perProduct[row.product := row.quantity]];
      }
      forall w, p | w in grouped && p in grouped[w]
        ensures exists i | 0 <= i < |next| :: next[i] == StockRow(w, p, grouped[w][p])
      {
        if w in before && p in before[w] && grouped[w][p] == before[w][p] {
          var i :| 0 <= i < n && rows[..n][i] == StockRow(w, p, before[w][p]);
          assert next[i] == rows[..n][i];
        } else {
          assert next[n] == row;
        }
      }
      forall i | 0 <= i < |next| && IsActive(cat, next[i].warehouse)
        ensures next[i].warehouse in grouped && next[i].product in grouped[next[i].warehouse]
      {
        if i < n {
          assert rows[..n][i] == next[i];
        }
      }
    }
    assert rows[..|rows|] == rows;
  }

  /** A warehouse passes the filter. */
  predicate Eligible(grouped: map<Id, map<Id, int>>, m: map<Id, int>, w: Id) {
    w in grouped && Covers(grouped[w], m)
  }

  lemma EligibleIff(grouped: map<Id, map<Id, int>>, rows: seq<StockRow>, stock: Stock, cat: Catalog,
                    m: map<Id, int>, w: Id)
    requires Collected(grouped, rows, cat) && RowsOf(rows, stock, m)
    requires m != map[] && forall p | p in m :: m[p] >= 1
    ensures Eligible(grouped, m, w) <==>
            && w in cat.warehouses && cat.warehouses[w].active
            && forall p | p in m :: OnHand(stock, StockKey(w, p)) >= m[p]
  {
    if Eligible(grouped, m, w) {
      forall p | p in m ensures OnHand(stock, StockKey(w, p)) >= m[p] {
        assert p in grouped[w];
        var i :| 0 <= i < |rows| && rows[i] == StockRow(w, p, grouped[w][p]);
      }
    }
    if IsActive(cat, w) && forall p | p in m :: OnHand(stock, StockKey(w, p)) >= m[p] {
      forall p | p in m ensures w in grouped && QuantityIn(grouped[w], p) >= m[p] {
        assert StockKey(w, p) in stock;
        var i :| 0 <= i < |rows| && rows[i].warehouse == w && rows[i].product == p;
        var j :| 0 <= j < |rows| && rows[j] == StockRow(w, p, grouped[w][p]);
      }
      var p :| p in m;
      assert w in grouped;
    }
  }

  lemma {:induction false} DistinctRequested(items: seq<OrderLine>, i: nat)
    requires DistinctProducts(items) && i < |items|
    ensures Requested(items, items[i].product) == items[i].quantity
  {
    var rest, last := items[..|items| - 1], items[|items| - 1];
    if i < |items| - 1 {
      DistinctRequested(rest, i);
    } else {
      NotRequested(rest, last.product);
    }
  }

  /** For an order without repeated products and unchanged stock, the quote lists an active warehouse
      exactly when `create`'s item-by-item reservation succeeds there. */
  lemma QuoteAgreesWithCreate(grouped: map<Id, map<Id, int>>, rows: seq<StockRow>, stock: Stock, cat: Catalog,
                              items: seq<OrderLine>, m: map<Id, int>, w: Id)
    requires Collected(grouped, rows, cat) && RowsOf(rows, stock, m)
    requires Known(cat, items) && items != [] && DistinctProducts(items) && PositiveQuantities(items)
    requires Merges(m, items)
    ensures Eligible(grouped, m, w) <==>
            && w in cat.warehouses && cat.warehouses[w].active
            && RunOps(stock, Takes(w, Priced(cat, items))).Some?
  {
    var lines := Priced(cat, items);
    forall i | 0 <= i < |items| ensures items[i].product in m && m[items[i].product] == items[i].quantity {
      DistinctRequested(items, i);
    }
    forall p | p in m
      ensures m[p] >= 1 && exists i | 0 <= i < |items| :: items[i].product == p && m[p] == items[i].quantity
    {
      var i :| 0 <= i < |items| && items[i].product == p;
    }
    assert items[0].product in m;
    EligibleIff(grouped, rows, stock, cat, m, w);
    ReservationSucceedsIff(stock, w, lines);
    if forall i | 0 <= i < |lines| :: OnHand(stock, StockKey(w, lines[i].product)) >= lines[i].quantity {
      forall p | p in m ensures OnHand(stock, StockKey(w, p)) >= m[p] {
        var i :| 0 <= i < |items| && items[i].product == p && m[p] == items[i].quantity;
        assert lines[i].product == p;
      }
    }
  }
}
