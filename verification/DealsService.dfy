/**
 * `DealsService`: what a deal costs, the reservation of its goods, and the
 * status changes that give them back. Amounts are counted in kopecks.
 */
module DealsService {
  import opened Wrappers
  import opened Money
  import opened DealStatus
  import opened Ledger
  import opened LedgerProofs
  import opened Catalog

  datatype CreateDto = CreateDto(lead: Id, warehouse: Id, items: seq<OrderLine>, discount: Option<real>,
                                 vatInvoice: bool, deliveryOption: Option<Id>, deliveryQuote: Option<Id>,
                                 deliveryCost: Option<real>)

  datatype CreateError =
    | LeadNotFound | WarehouseNotFound | DuplicateProduct | ProductNotFound | UserMissing
    | DiscountAboveSubtotal | DiscountAboveCap
    | SeveralDeliveries | OptionNotFound | QuoteNotFound | QuoteAlreadyLinked
    | OutOfStock(product: Id)

  ghost predicate DtoOk(dto: CreateDto) {
    && PositiveQuantities(dto.items)
    && (dto.discount.Some? ==> dto.discount.value >= 0.0)
    && (dto.deliveryCost.Some? ==> dto.deliveryCost.value >= 0.0)
  }

  // ----- checks and prices

  predicate LeadAccessible(cat: Catalog, lead: Id, user: CurrentUser) {
    lead in cat.leads && (user.role == MANAGER ==> cat.leads[lead].responsible == Some(user.id))
  }

  function Admit(cat: Catalog, dto: CreateDto, user: CurrentUser): Option<CreateError> {
    if !LeadAccessible(cat, dto.lead, user) then Some(LeadNotFound)
    else if dto.warehouse !in cat.warehouses || !cat.warehouses[dto.warehouse].active then Some(WarehouseNotFound)
    else if !DistinctProducts(dto.items) then Some(DuplicateProduct)
    else if exists i | 0 <= i < |dto.items| :: dto.items[i].product !in cat.products then Some(ProductNotFound)
    else None
  }

  ghost predicate Known(cat: Catalog, items: seq<OrderLine>) {
    forall i | 0 <= i < |items| :: items[i].product in cat.products
  }

  ghost function Priced(cat: Catalog, items: seq<OrderLine>): seq<Item>
    requires Known(cat, items)
  {
    seq(|items|, i requires 0 <= i < |items| =>
      var price := cat.products[items[i].product].price;
      Item(items[i].product, items[i].quantity, price, price * items[i].quantity))
  }

  function Subtotal(lines: seq<Item>): int {
    if lines == [] then 0 else Subtotal(lines[..|lines| - 1]) + lines[|lines| - 1].subtotal
  }

  datatype Delivery = Delivery(cost: real, quote: Option<Id>)

  function ResolveDelivery(cat: Catalog, deals: seq<Deal>, dto: CreateDto): Result<Delivery, CreateError> {
    var provided := (if dto.deliveryOption.Some? then 1 else 0) + (if dto.deliveryQuote.Some? then 1 else 0)
                    + (if dto.deliveryCost.Some? then 1 else 0);
    if provided > 1 then Err(SeveralDeliveries)
    else if dto.deliveryOption.Some? && dto.deliveryOption.value != "" then
      if dto.deliveryOption.value in cat.optionPrices
      then Ok(Delivery(cat.optionPrices[dto.deliveryOption.value] as real, None)) else Err(OptionNotFound)
    else if dto.deliveryQuote.Some? && dto.deliveryQuote.value != "" then
      if dto.deliveryQuote.value !in cat.quoteCosts then Err(QuoteNotFound)
      else if !UnlinkedQuote(deals, dto.deliveryQuote) then Err(QuoteAlreadyLinked)
      else Ok(Delivery(cat.quoteCosts[dto.deliveryQuote.value] as real, dto.deliveryQuote))
    else if dto.deliveryCost.Some? then Ok(Delivery(dto.deliveryCost.value, None))
    else Ok(Delivery(0.0, None))
  }

  /** The exact terms of a deal, before any column rounds them. */
  datatype Terms = Terms(manager: Id, commissionPercent: real, discount: real, delivery: Delivery, markup: real)

  function Negotiate(cat: Catalog, deals: seq<Deal>, dto: CreateDto, user: CurrentUser, subtotal: int):
    Result<Terms, CreateError>
    requires dto.lead in cat.leads
  {
    var lead := cat.leads[dto.lead];
    var manager := if lead.responsible.Some? then lead.responsible.value else user.id;
    var discount := if dto.discount.Some? then dto.discount.value else 0.0;
    if manager !in cat.users then Err(UserMissing)
    else if discount > subtotal as real then Err(DiscountAboveSubtotal)
    else if user.role == MANAGER && user.id !in cat.users then Err(UserMissing)
    else if user.role == MANAGER && discount > Percent(subtotal as real, cat.users[user.id].maxDiscountPercent)
    then Err(DiscountAboveCap)
    else match ResolveDelivery(cat, deals, dto)
      case Err(e) => Err(e)
      case Ok(delivery) =>
        var markup := if lead.legalEntity && dto.vatInvoice then Percent(subtotal as real, cat.markupPercent) else 0.0;
        Ok(Terms(manager, cat.users[manager].commissionPercent, discount, delivery, markup))
  }

  function ExactTotal(t: Terms, subtotal: int): real {
    subtotal as real - t.discount + t.delivery.cost + t.markup
  }

  function DealRow(warehouse: Id, lines: seq<Item>, subtotal: int, t: Terms, now: Time): Deal {
    var total := ExactTotal(t, subtotal);
    Deal(t.manager, Some(warehouse), lines, t.delivery.quote,
         Amounts(Stored(t.discount), Stored(t.delivery.cost), Stored(t.markup), Stored(total),
                 t.commissionPercent, Stored(Percent(total, t.commissionPercent))),
         NEW, now, None, None)
  }

  /** Everything `create` decides before its transaction: an error or the row to insert. */
  ghost function Prepare(cat: Catalog, deals: seq<Deal>, dto: CreateDto, user: CurrentUser, now: Time):
    Result<Deal, CreateError>
  {
    var refusal := Admit(cat, dto, user);
    if refusal.Some? then Err(refusal.value)
    else
      var lines := Priced(cat, dto.items);
      match Negotiate(cat, deals, dto, user, Subtotal(lines))
      case Err(e) => Err(e)
      case Ok(t) => Ok(DealRow(dto.warehouse, lines, Subtotal(lines), t, now))
  }

  lemma {:induction false} SubtotalNonNegative(lines: seq<Item>)
    requires forall i | 0 <= i < |lines| :: lines[i].subtotal >= 0
    ensures Subtotal(lines) >= 0
  {
    if lines != [] {
      SubtotalNonNegative(lines[..|lines| - 1]);
    }
  }

  lemma TermsAreNonNegative(cat: Catalog, deals: seq<Deal>, dto: CreateDto, user: CurrentUser, subtotal: int)
    requires CatalogOk(cat) && DtoOk(dto) && dto.lead in cat.leads && subtotal >= 0
    requires Negotiate(cat, deals, dto, user, subtotal).Ok?
    ensures var t := Negotiate(cat, deals, dto, user, subtotal).value;
            0.0 <= t.discount <= subtotal as real && t.delivery.cost >= 0.0 && t.markup >= 0.0
            && 0.0 <= t.commissionPercent <= 100.0
  {
  }

  lemma PricedSubtotal(cat: Catalog, items: seq<OrderLine>)
    requires CatalogOk(cat) && PositiveQuantities(items) && Known(cat, items)
    ensures Subtotal(Priced(cat, items)) >= 0
  {
    forall i | 0 <= i < |items| ensures Priced(cat, items)[i].subtotal >= 0 {
      PriceNonNegative(cat.products[items[i].product].price, items[i].quantity);
    }
    SubtotalNonNegative(Priced(cat, items));
  }

  lemma PriceNonNegative(price: int, quantity: int)
    requires price >= 0 && quantity >= 0
    ensures price * quantity >= 0
  {
  }

  /** A row that `create` prepares is one its transaction may insert, and it links a free quote. */
  lemma PreparedDealIsNew(cat: Catalog, deals: seq<Deal>, dto: CreateDto, user: CurrentUser, now: Time)
    requires CatalogOk(cat) && DtoOk(dto) && Prepare(cat, deals, dto, user, now).Ok?
    ensures NewDeal(Prepare(cat, deals, dto, user, now).value)
    ensures UnlinkedQuote(deals, Prepare(cat, deals, dto, user, now).value.quote)
  {
    var lines := Priced(cat, dto.items);
    PricedSubtotal(cat, dto.items);
    TermsAreNonNegative(cat, deals, dto, user, Subtotal(lines));
    var t := Negotiate(cat, deals, dto, user, Subtotal(lines)).value;
    PercentBounds(ExactTotal(t, Subtotal(lines)), t.commissionPercent);
  }

  /** What the order is worth, for an order of known products. */
  ghost function Worth(cat: Catalog, items: seq<OrderLine>): real
    requires Known(cat, items)
  {
    Subtotal(Priced(cat, items)) as real
  }

  ghost function GivenDiscount(dto: CreateDto): real {
    if dto.discount.Some? then dto.discount.value else 0.0
  }

  ghost predicate DiscountAllowed(cat: Catalog, user: CurrentUser, discount: real, worth: real) {
    && discount <= worth
    && (user.role == MANAGER ==>
          user.id in cat.users && 100.0 * discount <= worth * cat.users[user.id].maxDiscountPercent)
  }

  /** At most one way of delivery is given, and what it names exists and is free. */
  ghost predicate DeliveryAllowed(cat: Catalog, deals: seq<Deal>, dto: CreateDto) {
    && (dto.deliveryOption.Some? ==> dto.deliveryQuote.None? && dto.deliveryCost.None?)
    && (dto.deliveryQuote.Some? ==> dto.deliveryCost.None?)
    && (dto.deliveryOption.Some? && dto.deliveryOption.value != "" ==> dto.deliveryOption.value in cat.optionPrices)
    && (dto.deliveryQuote.Some? && dto.deliveryQuote.value != "" ==>
          && dto.deliveryQuote.value in cat.quoteCosts
          && forall i | 0 <= i < |deals| :: deals[i].quote != dto.deliveryQuote)
  }

  ghost predicate OrderAllowed(cat: Catalog, dto: CreateDto, user: CurrentUser) {
    && dto.lead in cat.leads && (user.role == MANAGER ==> cat.leads[dto.lead].responsible == Some(user.id))
    && dto.warehouse in cat.warehouses && cat.warehouses[dto.warehouse].active
    && DistinctProducts(dto.items) && Known(cat, dto.items)
  }

  ghost function Recipient(cat: Catalog, dto: CreateDto, user: CurrentUser): Id
    requires dto.lead in cat.leads
  {
    if cat.leads[dto.lead].responsible.Some? then cat.leads[dto.lead].responsible.value else user.id
  }

  /** Whatever the order of the checks: exactly the orders that break no rule reach the transaction. */
  lemma PrepareAcceptsIff(cat: Catalog, deals: seq<Deal>, dto: CreateDto, user: CurrentUser, now: Time)
    ensures Prepare(cat, deals, dto, user, now).Ok? <==>
            && OrderAllowed(cat, dto, user)
            && Recipient(cat, dto, user) in cat.users
            && DiscountAllowed(cat, user, GivenDiscount(dto), Worth(cat, dto.items))
            && DeliveryAllowed(cat, deals, dto)
  {
  }

  /** The order really breaks the rule that the error names. */
  ghost predicate RuleBroken(cat: Catalog, deals: seq<Deal>, dto: CreateDto, user: CurrentUser, e: CreateError) {
    match e
    case LeadNotFound =>
      dto.lead in cat.leads ==> user.role == MANAGER && cat.leads[dto.lead].responsible != Some(user.id)
    case WarehouseNotFound => dto.warehouse in cat.warehouses ==> !cat.warehouses[dto.warehouse].active
    case DuplicateProduct => exists i, j | 0 <= i < j < |dto.items| :: dto.items[i].product == dto.items[j].product
    case ProductNotFound => exists i | 0 <= i < |dto.items| :: dto.items[i].product !in cat.products
    case UserMissing =>
      && dto.lead in cat.leads
      && (Recipient(cat, dto, user) !in cat.users || (user.role == MANAGER && user.id !in cat.users))
    case DiscountAboveSubtotal =>
      Known(cat, dto.items) && GivenDiscount(dto) > Worth(cat, dto.items)
    case DiscountAboveCap =>
      && user.role == MANAGER && user.id in cat.users && Known(cat, dto.items)
      && 100.0 * GivenDiscount(dto) > Worth(cat, dto.items) * cat.users[user.id].maxDiscountPercent
    case SeveralDeliveries =>
      || (dto.deliveryOption.Some? && dto.deliveryQuote.Some?)
      || (dto.deliveryCost.Some? && (dto.deliveryOption.Some? || dto.deliveryQuote.Some?))
    case OptionNotFound => !NotGiven(dto.deliveryOption) && dto.deliveryOption.value !in cat.optionPrices
    case QuoteNotFound => !NotGiven(dto.deliveryQuote) && dto.deliveryQuote.value !in cat.quoteCosts
    case QuoteAlreadyLinked =>
      dto.deliveryQuote.Some? && exists i | 0 <= i < |deals| :: deals[i].quote == dto.deliveryQuote
    case OutOfStock(_) => false
  }

  /** A refusal before the transaction names a rule that the order breaks. */
  lemma RefusalNamesABrokenRule(cat: Catalog, deals: seq<Deal>, dto: CreateDto, user: CurrentUser, now: Time)
    requires Prepare(cat, deals, dto, user, now).Err?
    ensures RuleBroken(cat, deals, dto, user, Prepare(cat, deals, dto, user, now).error)
  {
  }

  predicate NotGiven(id: Option<Id>) {
    id.None? || id.value == ""
  }

  /** The price of the one way of delivery the order names; an empty name or none at all costs nothing. */
  ghost predicate DeliveryPriced(cat: Catalog, dto: CreateDto, stored: int) {
    && (!NotGiven(dto.deliveryOption) ==>
          dto.deliveryOption.value in cat.optionPrices && stored == cat.optionPrices[dto.deliveryOption.value])
    && (!NotGiven(dto.deliveryQuote) ==>
          dto.deliveryQuote.value in cat.quoteCosts && stored == cat.quoteCosts[dto.deliveryQuote.value])
    && (dto.deliveryCost.Some? ==> Near(stored, dto.deliveryCost.value))
    && (NotGiven(dto.deliveryOption) && NotGiven(dto.deliveryQuote) && dto.deliveryCost.None? ==> stored == 0)
  }

  ghost predicate MarkupDue(cat: Catalog, dto: CreateDto)
    requires dto.lead in cat.leads
  {
    cat.leads[dto.lead].legalEntity && dto.vatInvoice
  }

  /** The row says what was ordered, line by line at the current prices, names the manager who earns the
      commission and that manager's percentage, and stores each negotiated amount to the nearest kopeck. */
  lemma PreparedDealFollowsOrder(cat: Catalog, deals: seq<Deal>, dto: CreateDto, user: CurrentUser, now: Time)
    requires Prepare(cat, deals, dto, user, now).Ok?
    ensures dto.lead in cat.leads && Recipient(cat, dto, user) in cat.users && Known(cat, dto.items)
    ensures var d := Prepare(cat, deals, dto, user, now).value;
            && d.manager == Recipient(cat, dto, user) && d.warehouse == Some(dto.warehouse) && d.createdAt == now
            && d.amounts.commissionPercent == cat.users[d.manager].commissionPercent
            && |d.items| == |dto.items|
            && (forall i | 0 <= i < |d.items| ::
                  && d.items[i].product == dto.items[i].product && d.items[i].quantity == dto.items[i].quantity
                  && d.items[i].unitPrice == cat.products[d.items[i].product].price
                  && d.items[i].subtotal == d.items[i].unitPrice * d.items[i].quantity)
            && (dto.discount.Some? ==> Near(d.amounts.discount, dto.discount.value))
            && (dto.discount.None? ==> d.amounts.discount == 0)
            && DeliveryPriced(cat, dto, d.amounts.deliveryCost)
            && (MarkupDue(cat, dto) ==> Near(d.amounts.markup, Percent(Worth(cat, dto.items), cat.markupPercent)))
            && (!MarkupDue(cat, dto) ==> d.amounts.markup == 0)
            && d.quote == (if NotGiven(dto.deliveryQuote) then None else dto.deliveryQuote)
  {
    var t := Negotiate(cat, deals, dto, user, Subtotal(Priced(cat, dto.items))).value;
    StoredIsNearest(t.discount);
    StoredIsNearest(t.delivery.cost);
    StoredIsNearest(t.markup);
  }

  /** What delivery costs the buyer of an order whose delivery is allowed. */
  ghost function NamedDelivery(cat: Catalog, dto: CreateDto): real {
    if !NotGiven(dto.deliveryOption) && dto.deliveryOption.value in cat.optionPrices
    then cat.optionPrices[dto.deliveryOption.value] as real
    else if !NotGiven(dto.deliveryQuote) && dto.deliveryQuote.value in cat.quoteCosts
    then cat.quoteCosts[dto.deliveryQuote.value] as real
    else if dto.deliveryCost.Some? then dto.deliveryCost.value
    else 0.0
  }

  ghost function DueMarkup(cat: Catalog, dto: CreateDto): real
    requires dto.lead in cat.leads && Known(cat, dto.items)
  {
    if MarkupDue(cat, dto) then Worth(cat, dto.items) * cat.markupPercent / 100.0 else 0.0
  }

  /** What the buyer owes before anything is rounded. */
  ghost function ExactAmount(cat: Catalog, dto: CreateDto): real
    requires dto.lead in cat.leads && Known(cat, dto.items)
  {
    Worth(cat, dto.items) - GivenDiscount(dto) + NamedDelivery(cat, dto) + DueMarkup(cat, dto)
  }

  lemma DeliveryIsNamed(cat: Catalog, deals: seq<Deal>, dto: CreateDto)
    requires ResolveDelivery(cat, deals, dto).Ok?
    ensures ResolveDelivery(cat, deals, dto).value.cost == NamedDelivery(cat, dto)
  {
  }

  lemma TermsAreExact(cat: Catalog, deals: seq<Deal>, dto: CreateDto, user: CurrentUser)
    requires dto.lead in cat.leads && Known(cat, dto.items)
    requires Negotiate(cat, deals, dto, user, Subtotal(Priced(cat, dto.items))).Ok?
    ensures Recipient(cat, dto, user) in cat.users
    ensures var t := Negotiate(cat, deals, dto, user, Subtotal(Priced(cat, dto.items))).value;
            && t.discount == GivenDiscount(dto) && t.delivery.cost == NamedDelivery(cat, dto)
            && t.markup == DueMarkup(cat, dto)
            && t.commissionPercent == cat.users[Recipient(cat, dto, user)].commissionPercent
  {
    DeliveryIsNamed(cat, deals, dto);
  }

  lemma PreparedIsTheRow(cat: Catalog, deals: seq<Deal>, dto: CreateDto, user: CurrentUser, now: Time)
    requires Prepare(cat, deals, dto, user, now).Ok?
    ensures dto.lead in cat.leads && Known(cat, dto.items)
    ensures var subtotal := Subtotal(Priced(cat, dto.items));
            && Negotiate(cat, deals, dto, user, subtotal).Ok?
            && var t := Negotiate(cat, deals, dto, user, subtotal).value;
               Prepare(cat, deals, dto, user, now).value
               == DealRow(dto.warehouse, Priced(cat, dto.items), subtotal, t, now)
  {
  }

  /** Each column holds its exact amount, rounded; the commission is a percentage of the exact total. */
  ghost predicate RoundedOnce(a: Amounts, discount: real, delivery: real, markup: real, exact: real, percent: real) {
    && a.discount == Stored(discount) && a.deliveryCost == Stored(delivery) && a.markup == Stored(markup)
    && a.total == Stored(exact) && a.commissionPercent == percent && a.commission == Stored(exact * percent / 100.0)
  }

  lemma RowRoundsOnce(warehouse: Id, lines: seq<Item>, subtotal: int, t: Terms, now: Time)
    ensures RoundedOnce(DealRow(warehouse, lines, subtotal, t, now).amounts, t.discount, t.delivery.cost, t.markup,
                        subtotal as real - t.discount + t.delivery.cost + t.markup, t.commissionPercent)
  {
  }

  /** Every amount is rounded once, from its exact value: the total from the exact parts, and the
      commission from the exact total rather than the stored one. */
  lemma AmountsAreRoundedOnce(cat: Catalog, deals: seq<Deal>, dto: CreateDto, user: CurrentUser, now: Time)
    requires Prepare(cat, deals, dto, user, now).Ok?
    ensures dto.lead in cat.leads && Known(cat, dto.items) && Recipient(cat, dto, user) in cat.users
    ensures RoundedOnce(Prepare(cat, deals, dto, user, now).value.amounts,
                        GivenDiscount(dto), NamedDelivery(cat, dto), DueMarkup(cat, dto), ExactAmount(cat, dto),
                        cat.users[Recipient(cat, dto, user)].commissionPercent)
  {
    PreparedIsTheRow(cat, deals, dto, user, now);
    TermsAreExact(cat, deals, dto, user);
    var lines := Priced(cat, dto.items);
    RowRoundsOnce(dto.warehouse, lines, Subtotal(lines), Negotiate(cat, deals, dto, user, Subtotal(lines)).value, now);
  }

  // ----- rounding

  lemma TotalWithinAKopeck(subtotal: int, discount: real, delivery: real, markup: real)
    requires 0.0 <= discount <= subtotal as real && delivery >= 0.0 && markup >= 0.0
    ensures -1 <= Stored(subtotal as real - discount + delivery + markup)
                  - (subtotal - Stored(discount) + Stored(delivery) + Stored(markup)) <= 1
  {
    StoredIsNearest(discount);
    StoredIsNearest(delivery);
    StoredIsNearest(markup);
  }

  /** Every column is rounded on its own, yet the stored total is within one kopeck of the stored
      parts, the commission within one kopeck of its percentage, and never above the total. */
  lemma RoundingBound(cat: Catalog, deals: seq<Deal>, dto: CreateDto, user: CurrentUser, now: Time)
    requires CatalogOk(cat) && DtoOk(dto) && Prepare(cat, deals, dto, user, now).Ok?
    ensures var d := Prepare(cat, deals, dto, user, now).value;
            var a := d.amounts;
            && -1 <= a.total - (Subtotal(d.items) - a.discount + a.deliveryCost + a.markup) <= 1
            && -1.0 <= a.commission as real - Percent(a.total as real, a.commissionPercent) <= 1.0
            && 0 <= a.commission <= a.total
  {
    var lines := Priced(cat, dto.items);
    var subtotal := Subtotal(lines);
    PricedSubtotal(cat, dto.items);
    TermsAreNonNegative(cat, deals, dto, user, subtotal);
    var t := Negotiate(cat, deals, dto, user, subtotal).value;
    TotalWithinAKopeck(subtotal, t.discount, t.delivery.cost, t.markup);
    CommissionWithinAKopeck(ExactTotal(t, subtotal), t.commissionPercent);
  }

  lemma CommissionWithinAKopeck(total: real, percent: real)
    requires total >= 0.0 && 0.0 <= percent <= 100.0
    ensures -1.0 <= Stored(Percent(total, percent)) as real - Percent(Stored(total) as real, percent) <= 1.0
    ensures 0 <= Stored(Percent(total, percent)) <= Stored(total)
  {
    PercentBounds(total, percent);
    StoredMonotone(Percent(total, percent), total);
    StoredIsNearest(total);
    StoredIsNearest(Percent(total, percent));
    PercentOfDifference(Stored(total) as real, total, percent);
  }

  lemma PercentOfDifference(x: real, y: real, percent: real)
    requires 0.0 <= percent <= 100.0 && -0.5 <= x - y <= 0.5
    ensures -0.5 <= Percent(x, percent) - Percent(y, percent) <= 0.5
  {
    var difference := x - y;
    ShareOfHalf(difference, percent);
    assert x * percent - y * percent == difference * percent;
  }

  lemma ShareOfHalf(difference: real, percent: real)
    requires 0.0 <= percent <= 100.0 && -0.5 <= difference <= 0.5
    ensures -50.0 <= difference * percent <= 50.0
  {
    var product := difference * percent;
    ProductNonNegative(0.5 - difference, percent);
    assert (0.5 - difference) * percent == 0.5 * percent - product;
    ProductNonNegative(0.5 + difference, percent);
    assert (0.5 + difference) * percent == 0.5 * percent + product;
  }

  ghost function PenCatalog(): Catalog {
    Catalog(map["lead" := Lead(None, true)], map["boss" := User(OWNER, 0.0, 0.0, 0)],
            map["store" := Warehouse("Perm", true)], map["pen" := Product(10, None)], map[], map[], 5.0)
  }

  ghost function PenOrder(): CreateDto {
    CreateDto("lead", "store", [OrderLine("pen", 1)], None, true, None, None, Some(0.5))
  }

  /** The one-kopeck bound is met: ten kopecks of goods, a 5 % markup, and delivery entered as half a kopeck. */
  lemma OneKopeckIsReached(now: Time)
    ensures CatalogOk(PenCatalog()) && DtoOk(PenOrder())
    ensures var prepared := Prepare(PenCatalog(), [], PenOrder(), CurrentUser("boss", OWNER), now);
            && prepared.Ok?
            && var a := prepared.value.amounts;
               a.total - (Subtotal(prepared.value.items) - a.discount + a.deliveryCost + a.markup) == -1
  {
    var lines := Priced(PenCatalog(), PenOrder().items);
    assert lines == [Item("pen", 1, 10, 10)];
    assert Subtotal(lines) == 10 by {
      assert lines[..0] == [];
    }
    assert Percent(10.0, 5.0) == 0.5;
  }

  // ----- the reservation

  lemma {:induction false} FailureStays(stock: Stock, ops: seq<StockOp>, n: nat)
    requires n <= |ops| && RunOps(stock, ops[..n]) == None
    ensures RunOps(stock, ops) == None
  {
    if n == |ops| {
      assert ops[..n] == ops;
    } else {
      assert ops[..|ops| - 1][..n] == ops[..n];
      FailureStays(stock, ops[..|ops| - 1], n);
    }
  }

  /** With distinct products the item-by-item reservation succeeds exactly when every row alone has enough. */
  lemma {:induction false} ReservationSucceedsIff(stock: Stock, w: Id, items: seq<Item>)
    requires forall i, j | 0 <= i < j < |items| :: items[i].product != items[j].product
    requires forall i | 0 <= i < |items| :: items[i].quantity >= 1
    ensures RunOps(stock, Takes(w, items)).Some?
            <==> forall i | 0 <= i < |items| :: OnHand(stock, StockKey(w, items[i].product)) >= items[i].quantity
    ensures RunOps(stock, Takes(w, items)).Some? ==>
              forall k | forall i | 0 <= i < |items| :: k != StockKey(w, items[i].product) ::
                OnHand(RunOps(stock, Takes(w, items)).value, k) == OnHand(stock, k)
  {
    if items != [] {
      var n := |items| - 1;
      ReservationSucceedsIff(stock, w, items[..n]);
      assert Takes(w, items)[..n] == Takes(w, items[..n]);
    }
  }

  method PriceItems(cat: Catalog, items: seq<OrderLine>) returns (lines: seq<Item>, subtotal: int)
    requires Known(cat, items)
    ensures lines == Priced(cat, items) && subtotal == Subtotal(lines)
  {
    lines, subtotal := [], 0;
    for i := 0 to |items|
      invariant lines == Priced(cat, items)[..i] && subtotal == Subtotal(lines)
    {
      var price := cat.products[items[i].product].price;
      var line := price * items[i].quantity;
      ghost var before := lines;
      subtotal := subtotal + line;
      lines := lines + [Item(items[i].product, items[i].quantity, price, line)];
      assert lines[..|lines| - 1] == before;
    }
  }

  ghost predicate Short(stock: Stock, warehouse: Id, line: Item) {
    OnHand(stock, StockKey(warehouse, line.product)) < line.quantity
  }

  /** The row that runs short after the items before it were taken was short to begin with. */
  lemma FirstShortage(before: Stock, now: Stock, warehouse: Id, lines: seq<Item>, i: nat)
    requires i < |lines|
    requires forall i, j | 0 <= i < j < |lines| :: lines[i].product != lines[j].product
    requires forall i | 0 <= i < |lines| :: lines[i].quantity >= 1
    requires RunOps(before, Takes(warehouse, lines)[..i]) == Some(now) && Short(now, warehouse, lines[i])
    ensures Short(before, warehouse, lines[i]) && RunOps(before, Takes(warehouse, lines)) == None
  {
    var ops := Takes(warehouse, lines);
    assert Takes(warehouse, lines[..i]) == ops[..i];
    ReservationSucceedsIff(before, warehouse, lines[..i]);
    assert ops[..i + 1][..i] == ops[..i];
    FailureStays(before, ops, i + 1);
  }

  /** Takes the goods item by item; the first short item undoes the ones before it. */
  method Reserve(db: Database, warehouse: Id, lines: seq<Item>) returns (short: Option<Id>)
    requires forall i, j | 0 <= i < j < |lines| :: lines[i].product != lines[j].product
    requires forall i | 0 <= i < |lines| :: lines[i].quantity >= 1
    modifies db`stock
    ensures short.None? ==> RunOps(old(db.stock), Takes(warehouse, lines)) == Some(db.stock)
    ensures short.Some? ==> db.stock == old(db.stock) && RunOps(old(db.stock), Takes(warehouse, lines)) == None
    ensures short.Some? ==>
              exists i | 0 <= i < |lines| ::
                lines[i].product == short.value && Short(old(db.stock), warehouse, lines[i])
  {
    var before := db.stock;
    ghost var ops := Takes(warehouse, lines);
    assert ops[..0] == [];
    for i := 0 to |lines|
      invariant RunOps(before, ops[..i]) == Some(db.stock)
    {
      assert ops[..i + 1][..i] == ops[..i];
      var key := StockKey(warehouse, lines[i].product);
      if key !in db.stock || db.stock[key] < lines[i].quantity {
        FirstShortage(before, db.stock, warehouse, lines, i);
        db.stock := before;
        return Some(lines[i].product);
      }
      db.stock := db.stock[key := db.stock[key] - lines[i].quantity];
    }
    assert ops[..|lines|] == ops;
    return None;
  }

  method Create(db: Database, cat: Catalog, dto: CreateDto, user: CurrentUser, now: Time)
    returns (r: Result<nat, CreateError>)
    requires CatalogOk(cat) && DtoOk(dto)
    modifies db
    ensures r.Err? ==> db.View() == old(db.View())
    ensures match Prepare(cat, old(db.deals), dto, user, now)
            case Err(e) => r == Err(e)
            case Ok(d) =>
              match Apply(old(db.View()), DealCreated(d))
              case Some(after) =>
                && r == Ok(|old(db.deals)|) && db.View() == after
                && db.deals == old(db.deals) + [d] && db.payouts == old(db.payouts)
              case None =>
                && r.Err? && r.error.OutOfStock?
                && exists i | 0 <= i < |d.items| ::
                     d.items[i].product == r.error.product && Short(old(db.stock), dto.warehouse, d.items[i])
  {
    var refusal := Admit(cat, dto, user);
    if refusal.Some? {
      return Err(refusal.value);
    }
    var lines, subtotal := PriceItems(cat, dto.items);
    var negotiated := Negotiate(cat, db.deals, dto, user, subtotal);
    if negotiated.Err? {
      return Err(negotiated.error);
    }
    var d := DealRow(dto.warehouse, lines, subtotal, negotiated.value, now);
    PreparedDealIsNew(cat, db.deals, dto, user, now);
    var short := Reserve(db, dto.warehouse, lines);
    if short.Some? {
      return Err(OutOfStock(short.value));
    }
    db.deals := db.deals + [d];
    return Ok(|db.deals| - 1);
  }

  // ----- status changes

  datatype StatusError = DealNotFound | InvalidTransition

  predicate Visible(deals: seq<Deal>, id: nat, user: CurrentUser) {
    id < |deals| && (user.role == MANAGER ==> deals[id].manager == user.id)
  }

  method ChangeStatus(db: Database, id: nat, to: Status, user: CurrentUser, now: Time)
    returns (r: Result<Status, StatusError>)
    modifies db
    ensures r == Err(DealNotFound) <==>
            id >= |old(db.deals)| || (user.role == MANAGER && old(db.deals)[id].manager != user.id)
    ensures r.Ok? ==> Allowed(old(db.deals)[id].status, to)
    ensures r == Err(InvalidTransition) ==> !Allowed(old(db.deals)[id].status, to)
    ensures r.Err? ==> db.View() == old(db.View())
    ensures r.Ok? ==>
              && db.payouts == old(db.payouts) && id < |db.deals|
              && db.deals == old(db.deals)[id := old(db.deals)[id].(status := to, closedAt := db.deals[id].closedAt)]
              && db.deals[id].closedAt == (if to == COMPLETED || to == CANCELLED || to == REFUNDED then Some(now)
                                           else old(db.deals)[id].closedAt)
    ensures r.Ok? ==> r.value == to && Apply(old(db.View()), StatusChanged(id, to, now)) == Some(db.View())
  {
    if !Visible(db.deals, id, user) {
      return Err(DealNotFound);
    }
    var d := db.deals[id];
    if !Allowed(d.status, to) {
      return Err(InvalidTransition);
    }
    ghost var ops := StockOps(db.deals, StatusChanged(id, to, now));
    assert ops[..0] == [];
    if RestoresStock(d, to) {
      for i := 0 to |d.items|
        invariant RunOps(old(db.stock), ops[..i]) == Some(db.stock)
        invariant db.deals == old(db.deals) && db.payouts == old(db.payouts)
      {
        assert ops[..i + 1][..i] == ops[..i];
        var key := StockKey(d.warehouse.value, d.items[i].product);
        if key in db.stock {
          db.stock := db.stock[key := db.stock[key] + d.items[i].quantity];
        }
      }
      assert ops[..|d.items|] == ops;
    }
    db.deals := db.deals[id := WithStatus(d, to, now)];
    return Ok(to);
  }

  /** Cancelling undoes creating: the shelves are exactly what they were. */
  lemma CancelUndoesCreate(db: Db, d: Deal, at: Time)
    requires Inv(db) && Apply(db, DealCreated(d)).Some?
    ensures var created := Apply(db, DealCreated(d)).value;
            var cancelled := Apply(created, StatusChanged(|db.deals|, CANCELLED, at));
            cancelled.Some? && cancelled.value.stock == db.stock
  {
    var created := Apply(db, DealCreated(d)).value;
    var e := StatusChanged(|db.deals|, CANCELLED, at);
    ApplyKeepsInv(db, DealCreated(d));
    OpsOfEvent(created, e);
    GivesSucceed(created.stock, StockOps(created.deals, e));
    var stock := RunOps(created.stock, StockOps(created.deals, e)).value;
    var w := d.warehouse.value;
    forall k ensures stock.Keys == db.stock.Keys && OnHand(stock, k) == OnHand(db.stock, k) {
      NetEffect(db.stock, Takes(w, d.items), k);
      NetEffect(created.stock, Gives(w, d.items), k);
      NetOfItems(w, d.items, k);
    }
    assert stock.Keys == db.stock.Keys by {
      NetEffect(db.stock, Takes(w, d.items), StockKey(w, w));
      NetEffect(created.stock, Gives(w, d.items), StockKey(w, w));
    }
    forall k | k in stock ensures stock[k] == db.stock[k] {
      assert OnHand(stock, k) == OnHand(db.stock, k);
    }
  }
}
