/**
 * The shared relational state that deals, stock and payouts are steps over,
 * and what one committed transaction does to it.
 *
 * Deals and payouts are never deleted, so their tables are sequences and a
 * row's generated id is its position. A stock row is keyed by its unique
 * (warehouse, product) pair. Money columns hold whole kopecks.
 */
module Ledger {
  import opened Wrappers
  import opened Money
  import opened DealStatus

  type Id = string

  type Time = int

  datatype StockKey = StockKey(warehouse: Id, product: Id)

  type Stock = map<StockKey, int>

  datatype Item = Item(product: Id, quantity: int, unitPrice: int, subtotal: int)

  datatype Amounts = Amounts(discount: int, deliveryCost: int, markup: int, total: int,
                             commissionPercent: real, commission: int)

  datatype Deal = Deal(manager: Id, warehouse: Option<Id>, items: seq<Item>, quote: Option<Id>,
                       amounts: Amounts, status: Status, createdAt: Time, closedAt: Option<Time>,
                       payout: Option<nat>)

  datatype PayoutStatus = Draft | Approved | PaidOut

  datatype Payout = Payout(manager: Id, start: Time, end: Time,
                           baseSalary: int, totalCommission: int, totalPayout: int,
                           status: PayoutStatus, approvedAt: Option<Time>)

  datatype Db = Db(stock: Stock, deals: seq<Deal>, payouts: seq<Payout>)

  const EMPTY := Db(map[], [], [])

  // ----- single-row statements on the stock table

  /** `Take` is the conditional decrement, `Give` the plain increment, `Put` the upsert. */
  datatype StockOp =
    | Take(key: StockKey, n: int)
    | Give(key: StockKey, n: int)
    | Put(key: StockKey, n: int)

  /** `None`: a `Take` that matched no row. A `Give` that matches no row is silently nothing. */
  function ApplyOp(stock: Stock, op: StockOp): Option<Stock> {
    match op
    case Take(key, n) =>
      if key in stock && stock[key] >= n then Some(stock[key := stock[key] - n]) else None
    case Give(key, n) =>
      if key in stock then Some(stock[key := stock[key] + n]) else Some(stock)
    case Put(key, n) => Some(stock[key := n])
  }

  function RunOps(stock: Stock, ops: seq<StockOp>): Option<Stock> {
    if ops == [] then Some(stock)
    else match RunOps(stock, ops[..|ops| - 1])
      case None => None
      case Some(s) => ApplyOp(s, ops[|ops| - 1])
  }

  lemma RunSingle(stock: Stock, op: StockOp)
    ensures RunOps(stock, [op]) == ApplyOp(stock, op)
  {
    assert [op][..0] == [];
  }

  function Takes(warehouse: Id, items: seq<Item>): seq<StockOp> {
    seq(|items|, i requires 0 <= i < |items| => Take(StockKey(warehouse, items[i].product), items[i].quantity))
  }

  function Gives(warehouse: Id, items: seq<Item>): seq<StockOp> {
    seq(|items|, i requires 0 <= i < |items| => Give(StockKey(warehouse, items[i].product), items[i].quantity))
  }

  // ----- committed transactions

  datatype Event =
    | DealCreated(deal: Deal)
    | StatusChanged(id: nat, to: Status, at: Time)
    | QuantitySet(key: StockKey, n: int)
    | PayoutGenerated(row: Payout, ids: set<nat>)
    | PayoutCorrected(pid: nat, baseSalary: Option<real>, commission: Option<real>, total: Option<real>)
    | PayoutApproved(pid: nat, at: Time)
    | PayoutMarkedPaid(pid: nat)

  predicate UnlinkedQuote(deals: seq<Deal>, quote: Option<Id>) {
    quote.Some? ==> forall i | 0 <= i < |deals| :: deals[i].quote != quote
  }

  /** What `create` hands to its transaction. */
  predicate NewDeal(d: Deal) {
    && d.status == NEW && d.closedAt == None && d.payout == None && d.warehouse.Some?
    && d.amounts.commission >= 0
    && forall i | 0 <= i < |d.items| :: d.items[i].quantity >= 1
  }

  predicate RestoresStock(d: Deal, to: Status) {
    to in STOCK_RESTORING && d.warehouse.Some?
  }

  /** The stock statements of the event's transaction. */
  function StockOps(deals: seq<Deal>, e: Event): seq<StockOp> {
    match e
    case DealCreated(d) => if d.warehouse.Some? then Takes(d.warehouse.value, d.items) else []
    case StatusChanged(id, to, _) =>
      if id < |deals| && RestoresStock(deals[id], to) then Gives(deals[id].warehouse.value, deals[id].items) else []
    case QuantitySet(key, n) => [Put(key, n)]
    case _ => []
  }

  /** The commission of the selected rows of a deal table. */
  function SelectedCommission(deals: seq<Deal>, ids: set<nat>): int {
    if deals == [] then 0
    else
      var n := |deals| - 1;
      SelectedCommission(deals[..n], ids) + (if n in ids then deals[n].amounts.commission else 0)
  }

  predicate Claimable(d: Deal, row: Payout) {
    d.payout == None && d.manager == row.manager && row.start <= d.createdAt <= row.end
  }

  /** When the event's transaction may run on this committed state, its stock statements aside. */
  predicate Valid(db: Db, e: Event) {
    match e
    case DealCreated(d) => NewDeal(d) && UnlinkedQuote(db.deals, d.quote)
    case StatusChanged(id, to, _) => id < |db.deals| && Allowed(db.deals[id].status, to)
    case QuantitySet(_, n) => n >= 0
    case PayoutGenerated(row, ids) =>
      && row.status == Draft && row.approvedAt == None
      && (forall i | i in ids :: i < |db.deals| && Claimable(db.deals[i], row) && db.deals[i].status in PAID_ONWARD)
      && row.totalCommission == SelectedCommission(db.deals, ids)
      && row.totalPayout == row.baseSalary + row.totalCommission
    case PayoutCorrected(pid, _, _, _) => pid < |db.payouts| && db.payouts[pid].status == Draft
    case PayoutApproved(pid, _) => pid < |db.payouts| && db.payouts[pid].status == Draft
    case PayoutMarkedPaid(pid) => pid < |db.payouts| && db.payouts[pid].status == Approved
  }

  function WithStatus(d: Deal, to: Status, at: Time): Deal {
    d.(status := to, closedAt := if to in TERMINAL then Some(at) else d.closedAt)
  }

  function LinkDeals(deals: seq<Deal>, ids: set<nat>, pid: nat): seq<Deal> {
    seq(|deals|, i requires 0 <= i < |deals| => if i in ids then deals[i].(payout := Some(pid)) else deals[i])
  }

  /** The manual correction: an omitted total is recomputed, before rounding, from the two parts. */
  function Corrected(p: Payout, baseSalary: Option<real>, commission: Option<real>, total: Option<real>): Payout {
    var b := if baseSalary.Some? then baseSalary.value else p.baseSalary as real;
    var c := if commission.Some? then commission.value else p.totalCommission as real;
    var t := if total.Some? then total.value else b + c;
    p.(baseSalary := Stored(b), totalCommission := Stored(c), totalPayout := Stored(t))
  }

  predicate InRange(db: Db, e: Event) {
    && (e.StatusChanged? ==> e.id < |db.deals|)
    && (e.PayoutCorrected? || e.PayoutApproved? || e.PayoutMarkedPaid? ==> e.pid < |db.payouts|)
  }

  /** The event's writes to the deal and payout tables; nothing is checked at this point. */
  function WriteTables(db: Db, e: Event): Db
    requires InRange(db, e)
  {
    match e
    case DealCreated(d) => db.(deals := db.deals + [d])
    case StatusChanged(id, to, at) => db.(deals := db.deals[id := WithStatus(db.deals[id], to, at)])
    case QuantitySet(_, _) => db
    case PayoutGenerated(row, ids) =>
      db.(payouts := db.payouts + [row], deals := LinkDeals(db.deals, ids, |db.payouts|))
    case PayoutCorrected(pid, b, c, t) => db.(payouts := db.payouts[pid := Corrected(db.payouts[pid], b, c, t)])
    case PayoutApproved(pid, at) =>
      db.(payouts := db.payouts[pid := db.payouts[pid].(status := Approved, approvedAt := Some(at))])
    case PayoutMarkedPaid(pid) => db.(payouts := db.payouts[pid := db.payouts[pid].(status := PaidOut)])
  }

  /** The whole transaction as one indivisible step. */
  function Apply(db: Db, e: Event): Option<Db> {
    if !Valid(db, e) then None
    else match RunOps(db.stock, StockOps(db.deals, e))
      case None => None
      case Some(stock) => Some(WriteTables(db, e).(stock := stock))
  }

  /** A serial run of committed transactions. */
  function RunEvents(db: Db, log: seq<Event>): Option<Db> {
    if log == [] then Some(db)
    else match RunEvents(db, log[..|log| - 1])
      case None => None
      case Some(now) => Apply(now, log[|log| - 1])
  }

  /** A serial run from the empty database. */
  function Replay(log: seq<Event>): Option<Db> {
    RunEvents(EMPTY, log)
  }

  lemma RunSnoc(db: Db, log: seq<Event>, e: Event)
    requires RunEvents(db, log).Some?
    ensures RunEvents(db, log + [e]) == Apply(RunEvents(db, log).value, e)
  {
    assert (log + [e])[..|log|] == log;
  }

  /** The tables as one object; each service method rewrites the fields it touches. */
  class Database {
    var stock: Stock
    var deals: seq<Deal>
    var payouts: seq<Payout>

    constructor ()
      ensures View() == EMPTY
    {
      stock, deals, payouts := map[], [], [];
    }

    function View(): Db
      reads this
    {
      Db(stock, deals, payouts)
    }
  }
}
