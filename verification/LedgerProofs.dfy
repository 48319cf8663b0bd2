/** What every run of committed transactions keeps. */
module LedgerProofs {
  import opened Wrappers
  import opened Money
  import opened DealStatus
  import opened Ledger

  // ----- the state invariant

  ghost predicate NonNegative(stock: Stock) {
    forall k | k in stock :: stock[k] >= 0
  }

  /** Every item of a deal with a warehouse names an existing stock row. */
  ghost predicate Housed(stock: Stock, d: Deal) {
    d.warehouse.Some? ==>
      forall j | 0 <= j < |d.items| :: StockKey(d.warehouse.value, d.items[j].product) in stock
  }

  ghost predicate DealOk(d: Deal) {
    && d.amounts.commission >= 0
    && (d.closedAt.Some? <==> d.status == COMPLETED || d.status == CANCELLED || d.status == REFUNDED)
    && (d.payout.Some? ==> d.status in PAID_ONWARD)
    && forall j | 0 <= j < |d.items| :: d.items[j].quantity >= 1
  }

  /** A claimed deal belongs to the payout's manager and was created inside its period. */
  ghost predicate ClaimOk(d: Deal, payouts: seq<Payout>) {
    d.payout.Some? ==>
      && d.payout.value < |payouts|
      && d.manager == payouts[d.payout.value].manager
      && payouts[d.payout.value].start <= d.createdAt <= payouts[d.payout.value].end
  }

  ghost predicate Inv(db: Db) {
    && NonNegative(db.stock)
    && (forall i | 0 <= i < |db.deals| :: DealOk(db.deals[i]))
    && (forall i | 0 <= i < |db.deals| :: Housed(db.stock, db.deals[i]))
    && (forall i | 0 <= i < |db.deals| :: ClaimOk(db.deals[i], db.payouts))
  }

  lemma {:induction false} OpsKeepRows(stock: Stock, ops: seq<StockOp>)
    requires NonNegative(stock) && RunOps(stock, ops).Some?
    requires forall i | 0 <= i < |ops| :: ops[i].n >= 0
    ensures NonNegative(RunOps(stock, ops).value)
    ensures stock.Keys <= RunOps(stock, ops).value.Keys
  {
    if ops != [] {
      OpsKeepRows(stock, ops[..|ops| - 1]);
    }
  }

  lemma {:induction false} TakesNeedRows(stock: Stock, ops: seq<StockOp>)
    requires RunOps(stock, ops).Some? && forall i | 0 <= i < |ops| :: ops[i].Take?
    ensures RunOps(stock, ops).value.Keys == stock.Keys
    ensures forall i | 0 <= i < |ops| :: ops[i].key in stock
  {
    if ops != [] {
      TakesNeedRows(stock, ops[..|ops| - 1]);
    }
  }

  lemma OpsOfEvent(db: Db, e: Event)
    requires Inv(db) && Valid(db, e)
    ensures forall i | 0 <= i < |StockOps(db.deals, e)| :: StockOps(db.deals, e)[i].n >= 0
    ensures e.DealCreated? ==> forall i | 0 <= i < |StockOps(db.deals, e)| :: StockOps(db.deals, e)[i].Take?
    ensures e.StatusChanged? ==>
              forall i | 0 <= i < |StockOps(db.deals, e)| ::
                StockOps(db.deals, e)[i].Give? && StockOps(db.deals, e)[i].key in db.stock
  {
    if e.StatusChanged? && RestoresStock(db.deals[e.id], e.to) {
      assert Housed(db.stock, db.deals[e.id]) && DealOk(db.deals[e.id]);
    }
  }

  lemma ApplyKeepsInv(db: Db, e: Event)
    requires Inv(db) && Apply(db, e).Some?
    ensures Inv(Apply(db, e).value)
  {
    var after := Apply(db, e).value;
    OpsOfEvent(db, e);
    OpsKeepRows(db.stock, StockOps(db.deals, e));
    forall i | 0 <= i < |after.deals|
      ensures DealOk(after.deals[i]) && Housed(after.stock, after.deals[i]) && ClaimOk(after.deals[i], after.payouts)
    {
      if i < |db.deals| {
        assert DealOk(db.deals[i]) && Housed(db.stock, db.deals[i]) && ClaimOk(db.deals[i], db.payouts);
      } else {
        NewDealIsHoused(db, e.deal);
      }
    }
  }

  lemma NewDealIsHoused(db: Db, d: Deal)
    requires Inv(db) && Apply(db, DealCreated(d)).Some?
    ensures Housed(db.stock, d)
  {
    var ops := Takes(d.warehouse.value, d.items);
    TakesNeedRows(db.stock, ops);
    forall j | 0 <= j < |d.items| ensures StockKey(d.warehouse.value, d.items[j].product) in db.stock {
      assert ops[j].key in db.stock;
    }
  }

  /** In every run: no stock row is negative, every deal item's stock row exists, `closedAt` is set
      exactly on terminal deals, and every claim matches its payout. */
  lemma {:induction false} RunsKeepInv(log: seq<Event>)
    requires Replay(log).Some?
    ensures Inv(Replay(log).value)
  {
    if log != [] {
      RunsKeepInv(log[..|log| - 1]);
      ApplyKeepsInv(Replay(log[..|log| - 1]).value, log[|log| - 1]);
    }
  }

  ghost predicate QuotesApart(deals: seq<Deal>) {
    forall i, j | 0 <= i < j < |deals| && deals[i].quote.Some? :: deals[i].quote != deals[j].quote
  }

  /** In every run a delivery quote belongs to one deal at most. */
  lemma {:induction false} QuotesStayApart(log: seq<Event>)
    requires Replay(log).Some?
    ensures QuotesApart(Replay(log).value.deals)
  {
    if log != [] {
      var rest, e := log[..|log| - 1], log[|log| - 1];
      QuotesStayApart(rest);
      EventKeepsQuotesApart(Replay(rest).value, e);
    }
  }

  lemma EventKeepsQuotesApart(db: Db, e: Event)
    requires QuotesApart(db.deals) && Apply(db, e).Some?
    ensures QuotesApart(Apply(db, e).value.deals)
  {
  }

  // ----- sums over the deal table

  function SumOver(deals: seq<Deal>, f: Deal -> int): int {
    if deals == [] then 0 else SumOver(deals[..|deals| - 1], f) + f(deals[|deals| - 1])
  }

  lemma {:induction false} SumOverUpdate(deals: seq<Deal>, f: Deal -> int, i: nat, d: Deal)
    requires i < |deals|
    ensures SumOver(deals[i := d], f) == SumOver(deals, f) - f(deals[i]) + f(d)
  {
    var n := |deals| - 1;
    if i == n {
      assert deals[i := d][..n] == deals[..n];
    } else {
      assert deals[i := d][..n] == deals[..n][i := d];
      SumOverUpdate(deals[..n], f, i, d);
    }
  }

  lemma {:induction false} SumOverSame(a: seq<Deal>, b: seq<Deal>, f: Deal -> int)
    requires |a| == |b| && forall i | 0 <= i < |a| :: f(a[i]) == f(b[i])
    ensures SumOver(a, f) == SumOver(b, f)
  {
    if a != [] {
      SumOverSame(a[..|a| - 1], b[..|b| - 1], f);
    }
  }

  lemma SumOverSnoc(deals: seq<Deal>, f: Deal -> int, d: Deal)
    ensures SumOver(deals + [d], f) == SumOver(deals, f) + f(d)
  {
    assert (deals + [d])[..|deals|] == deals;
  }

  // ----- stock conservation

  function OnHand(stock: Stock, k: StockKey): int {
    if k in stock then stock[k] else 0
  }

  function Quantity(items: seq<Item>, product: Id): int {
    if items == [] then 0
    else
      var last := items[|items| - 1];
      Quantity(items[..|items| - 1], product) + (if last.product == product then last.quantity else 0)
  }

  function ItemsAt(d: Deal, k: StockKey): int {
    if d.warehouse == Some(k.warehouse) then Quantity(d.items, k.product) else 0
  }

  function HeldBy(k: StockKey): Deal -> int {
    (d: Deal) => if d.status == CANCELLED || d.status == REFUNDED then 0 else ItemsAt(d, k)
  }

  /** On hand plus what the deals neither cancelled nor refunded hold. */
  function Accounted(db: Db, k: StockKey): int {
    OnHand(db.stock, k) + SumOver(db.deals, HeldBy(k))
  }

  function Net(ops: seq<StockOp>, k: StockKey): int {
    if ops == [] then 0
    else
      var last := ops[|ops| - 1];
      Net(ops[..|ops| - 1], k) +
      (if last.key != k then 0 else match last case Take(_, n) => -n case Give(_, n) => n case Put(_, _) => 0)
  }

  lemma {:induction false} NetEffect(stock: Stock, ops: seq<StockOp>, k: StockKey)
    requires RunOps(stock, ops).Some?
    requires forall i | 0 <= i < |ops| :: !ops[i].Put? && (ops[i].Give? ==> ops[i].key in stock)
    ensures RunOps(stock, ops).value.Keys == stock.Keys
    ensures OnHand(RunOps(stock, ops).value, k) == OnHand(stock, k) + Net(ops, k)
  {
    if ops != [] {
      NetEffect(stock, ops[..|ops| - 1], k);
    }
  }

  lemma {:induction false} NetOfItems(w: Id, items: seq<Item>, k: StockKey)
    ensures Net(Takes(w, items), k) == -(if w == k.warehouse then Quantity(items, k.product) else 0)
    ensures Net(Gives(w, items), k) == if w == k.warehouse then Quantity(items, k.product) else 0
  {
    if items != [] {
      var rest := items[..|items| - 1];
      NetOfItems(w, rest, k);
      assert Takes(w, items)[..|items| - 1] == Takes(w, rest);
      assert Gives(w, items)[..|items| - 1] == Gives(w, rest);
    }
  }

  function Adjustment(db: Db, e: Event, k: StockKey): int {
    if e.QuantitySet? && e.key == k then e.n - OnHand(db.stock, k) else 0
  }

  lemma CreationConserves(db: Db, d: Deal, k: StockKey)
    requires Inv(db) && Apply(db, DealCreated(d)).Some?
    ensures Accounted(Apply(db, DealCreated(d)).value, k) == Accounted(db, k)
  {
    var ops := Takes(d.warehouse.value, d.items);
    NetEffect(db.stock, ops, k);
    NetOfItems(d.warehouse.value, d.items, k);
    SumOverSnoc(db.deals, HeldBy(k), d);
  }

  /** A creation takes exactly the ordered quantities off the shelves of its warehouse. */
  lemma CreationTakes(db: Db, d: Deal, k: StockKey)
    requires Apply(db, DealCreated(d)).Some?
    ensures OnHand(Apply(db, DealCreated(d)).value.stock, k) == OnHand(db.stock, k) - ItemsAt(d, k)
    ensures Apply(db, DealCreated(d)).value.stock.Keys == db.stock.Keys
  {
    NetEffect(db.stock, Takes(d.warehouse.value, d.items), k);
    NetOfItems(d.warehouse.value, d.items, k);
  }

  /** A cancellation or refund puts exactly the deal's quantities back; no other change moves goods. */
  lemma StatusChangeGivesBack(db: Db, id: nat, to: Status, at: Time, k: StockKey)
    requires Inv(db) && Apply(db, StatusChanged(id, to, at)).Some?
    ensures var after := Apply(db, StatusChanged(id, to, at)).value;
            && after.stock.Keys == db.stock.Keys
            && OnHand(after.stock, k) == OnHand(db.stock, k)
                                         + (if to == CANCELLED || to == REFUNDED then ItemsAt(db.deals[id], k) else 0)
  {
    var d, e := db.deals[id], StatusChanged(id, to, at);
    OpsOfEvent(db, e);
    NetEffect(db.stock, StockOps(db.deals, e), k);
    if RestoresStock(d, to) {
      NetOfItems(d.warehouse.value, d.items, k);
    }
  }

  lemma StatusChangeConserves(db: Db, id: nat, to: Status, at: Time, k: StockKey)
    requires Inv(db) && Apply(db, StatusChanged(id, to, at)).Some?
    ensures Accounted(Apply(db, StatusChanged(id, to, at)).value, k) == Accounted(db, k)
  {
    StatusChangeGivesBack(db, id, to, at, k);
    SumOverUpdate(db.deals, HeldBy(k), id, WithStatus(db.deals[id], to, at));
  }

  /** One transaction moves goods between the shelf and the deals; only `setQuantity` changes their sum. */
  lemma ApplyConserves(db: Db, e: Event, k: StockKey)
    requires Inv(db) && Apply(db, e).Some?
    ensures Accounted(Apply(db, e).value, k) == Accounted(db, k) + Adjustment(db, e, k)
  {
    match e
    case DealCreated(d) => CreationConserves(db, d, k);
    case StatusChanged(id, to, at) => StatusChangeConserves(db, id, to, at, k);
    case QuantitySet(key, n) =>
      RunSingle(db.stock, Put(key, n));
    case PayoutGenerated(row, ids) =>
      SumOverSame(db.deals, Apply(db, e).value.deals, HeldBy(k));
    case _ =>
  }

  /** The sum of all `setQuantity` adjustments of a run. */
  function Baseline(log: seq<Event>, k: StockKey): int
    requires Replay(log).Some?
  {
    if log == [] then 0
    else
      var rest := log[..|log| - 1];
      Baseline(rest, k) + Adjustment(Replay(rest).value, log[|log| - 1], k)
  }

  lemma {:induction false} StockConserved(log: seq<Event>, k: StockKey)
    requires Replay(log).Some?
    ensures Accounted(Replay(log).value, k) == Baseline(log, k)
  {
    if log != [] {
      var rest := log[..|log| - 1];
      StockConserved(rest, k);
      RunsKeepInv(rest);
      ApplyConserves(Replay(rest).value, log[|log| - 1], k);
    }
  }

  ghost predicate SetsQuantity(log: seq<Event>, k: StockKey) {
    exists i | 0 <= i < |log| :: log[i].QuantitySet? && log[i].key == k
  }

  /** Between two `setQuantity` calls on a row nothing is created or lost there. */
  lemma {:induction false} StockConservedBetween(before: seq<Event>, window: seq<Event>, k: StockKey)
    requires Replay(before).Some? && Replay(before + window).Some?
    requires !SetsQuantity(window, k)
    ensures Accounted(Replay(before + window).value, k) == Accounted(Replay(before).value, k)
  {
    if window == [] {
      assert before + window == before;
    } else {
      var n := |window| - 1;
      assert (before + window)[..|before + window| - 1] == before + window[..n];
      StockConservedBetween(before, window[..n], k);
      RunsKeepInv(before + window[..n]);
      ApplyConserves(Replay(before + window[..n]).value, window[n], k);
    }
  }

  // ----- payout accounting

  function ClaimOf(pid: nat): Deal -> int {
    (d: Deal) => if d.payout == Some(pid) then d.amounts.commission else 0
  }

  /** The commission of all deals claimed by a payout. */
  function ClaimedCommission(deals: seq<Deal>, pid: nat): int {
    SumOver(deals, ClaimOf(pid))
  }

  lemma {:induction false} LinkClaims(deals: seq<Deal>, ids: set<nat>, pid: nat)
    requires forall i | 0 <= i < |deals| :: deals[i].payout != Some(pid)
    ensures ClaimedCommission(LinkDeals(deals, ids, pid), pid) == SelectedCommission(deals, ids)
  {
    if deals != [] {
      var rest := deals[..|deals| - 1];
      LinkClaims(rest, ids, pid);
      assert LinkDeals(deals, ids, pid)[..|deals| - 1] == LinkDeals(rest, ids, pid);
    }
  }

  ghost predicate CorrectsCommission(e: Event, pid: nat) {
    e.PayoutCorrected? && e.pid == pid && e.commission.Some?
  }

  ghost predicate AccountedPayout(db: Db, pid: nat) {
    pid < |db.payouts| ==> db.payouts[pid].totalCommission == ClaimedCommission(db.deals, pid)
  }

  lemma ApplyKeepsAccounts(db: Db, e: Event, pid: nat)
    requires Inv(db) && Apply(db, e).Some? && AccountedPayout(db, pid) && !CorrectsCommission(e, pid)
    ensures AccountedPayout(Apply(db, e).value, pid)
  {
    var after := Apply(db, e).value;
    match e
    case DealCreated(d) => SumOverSnoc(db.deals, ClaimOf(pid), d);
    case StatusChanged(id, to, at) =>
      SumOverUpdate(db.deals, ClaimOf(pid), id, WithStatus(db.deals[id], to, at));
    case PayoutGenerated(row, ids) =>
      if pid == |db.payouts| {
        forall i | 0 <= i < |db.deals| ensures db.deals[i].payout != Some(pid) {
          assert ClaimOk(db.deals[i], db.payouts);
        }
        LinkClaims(db.deals, ids, pid);
      } else {
        SumOverSame(db.deals, after.deals, ClaimOf(pid));
      }
    case PayoutCorrected(q, _, _, _) =>
      StoredWhole(db.payouts[q].totalCommission);
    case _ =>
  }

  /** A payout nobody corrected by hand still equals the commission of its deals, refunds included. */
  lemma {:induction false} PayoutAccounting(log: seq<Event>, pid: nat)
    requires Replay(log).Some? && pid < |Replay(log).value.payouts|
    requires forall i | 0 <= i < |log| :: !CorrectsCommission(log[i], pid)
    ensures Replay(log).value.payouts[pid].totalCommission == ClaimedCommission(Replay(log).value.deals, pid)
  {
    PayoutAccountingStep(log, pid);
  }

  lemma {:induction false} PayoutAccountingStep(log: seq<Event>, pid: nat)
    requires Replay(log).Some?
    requires forall i | 0 <= i < |log| :: !CorrectsCommission(log[i], pid)
    ensures AccountedPayout(Replay(log).value, pid)
  {
    if log != [] {
      var rest := log[..|log| - 1];
      PayoutAccountingStep(rest, pid);
      RunsKeepInv(rest);
      ApplyKeepsAccounts(Replay(rest).value, log[|log| - 1], pid);
    }
  }

  /** A correction stores each given amount to the nearest kopeck and keeps each omitted part; a total
      left out stays within a kopeck of the two stored parts, and equals them if one part was kept. */
  lemma CorrectionStores(p: Payout, baseSalary: Option<real>, commission: Option<real>, total: Option<real>)
    requires p.baseSalary >= 0 && p.totalCommission >= 0
    requires (baseSalary.Some? ==> baseSalary.value >= 0.0) && (commission.Some? ==> commission.value >= 0.0)
    ensures var q := Corrected(p, baseSalary, commission, total);
            && q.baseSalary == (if baseSalary.Some? then Stored(baseSalary.value) else p.baseSalary)
            && q.totalCommission == (if commission.Some? then Stored(commission.value) else p.totalCommission)
            && (total.Some? ==> q.totalPayout == Stored(total.value))
            && (total.None? ==> -1 <= q.totalPayout - (q.baseSalary + q.totalCommission) <= 1)
            && (total.None? && (baseSalary.None? || commission.None?) ==>
                  q.totalPayout == q.baseSalary + q.totalCommission)
            && q == p.(baseSalary := q.baseSalary, totalCommission := q.totalCommission, totalPayout := q.totalPayout)
  {
    StoredWhole(p.baseSalary);
    StoredWhole(p.totalCommission);
  }

  /** The exact amount a correction works with: the one given, or the stored one. */
  function Chosen(stored: int, given: Option<real>): real {
    if given.Some? then given.value else stored as real
  }

  function Fraction(x: real): real {
    x - x.Floor as real
  }

  /** Rounding two amounts moves them the same way, but rounding their sum does not follow. */
  predicate RoundsApart(a: real, b: real) {
    || (Fraction(a) < 0.5 && Fraction(b) < 0.5 && Fraction(a) + Fraction(b) >= 0.5)
    || (Fraction(a) >= 0.5 && Fraction(b) >= 0.5 && Fraction(a) + Fraction(b) < 1.5)
  }

  lemma StoredByFraction(x: real)
    requires x >= 0.0
    ensures Stored(x) == x.Floor + (if Fraction(x) < 0.5 then 0 else 1)
  {
  }

  lemma SumIsStoredIff(a: real, b: real)
    requires a >= 0.0 && b >= 0.0
    ensures Stored(a + b) == Stored(a) + Stored(b) <==> !RoundsApart(a, b)
  {
    StoredByFraction(a);
    StoredByFraction(b);
    var carry := Fraction(a) + Fraction(b);
    assert a + b == (a.Floor + b.Floor) as real + carry;
    assert Stored(a + b) == a.Floor + b.Floor + (carry + 0.5).Floor;
  }

  /** A recomputed total equals its stored parts exactly when rounding the two amounts does not drift
      apart from rounding their sum; then nothing differs, otherwise one kopeck does. */
  lemma CorrectedTotalAddsUpIff(p: Payout, baseSalary: Option<real>, commission: Option<real>)
    requires Chosen(p.baseSalary, baseSalary) >= 0.0 && Chosen(p.totalCommission, commission) >= 0.0
    ensures var q := Corrected(p, baseSalary, commission, None);
            q.totalPayout == q.baseSalary + q.totalCommission
            <==> !RoundsApart(Chosen(p.baseSalary, baseSalary), Chosen(p.totalCommission, commission))
  {
    SumIsStoredIff(Chosen(p.baseSalary, baseSalary), Chosen(p.totalCommission, commission));
  }

  /** Two half kopecks are stored as one kopeck each, and their total as one. */
  lemma CorrectedTotalCanDiffer(p: Payout)
    ensures var q := Corrected(p, Some(0.5), Some(0.5), None);
            q.baseSalary == 1 && q.totalCommission == 1 && q.totalPayout == 1
  {
  }

  predicate Near(stored: int, exact: real) {
    -0.5 <= stored as real - exact <= 0.5
  }

  // ----- how one deal evolves

  /** Everything but status, closing date and claim is fixed at creation; a claim is never moved. */
  ghost predicate Evolves(d: Deal, later: Deal) {
    && later == d.(status := later.status, closedAt := later.closedAt, payout := later.payout)
    && (d.payout.Some? ==> later.payout == d.payout)
    && (d.status in PAID_ONWARD ==> later.status in PAID_ONWARD)
    && (d.status == later.status || Rank(later.status) < Rank(d.status))
  }

  lemma ApplyEvolves(db: Db, e: Event, id: nat)
    requires id < |db.deals| && Apply(db, e).Some?
    ensures id < |Apply(db, e).value.deals| && Evolves(db.deals[id], Apply(db, e).value.deals[id])
  {
  }

  /** The commission, the items and the claim of a deal are the same in every later state. */
  lemma {:induction false} DealsEvolve(before: seq<Event>, after: seq<Event>, id: nat)
    requires Replay(before).Some? && Replay(before + after).Some? && id < |Replay(before).value.deals|
    ensures id < |Replay(before + after).value.deals|
    ensures Evolves(Replay(before).value.deals[id], Replay(before + after).value.deals[id])
  {
    if after == [] {
      assert before + after == before;
    } else {
      var n := |after| - 1;
      assert (before + after)[..|before + after| - 1] == before + after[..n];
      DealsEvolve(before, after[..n], id);
      ApplyEvolves(Replay(before + after[..n]).value, after[n], id);
    }
  }

  function Changes(log: seq<Event>, id: nat): nat {
    if log == [] then 0
    else Changes(log[..|log| - 1], id) +
         (if log[|log| - 1].StatusChanged? && log[|log| - 1].id == id then 1 else 0)
  }

  function GiveBacks(log: seq<Event>, id: nat): nat {
    if log == [] then 0
    else
      var e := log[|log| - 1];
      GiveBacks(log[..|log| - 1], id) +
      (if e.StatusChanged? && e.id == id && (e.to == CANCELLED || e.to == REFUNDED) then 1 else 0)
  }

  ghost predicate InNow(log: seq<Event>, id: nat, s: Status) {
    Replay(log).Some? && id < |Replay(log).value.deals| && Replay(log).value.deals[id].status == s
  }

  /** At some moment of the run the deal was in this status. */
  ghost predicate EverIn(log: seq<Event>, id: nat, s: Status) {
    exists n | 0 <= n <= |log| :: InNow(log[..n], id, s)
  }

  ghost predicate HistoryOk(log: seq<Event>, id: nat)
    requires Replay(log).Some?
  {
    var deals := Replay(log).value.deals;
    if id >= |deals| then Changes(log, id) == 0 && GiveBacks(log, id) == 0 && forall s :: !EverIn(log, id, s)
    else
      && Changes(log, id) + Rank(deals[id].status) <= 5
      && GiveBacks(log, id) == (if deals[id].status == CANCELLED || deals[id].status == REFUNDED then 1 else 0)
      && (EverIn(log, id, PAID) <==> deals[id].status in PAID_ONWARD)
  }

  lemma {:induction false} EverInSnoc(log: seq<Event>, id: nat, s: Status)
    requires log != []
    ensures EverIn(log, id, s) <==> EverIn(log[..|log| - 1], id, s) || InNow(log, id, s)
  {
    if EverIn(log, id, s) {
      var n :| 0 <= n <= |log| && InNow(log[..n], id, s);
      SamePrefix(log, n, id, s);
    }
    if EverIn(log[..|log| - 1], id, s) {
      var n :| 0 <= n <= |log| - 1 && InNow(log[..|log| - 1][..n], id, s);
      SamePrefix(log, n, id, s);
    }
    SamePrefix(log, |log|, id, s);
  }

  lemma SamePrefix(log: seq<Event>, n: nat, id: nat, s: Status)
    requires n <= |log| && log != []
    ensures n < |log| ==> InNow(log[..n], id, s) == InNow(log[..|log| - 1][..n], id, s)
    ensures n == |log| ==> InNow(log[..n], id, s) == InNow(log, id, s)
  {
    assert n < |log| ==> log[..n] == log[..|log| - 1][..n];
    assert n == |log| ==> log[..n] == log;
  }

  lemma StatusAfter(db: Db, e: Event, id: nat)
    requires Apply(db, e).Some?
    ensures var deals := Apply(db, e).value.deals;
            && (id < |deals| <==> id < |db.deals| || (e.DealCreated? && id == |db.deals|))
            && (id < |db.deals| ==>
                  deals[id].status == if e.StatusChanged? && e.id == id then e.to else db.deals[id].status)
            && (e.DealCreated? && id == |db.deals| ==> deals[id].status == NEW)
            && (e.StatusChanged? ==> e.id < |db.deals| && Allowed(db.deals[e.id].status, e.to))
  {
  }

  lemma StatusStep(from: Status, to: Status)
    requires Allowed(from, to)
    ensures Rank(to) < Rank(from) && from != CANCELLED && from != REFUNDED
    ensures to in PAID_ONWARD <==> to == PAID || from in PAID_ONWARD
  {
  }

  /** At most five status changes, stock given back exactly once by a cancelled or refunded deal and
      never by another, and the paid-onward statuses mean exactly "was paid once". */
  lemma {:induction false} DealHistory(log: seq<Event>, id: nat)
    requires Replay(log).Some?
    ensures HistoryOk(log, id)
  {
    if log == [] {
      assert log[..0] == [];
    } else {
      var rest, e := log[..|log| - 1], log[|log| - 1];
      DealHistory(rest, id);
      forall s ensures EverIn(log, id, s) <==> EverIn(rest, id, s) || InNow(log, id, s) {
        EverInSnoc(log, id, s);
      }
      StatusAfter(Replay(rest).value, e, id);
      if e.StatusChanged? && e.id == id {
        StatusStep(Replay(rest).value.deals[id].status, e.to);
      }
    }
  }

  /** The stage a deal must have been through before it can be in `s`. */
  function Before(s: Status): Status {
    match s
    case NEW => NEW
    case WAITING_PAYMENT => NEW
    case PAID => WAITING_PAYMENT
    case SHIPPED => PAID
    case COMPLETED => SHIPPED
    case CANCELLED => NEW
    case REFUNDED => PAID
  }

  /** No deal skips a stage: COMPLETED was SHIPPED before, SHIPPED was PAID, PAID was WAITING_PAYMENT,
      REFUNDED was PAID, and everything was NEW. */
  lemma {:induction false} NoStageSkipped(log: seq<Event>, id: nat, s: Status)
    requires Replay(log).Some? && EverIn(log, id, s)
    ensures EverIn(log, id, Before(s))
    decreases |log|, 0
  {
    if s != NEW {
      NotInEmpty(log, id, s);
      var rest, e := log[..|log| - 1], log[|log| - 1];
      EverInSnoc(log, id, s);
      EverInSnoc(log, id, Before(s));
      if EverIn(rest, id, s) {
        NoStageSkipped(rest, id, s);
      } else {
        StatusAfter(Replay(rest).value, e, id);
        CurrentIsEverIn(rest, id);
        CameFrom(rest, id, Replay(rest).value.deals[id].status, s);
      }
    }
  }

  lemma NotInEmpty(log: seq<Event>, id: nat, s: Status)
    requires EverIn(log, id, s)
    ensures log != []
  {
    var n :| 0 <= n <= |log| && InNow(log[..n], id, s);
    assert log[..n] != [];
  }

  lemma CurrentIsEverIn(log: seq<Event>, id: nat)
    requires Replay(log).Some? && id < |Replay(log).value.deals|
    ensures EverIn(log, id, Replay(log).value.deals[id].status)
  {
    assert log[..|log|] == log;
    assert InNow(log[..|log|], id, Replay(log).value.deals[id].status);
  }

  lemma CameFrom(log: seq<Event>, id: nat, from: Status, to: Status)
    requires Replay(log).Some? && EverIn(log, id, from) && Allowed(from, to)
    ensures EverIn(log, id, Before(to))
    decreases |log|, 1
  {
    if from == COMPLETED {
      NoStageSkipped(log, id, COMPLETED);
    }
    if from == COMPLETED || from == SHIPPED {
      NoStageSkipped(log, id, SHIPPED);
    } else if from == WAITING_PAYMENT {
      NoStageSkipped(log, id, WAITING_PAYMENT);
    }
  }

  lemma {:induction false} GivesSucceed(stock: Stock, ops: seq<StockOp>)
    requires forall i | 0 <= i < |ops| :: ops[i].Give?
    ensures RunOps(stock, ops).Some?
  {
    if ops != [] {
      GivesSucceed(stock, ops[..|ops| - 1]);
    }
  }

  lemma RankNeverRises(before: seq<Event>, after: seq<Event>, id: nat)
    requires Replay(before).Some? && Replay(before + after).Some? && id < |Replay(before).value.deals|
    ensures id < |Replay(before + after).value.deals|
    ensures Rank(Replay(before + after).value.deals[id].status) <= Rank(Replay(before).value.deals[id].status)
  {
    DealsEvolve(before, after, id);
  }

  /** Once out of a status a deal never comes back to it. */
  lemma LeftForGood(log: seq<Event>, id: nat, s: Status)
    requires Replay(log).Some? && id < |Replay(log).value.deals| && EverIn(log, id, s)
    ensures Rank(Replay(log).value.deals[id].status) <= Rank(s)
  {
    var n :| 0 <= n <= |log| && InNow(log[..n], id, s);
    assert log[..n] + log[n..] == log;
    RankNeverRises(log[..n], log[n..], id);
  }

  /** Where a refund is possible, the goods had been shipped exactly when the deal is not in PAID. */
  lemma RefundFollowsShippingIff(log: seq<Event>, id: nat)
    requires Replay(log).Some? && id < |Replay(log).value.deals|
    requires Allowed(Replay(log).value.deals[id].status, REFUNDED)
    ensures EverIn(log, id, SHIPPED) <==> Replay(log).value.deals[id].status != PAID
  {
    CurrentIsEverIn(log, id);
    if EverIn(log, id, SHIPPED) {
      LeftForGood(log, id, SHIPPED);
    }
    if Replay(log).value.deals[id].status == COMPLETED {
      NoStageSkipped(log, id, COMPLETED);
    }
  }

  /** Any allowed change succeeds, in every state a run can reach. */
  lemma ChangeSucceeds(log: seq<Event>, id: nat, to: Status, at: Time)
    requires Replay(log).Some? && id < |Replay(log).value.deals| && Allowed(Replay(log).value.deals[id].status, to)
    ensures InNow(log + [StatusChanged(id, to, at)], id, to)
  {
    var e, db := StatusChanged(id, to, at), Replay(log).value;
    RunsKeepInv(log);
    OpsOfEvent(db, e);
    GivesSucceed(db.stock, StockOps(db.deals, e));
    RunSnoc(EMPTY, log, e);
  }

  /** Which transitions there are: a deal not yet paid can be cancelled, one that was paid refunded, and
      every other step goes to the next stage. */
  lemma AllowedIff(from: Status, to: Status)
    ensures Allowed(from, to) <==>
            || (to == CANCELLED && (from == NEW || from == WAITING_PAYMENT))
            || (to == REFUNDED && (from == PAID || from == SHIPPED || from == COMPLETED))
            || (to == WAITING_PAYMENT && from == NEW)
            || (to == PAID && from == WAITING_PAYMENT)
            || (to == SHIPPED && from == PAID)
            || (to == COMPLETED && from == SHIPPED)
  {
  }

  /** The same by rank: the only shortcuts are cancelling before payment and refunding after it. */
  lemma AllowedByRank(from: Status, to: Status)
    ensures Allowed(from, to) <==>
            || (to == CANCELLED && Rank(from) >= 4)
            || (to == REFUNDED && 1 <= Rank(from) <= 3)
            || (to !in {NEW, CANCELLED, REFUNDED} && Before(to) == from)
  {
  }

  /** What happens to a deal that goes all the way. */
  ghost function Sale(id: nat, at: Time): seq<Event> {
    [StatusChanged(id, WAITING_PAYMENT, at), StatusChanged(id, PAID, at), StatusChanged(id, SHIPPED, at),
     StatusChanged(id, COMPLETED, at)]
  }

  /** Every NEW deal of every run can be paid, shipped and completed. */
  lemma EverySaleCanComplete(log: seq<Event>, id: nat, at: Time)
    requires InNow(log, id, NEW)
    ensures InNow(log + Sale(id, at)[..1], id, WAITING_PAYMENT) && InNow(log + Sale(id, at)[..2], id, PAID)
    ensures InNow(log + Sale(id, at)[..3], id, SHIPPED) && InNow(log + Sale(id, at), id, COMPLETED)
  {
    var sale := Sale(id, at);
    ChangeSucceeds(log, id, WAITING_PAYMENT, at);
    assert log + sale[..1] == log + [sale[0]];
    ChangeSucceeds(log + sale[..1], id, PAID, at);
    assert log + sale[..2] == log + sale[..1] + [sale[1]];
    ChangeSucceeds(log + sale[..2], id, SHIPPED, at);
    assert log + sale[..3] == log + sale[..2] + [sale[2]];
    ChangeSucceeds(log + sale[..3], id, COMPLETED, at);
    assert log + sale == log + sale[..3] + [sale[3]];
  }

  /** At every stage a deal can be called off: cancelled before payment, refunded after it, and with all
      its goods back either way. */
  lemma EverySaleCanBeCalledOff(log: seq<Event>, id: nat, at: Time, k: StockKey)
    requires Replay(log).Some? && id < |Replay(log).value.deals|
    requires Replay(log).value.deals[id].status != CANCELLED && Replay(log).value.deals[id].status != REFUNDED
    ensures var d := Replay(log).value.deals[id];
            var to := if d.status == NEW || d.status == WAITING_PAYMENT then CANCELLED else REFUNDED;
            var after := log + [StatusChanged(id, to, at)];
            && InNow(after, id, to)
            && OnHand(Replay(after).value.stock, k) == OnHand(Replay(log).value.stock, k) + ItemsAt(d, k)
  {
    var db := Replay(log).value;
    var to := if db.deals[id].status == NEW || db.deals[id].status == WAITING_PAYMENT then CANCELLED else REFUNDED;
    AllowedIff(db.deals[id].status, to);
    ChangeSucceeds(log, id, to, at);
    RunsKeepInv(log);
    RunSnoc(EMPTY, log, StatusChanged(id, to, at));
    StatusChangeGivesBack(db, id, to, at, k);
  }

  /** Every deal in PAID can be refunded at once, and then never was SHIPPED. */
  lemma PaidIsRefundedUnshipped(log: seq<Event>, id: nat, at: Time)
    requires InNow(log, id, PAID)
    ensures var after := log + [StatusChanged(id, REFUNDED, at)];
            InNow(after, id, REFUNDED) && !EverIn(after, id, SHIPPED)
  {
    var e := StatusChanged(id, REFUNDED, at);
    ChangeSucceeds(log, id, REFUNDED, at);
    RefundFollowsShippingIff(log, id);
    assert (log + [e])[..|log|] == log;
    EverInSnoc(log + [e], id, SHIPPED);
  }

  ghost function PenDeal(at: Time): Deal {
    Deal("m", Some("w"), [Item("pen", 1, 10, 10)], None, Amounts(0, 0, 0, 10, 0.0, 0), NEW, at, None, None)
  }

  lemma PenIsSold(at: Time)
    ensures InNow([QuantitySet(StockKey("w", "pen"), 1), DealCreated(PenDeal(at))], 0, NEW)
  {
    var key := StockKey("w", "pen");
    var log1 := [QuantitySet(key, 1)];
    assert [] + log1 == log1;
    RunSingle(map[], Put(key, 1));
    RunSnoc(EMPTY, [], QuantitySet(key, 1));
    assert Takes("w", PenDeal(at).items) == [Take(key, 1)];
    RunSingle(map[key := 1], Take(key, 1));
    RunSnoc(EMPTY, log1, DealCreated(PenDeal(at)));
    assert log1 + [DealCreated(PenDeal(at))] == [QuantitySet(key, 1), DealCreated(PenDeal(at))];
  }

  /** A run in which it happens: one item is stocked, sold, paid and refunded from the shelf. */
  lemma RefundedUnshippedRun(at: Time)
    ensures var log := [QuantitySet(StockKey("w", "pen"), 1), DealCreated(PenDeal(at)),
                        StatusChanged(0, WAITING_PAYMENT, at), StatusChanged(0, PAID, at),
                        StatusChanged(0, REFUNDED, at)];
            InNow(log, 0, REFUNDED) && !EverIn(log, 0, SHIPPED)
  {
    var log := [QuantitySet(StockKey("w", "pen"), 1), DealCreated(PenDeal(at))];
    PenIsSold(at);
    ChangeSucceeds(log, 0, WAITING_PAYMENT, at);
    var log' := log + [StatusChanged(0, WAITING_PAYMENT, at)];
    ChangeSucceeds(log', 0, PAID, at);
    PaidIsRefundedUnshipped(log' + [StatusChanged(0, PAID, at)], 0, at);
    assert log' + [StatusChanged(0, PAID, at)] + [StatusChanged(0, REFUNDED, at)]
        == [QuantitySet(StockKey("w", "pen"), 1), DealCreated(PenDeal(at)),
            StatusChanged(0, WAITING_PAYMENT, at), StatusChanged(0, PAID, at), StatusChanged(0, REFUNDED, at)];
  }

  /** A claimed deal was paid once and is in PAID, SHIPPED, COMPLETED or REFUNDED; never CANCELLED. */
  lemma ClaimedDealsWerePaid(log: seq<Event>, id: nat)
    requires Replay(log).Some? && id < |Replay(log).value.deals|
    requires Replay(log).value.deals[id].payout.Some?
    ensures EverIn(log, id, PAID) && Replay(log).value.deals[id].status in PAID_ONWARD
    ensures Replay(log).value.deals[id].status != CANCELLED
  {
    RunsKeepInv(log);
    DealHistory(log, id);
    assert DealOk(Replay(log).value.deals[id]);
  }

  // ----- how one payout evolves

  function Stage(s: PayoutStatus): nat {
    match s case Draft => 0 case Approved => 1 case PaidOut => 2
  }

  /** A payout keeps its manager and period, moves only forward, and its money is fixed by approval. */
  ghost predicate PayoutEvolves(p: Payout, later: Payout) {
    && later.manager == p.manager && later.start == p.start && later.end == p.end
    && Stage(p.status) <= Stage(later.status)
    && (p.status != Draft ==>
          && later.baseSalary == p.baseSalary && later.totalCommission == p.totalCommission
          && later.totalPayout == p.totalPayout && later.approvedAt == p.approvedAt)
  }

  lemma {:induction false} PayoutsEvolve(before: seq<Event>, after: seq<Event>, pid: nat)
    requires Replay(before).Some? && Replay(before + after).Some? && pid < |Replay(before).value.payouts|
    ensures pid < |Replay(before + after).value.payouts|
    ensures PayoutEvolves(Replay(before).value.payouts[pid], Replay(before + after).value.payouts[pid])
  {
    if after == [] {
      assert before + after == before;
    } else {
      var n := |after| - 1;
      assert (before + after)[..|before + after| - 1] == before + after[..n];
      PayoutsEvolve(before, after[..n], pid);
      ApplyEvolvesPayout(Replay(before + after[..n]).value, after[n], pid);
    }
  }

  lemma ApplyEvolvesPayout(db: Db, e: Event, pid: nat)
    requires pid < |db.payouts| && Apply(db, e).Some?
    ensures pid < |Apply(db, e).value.payouts| && PayoutEvolves(db.payouts[pid], Apply(db, e).value.payouts[pid])
  {
  }

  ghost predicate PayoutDates(p: Payout) {
    p.approvedAt.Some? <==> p.status != Draft
  }

  /** In every run a payout has an approval date exactly when it left DRAFT. */
  lemma {:induction false} ApprovalIsDated(log: seq<Event>, pid: nat)
    requires Replay(log).Some? && pid < |Replay(log).value.payouts|
    ensures PayoutDates(Replay(log).value.payouts[pid])
  {
    var rest := log[..|log| - 1];
    if pid < |Replay(rest).value.payouts| {
      ApprovalIsDated(rest, pid);
    }
  }
}
