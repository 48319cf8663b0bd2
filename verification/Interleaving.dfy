/**
 * Concurrent requests. Every statement on a stock row is its own step: it takes
 * the row's lock and keeps it, with the row's before-image, until its
 * transaction commits or rolls back. A transaction may roll back at any point
 * (no row matched, deadlock, unique violation, lost connection). Rows of the
 * deal and payout tables are written by the last statements of a transaction,
 * so that write and the commit are one step. A call on one payout reads the row
 * in one step and writes it in another. `log` records commits in order.
 */
module Interleaving {
  import opened Wrappers
  import opened DealStatus
  import opened Ledger
  import opened LedgerProofs
  import opened PayoutCalc

  type TxId = nat

  datatype Tx = Tx(event: Event, ops: seq<StockOp>, done: nat, undo: map<StockKey, Option<int>>)

  /** One `generate` call: managers still to be read, and calculated payouts still to be written. */
  datatype Generation = Generation(start: Time, end: Time, waiting: seq<Manager>, calcs: seq<Entry>)

  /** A call on one payout between its read and its write: what it will write, and the row it read. */
  datatype PayoutCall = PayoutCall(event: Event, seen: Payout)

  datatype Sys = Sys(db: Db, locks: map<StockKey, TxId>, active: map<TxId, Tx>,
                     gen: Option<Generation>, calls: map<nat, PayoutCall>, log: seq<Event>)

  const INIT := Sys(EMPTY, map[], map[], None, map[], [])

  datatype Step =
    | BeginCreate(t: TxId, deal: Deal)
    | BeginStatus(t: TxId, id: nat, to: Status, at: Time)
    | BeginSet(t: TxId, key: StockKey, n: int)
    | Exec(t: TxId)
    | Rollback(t: TxId)
    | Commit(t: TxId)
    | GenStart(start: Time, end: Time, managers: seq<Manager>)
    | GenRead
    | GenWrite
    | GenCrash
    | PayoutRead(c: nat, e: Event)
    | PayoutWrite(c: nat)
    | PayoutCrash(c: nat)

  function Row(stock: Stock, k: StockKey): Option<int> {
    if k in stock then Some(stock[k]) else None
  }

  function WithImage(undo: map<StockKey, Option<int>>, now: Stock, k: StockKey): map<StockKey, Option<int>> {
    if k in undo then undo else undo[k := Row(now, k)]
  }

  function Undo(stock: Stock, undo: map<StockKey, Option<int>>): Stock {
    map k | k in stock.Keys + undo.Keys && (k in undo ==> undo[k].Some?) ::
      if k in undo then undo[k].value else stock[k]
  }

  function Begin(s: Sys, t: TxId, e: Event): Option<Sys> {
    if t in s.active then None
    else Some(s.(active := s.active[t := Tx(e, StockOps(s.db.deals, e), 0, map[])]))
  }

  /** The statement on row `k` is done and left this stock; a statement that found no row locks none. */
  function Executed(s: Sys, t: TxId, k: StockKey, stock: Stock): Sys
    requires t in s.active
  {
    var tx := s.active[t];
    if k !in stock then s.(active := s.active[t := tx.(done := tx.done + 1)])
    else
      var undo := WithImage(tx.undo, s.db.stock, k);
      s.(db := s.db.(stock := stock), locks := s.locks[k := t],
         active := s.active[t := tx.(done := tx.done + 1, undo := undo)])
  }

  /** The next stock statement of `t`; not possible while another transaction holds the row. */
  function ExecNext(s: Sys, t: TxId): Option<Sys> {
    if t !in s.active || s.active[t].done >= |s.active[t].ops| then None
    else
      var op := s.active[t].ops[s.active[t].done];
      if op.key in s.locks && s.locks[op.key] != t then None
      else match ApplyOp(s.db.stock, op)
        case None => None
        case Some(stock) => Some(Executed(s, t, op.key, stock))
  }

  function Forget(s: Sys, t: TxId): Sys
    requires t in s.active
  {
    s.(locks := s.locks - s.active[t].undo.Keys, active := s.active - {t})
  }

  function RollBack(s: Sys, t: TxId): Option<Sys> {
    if t !in s.active then None
    else Some(Forget(s, t).(db := s.db.(stock := Undo(s.db.stock, s.active[t].undo))))
  }

  /** The unique index on the deal's quote is checked; a status write is not re-validated. */
  function CommitTx(s: Sys, t: TxId): Option<Sys> {
    if t !in s.active || s.active[t].done != |s.active[t].ops| then None
    else
      var e := s.active[t].event;
      if !InRange(s.db, e) || (e.DealCreated? && !UnlinkedQuote(s.db.deals, e.deal.quote)) then None
      else Some(Forget(s, t).(db := WriteTables(s.db, e), log := s.log + [e]))
  }

  predicate ChangingStatus(s: Sys, id: nat) {
    exists t | t in s.active :: s.active[t].event.StatusChanged? && s.active[t].event.id == id
  }

  predicate DistinctManagers(ms: seq<Manager>) {
    forall i, j | 0 <= i < j < |ms| :: ms[i].id != ms[j].id
  }

  predicate IsPayoutCall(e: Event) {
    e.PayoutCorrected? || e.PayoutApproved? || e.PayoutMarkedPaid?
  }

  predicate CallingPayout(s: Sys, pid: nat) {
    exists c | c in s.calls :: IsPayoutCall(s.calls[c].event) && s.calls[c].event.pid == pid
  }

  /** The columns a call writes, computed from the row it read, over the row as it is now. */
  function Written(e: Event, seen: Payout, now: Payout): Payout {
    match e
    case PayoutCorrected(_, b, c, t) =>
      var q := Corrected(seen, b, c, t);
      now.(baseSalary := q.baseSalary, totalCommission := q.totalCommission, totalPayout := q.totalPayout)
    case PayoutApproved(_, at) => now.(status := Approved, approvedAt := Some(at))
    case PayoutMarkedPaid(_) => now.(status := PaidOut)
    case _ => now
  }

  /** The call finds its payout in the status it needs. */
  function ReadPayout(s: Sys, c: nat, e: Event): Option<Sys> {
    if c in s.calls || !IsPayoutCall(e) || !Valid(s.db, e) then None
    else Some(s.(calls := s.calls[c := PayoutCall(e, s.db.payouts[e.pid])]))
  }

  /** The write is by id alone: the status is not looked at again. */
  function WritePayout(s: Sys, c: nat): Option<Sys> {
    if c !in s.calls || !IsPayoutCall(s.calls[c].event) || !InRange(s.db, s.calls[c].event) then None
    else
      var e, seen := s.calls[c].event, s.calls[c].seen;
      var row := Written(e, seen, s.db.payouts[e.pid]);
      Some(s.(db := s.db.(payouts := s.db.payouts[e.pid := row]), calls := s.calls - {c}, log := s.log + [e]))
  }

  /** One step of the whole system, `None` when the step is not possible. Two `changeStatus` calls
      on one deal do not overlap, nor do two calls on one payout, nor two `generate` calls; everything
      else may interleave. */
  function Next(s: Sys, step: Step): Option<Sys> {
    match step
    case BeginCreate(t, deal) => if NewDeal(deal) then Begin(s, t, DealCreated(deal)) else None
    case BeginStatus(t, id, to, at) =>
      if id < |s.db.deals| && Allowed(s.db.deals[id].status, to) && !ChangingStatus(s, id)
      then Begin(s, t, StatusChanged(id, to, at)) else None
    case BeginSet(t, key, n) => if n >= 0 then Begin(s, t, QuantitySet(key, n)) else None
    case Exec(t) => ExecNext(s, t)
    case Rollback(t) => RollBack(s, t)
    case Commit(t) => CommitTx(s, t)
    case GenStart(start, end, managers) =>
      if s.gen == None && DistinctManagers(managers) then Some(s.(gen := Some(Generation(start, end, managers, []))))
      else None
    case GenRead =>
      if s.gen == None || s.gen.value.waiting == [] then None
      else
        var g := s.gen.value;
        var owed := Calculate(s.db.deals, g.waiting[0], g.start, g.end);
        Some(s.(gen := Some(g.(waiting := g.waiting[1..], calcs := g.calcs + [owed]))))
    case GenWrite =>
      if s.gen == None || s.gen.value.waiting != [] then None
      else
        var g := s.gen.value;
        if g.calcs == [] then Some(s.(gen := None))
        else
          var e := g.calcs[0];
          var rest := s.(gen := Some(g.(calcs := g.calcs[1..])));
          if e.row.totalPayout == 0 then Some(rest)
          else Some(rest.(db := WriteTables(s.db, e), log := s.log + [e]))
    case GenCrash => if s.gen == None then None else Some(s.(gen := None))
    case PayoutRead(c, e) => if IsPayoutCall(e) && CallingPayout(s, e.pid) then None else ReadPayout(s, c, e)
    case PayoutWrite(c) => WritePayout(s, c)
    case PayoutCrash(c) => if c in s.calls then Some(s.(calls := s.calls - {c})) else None
  }

  function RunSteps(steps: seq<Step>): Option<Sys> {
    if steps == [] then Some(INIT)
    else match RunSteps(steps[..|steps| - 1])
      case None => None
      case Some(s) => Next(s, steps[|steps| - 1])
  }

  lemma RunStepsSnoc(steps: seq<Step>, last: Step)
    requires RunSteps(steps).Some?
    ensures RunSteps(steps + [last]) == Next(RunSteps(steps).value, last)
  {
    assert (steps + [last])[..|steps|] == steps;
  }

  // ----- the invariant that ties the physical state to the log

  /** A locked row belongs to exactly the active transaction that holds its before-image. */
  ghost predicate LocksOk(locks: map<StockKey, TxId>, active: map<TxId, Tx>) {
    && (forall k | k in locks :: locks[k] in active && k in active[locks[k]].undo)
    && (forall t, k | t in active && k in active[t].undo :: k in locks && locks[k] == t)
  }

  /** On its own rows a transaction's work `w` is what is stored; elsewhere it sees what is committed. */
  ghost predicate WorkOk(c: Stock, now: Stock, w: Stock, undo: map<StockKey, Option<int>>) {
    && (forall k | k in undo :: Row(now, k) == Row(w, k) && undo[k] == Row(c, k))
    && (forall k | k !in undo :: Row(w, k) == Row(c, k))
  }

  /** A transaction has run its first `done` statements, all of them on its own rows. */
  ghost predicate TxStockOk(c: Stock, now: Stock, tx: Tx) {
    && tx.done <= |tx.ops|
    && (forall i | 0 <= i < tx.done :: tx.ops[i].key in tx.undo)
    && RunOps(c, tx.ops[..tx.done]).Some?
    && WorkOk(c, now, RunOps(c, tx.ops[..tx.done]).value, tx.undo)
  }

  ghost predicate TxEventOk(deals: seq<Deal>, tx: Tx) {
    && tx.ops == StockOps(deals, tx.event)
    && match tx.event
       case DealCreated(d) => NewDeal(d)
       case StatusChanged(id, to, _) => id < |deals| && Allowed(deals[id].status, to)
       case QuantitySet(_, n) => n >= 0
       case _ => false
  }

  ghost predicate OneChangePerDeal(active: map<TxId, Tx>) {
    forall t, u | t in active && u in active && t != u
      && active[t].event.StatusChanged? && active[u].event.StatusChanged?
      :: active[t].event.id != active[u].event.id
  }

  ghost predicate EventsOk(deals: seq<Deal>, active: map<TxId, Tx>) {
    && (forall t | t in active :: TxEventOk(deals, active[t]))
    && OneChangePerDeal(active)
  }

  /** Unlocked rows are the committed ones; locked rows are their owner's work so far. */
  ghost predicate StockOk(c: Stock, s: Sys) {
    && (forall k | k !in s.locks :: Row(s.db.stock, k) == Row(c, k))
    && (forall t | t in s.active :: TxStockOk(c, s.db.stock, s.active[t]))
  }

  ghost predicate GenOk(db: Db, g: Generation) {
    && DistinctManagers(g.waiting)
    && (forall i | 0 <= i < |g.calcs| :: Valid(db, g.calcs[i]))
    && (forall i, j | 0 <= i < j < |g.calcs| :: g.calcs[i].row.manager != g.calcs[j].row.manager)
    && (forall i, j | 0 <= i < |g.calcs| && 0 <= j < |g.waiting| :: g.calcs[i].row.manager != g.waiting[j].id)
  }

  /** Nothing happened to the payout since the call read it. */
  ghost predicate CallOk(payouts: seq<Payout>, call: PayoutCall) {
    && IsPayoutCall(call.event)
    && call.event.pid < |payouts| && payouts[call.event.pid] == call.seen
    && call.seen.status == (if call.event.PayoutMarkedPaid? then Approved else Draft)
  }

  ghost predicate CallsOk(payouts: seq<Payout>, calls: map<nat, PayoutCall>) {
    && (forall c | c in calls :: CallOk(payouts, calls[c]))
    && (forall c, d | c in calls && d in calls && c != d :: calls[c].event.pid != calls[d].event.pid)
  }

  ghost predicate SysInv(s: Sys) {
    && Replay(s.log).Some?
    && var c := Replay(s.log).value;
    && s.db.deals == c.deals && s.db.payouts == c.payouts
    && LocksOk(s.locks, s.active)
    && StockOk(c.stock, s)
    && EventsOk(c.deals, s.active)
    && (s.gen.Some? ==> GenOk(c, s.gen.value))
    && CallsOk(c.payouts, s.calls)
  }

  // ----- locality of the stock statements

  lemma {:induction false} RunIsLocal(a: Stock, b: Stock, ops: seq<StockOp>, keys: set<StockKey>)
    requires RunOps(a, ops).Some?
    requires forall i | 0 <= i < |ops| :: ops[i].key in keys
    requires forall k | k in keys :: Row(a, k) == Row(b, k)
    ensures RunOps(b, ops).Some?
    ensures forall k | k in keys :: Row(RunOps(b, ops).value, k) == Row(RunOps(a, ops).value, k)
    ensures forall k | k !in keys :: Row(RunOps(b, ops).value, k) == Row(b, k)
  {
    if ops != [] {
      RunIsLocal(a, b, ops[..|ops| - 1], keys);
      var last := ops[|ops| - 1];
      assert Row(RunOps(b, ops[..|ops| - 1]).value, last.key) == Row(RunOps(a, ops[..|ops| - 1]).value, last.key);
    }
  }

  lemma RowsDetermineStock(a: Stock, b: Stock)
    requires forall k :: Row(a, k) == Row(b, k)
    ensures a == b
  {
    forall k ensures k in a <==> k in b {
      assert Row(a, k) == Row(b, k);
    }
    forall k | k in a ensures a[k] == b[k] {
      assert Row(a, k) == Row(b, k);
    }
  }

  lemma TxFrame(c: Stock, now: Stock, now': Stock, tx: Tx)
    requires TxStockOk(c, now, tx)
    requires forall k | k in tx.undo :: Row(now', k) == Row(now, k)
    ensures TxStockOk(c, now', tx)
  {
  }

  // ----- each step keeps the invariant

  lemma FreshTxOk(c: Stock, now: Stock, e: Event, ops: seq<StockOp>)
    ensures TxStockOk(c, now, Tx(e, ops, 0, map[]))
  {
    assert ops[..0] == [];
  }

  lemma BeginKeepsLocks(s: Sys, t: TxId, e: Event)
    requires LocksOk(s.locks, s.active) && Begin(s, t, e).Some?
    ensures LocksOk(Begin(s, t, e).value.locks, Begin(s, t, e).value.active)
  {
  }

  lemma BeginKeepsStock(c: Stock, s: Sys, t: TxId, e: Event)
    requires StockOk(c, s) && Begin(s, t, e).Some?
    ensures StockOk(c, Begin(s, t, e).value)
  {
    var s' := Begin(s, t, e).value;
    forall u | u in s'.active ensures TxStockOk(c, s'.db.stock, s'.active[u]) {
      if u == t {
        FreshTxOk(c, s.db.stock, e, StockOps(s.db.deals, e));
      }
    }
  }

  lemma BeginKeeps(s: Sys, t: TxId, e: Event)
    requires SysInv(s) && Begin(s, t, e).Some?
    requires TxEventOk(s.db.deals, Tx(e, StockOps(s.db.deals, e), 0, map[]))
    requires e.StatusChanged? ==> !ChangingStatus(s, e.id)
    ensures SysInv(Begin(s, t, e).value)
  {
    BeginKeepsLocks(s, t, e);
    BeginKeepsStock(Replay(s.log).value.stock, s, t, e);
    assert EventsOk(s.db.deals, Begin(s, t, e).value.active);
  }

  /** A restoring increment always finds its row, so it never silently gives nothing back. */
  lemma GiveFindsItsRow(c: Db, now: Stock, tx: Tx)
    requires Inv(c) && TxEventOk(c.deals, tx)
    requires TxStockOk(c.stock, now, tx) && tx.done < |tx.ops| && tx.ops[tx.done].Give?
    ensures tx.ops[tx.done].key in RunOps(c.stock, tx.ops[..tx.done]).value
  {
    OpsOfEvent(c, tx.event);
    NetEffect(c.stock, tx.ops[..tx.done], tx.ops[tx.done].key);
  }

  predicate MayTouch(c: Stock, now: Stock, undo: map<StockKey, Option<int>>, k: StockKey) {
    k in undo || Row(now, k) == Row(c, k)
  }

  lemma StatementKeepsWork(c: Stock, now: Stock, w: Stock, undo: map<StockKey, Option<int>>, op: StockOp)
    requires WorkOk(c, now, w, undo) && MayTouch(c, now, undo, op.key)
    requires ApplyOp(now, op).Some? && op.key in ApplyOp(now, op).value
    ensures ApplyOp(w, op).Some?
    ensures WorkOk(c, ApplyOp(now, op).value, ApplyOp(w, op).value, WithImage(undo, now, op.key))
  {
    assert Row(now, op.key) == Row(w, op.key);
  }

  /** One more statement of a transaction whose row is its own or free. */
  lemma OwnStatement(c: Stock, now: Stock, tx: Tx)
    requires TxStockOk(c, now, tx) && tx.done < |tx.ops|
    requires MayTouch(c, now, tx.undo, tx.ops[tx.done].key)
    requires ApplyOp(now, tx.ops[tx.done]).Some?
    requires tx.ops[tx.done].key in ApplyOp(now, tx.ops[tx.done]).value
    ensures TxStockOk(c, ApplyOp(now, tx.ops[tx.done]).value,
                      tx.(done := tx.done + 1, undo := WithImage(tx.undo, now, tx.ops[tx.done].key)))
  {
    var op := tx.ops[tx.done];
    StatementKeepsWork(c, now, RunOps(c, tx.ops[..tx.done]).value, tx.undo, op);
    assert tx.ops[..tx.done + 1][..tx.done] == tx.ops[..tx.done];
  }

  lemma ExecKeepsLocks(s: Sys, t: TxId)
    requires LocksOk(s.locks, s.active) && ExecNext(s, t).Some?
    ensures LocksOk(ExecNext(s, t).value.locks, ExecNext(s, t).value.active)
  {
  }

  lemma ExecKeepsOther(c: Stock, s: Sys, t: TxId, u: TxId)
    requires LocksOk(s.locks, s.active) && ExecNext(s, t).Some?
    requires u in s.active && u != t && TxStockOk(c, s.db.stock, s.active[u])
    ensures TxStockOk(c, ExecNext(s, t).value.db.stock, ExecNext(s, t).value.active[u])
  {
    var tx := s.active[t];
    assert tx.ops[tx.done].key !in s.active[u].undo;
    TxFrame(c, s.db.stock, ExecNext(s, t).value.db.stock, s.active[u]);
  }

  lemma ExecKeepsOwn(c: Stock, s: Sys, t: TxId)
    requires LocksOk(s.locks, s.active) && StockOk(c, s) && ExecNext(s, t).Some?
    requires s.active[t].ops[s.active[t].done].key in ExecNext(s, t).value.db.stock
    ensures TxStockOk(c, ExecNext(s, t).value.db.stock, ExecNext(s, t).value.active[t])
  {
    OwnStatement(c, s.db.stock, s.active[t]);
  }

  lemma ExecKeepsStock(c: Stock, s: Sys, t: TxId)
    requires LocksOk(s.locks, s.active) && StockOk(c, s) && ExecNext(s, t).Some?
    requires s.active[t].ops[s.active[t].done].key in ExecNext(s, t).value.db.stock
    ensures StockOk(c, ExecNext(s, t).value)
  {
    var s' := ExecNext(s, t).value;
    ExecKeepsOwn(c, s, t);
    forall u | u in s'.active ensures TxStockOk(c, s'.db.stock, s'.active[u]) {
      if u != t {
        ExecKeepsOther(c, s, t, u);
      }
    }
  }

  lemma StatementFindsItsRow(c: Db, now: Stock, tx: Tx, now': Stock)
    requires Inv(c) && TxEventOk(c.deals, tx) && TxStockOk(c.stock, now, tx) && tx.done < |tx.ops|
    requires tx.ops[tx.done].key in tx.undo || Row(now, tx.ops[tx.done].key) == Row(c.stock, tx.ops[tx.done].key)
    requires ApplyOp(now, tx.ops[tx.done]) == Some(now')
    ensures tx.ops[tx.done].key in now'
  {
    var op, w := tx.ops[tx.done], RunOps(c.stock, tx.ops[..tx.done]).value;
    if op.Give? {
      GiveFindsItsRow(c, now, tx);
      assert Row(now, op.key) == Row(w, op.key);
    }
  }

  lemma ExecKeeps(s: Sys, t: TxId)
    requires SysInv(s) && ExecNext(s, t).Some?
    ensures SysInv(ExecNext(s, t).value)
  {
    var c, tx, s' := Replay(s.log).value, s.active[t], ExecNext(s, t).value;
    RunsKeepInv(s.log);
    assert TxStockOk(c.stock, s.db.stock, tx) && TxEventOk(c.deals, tx);
    StatementFindsItsRow(c, s.db.stock, tx, s'.db.stock);
    ExecKeepsLocks(s, t);
    ExecKeepsStock(c.stock, s, t);
    ExecKeepsEvents(c.deals, s, t);
  }

  lemma ExecKeepsEvents(deals: seq<Deal>, s: Sys, t: TxId)
    requires EventsOk(deals, s.active) && ExecNext(s, t).Some?
    ensures EventsOk(deals, ExecNext(s, t).value.active)
  {
    var s' := ExecNext(s, t).value;
    forall u | u in s'.active ensures TxEventOk(deals, s'.active[u]) {
      assert TxEventOk(deals, s.active[u]);
    }
  }

  lemma ForgetKeeps(deals: seq<Deal>, s: Sys, t: TxId)
    requires t in s.active && LocksOk(s.locks, s.active) && EventsOk(deals, s.active)
    ensures LocksOk(Forget(s, t).locks, Forget(s, t).active) && EventsOk(deals, Forget(s, t).active)
  {
  }

  lemma RollbackRestoresFree(c: Stock, s: Sys, t: TxId)
    requires LocksOk(s.locks, s.active) && StockOk(c, s) && RollBack(s, t).Some?
    ensures forall k | k !in RollBack(s, t).value.locks :: Row(RollBack(s, t).value.db.stock, k) == Row(c, k)
  {
    var tx, s' := s.active[t], RollBack(s, t).value;
    assert TxStockOk(c, s.db.stock, tx);
    forall k | k !in s'.locks ensures Row(s'.db.stock, k) == Row(c, k) {
      if k in tx.undo {
        assert tx.undo[k] == Row(c, k);
      } else {
        assert k !in s.locks;
      }
    }
  }

  lemma RollbackKeepsOther(c: Stock, s: Sys, t: TxId, u: TxId)
    requires LocksOk(s.locks, s.active) && RollBack(s, t).Some?
    requires u in s.active && u != t && TxStockOk(c, s.db.stock, s.active[u])
    ensures TxStockOk(c, RollBack(s, t).value.db.stock, s.active[u])
  {
    var s' := RollBack(s, t).value;
    forall k | k in s.active[u].undo ensures Row(s'.db.stock, k) == Row(s.db.stock, k) {
      assert s.locks[k] == u;
      assert k !in s.active[t].undo;
    }
    TxFrame(c, s.db.stock, s'.db.stock, s.active[u]);
  }

  lemma RollbackKeepsStock(c: Stock, s: Sys, t: TxId)
    requires LocksOk(s.locks, s.active) && StockOk(c, s) && RollBack(s, t).Some?
    ensures StockOk(c, RollBack(s, t).value)
  {
    var s' := RollBack(s, t).value;
    RollbackRestoresFree(c, s, t);
    forall u | u in s'.active ensures TxStockOk(c, s'.db.stock, s'.active[u]) {
      RollbackKeepsOther(c, s, t, u);
    }
  }

  lemma RollbackKeeps(s: Sys, t: TxId)
    requires SysInv(s) && RollBack(s, t).Some?
    ensures SysInv(RollBack(s, t).value)
  {
    RollbackKeepsStock(Replay(s.log).value.stock, s, t);
    ForgetKeeps(s.db.deals, s, t);
  }

  // ----- commits

  lemma EventStaysOk(db: Db, e: Event, tx: Tx)
    requires Apply(db, e).Some? && TxEventOk(db.deals, tx)
    requires e.StatusChanged? && tx.event.StatusChanged? ==> e.id != tx.event.id
    ensures TxEventOk(Apply(db, e).value.deals, tx)
  {
  }

  lemma CommitAppliesAtomically(s: Sys, t: TxId)
    requires SysInv(s) && CommitTx(s, t).Some?
    ensures var e := s.active[t].event;
            var c := Replay(s.log).value;
            && Apply(c, e).Some?
            && Apply(c, e).value.stock == RunOps(c.stock, s.active[t].ops).value
            && Apply(c, e).value.deals == CommitTx(s, t).value.db.deals
            && Apply(c, e).value.payouts == CommitTx(s, t).value.db.payouts
  {
    var tx := s.active[t];
    assert tx.ops[..tx.done] == tx.ops;
  }

  lemma OtherTxUnaffected(c: Stock, c': Stock, now: Stock, mine: Tx, other: Tx)
    requires TxStockOk(c, now, mine) && TxStockOk(c, now, other)
    requires mine.done == |mine.ops| && RunOps(c, mine.ops) == Some(c')
    requires mine.undo.Keys !! other.undo.Keys
    ensures TxStockOk(c', now, other)
  {
    assert mine.ops[..mine.done] == mine.ops;
    forall k | k in other.undo.Keys ensures Row(c, k) == Row(c', k) {
      assert k !in mine.undo;
    }
    RunIsLocal(c, c', other.ops[..other.done], other.undo.Keys);
  }

  lemma CommitKeeps(s: Sys, t: TxId)
    requires SysInv(s) && CommitTx(s, t).Some?
    ensures SysInv(CommitTx(s, t).value)
  {
    var c, tx, s' := Replay(s.log).value, s.active[t], CommitTx(s, t).value;
    CommitAppliesAtomically(s, t);
    RunSnoc(EMPTY, s.log, tx.event);
    var c' := Apply(c, tx.event).value;
    assert tx.ops[..tx.done] == tx.ops;
    ForgetKeeps(c.deals, s, t);
    forall u | u in s'.active
      ensures TxStockOk(c'.stock, s'.db.stock, s'.active[u]) && TxEventOk(c'.deals, s'.active[u])
    {
      assert tx.undo.Keys !! s.active[u].undo.Keys;
      OtherTxUnaffected(c.stock, c'.stock, s.db.stock, tx, s.active[u]);
      EventStaysOk(c, tx.event, s.active[u]);
    }
    if s.gen.Some? {
      GenStaysOk(c, tx.event, s.gen.value);
    }
  }

  lemma GenStaysOk(db: Db, e: Event, g: Generation)
    requires Apply(db, e).Some? && GenOk(db, g)
    requires e.PayoutGenerated? ==> forall i | 0 <= i < |g.calcs| :: g.calcs[i].row.manager != e.row.manager
    ensures GenOk(Apply(db, e).value, g)
  {
    forall i | 0 <= i < |g.calcs| ensures Valid(Apply(db, e).value, g.calcs[i]) {
      CalcStaysValid(db, e, g.calcs[i]);
    }
  }

  /** A committed event without stock statements: a written payout or a call on one payout. */
  lemma TableEventKeeps(s: Sys, e: Event, gen: Option<Generation>, calls: map<nat, PayoutCall>)
    requires SysInv(s) && Valid(s.db, e) && (e.PayoutGenerated? || IsPayoutCall(e))
    requires gen.Some? ==>
               && GenOk(Replay(s.log).value, gen.value)
               && (e.PayoutGenerated? ==>
                     forall i | 0 <= i < |gen.value.calcs| :: gen.value.calcs[i].row.manager != e.row.manager)
    requires CallsOk(WriteTables(s.db, e).payouts, calls)
    ensures SysInv(s.(db := WriteTables(s.db, e), log := s.log + [e], gen := gen, calls := calls))
  {
    var c := Replay(s.log).value;
    RunSnoc(EMPTY, s.log, e);
    assert Apply(c, e).Some?;
    forall t | t in s.active ensures TxEventOk(Apply(c, e).value.deals, s.active[t]) {
      EventStaysOk(c, e, s.active[t]);
    }
    if gen.Some? {
      GenStaysOk(c, e, gen.value);
    }
  }

  /** What a call read is still so when it writes, and it writes what one indivisible step would. */
  lemma WriteIsAtomic(s: Sys, c: nat)
    requires SysInv(s) && WritePayout(s, c).Some?
    ensures var e := s.calls[c].event;
            && Valid(s.db, e)
            && WritePayout(s, c).value == s.(db := WriteTables(s.db, e), log := s.log + [e], calls := s.calls - {c})
            && CallsOk(WriteTables(s.db, e).payouts, s.calls - {c})
  {
    assert CallOk(s.db.payouts, s.calls[c]);
  }

  lemma PayoutWriteKeeps(s: Sys, c: nat)
    requires SysInv(s) && WritePayout(s, c).Some?
    ensures SysInv(WritePayout(s, c).value)
  {
    WriteIsAtomic(s, c);
    TableEventKeeps(s, s.calls[c].event, s.gen, s.calls - {c});
  }

  lemma CallsChangeKeeps(s: Sys, calls: map<nat, PayoutCall>)
    requires SysInv(s) && CallsOk(s.db.payouts, calls)
    ensures SysInv(s.(calls := calls))
  {
  }

  lemma GenReadKeeps(s: Sys)
    requires SysInv(s) && Next(s, GenRead).Some?
    ensures SysInv(Next(s, GenRead).value)
  {
    var g := s.gen.value;
    CalculationIsValid(Replay(s.log).value, g.waiting[0], g.start, g.end);
  }

  lemma GenDropsFirst(db: Db, g: Generation)
    requires GenOk(db, g) && g.calcs != []
    ensures Valid(db, g.calcs[0]) && GenOk(db, g.(calcs := g.calcs[1..]))
    ensures forall i | 0 <= i < |g.calcs[1..]| :: g.calcs[1..][i].row.manager != g.calcs[0].row.manager
  {
  }

  lemma GenChangeKeeps(s: Sys, gen: Option<Generation>)
    requires SysInv(s) && (gen.Some? ==> GenOk(Replay(s.log).value, gen.value))
    ensures SysInv(s.(gen := gen))
  {
  }

  lemma GenWriteKeeps(s: Sys)
    requires SysInv(s) && Next(s, GenWrite).Some?
    ensures SysInv(Next(s, GenWrite).value)
  {
    var g := s.gen.value;
    if g.calcs == [] {
      GenChangeKeeps(s, None);
    } else {
      var rest := g.(calcs := g.calcs[1..]);
      GenDropsFirst(Replay(s.log).value, g);
      if g.calcs[0].row.totalPayout == 0 {
        GenChangeKeeps(s, Some(rest));
      } else {
        ValidOnTables(s.db, Replay(s.log).value, g.calcs[0]);
        TableEventKeeps(s, g.calcs[0], Some(rest), s.calls);
      }
    }
  }

  /** A calculated payout is valid by the deal and payout tables alone. */
  lemma ValidOnTables(a: Db, b: Db, entry: Entry)
    requires a.deals == b.deals && a.payouts == b.payouts && Valid(b, entry)
    ensures Valid(a, entry)
  {
  }

  predicate IsTxStep(step: Step) {
    step.BeginCreate? || step.BeginStatus? || step.BeginSet? || step.Exec? || step.Rollback? || step.Commit?
  }

  lemma TxStepKeepsInv(s: Sys, step: Step)
    requires SysInv(s) && IsTxStep(step) && Next(s, step).Some?
    ensures SysInv(Next(s, step).value)
  {
    match step
    case BeginCreate(t, deal) => BeginKeeps(s, t, DealCreated(deal));
    case BeginStatus(t, id, to, at) => BeginKeeps(s, t, StatusChanged(id, to, at));
    case BeginSet(t, key, n) => BeginKeeps(s, t, QuantitySet(key, n));
    case Exec(t) => ExecKeeps(s, t);
    case Rollback(t) => RollbackKeeps(s, t);
    case Commit(t) => CommitKeeps(s, t);
  }

  lemma TableStepKeepsInv(s: Sys, step: Step)
    requires SysInv(s) && !IsTxStep(step) && Next(s, step).Some?
    ensures SysInv(Next(s, step).value)
  {
    match step
    case GenStart(start, end, managers) =>
      GenChangeKeeps(s, Some(Generation(start, end, managers, [])));
    case GenRead => GenReadKeeps(s);
    case GenWrite => GenWriteKeeps(s);
    case GenCrash => GenChangeKeeps(s, None);
    case PayoutRead(c, e) => CallsChangeKeeps(s, ReadPayout(s, c, e).value.calls);
    case PayoutWrite(c) => PayoutWriteKeeps(s, c);
    case PayoutCrash(c) => CallsChangeKeeps(s, s.calls - {c});
  }

  lemma NextKeepsInv(s: Sys, step: Step)
    requires SysInv(s) && Next(s, step).Some?
    ensures SysInv(Next(s, step).value)
  {
    if IsTxStep(step) {
      TxStepKeepsInv(s, step);
    } else {
      TableStepKeepsInv(s, step);
    }
  }

  lemma {:induction false} RunsKeepSysInv(steps: seq<Step>)
    requires RunSteps(steps).Some?
    ensures SysInv(RunSteps(steps).value)
  {
    if steps != [] {
      RunsKeepSysInv(steps[..|steps| - 1]);
      NextKeepsInv(RunSteps(steps[..|steps| - 1]).value, steps[|steps| - 1]);
    }
  }

  // ----- what that means for whole interleaved runs

  /** Any interleaving ends, once nothing is in flight, exactly where the committed transactions
      alone end when each runs as one indivisible step in commit order. */
  lemma Serializable(steps: seq<Step>)
    requires RunSteps(steps).Some? && RunSteps(steps).value.active == map[]
    ensures Replay(RunSteps(steps).value.log) == Some(RunSteps(steps).value.db)
  {
    RunsKeepSysInv(steps);
    var s := RunSteps(steps).value;
    var c := Replay(s.log).value;
    assert s.locks.Keys == {};
    RowsDetermineStock(s.db.stock, c.stock);
  }

  /** At every moment, also with transactions in flight, the deals, the payouts and every unlocked stock
      row are those of the committed transactions alone, each run as one step in commit order. */
  lemma CommittedIsSerial(steps: seq<Step>)
    requires RunSteps(steps).Some?
    ensures var s := RunSteps(steps).value;
            && Replay(s.log).Some?
            && s.db.deals == Replay(s.log).value.deals && s.db.payouts == Replay(s.log).value.payouts
            && forall k | k !in s.locks :: Row(s.db.stock, k) == Row(Replay(s.log).value.stock, k)
  {
    RunsKeepSysInv(steps);
  }

  /** A rollback restores exactly what is committed on every row the transaction holds. */
  lemma RollbackRestores(steps: seq<Step>, t: TxId, k: StockKey)
    requires RunSteps(steps).Some? && t in RunSteps(steps).value.active
    requires k in RunSteps(steps).value.locks && RunSteps(steps).value.locks[k] == t
    ensures Replay(RunSteps(steps).value.log).Some?
    ensures Row(RollBack(RunSteps(steps).value, t).value.db.stock, k)
            == Row(Replay(RunSteps(steps).value.log).value.stock, k)
  {
    RunsKeepSysInv(steps);
    var s := RunSteps(steps).value;
    assert TxStockOk(Replay(s.log).value.stock, s.db.stock, s.active[t]);
  }

  /** A statement waits for nothing but its row: it runs unless another transaction holds the row or a
      decrement finds too little. */
  lemma OnlyRowsBlock(s: Sys, t: TxId)
    requires t in s.active && s.active[t].done < |s.active[t].ops|
    ensures var op := s.active[t].ops[s.active[t].done];
            Next(s, Exec(t)).Some? <==>
            && (op.key in s.locks ==> s.locks[op.key] == t)
            && (op.Take? ==> op.key in s.db.stock && s.db.stock[op.key] >= op.n)
  {
  }

  lemma RollbackIsAlwaysPossible(s: Sys, t: TxId)
    ensures Next(s, Rollback(t)).Some? <==> t in s.active
  {
  }

  predicate QuoteIsFree(deals: seq<Deal>, e: Event) {
    e.DealCreated? && e.deal.quote.Some? ==> forall i | 0 <= i < |deals| :: deals[i].quote != e.deal.quote
  }

  lemma CommitRunsIff(s: Sys, t: TxId)
    requires t in s.active && s.active[t].done == |s.active[t].ops| && TxEventOk(s.db.deals, s.active[t])
    ensures CommitTx(s, t).Some? <==> QuoteIsFree(s.db.deals, s.active[t].event)
  {
  }

  lemma EventsInRuns(steps: seq<Step>, t: TxId)
    requires RunSteps(steps).Some? && t in RunSteps(steps).value.active
    ensures TxEventOk(RunSteps(steps).value.db.deals, RunSteps(steps).value.active[t])
  {
    RunsKeepSysInv(steps);
  }

  /** A transaction that has run all its statements commits, at any moment of any run, unless its quote
      has been linked meanwhile. */
  lemma OnlyQuotesPreventCommit(steps: seq<Step>, t: TxId)
    requires RunSteps(steps).Some? && t in RunSteps(steps).value.active
    requires RunSteps(steps).value.active[t].done == |RunSteps(steps).value.active[t].ops|
    ensures CommitTx(RunSteps(steps).value, t).Some?
            <==> QuoteIsFree(RunSteps(steps).value.db.deals, RunSteps(steps).value.active[t].event)
  {
    EventsInRuns(steps, t);
    CommitRunsIff(RunSteps(steps).value, t);
  }

  /** And any number of them may be under way at once: another may begin whatever is going on, a status
      change if it is allowed and the deal has none under way. */
  lemma AnyoneMayBegin(s: Sys, t: TxId, deal: Deal, key: StockKey, n: nat)
    requires t !in s.active && NewDeal(deal)
    ensures Next(s, BeginCreate(t, deal)).Some? && Next(s, BeginSet(t, key, n)).Some?
    ensures forall id: nat, to, at ::
              Next(s, BeginStatus(t, id, to, at)).Some? <==>
              && id < |s.db.deals| && Allowed(s.db.deals[id].status, to)
              && !exists u | u in s.active :: s.active[u].event.StatusChanged? && s.active[u].event.id == id
  {
  }

  /** Even in the middle of transactions no stock row is negative. */
  lemma StockNeverNegative(steps: seq<Step>)
    requires RunSteps(steps).Some?
    ensures NonNegative(RunSteps(steps).value.db.stock)
  {
    RunsKeepSysInv(steps);
    var s := RunSteps(steps).value;
    RunsKeepInv(s.log);
    forall k | k in s.locks ensures Row(s.db.stock, k).Some? ==> Row(s.db.stock, k).value >= 0 {
      WorkIsNonNegative(Replay(s.log).value, s.db.stock, s.active[s.locks[k]], k);
    }
    forall k | k in s.db.stock ensures s.db.stock[k] >= 0 {
      assert Row(s.db.stock, k) == Some(s.db.stock[k]);
    }
  }

  lemma WorkIsNonNegative(c: Db, now: Stock, tx: Tx, k: StockKey)
    requires Inv(c) && TxEventOk(c.deals, tx) && TxStockOk(c.stock, now, tx) && k in tx.undo
    ensures Row(now, k).Some? ==> Row(now, k).value >= 0
  {
    OpsAreNonNegative(c, tx);
    OpsKeepRows(c.stock, tx.ops[..tx.done]);
  }

  lemma OpsAreNonNegative(c: Db, tx: Tx)
    requires Inv(c) && TxEventOk(c.deals, tx)
    ensures forall i | 0 <= i < |tx.ops| :: tx.ops[i].n >= 0
  {
    if !tx.event.DealCreated? {
      OpsOfEvent(c, tx.event);
    }
  }

  /** Also while `generate` overlaps `changeStatus`: a claimed deal was paid and stays paid onward. */
  lemma ClaimsStayPaid(steps: seq<Step>, id: nat)
    requires RunSteps(steps).Some? && id < |RunSteps(steps).value.db.deals|
    requires RunSteps(steps).value.db.deals[id].payout.Some?
    ensures EverIn(RunSteps(steps).value.log, id, PAID)
    ensures RunSteps(steps).value.db.deals[id].status in PAID_ONWARD
  {
    RunsKeepSysInv(steps);
    ClaimedDealsWerePaid(RunSteps(steps).value.log, id);
  }

  /** With nothing in flight, on hand plus held by deals is what the `setQuantity` calls set. */
  lemma StockConservedAtRest(steps: seq<Step>, k: StockKey)
    requires RunSteps(steps).Some? && RunSteps(steps).value.active == map[]
    ensures Replay(RunSteps(steps).value.log).Some?
    ensures Accounted(RunSteps(steps).value.db, k) == Baseline(RunSteps(steps).value.log, k)
  {
    Serializable(steps);
    StockConserved(RunSteps(steps).value.log, k);
  }

  /** At every moment of every interleaving an uncorrected payout is the commission of its claims,
      and each claim matches its payout's manager and period. */
  lemma PayoutsAccountedAlways(steps: seq<Step>, pid: nat)
    requires RunSteps(steps).Some? && pid < |RunSteps(steps).value.db.payouts|
    requires forall i | 0 <= i < |RunSteps(steps).value.log| :: !CorrectsCommission(RunSteps(steps).value.log[i], pid)
    ensures var db := RunSteps(steps).value.db;
            && db.payouts[pid].totalCommission == ClaimedCommission(db.deals, pid)
            && forall i | 0 <= i < |db.deals| :: ClaimOk(db.deals[i], db.payouts)
  {
    RunsKeepSysInv(steps);
    RunsKeepInv(RunSteps(steps).value.log);
    PayoutAccounting(RunSteps(steps).value.log, pid);
  }

  lemma WriteEvolvesPayout(s: Sys, c: nat, pid: nat)
    requires SysInv(s) && WritePayout(s, c).Some? && pid < |s.db.payouts|
    ensures PayoutEvolves(s.db.payouts[pid], WritePayout(s, c).value.db.payouts[pid])
  {
    WriteIsAtomic(s, c);
  }

  lemma OtherStepKeepsPayout(s: Sys, step: Step, pid: nat)
    requires Next(s, step).Some? && !IsTxStep(step) && !step.PayoutWrite? && pid < |s.db.payouts|
    ensures pid < |Next(s, step).value.db.payouts| && Next(s, step).value.db.payouts[pid] == s.db.payouts[pid]
  {
  }

  lemma NextEvolvesPayout(s: Sys, step: Step, pid: nat)
    requires SysInv(s) && Next(s, step).Some? && pid < |s.db.payouts|
    ensures pid < |Next(s, step).value.db.payouts|
    ensures PayoutEvolves(s.db.payouts[pid], Next(s, step).value.db.payouts[pid])
  {
    if step.PayoutWrite? {
      WriteEvolvesPayout(s, step.c, pid);
    } else if IsTxStep(step) {
      TxStepKeepsPayouts(s, step);
    } else {
      OtherStepKeepsPayout(s, step, pid);
    }
  }

  lemma TxStepKeepsPayouts(s: Sys, step: Step)
    requires SysInv(s) && Next(s, step).Some? && IsTxStep(step)
    ensures Next(s, step).value.db.payouts == s.db.payouts
  {
    if step.Commit? {
      assert TxEventOk(s.db.deals, s.active[step.t]);
    }
  }

  /** In every interleaving a payout keeps its manager and period, moves only forward, and its money is
      fixed once it left DRAFT. */
  lemma {:induction false} PayoutsEvolveAlways(before: seq<Step>, after: seq<Step>, pid: nat)
    requires RunSteps(before).Some? && RunSteps(before + after).Some?
    requires pid < |RunSteps(before).value.db.payouts|
    ensures pid < |RunSteps(before + after).value.db.payouts|
    ensures PayoutEvolves(RunSteps(before).value.db.payouts[pid], RunSteps(before + after).value.db.payouts[pid])
  {
    if after == [] {
      assert before + after == before;
    } else {
      var n := |after| - 1;
      assert (before + after)[..|before + after| - 1] == before + after[..n];
      PayoutsEvolveAlways(before, after[..n], pid);
      RunsKeepSysInv(before + after[..n]);
      NextEvolvesPayout(RunSteps(before + after[..n]).value, after[n], pid);
    }
  }
}
