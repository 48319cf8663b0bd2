/**
 * The other half of serializability: the steps of the concurrent system suffice
 * for every serial history. Whatever transactions the ledger allows one after
 * another, there is a run of single statements, reads, writes and commits that
 * performs just them and ends at rest in the same tables.
 */
module Realizable {
  import opened Wrappers
  import opened Ledger
  import opened LedgerProofs
  import opened PayoutCalc
  import opened PayoutsService
  import opened Interleaving

  function RunOn(s: Sys, steps: seq<Step>): Option<Sys> {
    if steps == [] then Some(s)
    else match RunOn(s, steps[..|steps| - 1])
      case None => None
      case Some(now) => Next(now, steps[|steps| - 1])
  }

  lemma RunOnSnoc(s: Sys, steps: seq<Step>, last: Step)
    requires RunOn(s, steps).Some?
    ensures RunOn(s, steps + [last]) == Next(RunOn(s, steps).value, last)
  {
    assert (steps + [last])[..|steps|] == steps;
  }

  lemma RunOnOne(s: Sys, step: Step)
    ensures RunOn(s, [step]) == Next(s, step)
  {
    assert [step][..0] == [];
  }

  lemma {:induction false} RunOnContinues(before: seq<Step>, steps: seq<Step>)
    requires RunSteps(before).Some? && RunOn(RunSteps(before).value, steps).Some?
    ensures RunSteps(before + steps) == RunOn(RunSteps(before).value, steps)
  {
    if steps == [] {
      assert before + steps == before;
    } else {
      var rest, last := steps[..|steps| - 1], steps[|steps| - 1];
      RunOnContinues(before, rest);
      RunStepsSnoc(before + rest, last);
      assert before + rest + [last] == before + steps;
    }
  }

  ghost predicate AtRest(s: Sys) {
    s.locks == map[] && s.active == map[] && s.gen == None && s.calls == map[]
  }

  /** The steps take the system from rest to rest and perform just this event. */
  ghost predicate Performs(s: Sys, steps: seq<Step>, e: Event) {
    && Apply(s.db, e).Some? && RunOn(s, steps).Some?
    && var after := RunOn(s, steps).value;
       AtRest(after) && after.db == Apply(s.db, e).value && after.log == s.log + [e]
  }

  // ----- transactions on the stock table

  predicate IsTxEvent(e: Event) {
    e.DealCreated? || e.StatusChanged? || e.QuantitySet?
  }

  function BeginStep(e: Event): Step
    requires IsTxEvent(e)
  {
    match e
    case DealCreated(d) => BeginCreate(0, d)
    case StatusChanged(id, to, at) => BeginStatus(0, id, to, at)
    case QuantitySet(key, n) => BeginSet(0, key, n)
  }

  /** Begin, and then the first `n` statements. */
  function Statements(e: Event, n: nat): seq<Step>
    requires IsTxEvent(e)
  {
    if n == 0 then [BeginStep(e)] else Statements(e, n - 1) + [Exec(0)]
  }

  /** The transaction has run its first `n` statements and is alone. */
  ghost predicate Midway(s: Sys, now: Sys, e: Event, n: nat) {
    var ops := StockOps(s.db.deals, e);
    && n <= |ops| && RunOps(s.db.stock, ops[..n]).Some?
    && now.db == s.db.(stock := RunOps(s.db.stock, ops[..n]).value)
    && now.active.Keys == {0} && now.active[0] == Tx(e, ops, n, now.active[0].undo)
    && now.locks.Keys == now.active[0].undo.Keys && (forall k | k in now.locks :: now.locks[k] == 0)
    && now.gen == None && now.calls == map[] && now.log == s.log
  }

  lemma {:induction false} PrefixSucceeds(stock: Stock, ops: seq<StockOp>, n: nat)
    requires n <= |ops| && RunOps(stock, ops).Some?
    ensures RunOps(stock, ops[..n]).Some?
  {
    if n == |ops| {
      assert ops[..n] == ops;
    } else {
      assert ops[..|ops| - 1][..n] == ops[..n];
      PrefixSucceeds(stock, ops[..|ops| - 1], n);
    }
  }

  lemma BeginIsMidway(s: Sys, e: Event)
    requires AtRest(s) && IsTxEvent(e) && Valid(s.db, e)
    ensures Next(s, BeginStep(e)).Some? && Midway(s, Next(s, BeginStep(e)).value, e, 0)
  {
    assert StockOps(s.db.deals, e)[..0] == [];
  }

  lemma StatementIsMidway(s: Sys, now: Sys, e: Event, n: nat)
    requires Midway(s, now, e, n) && n < |StockOps(s.db.deals, e)|
    requires RunOps(s.db.stock, StockOps(s.db.deals, e)[..n + 1]).Some?
    ensures ExecNext(now, 0).Some? && Midway(s, ExecNext(now, 0).value, e, n + 1)
  {
    var ops := StockOps(s.db.deals, e);
    assert ops[..n + 1][..n] == ops[..n] && ops[..n + 1][n] == ops[n];
    var stock := ApplyOp(now.db.stock, ops[n]).value;
    assert ops[n].key in now.locks ==> now.locks[ops[n].key] == 0;
    assert ExecNext(now, 0) == Some(Executed(now, 0, ops[n].key, stock));
  }

  ghost predicate ReachesMidway(s: Sys, e: Event, n: nat)
    requires IsTxEvent(e)
  {
    RunOn(s, Statements(e, n)).Some? && Midway(s, RunOn(s, Statements(e, n)).value, e, n)
  }

  lemma OneMoreStatement(s: Sys, e: Event, n: nat)
    requires IsTxEvent(e) && ReachesMidway(s, e, n) && n < |StockOps(s.db.deals, e)|
    requires RunOps(s.db.stock, StockOps(s.db.deals, e)[..n + 1]).Some?
    ensures ReachesMidway(s, e, n + 1)
  {
    StatementIsMidway(s, RunOn(s, Statements(e, n)).value, e, n);
    RunOnSnoc(s, Statements(e, n), Exec(0));
  }

  lemma {:induction false} StatementsRun(s: Sys, e: Event, n: nat)
    requires AtRest(s) && IsTxEvent(e) && Apply(s.db, e).Some? && n <= |StockOps(s.db.deals, e)|
    ensures ReachesMidway(s, e, n)
  {
    if n == 0 {
      BeginIsMidway(s, e);
      RunOnOne(s, BeginStep(e));
    } else {
      StatementsRun(s, e, n - 1);
      PrefixSucceeds(s.db.stock, StockOps(s.db.deals, e), n);
      OneMoreStatement(s, e, n - 1);
    }
  }

  lemma CommitEndsAtRest(s: Sys, now: Sys, e: Event)
    requires IsTxEvent(e) && Apply(s.db, e).Some? && Midway(s, now, e, |StockOps(s.db.deals, e)|)
    ensures CommitTx(now, 0).Some?
    ensures var after := CommitTx(now, 0).value;
            AtRest(after) && after.db == Apply(s.db, e).value && after.log == s.log + [e]
  {
    var ops := StockOps(s.db.deals, e);
    assert ops[..|ops|] == ops;
    assert now.locks - now.active[0].undo.Keys == map[];
    assert now.active - {0} == map[];
  }

  lemma TransactionHappens(s: Sys, e: Event)
    requires AtRest(s) && IsTxEvent(e) && Apply(s.db, e).Some?
    ensures exists steps :: Performs(s, steps, e)
  {
    var n := |StockOps(s.db.deals, e)|;
    StatementsRun(s, e, n);
    CommitEndsAtRest(s, RunOn(s, Statements(e, n)).value, e);
    RunOnSnoc(s, Statements(e, n), Commit(0));
    assert Performs(s, Statements(e, n) + [Commit(0)], e);
  }

  // ----- payouts

  lemma PayoutCallHappens(s: Sys, e: Event)
    requires AtRest(s) && IsPayoutCall(e) && Apply(s.db, e).Some?
    ensures exists steps :: Performs(s, steps, e)
  {
    var read := [PayoutRead(0, e)];
    assert read[..0] == [];
    assert Next(s, PayoutRead(0, e)) == ReadPayout(s, 0, e);
    RunOnSnoc(s, read, PayoutWrite(0));
    var after := RunOn(s, read + [PayoutWrite(0)]).value;
    assert after.calls == map[];
    assert after.db.payouts == Apply(s.db, e).value.payouts;
    assert Performs(s, read + [PayoutWrite(0)], e);
  }

  /** What `generate` can write: a manager's calculation on the deals as they are, if it pays anything. */
  ghost predicate IsGenerated(db: Db, e: Event) {
    && e.PayoutGenerated? && e.row.totalPayout != 0
    && exists m :: e == Calculate(db.deals, m, e.row.start, e.row.end)
  }

  lemma CalculationIsRead(s: Sys, m: Manager, start: Time, end: Time)
    requires AtRest(s)
    ensures RunOn(s, [GenStart(start, end, [m]), GenRead]) ==
            Some(s.(gen := Some(Generation(start, end, [], [Calculate(s.db.deals, m, start, end)]))))
  {
    var first := [GenStart(start, end, [m])];
    assert first[..0] == [];
    RunOnSnoc(s, first, GenRead);
    assert first + [GenRead] == [GenStart(start, end, [m]), GenRead];
    assert [m][1..] == [] && [] + [Calculate(s.db.deals, m, start, end)] == [Calculate(s.db.deals, m, start, end)];
  }

  lemma GenerateHappens(s: Sys, e: Event)
    requires AtRest(s) && IsGenerated(s.db, e)
    ensures exists steps :: Performs(s, steps, e)
  {
    var m :| e == Calculate(s.db.deals, m, e.row.start, e.row.end);
    var read := [GenStart(e.row.start, e.row.end, [m]), GenRead];
    CalculationIsRead(s, m, e.row.start, e.row.end);
    CalculationIsValid(s.db, m, e.row.start, e.row.end);
    EntryApplies(s.db, e);
    RunOnSnoc(s, read, GenWrite);
    RunOnSnoc(s, read + [GenWrite], GenWrite);
    assert Performs(s, read + [GenWrite] + [GenWrite], e);
  }

  // ----- a whole generate call

  /** Start, and then the first `n` reads. */
  function Reads(managers: seq<Manager>, start: Time, end: Time, n: nat): seq<Step> {
    if n == 0 then [GenStart(start, end, managers)] else Reads(managers, start, end, n - 1) + [GenRead]
  }

  /** The call has read its first `n` managers. */
  function Reading(s: Sys, managers: seq<Manager>, start: Time, end: Time, n: nat): Sys
    requires n <= |managers|
  {
    s.(gen := Some(Generation(start, end, managers[n..], Calculations(s.db.deals, managers, start, end)[..n])))
  }

  lemma ReadStep(s: Sys, managers: seq<Manager>, start: Time, end: Time, n: nat)
    requires n < |managers|
    ensures Next(Reading(s, managers, start, end, n), GenRead) == Some(Reading(s, managers, start, end, n + 1))
  {
    var all := Calculations(s.db.deals, managers, start, end);
    assert managers[n..][1..] == managers[n + 1..] && managers[n..][0] == managers[n];
    assert all[..n] + [all[n]] == all[..n + 1];
  }

  lemma StartStep(s: Sys, managers: seq<Manager>, start: Time, end: Time)
    requires AtRest(s) && DistinctManagers(managers)
    ensures Next(s, GenStart(start, end, managers)) == Some(Reading(s, managers, start, end, 0))
  {
    assert managers[0..] == managers && Calculations(s.db.deals, managers, start, end)[..0] == [];
  }

  lemma {:induction false} ReadsRun(s: Sys, managers: seq<Manager>, start: Time, end: Time, n: nat)
    requires AtRest(s) && DistinctManagers(managers) && n <= |managers|
    ensures RunOn(s, Reads(managers, start, end, n)) == Some(Reading(s, managers, start, end, n))
  {
    if n == 0 {
      RunOnOne(s, GenStart(start, end, managers));
      StartStep(s, managers, start, end);
    } else {
      ReadsRun(s, managers, start, end, n - 1);
      RunOnSnoc(s, Reads(managers, start, end, n - 1), GenRead);
      ReadStep(s, managers, start, end, n - 1);
    }
  }

  /** The call has read everything and written its first `i` calculations. */
  ghost predicate MidGenerate(s: Sys, now: Sys, all: seq<Entry>, start: Time, end: Time, i: nat) {
    && i <= |all| && RunEvents(s.db, Payable(all[..i])).Some?
    && now == s.(db := RunEvents(s.db, Payable(all[..i])).value, log := s.log + Payable(all[..i]),
                 gen := Some(Generation(start, end, [], all[i..])))
  }

  /** The next calculation is written if it pays anything, as one transaction. */
  lemma WriteStep(now: Sys, g: Generation)
    requires now.gen == Some(g) && g.waiting == [] && g.calcs != [] && Valid(now.db, g.calcs[0])
    ensures var e := g.calcs[0];
            var rest := Some(g.(calcs := g.calcs[1..]));
            && Apply(now.db, e).Some?
            && Next(now, GenWrite) ==
               Some(if e.row.totalPayout == 0 then now.(gen := rest)
                    else now.(gen := rest, db := Apply(now.db, e).value, log := now.log + [e]))
  {
    EntryApplies(now.db, g.calcs[0]);
  }

  lemma OneMoreWrite(s: Sys, now: Sys, all: seq<Entry>, start: Time, end: Time, i: nat)
    requires MidGenerate(s, now, all, start, end, i) && i < |all| && Valid(now.db, all[i])
    ensures Next(now, GenWrite).Some? && MidGenerate(s, Next(now, GenWrite).value, all, start, end, i + 1)
  {
    assert all[..i + 1] == all[..i] + [all[i]] && all[i..][1..] == all[i + 1..] && all[i..][0] == all[i];
    WriteStep(now, Generation(start, end, [], all[i..]));
    PayableStep(s.db, all, i, now.db);
    PayableSnoc(all[..i], all[i]);
    assert s.log + (Payable(all[..i]) + [all[i]]) == s.log + Payable(all[..i]) + [all[i]];
  }

  /** All the reads, and then the first `i` writes. */
  function Writes(managers: seq<Manager>, start: Time, end: Time, i: nat): seq<Step> {
    if i == 0 then Reads(managers, start, end, |managers|) else Writes(managers, start, end, i - 1) + [GenWrite]
  }

  ghost predicate ReachesWrite(s: Sys, managers: seq<Manager>, start: Time, end: Time, i: nat) {
    var steps := Writes(managers, start, end, i);
    && RunOn(s, steps).Some?
    && MidGenerate(s, RunOn(s, steps).value, Calculations(s.db.deals, managers, start, end), start, end, i)
  }

  lemma {:induction false} WritesRun(s: Sys, managers: seq<Manager>, start: Time, end: Time, i: nat)
    requires AtRest(s) && DistinctManagers(managers) && i <= |managers|
    ensures ReachesWrite(s, managers, start, end, i)
  {
    var all := Calculations(s.db.deals, managers, start, end);
    if i == 0 {
      ReadsRun(s, managers, start, end, |managers|);
      assert managers[|managers|..] == [] && all[..|managers|] == all && all[0..] == all && all[..0] == [];
      assert s.log + [] == s.log;
    } else {
      WritesRun(s, managers, start, end, i - 1);
      var mid := RunOn(s, Writes(managers, start, end, i - 1)).value;
      WriteIsValid(s.db, managers, start, end, i - 1, mid.db);
      OneMoreWrite(s, mid, all, start, end, i - 1);
      RunOnSnoc(s, Writes(managers, start, end, i - 1), GenWrite);
    }
  }

  lemma EndStep(now: Sys, start: Time, end: Time)
    requires now.gen == Some(Generation(start, end, [], []))
    ensures Next(now, GenWrite) == Some(now.(gen := None))
  {
  }

  lemma AllIsWritten(s: Sys, now: Sys, all: seq<Entry>, start: Time, end: Time)
    requires MidGenerate(s, now, all, start, end, |all|)
    ensures RunEvents(s.db, Payable(all)).Some?
    ensures now == s.(db := RunEvents(s.db, Payable(all)).value, log := s.log + Payable(all),
                      gen := Some(Generation(start, end, [], [])))
  {
    assert all[..|all|] == all && all[|all|..] == [];
  }

  /** A `generate` call for any managers that nothing interrupts ends at rest, in the tables and with the
      transactions of the service method. */
  lemma GenerateCallHappens(s: Sys, managers: seq<Manager>, start: Time, end: Time)
    requires AtRest(s) && DistinctManagers(managers)
    ensures var writes := Payable(Calculations(s.db.deals, managers, start, end));
            var run := RunOn(s, Writes(managers, start, end, |managers|) + [GenWrite]);
            && run.Some? && AtRest(run.value) && RunEvents(s.db, writes) == Some(run.value.db)
            && run.value.log == s.log + writes
  {
    var n, all := |managers|, Calculations(s.db.deals, managers, start, end);
    WritesRun(s, managers, start, end, n);
    AllIsWritten(s, RunOn(s, Writes(managers, start, end, n)).value, all, start, end);
    EndStep(RunOn(s, Writes(managers, start, end, n)).value, start, end);
    RunOnSnoc(s, Writes(managers, start, end, n), GenWrite);
  }

  // ----- whole histories

  /** Every payout of the history is one that `generate` calculates on the deals of its moment. */
  ghost predicate Calculated(log: seq<Event>) {
    log != [] ==>
      var rest, last := log[..|log| - 1], log[|log| - 1];
      && Calculated(rest)
      && (last.PayoutGenerated? ==> Replay(rest).Some? && IsGenerated(Replay(rest).value, last))
  }

  lemma EventHappens(s: Sys, e: Event)
    requires AtRest(s) && Apply(s.db, e).Some? && (e.PayoutGenerated? ==> IsGenerated(s.db, e))
    ensures exists steps :: Performs(s, steps, e)
  {
    if IsTxEvent(e) {
      TransactionHappens(s, e);
    } else if IsPayoutCall(e) {
      PayoutCallHappens(s, e);
    } else {
      GenerateHappens(s, e);
    }
  }

  /** The run performs exactly these transactions and ends at rest in the tables they lead to. */
  ghost predicate Realizes(steps: seq<Step>, log: seq<Event>) {
    && RunSteps(steps).Some? && AtRest(RunSteps(steps).value) && RunSteps(steps).value.log == log
    && Replay(log) == Some(RunSteps(steps).value.db)
  }

  lemma OneMoreEvent(steps: seq<Step>, log: seq<Event>, e: Event)
    requires Realizes(steps, log) && Apply(Replay(log).value, e).Some?
    requires e.PayoutGenerated? ==> IsGenerated(Replay(log).value, e)
    ensures exists more :: Realizes(more, log + [e])
  {
    var s := RunSteps(steps).value;
    EventHappens(s, e);
    var more :| Performs(s, more, e);
    RunOnContinues(steps, more);
    RunSnoc(EMPTY, log, e);
    assert Realizes(steps + more, log + [e]);
  }

  /** Every serial history of the ledger happens in some run of single steps. */
  lemma {:induction false} EveryHistoryHappens(log: seq<Event>)
    requires Replay(log).Some? && Calculated(log)
    ensures exists steps :: Realizes(steps, log)
  {
    if log == [] {
      assert Realizes([], log);
    } else {
      var rest, last := log[..|log| - 1], log[|log| - 1];
      EveryHistoryHappens(rest);
      var steps :| Realizes(steps, rest);
      OneMoreEvent(steps, rest, last);
      assert rest + [last] == log;
    }
  }
}
