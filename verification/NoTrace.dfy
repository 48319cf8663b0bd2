/**
 * A rolled-back transaction leaves no trace: in any interleaved run, deleting
 * every step of a transaction that never commits gives a run that ends in the
 * same state, whatever the other transactions did meanwhile.
 */
module NoTrace {
  import opened Wrappers
  import opened Ledger
  import opened Interleaving

  predicate StepOf(step: Step, t: TxId) {
    match step
    case BeginCreate(u, _) => u == t
    case BeginStatus(u, _, _, _) => u == t
    case BeginSet(u, _, _) => u == t
    case Exec(u) => u == t
    case Rollback(u) => u == t
    case Commit(u) => u == t
    case _ => false
  }

  function Without(steps: seq<Step>, t: TxId): seq<Step> {
    if steps == [] then []
    else
      var last := steps[|steps| - 1];
      Without(steps[..|steps| - 1], t) + (if StepOf(last, t) then [] else [last])
  }

  /** The state as if `t` were rolled back now. */
  function Erase(s: Sys, t: TxId): Sys {
    if t in s.active then RollBack(s, t).value else s
  }

  lemma SysEquality(a: Sys, b: Sys)
    requires a.db.stock == b.db.stock && a.db.deals == b.db.deals && a.db.payouts == b.db.payouts
    requires a.locks == b.locks && a.active == b.active && a.gen == b.gen && a.calls == b.calls && a.log == b.log
    ensures a == b
  {
  }

  lemma OwnBegin(s: Sys, t: TxId, e: Event)
    requires Begin(s, t, e).Some?
    ensures Erase(Begin(s, t, e).value, t) == s
  {
    var b := Begin(s, t, e).value;
    assert b.active - {t} == s.active;
    assert Undo(b.db.stock, b.active[t].undo) == s.db.stock;
    assert s.locks - b.active[t].undo.Keys == s.locks;
  }

  lemma UndoOfStatement(stock: Stock, undo: map<StockKey, Option<int>>, op: StockOp)
    requires ApplyOp(stock, op).Some?
    ensures Undo(ApplyOp(stock, op).value, WithImage(undo, stock, op.key)) == Undo(stock, undo)
  {
  }

  lemma OwnLocks(s: Sys, t: TxId, k: StockKey)
    requires LocksOk(s.locks, s.active) && t in s.active && (k in s.locks ==> s.locks[k] == t)
    ensures s.locks[k := t] - WithImage(s.active[t].undo, s.db.stock, k).Keys == s.locks - s.active[t].undo.Keys
  {
  }

  lemma OwnExec(s: Sys, t: TxId)
    requires LocksOk(s.locks, s.active) && ExecNext(s, t).Some?
    ensures Erase(ExecNext(s, t).value, t) == Erase(s, t)
  {
    var s', tx := ExecNext(s, t).value, s.active[t];
    var op := tx.ops[tx.done];
    assert s'.active - {t} == s.active - {t};
    if op.key in ApplyOp(s.db.stock, op).value {
      UndoOfStatement(s.db.stock, tx.undo, op);
      OwnLocks(s, t, op.key);
    }
    SysEquality(Erase(s', t), Erase(s, t));
  }

  lemma OwnStep(s: Sys, t: TxId, step: Step)
    requires LocksOk(s.locks, s.active) && StepOf(step, t) && step != Commit(t) && Next(s, step).Some?
    ensures Erase(Next(s, step).value, t) == Erase(s, t)
  {
    match step
    case BeginCreate(_, deal) => OwnBegin(s, t, DealCreated(deal));
    case BeginStatus(_, id, to, at) => OwnBegin(s, t, StatusChanged(id, to, at));
    case BeginSet(_, key, n) => OwnBegin(s, t, QuantitySet(key, n));
    case Exec(_) => OwnExec(s, t);
    case _ =>
  }

  lemma OtherBegin(s: Sys, t: TxId, u: TxId, e: Event)
    requires t != u && t in s.active && Begin(s, u, e).Some?
    ensures Begin(Erase(s, t), u, e) == Some(Erase(Begin(s, u, e).value, t))
  {
    var s' := Begin(s, u, e).value;
    assert s'.active - {t} == (s.active - {t})[u := s'.active[u]];
  }

  lemma UndoCommutes(stock: Stock, undo: map<StockKey, Option<int>>, op: StockOp)
    requires op.key !in undo && ApplyOp(stock, op).Some?
    ensures ApplyOp(Undo(stock, undo), op) == Some(Undo(ApplyOp(stock, op).value, undo))
    ensures Row(Undo(stock, undo), op.key) == Row(stock, op.key)
  {
    assert ApplyOp(Undo(stock, undo), op).value == Undo(ApplyOp(stock, op).value, undo);
  }

  /** A row another transaction works on is never one `t` has changed. */
  lemma RowsAreApart(s: Sys, t: TxId, u: TxId)
    requires LocksOk(s.locks, s.active)
    requires t != u && t in s.active && ExecNext(s, u).Some?
    ensures s.active[u].ops[s.active[u].done].key !in s.active[t].undo
  {
  }

  lemma OtherLocks(locks: map<StockKey, TxId>, keys: set<StockKey>, k: StockKey, u: TxId)
    requires k !in keys
    ensures locks[k := u] - keys == (locks - keys)[k := u]
  {
  }

  lemma ExecutedCommutes(s: Sys, t: TxId, u: TxId, k: StockKey, stock: Stock)
    requires t != u && t in s.active && u in s.active && k !in s.active[t].undo
    requires k in stock || stock == s.db.stock
    requires Row(Undo(s.db.stock, s.active[t].undo), k) == Row(s.db.stock, k)
    ensures Executed(Erase(s, t), u, k, Undo(stock, s.active[t].undo)) == Erase(Executed(s, u, k, stock), t)
  {
    var s' := Executed(s, u, k, stock);
    OtherLocks(s.locks, s.active[t].undo.Keys, k, u);
    assert s'.active - {t} == (s.active - {t})[u := s'.active[u]];
    SysEquality(Executed(Erase(s, t), u, k, Undo(stock, s.active[t].undo)), Erase(s', t));
  }

  lemma OtherExec(s: Sys, t: TxId, u: TxId)
    requires t != u && t in s.active && ExecNext(s, u).Some?
    requires s.active[u].ops[s.active[u].done].key !in s.active[t].undo
    ensures ExecNext(Erase(s, t), u) == Some(Erase(ExecNext(s, u).value, t))
  {
    var op, undo := s.active[u].ops[s.active[u].done], s.active[t].undo;
    UndoCommutes(s.db.stock, undo, op);
    ExecutedCommutes(s, t, u, op.key, ApplyOp(s.db.stock, op).value);
  }

  lemma ForgetCommutes(s: Sys, t: TxId, u: TxId)
    requires t != u && t in s.active && u in s.active
    ensures Forget(Forget(s, t), u) == Forget(Forget(s, u), t)
  {
    var a, b := s.active[t].undo.Keys, s.active[u].undo.Keys;
    assert s.locks - a - b == s.locks - b - a;
    assert s.active - {t} - {u} == s.active - {u} - {t};
  }

  lemma OtherRollback(s: Sys, t: TxId, u: TxId)
    requires LocksOk(s.locks, s.active)
    requires t != u && t in s.active && u in s.active
    ensures RollBack(Erase(s, t), u) == Some(Erase(RollBack(s, u).value, t))
  {
    var a, b := s.active[t].undo, s.active[u].undo;
    assert a.Keys !! b.Keys;
    assert Undo(Undo(s.db.stock, a), b) == Undo(Undo(s.db.stock, b), a);
    ForgetCommutes(s, t, u);
  }

  lemma OtherCommit(s: Sys, t: TxId, u: TxId)
    requires t != u && t in s.active && CommitTx(s, u).Some?
    ensures CommitTx(Erase(s, t), u) == Some(Erase(CommitTx(s, u).value, t))
  {
    ForgetCommutes(s, t, u);
  }

  lemma OtherBeginStep(s: Sys, t: TxId, step: Step)
    requires step.BeginCreate? || step.BeginStatus? || step.BeginSet?
    requires t in s.active && !StepOf(step, t) && Next(s, step).Some?
    ensures Next(Erase(s, t), step) == Some(Erase(Next(s, step).value, t))
  {
    match step
    case BeginCreate(u, deal) => OtherBegin(s, t, u, DealCreated(deal));
    case BeginStatus(u, id, to, at) => OtherBegin(s, t, u, StatusChanged(id, to, at));
    case BeginSet(u, key, n) => OtherBegin(s, t, u, QuantitySet(key, n));
  }

  lemma OtherStep(s: Sys, t: TxId, step: Step)
    requires LocksOk(s.locks, s.active) && !StepOf(step, t) && Next(s, step).Some?
    ensures Next(Erase(s, t), step) == Some(Erase(Next(s, step).value, t))
  {
    if t in s.active {
      match step
      case BeginCreate(_, _) => OtherBeginStep(s, t, step);
      case BeginStatus(_, _, _, _) => OtherBeginStep(s, t, step);
      case BeginSet(_, _, _) => OtherBeginStep(s, t, step);
      case Exec(u) => RowsAreApart(s, t, u); OtherExec(s, t, u);
      case Rollback(u) => OtherRollback(s, t, u);
      case Commit(u) => OtherCommit(s, t, u);
      case PayoutRead(_, _) => CallStep(s, t, step);
      case PayoutWrite(_) => CallStep(s, t, step);
      case PayoutCrash(_) => CallStep(s, t, step);
      case GenWrite => GenWriteStep(s, t);
      case _ => GenStep(s, t, step);
    }
  }

  /** Steps of `generate` and calls on one payout touch neither locks nor transactions. */
  lemma GenStep(s: Sys, t: TxId, step: Step)
    requires step.GenStart? || step.GenRead? || step.GenCrash?
    requires t in s.active && Next(s, step).Some?
    ensures Next(Erase(s, t), step) == Some(Erase(Next(s, step).value, t))
  {
  }

  lemma GenWriteStep(s: Sys, t: TxId)
    requires t in s.active && Next(s, GenWrite).Some?
    ensures Next(Erase(s, t), GenWrite) == Some(Erase(Next(s, GenWrite).value, t))
  {
  }

  lemma CallStep(s: Sys, t: TxId, step: Step)
    requires step.PayoutRead? || step.PayoutWrite? || step.PayoutCrash?
    requires t in s.active && Next(s, step).Some?
    ensures Next(Erase(s, t), step) == Some(Erase(Next(s, step).value, t))
  {
  }

  lemma LocksInRuns(steps: seq<Step>)
    requires RunSteps(steps).Some?
    ensures LocksOk(RunSteps(steps).value.locks, RunSteps(steps).value.active)
  {
    RunsKeepSysInv(steps);
  }

  lemma WithoutSnoc(steps: seq<Step>, last: Step, t: TxId)
    requires RunSteps(Without(steps, t)).Some?
    ensures RunSteps(Without(steps + [last], t)) ==
            if StepOf(last, t) then RunSteps(Without(steps, t)) else Next(RunSteps(Without(steps, t)).value, last)
  {
    var kept := Without(steps, t);
    assert (steps + [last])[..|steps|] == steps;
    assert kept + [] == kept;
    assert (kept + [last])[..|kept|] == kept;
  }

  lemma AnyStep(s: Sys, t: TxId, step: Step)
    requires LocksOk(s.locks, s.active) && step != Commit(t) && Next(s, step).Some?
    ensures (if StepOf(step, t) then Some(Erase(s, t)) else Next(Erase(s, t), step))
            == Some(Erase(Next(s, step).value, t))
  {
    if StepOf(step, t) {
      OwnStep(s, t, step);
    } else {
      OtherStep(s, t, step);
    }
  }

  lemma {:induction false} RolledBackLeavesNoTrace(steps: seq<Step>, t: TxId)
    requires RunSteps(steps).Some? && Commit(t) !in steps
    ensures RunSteps(Without(steps, t)) == Some(Erase(RunSteps(steps).value, t))
  {
    if steps != [] {
      var rest, last := steps[..|steps| - 1], steps[|steps| - 1];
      assert steps == rest + [last];
      RolledBackLeavesNoTrace(rest, t);
      LocksInRuns(rest);
      AnyStep(RunSteps(rest).value, t, last);
      WithoutSnoc(rest, last, t);
    }
  }
}
