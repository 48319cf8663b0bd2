/**
 * Calls on one payout that do overlap. Each reads the row, checks its status and
 * writes by id alone, so nothing orders them. What survives is everything but the
 * payout's own history: such calls touch nothing but the money and the status of
 * payout rows, and a commission nobody gave stays the sum of the claimed deals'.
 */
module PayoutOverlap {
  import opened Wrappers
  import opened Money
  import opened DealStatus
  import opened Ledger
  import opened LedgerProofs
  import opened PayoutCalc
  import opened Interleaving

  predicate IsCallStep(step: Step) {
    step.PayoutRead? || step.PayoutWrite? || step.PayoutCrash?
  }

  /** A step of the system without the rule that calls on one payout take turns. */
  function NextOverlapping(s: Sys, step: Step): Option<Sys> {
    if step.PayoutRead? then ReadPayout(s, step.c, step.e) else Next(s, step)
  }

  function RunOverlapping(steps: seq<Step>): Option<Sys> {
    if steps == [] then Some(INIT)
    else match RunOverlapping(steps[..|steps| - 1])
      case None => None
      case Some(s) => NextOverlapping(s, steps[|steps| - 1])
  }

  function WithoutCalls(steps: seq<Step>): seq<Step> {
    if steps == [] then []
    else
      var last := steps[|steps| - 1];
      WithoutCalls(steps[..|steps| - 1]) + (if IsCallStep(last) then [] else [last])
  }

  // ----- the run without the calls

  ghost predicate SameOwner(p: Payout, q: Payout) {
    p.manager == q.manager && p.start == q.start && p.end == q.end
  }

  ghost predicate SameOwners(ps: seq<Payout>, qs: seq<Payout>) {
    |ps| == |qs| && forall i | 0 <= i < |ps| :: SameOwner(ps[i], qs[i])
  }

  /** `k` with the payouts, calls and log of another state. */
  function With(k: Sys, payouts: seq<Payout>, calls: map<nat, PayoutCall>, log: seq<Event>): Sys {
    k.(db := k.db.(payouts := payouts), calls := calls, log := log)
  }

  /** The states differ only in payout rows, as far as calls change them, in the calls and in the log. */
  ghost predicate Mirrors(s: Sys, k: Sys) {
    s == With(k, s.db.payouts, s.calls, s.log) && SameOwners(s.db.payouts, k.db.payouts)
  }

  /** Both tables grew by the same rows. */
  ghost predicate GrewAlike(ps: seq<Payout>, ps': seq<Payout>, qs: seq<Payout>, qs': seq<Payout>) {
    exists rows :: ps' == ps + rows && qs' == qs + rows
  }

  lemma TxStepMirrors(s: Sys, k: Sys, step: Step)
    requires Mirrors(s, k) && SysInv(k) && IsTxStep(step) && !step.Commit? && Next(s, step).Some?
    ensures Next(k, step).Some? && Mirrors(Next(s, step).value, Next(k, step).value)
    ensures Next(s, step).value.db.payouts == s.db.payouts && Next(k, step).value.db.payouts == k.db.payouts
    ensures Next(s, step).value.calls == s.calls
  {
  }

  lemma CommitMirrors(s: Sys, k: Sys, t: TxId)
    requires Mirrors(s, k) && SysInv(k) && CommitTx(s, t).Some?
    ensures CommitTx(k, t).Some? && Mirrors(CommitTx(s, t).value, CommitTx(k, t).value)
    ensures CommitTx(s, t).value.db.payouts == s.db.payouts && CommitTx(k, t).value.db.payouts == k.db.payouts
    ensures CommitTx(s, t).value.calls == s.calls
  {
    assert TxEventOk(k.db.deals, k.active[t]);
  }

  lemma GenStepMirrors(s: Sys, k: Sys, step: Step)
    requires Mirrors(s, k) && (step.GenStart? || step.GenRead? || step.GenCrash?) && Next(s, step).Some?
    ensures Next(k, step).Some? && Mirrors(Next(s, step).value, Next(k, step).value)
    ensures Next(s, step).value.db.payouts == s.db.payouts && Next(k, step).value.db.payouts == k.db.payouts
    ensures Next(s, step).value.calls == s.calls
  {
  }

  lemma GenWriteMirrors(s: Sys, k: Sys)
    requires Mirrors(s, k) && Next(s, GenWrite).Some?
    ensures Next(k, GenWrite).Some? && Mirrors(Next(s, GenWrite).value, Next(k, GenWrite).value)
    ensures GrewAlike(s.db.payouts, Next(s, GenWrite).value.db.payouts,
                      k.db.payouts, Next(k, GenWrite).value.db.payouts)
    ensures Next(s, GenWrite).value.calls == s.calls
  {
    var rows := Next(s, GenWrite).value.db.payouts[|s.db.payouts|..];
    assert Next(s, GenWrite).value.db.payouts == s.db.payouts + rows;
    assert Next(k, GenWrite).value.db.payouts == k.db.payouts + rows;
  }

  lemma OtherStepMirrors(s: Sys, k: Sys, step: Step)
    requires Mirrors(s, k) && SysInv(k) && !IsCallStep(step) && Next(s, step).Some?
    ensures Next(k, step).Some? && Mirrors(Next(s, step).value, Next(k, step).value)
    ensures GrewAlike(s.db.payouts, Next(s, step).value.db.payouts, k.db.payouts, Next(k, step).value.db.payouts)
    ensures Next(s, step).value.calls == s.calls
  {
    if step.GenWrite? {
      GenWriteMirrors(s, k);
    } else {
      assert s.db.payouts + [] == s.db.payouts && k.db.payouts + [] == k.db.payouts;
      if step.Commit? {
        CommitMirrors(s, k, step.t);
      } else if IsTxStep(step) {
        TxStepMirrors(s, k, step);
      } else {
        GenStepMirrors(s, k, step);
      }
    }
  }

  lemma CallStepMirrors(s: Sys, k: Sys, step: Step)
    requires Mirrors(s, k) && IsCallStep(step) && NextOverlapping(s, step).Some?
    ensures Mirrors(NextOverlapping(s, step).value, k)
  {
  }

  lemma WithoutOneMore(steps: seq<Step>, last: Step)
    ensures WithoutCalls(steps + [last]) == WithoutCalls(steps) + (if IsCallStep(last) then [] else [last])
  {
    assert (steps + [last])[..|steps|] == steps;
  }

  lemma WithoutCallsSnoc(steps: seq<Step>, last: Step)
    requires RunSteps(WithoutCalls(steps)).Some?
    ensures RunSteps(WithoutCalls(steps + [last])) ==
            if IsCallStep(last) then RunSteps(WithoutCalls(steps)) else Next(RunSteps(WithoutCalls(steps)).value, last)
  {
    WithoutOneMore(steps, last);
    if IsCallStep(last) {
      assert WithoutCalls(steps) + [] == WithoutCalls(steps);
    } else {
      RunStepsSnoc(WithoutCalls(steps), last);
    }
  }

  /** However calls on payouts overlap, everything else runs as if there were none: same stock, deals,
      locks and transactions, and the same payouts for the same managers and periods. */
  lemma {:induction false} CallsTouchOnlyPayouts(steps: seq<Step>)
    requires RunOverlapping(steps).Some?
    ensures RunSteps(WithoutCalls(steps)).Some?
    ensures Mirrors(RunOverlapping(steps).value, RunSteps(WithoutCalls(steps)).value)
  {
    if steps != [] {
      var rest, last := steps[..|steps| - 1], steps[|steps| - 1];
      assert steps == rest + [last];
      CallsTouchOnlyPayouts(rest);
      WithoutCallsSnoc(rest, last);
      RunsKeepSysInv(WithoutCalls(rest));
      if IsCallStep(last) {
        CallStepMirrors(RunOverlapping(rest).value, RunSteps(WithoutCalls(rest)).value, last);
      } else {
        OtherStepMirrors(RunOverlapping(rest).value, RunSteps(WithoutCalls(rest)).value, last);
      }
    }
  }

  // ----- what survives

  ghost predicate NoCallIn(log: seq<Event>) {
    forall i | 0 <= i < |log| :: !IsPayoutCall(log[i])
  }

  lemma StepLogsNoCall(s: Sys, step: Step)
    requires SysInv(s) && !IsCallStep(step) && Next(s, step).Some? && NoCallIn(s.log)
    ensures NoCallIn(Next(s, step).value.log)
  {
    if step.Commit? {
      assert TxEventOk(s.db.deals, s.active[step.t]);
    }
  }

  lemma {:induction false} NoCallIsLogged(steps: seq<Step>)
    requires RunOverlapping(steps).Some? && RunSteps(WithoutCalls(steps)).Some?
    ensures NoCallIn(RunSteps(WithoutCalls(steps)).value.log)
  {
    if steps != [] {
      var rest, last := steps[..|steps| - 1], steps[|steps| - 1];
      assert steps == rest + [last];
      CallsTouchOnlyPayouts(rest);
      NoCallIsLogged(rest);
      WithoutCallsSnoc(rest, last);
      RunsKeepSysInv(WithoutCalls(rest));
      if !IsCallStep(last) {
        StepLogsNoCall(RunSteps(WithoutCalls(rest)).value, last);
      }
    }
  }

  ghost predicate GivesCommission(step: Step, pid: nat) {
    step.PayoutRead? && CorrectsCommission(step.e, pid)
  }

  /** The payout's commission is still the one it was generated with, also where a call will put it back. */
  ghost predicate MoneyOk(s: Sys, k: Sys, pid: nat) {
    && |s.db.payouts| == |k.db.payouts|
    && (pid < |s.db.payouts| ==> s.db.payouts[pid].totalCommission == k.db.payouts[pid].totalCommission)
    && forall c | c in s.calls && s.calls[c].event.PayoutCorrected? && s.calls[c].event.pid == pid ::
         && pid < |k.db.payouts| && s.calls[c].event.commission.None?
         && s.calls[c].seen.totalCommission == k.db.payouts[pid].totalCommission
  }

  lemma CallKeepsMoney(s: Sys, k: Sys, step: Step, pid: nat)
    requires MoneyOk(s, k, pid) && IsCallStep(step) && NextOverlapping(s, step).Some? && !GivesCommission(step, pid)
    ensures MoneyOk(NextOverlapping(s, step).value, k, pid)
  {
    if step.PayoutWrite? {
      StoredWhole(s.calls[step.c].seen.totalCommission);
    }
  }

  lemma OtherKeepsMoney(s: Sys, k: Sys, step: Step, pid: nat)
    requires Mirrors(s, k) && SysInv(k) && !IsCallStep(step) && Next(s, step).Some? && MoneyOk(s, k, pid)
    ensures Next(k, step).Some? && MoneyOk(Next(s, step).value, Next(k, step).value, pid)
  {
    OtherStepMirrors(s, k, step);
    GrowingKeepsMoney(s, Next(s, step).value, k, Next(k, step).value, pid);
  }

  lemma GrowingKeepsMoney(s: Sys, s': Sys, k: Sys, k': Sys, pid: nat)
    requires MoneyOk(s, k, pid) && s'.calls == s.calls
    requires GrewAlike(s.db.payouts, s'.db.payouts, k.db.payouts, k'.db.payouts)
    ensures MoneyOk(s', k', pid)
  {
  }

  lemma {:induction false} CommissionIsUntouched(steps: seq<Step>, pid: nat)
    requires RunOverlapping(steps).Some? && RunSteps(WithoutCalls(steps)).Some?
    requires forall i | 0 <= i < |steps| :: !GivesCommission(steps[i], pid)
    ensures MoneyOk(RunOverlapping(steps).value, RunSteps(WithoutCalls(steps)).value, pid)
  {
    if steps != [] {
      var rest, last := steps[..|steps| - 1], steps[|steps| - 1];
      assert steps == rest + [last];
      CallsTouchOnlyPayouts(rest);
      CommissionIsUntouched(rest, pid);
      WithoutCallsSnoc(rest, last);
      RunsKeepSysInv(WithoutCalls(rest));
      if IsCallStep(last) {
        CallKeepsMoney(RunOverlapping(rest).value, RunSteps(WithoutCalls(rest)).value, last, pid);
      } else {
        OtherKeepsMoney(RunOverlapping(rest).value, RunSteps(WithoutCalls(rest)).value, last, pid);
      }
    }
  }

  /** Also when calls on one payout overlap: a payout whose commission no call gave is the sum of its
      claims, and every claim fits its payout. */
  lemma AccountingSurvivesOverlap(steps: seq<Step>, pid: nat)
    requires RunOverlapping(steps).Some? && pid < |RunOverlapping(steps).value.db.payouts|
    requires forall i | 0 <= i < |steps| :: !GivesCommission(steps[i], pid)
    ensures var db := RunOverlapping(steps).value.db;
            && db.payouts[pid].totalCommission == ClaimedCommission(db.deals, pid)
            && forall i | 0 <= i < |db.deals| :: ClaimOk(db.deals[i], db.payouts)
  {
    CallsTouchOnlyPayouts(steps);
    CommissionIsUntouched(steps, pid);
    NoCallIsLogged(steps);
    PayoutsAccountedAlways(WithoutCalls(steps), pid);
    var s, k := RunOverlapping(steps).value, RunSteps(WithoutCalls(steps)).value;
    forall i | 0 <= i < |s.db.deals| ensures ClaimOk(s.db.deals[i], s.db.payouts) {
      assert ClaimOk(k.db.deals[i], k.db.payouts);
    }
  }

  /** Nor does it harm stock or claims: no row is negative, a claimed deal stays paid onward, and with
      nothing in flight the goods add up. */
  lemma LedgerSurvivesOverlap(steps: seq<Step>)
    requires RunOverlapping(steps).Some?
    ensures RunSteps(WithoutCalls(steps)).Some?
    ensures var s := RunOverlapping(steps).value;
            && NonNegative(s.db.stock)
            && (forall i | 0 <= i < |s.db.deals| && s.db.deals[i].payout.Some? :: s.db.deals[i].status in PAID_ONWARD)
    ensures var s, k := RunOverlapping(steps).value, RunSteps(WithoutCalls(steps)).value;
            s.active == map[] ==>
              Replay(k.log).Some? && forall key :: Accounted(s.db, key) == Baseline(k.log, key)
  {
    var kept := WithoutCalls(steps);
    CallsTouchOnlyPayouts(steps);
    StockNeverNegative(kept);
    var s, k := RunOverlapping(steps).value, RunSteps(kept).value;
    forall i | 0 <= i < |s.db.deals| && s.db.deals[i].payout.Some? ensures s.db.deals[i].status in PAID_ONWARD {
      ClaimsStayPaid(kept, i);
    }
    if s.active == map[] {
      Serializable(kept);
      forall key ensures Accounted(s.db, key) == Baseline(k.log, key) {
        StockConservedAtRest(kept, key);
      }
    }
  }

  // ----- what does not

  /** The total a correction computes, from the parts it read where they are not given. */
  function ChosenTotal(p: Payout, b: Option<real>, c: Option<real>, t: Option<real>): real {
    if t.Some? then t.value else Chosen(p.baseSalary, b) + Chosen(p.totalCommission, c)
  }

  /** The row still is DRAFT, or what the call computed from the row it read is what the row holds. */
  predicate RespectsHistory(e: Event, seen: Payout, now: Payout) {
    match e
    case PayoutCorrected(_, b, c, t) =>
      || now.status == Draft
      || (&& Stored(Chosen(seen.baseSalary, b)) == now.baseSalary
          && Stored(Chosen(seen.totalCommission, c)) == now.totalCommission
          && Stored(ChosenTotal(seen, b, c, t)) == now.totalPayout)
    case PayoutApproved(_, at) => now.status == Draft || (now.status == Approved && now.approvedAt == Some(at))
    case _ => true
  }

  lemma WriteEvolvesIff(e: Event, seen: Payout, now: Payout)
    requires IsPayoutCall(e)
    ensures PayoutEvolves(now, Written(e, seen, now)) <==> RespectsHistory(e, seen, now)
  {
  }

  predicate WritesTo(s: Sys, step: Step, pid: nat) {
    && step.PayoutWrite? && step.c in s.calls
    && IsPayoutCall(s.calls[step.c].event) && s.calls[step.c].event.pid == pid
  }

  lemma OnlyWritesTouch(steps: seq<Step>, step: Step, pid: nat)
    requires RunOverlapping(steps).Some? && NextOverlapping(RunOverlapping(steps).value, step).Some?
    requires pid < |RunOverlapping(steps).value.db.payouts| && !WritesTo(RunOverlapping(steps).value, step, pid)
    ensures var s := RunOverlapping(steps).value;
            var s' := NextOverlapping(s, step).value;
            pid < |s'.db.payouts| && s'.db.payouts[pid] == s.db.payouts[pid]
  {
    if !IsCallStep(step) {
      CallsTouchOnlyPayouts(steps);
      RunsKeepSysInv(WithoutCalls(steps));
      OtherStepMirrors(RunOverlapping(steps).value, RunSteps(WithoutCalls(steps)).value, step);
    }
  }

  /** At every step of every run in which calls on payouts overlap freely, a payout keeps its history,
      unless the step is a call's write to it that finds it no longer DRAFT and holding something else. */
  lemma HistoryIsKeptIff(steps: seq<Step>, step: Step, pid: nat)
    requires RunOverlapping(steps).Some? && NextOverlapping(RunOverlapping(steps).value, step).Some?
    requires pid < |RunOverlapping(steps).value.db.payouts|
    ensures var s := RunOverlapping(steps).value;
            var s' := NextOverlapping(s, step).value;
            && pid < |s'.db.payouts|
            && (PayoutEvolves(s.db.payouts[pid], s'.db.payouts[pid]) <==>
                WritesTo(s, step, pid) ==>
                  RespectsHistory(s.calls[step.c].event, s.calls[step.c].seen, s.db.payouts[pid]))
  {
    var s := RunOverlapping(steps).value;
    if WritesTo(s, step, pid) {
      WriteEvolvesIff(s.calls[step.c].event, s.calls[step.c].seen, s.db.payouts[pid]);
    } else {
      OnlyWritesTouch(steps, step, pid);
    }
  }

  /** The parts a correction keeps are as it read them; what it was given does not matter. */
  predicate KeptPartsAgree(e: Event, seen: Payout, now: Payout) {
    e.PayoutCorrected? ==>
      && (e.baseSalary.None? ==> seen.baseSalary == now.baseSalary)
      && (e.commission.None? ==> seen.totalCommission == now.totalCommission)
  }

  lemma CorrectionIsCurrentIff(e: Event, seen: Payout, now: Payout)
    requires e.PayoutCorrected?
    ensures Written(e, seen, now) == Corrected(now, e.baseSalary, e.commission, e.total)
            <==> KeptPartsAgree(e, seen, now)
  {
    StoredWhole(seen.baseSalary);
    StoredWhole(now.baseSalary);
    StoredWhole(seen.totalCommission);
    StoredWhole(now.totalCommission);
  }

  /** However calls overlap, a call's write is what one indivisible call would do now, exactly when the
      row has the status the call needs and the parts a correction keeps are as it read them. */
  lemma WriteIsSerialIff(s: Sys, c: nat)
    requires WritePayout(s, c).Some?
    ensures var e, seen := s.calls[c].event, s.calls[c].seen;
            var now := s.db.payouts[e.pid];
            Apply(s.db, e) == Some(WritePayout(s, c).value.db) <==>
            && now.status == (if e.PayoutMarkedPaid? then Approved else Draft)
            && KeptPartsAgree(e, seen, now)
  {
    var e := s.calls[c].event;
    var now := s.db.payouts[e.pid];
    if e.PayoutCorrected? {
      CorrectionIsCurrentIff(e, s.calls[c].seen, now);
    }
    if Valid(s.db, e) {
      var serial, written := WriteTables(s.db, e).payouts, WritePayout(s, c).value.db.payouts;
      assert serial[e.pid] == written[e.pid] ==> serial == written;
    }
  }

  /** Manager "m" has a salary of 100 and no deals; a correction to 5 reads the row before an approval
      does and writes after it. */
  ghost function LateCorrection(at: Time): seq<Step> {
    [GenStart(0, 0, [Manager("m", 100)]), GenRead, GenWrite,
     PayoutRead(0, PayoutCorrected(0, Some(5.0), None, None)), PayoutRead(1, PayoutApproved(0, at)),
     PayoutWrite(1), PayoutWrite(0)]
  }

  lemma RunOverlappingSnoc(steps: seq<Step>, last: Step)
    requires RunOverlapping(steps).Some?
    ensures RunOverlapping(steps + [last]) == NextOverlapping(RunOverlapping(steps).value, last)
  {
    assert (steps + [last])[..|steps|] == steps;
  }

  ghost function SalaryPayout(): Payout {
    Payout("m", 0, 0, 100, 0, 100, Draft, None)
  }

  lemma SalaryIsRead()
    ensures RunOverlapping([GenStart(0, 0, [Manager("m", 100)]), GenRead]) ==
            Some(INIT.(gen := Some(Generation(0, 0, [], [PayoutGenerated(SalaryPayout(), {})]))))
  {
    var start := GenStart(0, 0, [Manager("m", 100)]);
    assert [] + [start] == [start];
    RunOverlappingSnoc([], start);
    assert [start] + [GenRead] == [start, GenRead];
    RunOverlappingSnoc([start], GenRead);
    assert EligibleIds([], "m", 0, 0) == {};
    assert Calculate([], Manager("m", 100), 0, 0) == PayoutGenerated(SalaryPayout(), {});
    assert [Manager("m", 100)][1..] == [];
    assert [] + [Calculate([], Manager("m", 100), 0, 0)] == [PayoutGenerated(SalaryPayout(), {})];
  }

  lemma SalaryIsGenerated()
    ensures RunOverlapping([GenStart(0, 0, [Manager("m", 100)]), GenRead, GenWrite]).Some?
    ensures var s := RunOverlapping([GenStart(0, 0, [Manager("m", 100)]), GenRead, GenWrite]).value;
            && s.db == Db(map[], [], [SalaryPayout()]) && s.calls == map[]
            && s.log == [PayoutGenerated(SalaryPayout(), {})]
  {
    var read := [GenStart(0, 0, [Manager("m", 100)]), GenRead];
    SalaryIsRead();
    RunOverlappingSnoc(read, GenWrite);
    assert read + [GenWrite] == [GenStart(0, 0, [Manager("m", 100)]), GenRead, GenWrite];
    assert LinkDeals([], {}, 0) == [];
  }

  lemma LateCorrectionRuns(at: Time)
    ensures RunOverlapping(LateCorrection(at)[..5]).Some?
    ensures var s := RunOverlapping(LateCorrection(at)[..5]).value;
            && s.db == Db(map[], [], [SalaryPayout()]) && s.log == [PayoutGenerated(SalaryPayout(), {})]
            && s.calls == map[0 := PayoutCall(PayoutCorrected(0, Some(5.0), None, None), SalaryPayout()),
                              1 := PayoutCall(PayoutApproved(0, at), SalaryPayout())]
  {
    var s3 := [GenStart(0, 0, [Manager("m", 100)]), GenRead, GenWrite];
    var s4 := s3 + [PayoutRead(0, PayoutCorrected(0, Some(5.0), None, None))];
    SalaryIsGenerated();
    RunOverlappingSnoc(s3, PayoutRead(0, PayoutCorrected(0, Some(5.0), None, None)));
    RunOverlappingSnoc(s4, PayoutRead(1, PayoutApproved(0, at)));
    assert LateCorrection(at)[..5] == s4 + [PayoutRead(1, PayoutApproved(0, at))];
  }

  lemma ApprovedThenCorrected(made: Event, approve: Event, correct: Event)
    requires made.PayoutGenerated? && approve.PayoutApproved? && correct.PayoutCorrected? && approve.pid == correct.pid
    ensures Replay([made] + [approve] + [correct]) == None
  {
    var two := [made] + [approve];
    var three := two + [correct];
    assert three[..2] == two && two[..1] == [made];
    if Replay([made]) == None {
      assert Replay(two) == None;
    } else {
      RunSnoc(EMPTY, [made], approve);
    }
    assert Replay(two).Some? ==> Replay(two).value.payouts[approve.pid].status == Approved;
    if Replay(two).Some? {
      RunSnoc(EMPTY, two, correct);
    } else {
      assert Replay(three) == None;
    }
  }

  /** The money of an approved payout changes. By `LedgerProofs.PayoutsEvolve` no serial run does that;
      in particular the calls in the order of their writes are no serial run. */
  lemma OverlapChangesApprovedMoney(at: Time)
    ensures var steps := LateCorrection(at);
            && RunOverlapping(steps).Some? && RunOverlapping(steps[..6]).Some?
            && var approved, later := RunOverlapping(steps[..6]).value, RunOverlapping(steps).value;
               && approved.db.payouts == [SalaryPayout().(status := Approved, approvedAt := Some(at))]
               && later.db.payouts == [approved.db.payouts[0].(baseSalary := 5, totalPayout := 5)]
               && !PayoutEvolves(approved.db.payouts[0], later.db.payouts[0])
               && Replay(later.log) == None
  {
    var s5 := LateCorrection(at)[..5];
    var s6 := s5 + [PayoutWrite(1)];
    LateCorrectionRuns(at);
    RunOverlappingSnoc(s5, PayoutWrite(1));
    RunOverlappingSnoc(s6, PayoutWrite(0));
    assert LateCorrection(at)[..6] == s6 && LateCorrection(at) == s6 + [PayoutWrite(0)];
    StoredWhole(5);
    StoredWhole(0);
    ApprovedThenCorrected(PayoutGenerated(SalaryPayout(), {}), PayoutApproved(0, at),
                          PayoutCorrected(0, Some(5.0), None, None));
  }

  // ----- a lost correction

  ghost function RaiseBase(): Event {
    PayoutCorrected(0, Some(5.0), None, None)
  }

  ghost function RaiseCommission(): Event {
    PayoutCorrected(0, None, Some(7.0), None)
  }

  /** Both corrections read 100 and 0 before either writes. */
  ghost function TwoCorrections(): seq<Step> {
    [GenStart(0, 0, [Manager("m", 100)]), GenRead, GenWrite,
     PayoutRead(0, RaiseBase()), PayoutRead(1, RaiseCommission()), PayoutWrite(0), PayoutWrite(1)]
  }

  lemma BothAreRead()
    ensures RunOverlapping(TwoCorrections()[..5]).Some?
    ensures var s := RunOverlapping(TwoCorrections()[..5]).value;
            && s.db == Db(map[], [], [SalaryPayout()]) && s.log == [PayoutGenerated(SalaryPayout(), {})]
            && s.calls == map[0 := PayoutCall(RaiseBase(), SalaryPayout()),
                              1 := PayoutCall(RaiseCommission(), SalaryPayout())]
  {
    var s3 := [GenStart(0, 0, [Manager("m", 100)]), GenRead, GenWrite];
    var s4 := s3 + [PayoutRead(0, RaiseBase())];
    SalaryIsGenerated();
    RunOverlappingSnoc(s3, PayoutRead(0, RaiseBase()));
    RunOverlappingSnoc(s4, PayoutRead(1, RaiseCommission()));
    assert TwoCorrections()[..5] == s4 + [PayoutRead(1, RaiseCommission())];
  }

  lemma StaleWrites(now: Payout)
    requires now == Written(RaiseBase(), SalaryPayout(), SalaryPayout())
    ensures Written(RaiseCommission(), SalaryPayout(), now) == Payout("m", 0, 0, 100, 7, 107, Draft, None)
  {
    StoredWhole(100);
    StoredWhole(7);
    StoredWhole(107);
  }

  lemma TwoCorrectionsRun()
    ensures RunOverlapping(TwoCorrections()).Some?
    ensures var s := RunOverlapping(TwoCorrections()).value;
            && s.db == Db(map[], [], [Payout("m", 0, 0, 100, 7, 107, Draft, None)])
            && s.log == [PayoutGenerated(SalaryPayout(), {}), RaiseBase(), RaiseCommission()]
  {
    var s5 := TwoCorrections()[..5];
    var s6 := s5 + [PayoutWrite(0)];
    BothAreRead();
    RunOverlappingSnoc(s5, PayoutWrite(0));
    RunOverlappingSnoc(s6, PayoutWrite(1));
    assert TwoCorrections() == s6 + [PayoutWrite(1)];
    StaleWrites(Written(RaiseBase(), SalaryPayout(), SalaryPayout()));
  }

  ghost function OnlyPayout(p: Payout): Db {
    Db(map[], [], [p])
  }

  lemma CorrectionApplies(p: Payout, e: Event)
    requires e.PayoutCorrected? && e.pid == 0 && p.status == Draft
    ensures Apply(OnlyPayout(p), e) == Some(OnlyPayout(Corrected(p, e.baseSalary, e.commission, e.total)))
  {
    assert [p][0 := Corrected(p, e.baseSalary, e.commission, e.total)]
        == [Corrected(p, e.baseSalary, e.commission, e.total)];
  }

  lemma BothCorrections()
    ensures Corrected(Corrected(SalaryPayout(), Some(5.0), None, None), None, Some(7.0), None)
            == Payout("m", 0, 0, 5, 7, 12, Draft, None)
    ensures Corrected(Corrected(SalaryPayout(), None, Some(7.0), None), Some(5.0), None, None)
            == Payout("m", 0, 0, 5, 7, 12, Draft, None)
  {
    StoredWhole(5);
    StoredWhole(0);
    StoredWhole(7);
    StoredWhole(12);
    StoredWhole(100);
    StoredWhole(107);
  }

  lemma SalaryReplays()
    ensures Replay([PayoutGenerated(SalaryPayout(), {})]) == Some(OnlyPayout(SalaryPayout()))
  {
    var made := PayoutGenerated(SalaryPayout(), {});
    assert [] + [made] == [made];
    RunSnoc(EMPTY, [], made);
    EntryApplies(EMPTY, made);
    assert LinkDeals(EMPTY.deals, {}, 0) == [];
    assert EMPTY.payouts + [SalaryPayout()] == [SalaryPayout()];
    assert RunEvents(EMPTY, []) == Some(EMPTY);
  }

  /** Taking turns, both corrections take effect, whichever comes first. */
  lemma CorrectedInTurn(first: Event, second: Event)
    requires || (first == RaiseBase() && second == RaiseCommission())
             || (first == RaiseCommission() && second == RaiseBase())
    ensures Replay([PayoutGenerated(SalaryPayout(), {}), first, second]) ==
            Some(OnlyPayout(Payout("m", 0, 0, 5, 7, 12, Draft, None)))
  {
    var one := [PayoutGenerated(SalaryPayout(), {})];
    var half := Corrected(SalaryPayout(), first.baseSalary, first.commission, first.total);
    SalaryReplays();
    RunSnoc(EMPTY, one, first);
    CorrectionApplies(SalaryPayout(), first);
    RunSnoc(EMPTY, one + [first], second);
    CorrectionApplies(half, second);
    BothCorrections();
    assert one + [first] + [second] == [PayoutGenerated(SalaryPayout(), {}), first, second];
  }

  lemma {:induction false} CallNeedsPayout(log: seq<Event>)
    requires log != [] && IsPayoutCall(log[0])
    ensures Replay(log) == None
  {
    if |log| == 1 {
      assert log[..0] == [] && log == [] + [log[0]];
      RunSnoc(EMPTY, [], log[0]);
    } else {
      CallNeedsPayout(log[..|log| - 1]);
    }
  }

  lemma OrdersOfThree<T>(log: seq<T>, x: T, y: T, z: T)
    requires multiset(log) == multiset{x, y, z} && x != y && y != z && x != z
    ensures |log| == 3 && (log[0] == y || log[0] == z || log == [x, y, z] || log == [x, z, y])
  {
    assert |log| == |multiset(log)|;
    assert log == [log[0], log[1], log[2]];
    assert log[0] in multiset(log) && log[1] in multiset(log) && log[2] in multiset(log);
    assert multiset(log)[x] == 1 && multiset(log)[y] == 1 && multiset(log)[z] == 1;
  }

  /** One of two overlapping corrections is lost: what is stored is what no serial order of the same
      three transactions stores. */
  lemma OverlapLosesACorrection(log: seq<Event>)
    requires multiset(log) == multiset([PayoutGenerated(SalaryPayout(), {}), RaiseBase(), RaiseCommission()])
    ensures RunOverlapping(TwoCorrections()).Some?
    ensures multiset(RunOverlapping(TwoCorrections()).value.log) == multiset(log)
    ensures RunOverlapping(TwoCorrections()).value.db == OnlyPayout(Payout("m", 0, 0, 100, 7, 107, Draft, None))
    ensures Replay(log).Some? ==> Replay(log).value == OnlyPayout(Payout("m", 0, 0, 5, 7, 12, Draft, None))
  {
    TwoCorrectionsRun();
    OrdersOfThree(log, PayoutGenerated(SalaryPayout(), {}), RaiseBase(), RaiseCommission());
    if IsPayoutCall(log[0]) {
      CallNeedsPayout(log);
    } else if log[1] == RaiseBase() {
      CorrectedInTurn(RaiseBase(), RaiseCommission());
    } else {
      CorrectedInTurn(RaiseCommission(), RaiseBase());
    }
  }
}
