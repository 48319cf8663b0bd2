/** `PayoutsService`: calculating a period, writing its payouts, and the calls on one payout. */
module PayoutsService {
  import opened Wrappers
  import opened DealStatus
  import opened Ledger
  import opened LedgerProofs
  import opened Catalog
  import opened PayoutCalc

  datatype Account = Account(id: Id, user: User)

  ghost predicate DistinctAccounts(accounts: seq<Account>) {
    forall i, j | 0 <= i < j < |accounts| :: accounts[i].id != accounts[j].id
  }

  predicate Selected(a: Account, only: Option<Id>) {
    a.user.role == MANAGER && (only.Some? ==> a.id == only.value)
  }

  function Managers(accounts: seq<Account>, only: Option<Id>): seq<Manager> {
    if accounts == [] then []
    else
      var last := accounts[|accounts| - 1];
      Managers(accounts[..|accounts| - 1], only)
      + (if Selected(last, only) then [Manager(last.id, last.user.baseSalary)] else [])
  }

  function Calculations(deals: seq<Deal>, managers: seq<Manager>, start: Time, end: Time): seq<Entry> {
    seq(|managers|, i requires 0 <= i < |managers| => Calculate(deals, managers[i], start, end))
  }

  /** The calculations `generate` writes: those with something to pay. */
  function Payable(calculations: seq<Entry>): seq<Entry> {
    if calculations == [] then []
    else
      var last := calculations[|calculations| - 1];
      Payable(calculations[..|calculations| - 1])
      + (if last.row.totalPayout != 0 then [last] else [])
  }

  lemma PayableSnoc(calculations: seq<Entry>, last: Entry)
    ensures Payable(calculations + [last]) ==
            if last.row.totalPayout != 0 then Payable(calculations) + [last] else Payable(calculations)
  {
    assert (calculations + [last])[..|calculations|] == calculations;
  }

  // ----- calculateForPeriod

  method CommissionOf(deals: seq<Deal>, manager: Id, start: Time, end: Time) returns (ids: set<nat>, total: int)
    ensures ids == EligibleIds(deals, manager, start, end) && total == SelectedCommission(deals, ids)
  {
    ids, total := {}, 0;
    for i := 0 to |deals|
      invariant ids == EligibleIds(deals[..i], manager, start, end)
      invariant total == SelectedCommission(deals[..i], ids)
    {
      assert deals[..i + 1][..i] == deals[..i];
      if Eligible(deals[i], manager, start, end) {
        SelectedIgnores(deals[..i], ids + {i}, i);
        assert (ids + {i}) - {i} == ids;
        ids := ids + {i};
        total := total + deals[i].amounts.commission;
      }
      assert ids == EligibleIds(deals[..i + 1], manager, start, end);
    }
    assert deals[..|deals|] == deals;
  }

  method CalculateForPeriod(db: Database, accounts: seq<Account>, start: Time, end: Time, only: Option<Id>)
    returns (results: seq<Entry>)
    ensures results == Calculations(db.deals, Managers(accounts, only), start, end)
    ensures forall e | e in results ::
              exists a | a in accounts :: TakesPart(a, only) && PaysWhatIsDue(db.deals, a, start, end, e)
    ensures forall a | a in accounts && TakesPart(a, only) ::
              exists e | e in results :: PaysWhatIsDue(db.deals, a, start, end, e)
  {
    results := [];
    for i := 0 to |accounts|
      invariant results == Calculations(db.deals, Managers(accounts[..i], only), start, end)
    {
      assert accounts[..i + 1][..i] == accounts[..i];
      var a := accounts[i];
      if Selected(a, only) {
        var ids, commission := CommissionOf(db.deals, a.id, start, end);
        var base := a.user.baseSalary;
        results := results +
        [PayoutGenerated(Payout(a.id, start, end, base, commission, base + commission, Draft, None), ids)];
      }
    }
    assert accounts[..|accounts|] == accounts;
    forall e | e in results
      ensures exists a | a in accounts :: TakesPart(a, only) && PaysWhatIsDue(db.deals, a, start, end, e)
    {
      CalculatedIsDue(db.deals, accounts, start, end, only, e);
    }
    forall a | a in accounts && TakesPart(a, only)
      ensures exists e | e in results :: PaysWhatIsDue(db.deals, a, start, end, e)
    {
      DueIsCalculated(db.deals, accounts, start, end, only, a);
    }
  }

  // ----- generate

  method WritePayout(db: Database, entry: Entry) returns (pid: nat)
    requires Valid(db.View(), entry)
    modifies db
    ensures Apply(old(db.View()), entry) == Some(db.View())
    ensures pid == |old(db.payouts)| && |db.payouts| == pid + 1
  {
    pid := |db.payouts|;
    db.payouts := db.payouts + [entry.row];
    db.deals := LinkDeals(db.deals, entry.ids, pid);
  }

  /** Writes the calculations with something to pay, in order; each write is one transaction. */
  method WriteAll(db: Database, results: seq<Entry>, ghost managers: seq<Manager>, start: Time, end: Time)
    returns (created: seq<nat>)
    requires DistinctIds(managers) && results == Calculations(db.deals, managers, start, end)
    modifies db
    ensures RunEvents(old(db.View()), Payable(results)) == Some(db.View())
    ensures |created| == |Payable(results)| && |db.payouts| == |old(db.payouts)| + |created|
    ensures forall j | 0 <= j < |created| :: created[j] == |old(db.payouts)| + j
  {
    ghost var before := db.View();
    created := [];
    for i := 0 to |results|
      invariant RunEvents(before, Payable(results[..i])) == Some(db.View())
      invariant |db.payouts| == |before.payouts| + |created| && |created| == |Payable(results[..i])|
      invariant forall j | 0 <= j < |created| :: created[j] == |before.payouts| + j
    {
      PayableStep(before, results, i, db.View());
      var result := results[i];
      if result.row.totalPayout != 0 {
        WriteIsValid(before, managers, start, end, i, db.View());
        var pid := WritePayout(db, result);
        created := created + [pid];
      }
    }
    assert results[..|results|] == results;
  }

  ghost predicate IsDueToSomeone(deals: seq<Deal>, accounts: seq<Account>, start: Time, end: Time,
                                 only: Option<Id>, row: Payout) {
    exists a | a in accounts :: TakesPart(a, only) && row == DuePayout(deals, a, start, end)
  }

  /** The payouts that were there stay, and the new ones are exactly what the managers are due. */
  ghost predicate Generated(before: Db, after: Db, accounts: seq<Account>, start: Time, end: Time, only: Option<Id>) {
    && after.stock == before.stock
    && |before.payouts| <= |after.payouts| && after.payouts[..|before.payouts|] == before.payouts
    && (forall j | |before.payouts| <= j < |after.payouts| ::
          IsDueToSomeone(before.deals, accounts, start, end, only, after.payouts[j]))
    && (forall a | a in accounts && TakesPart(a, only) && DuePayout(before.deals, a, start, end).totalPayout != 0 ::
          DuePayout(before.deals, a, start, end) in after.payouts[|before.payouts|..])
  }

  /** Writes one payout per manager with something to pay, each with the salary and commission due. */
  method Generate(db: Database, accounts: seq<Account>, start: Time, end: Time, only: Option<Id>)
    returns (created: seq<nat>)
    requires DistinctAccounts(accounts)
    modifies db
    ensures var writes := Payable(Calculations(old(db.deals), Managers(accounts, only), start, end));
            && RunEvents(old(db.View()), writes) == Some(db.View())
            && |created| == |writes| && forall j | 0 <= j < |created| :: created[j] == |old(db.payouts)| + j
    ensures Generated(old(db.View()), db.View(), accounts, start, end, only)
    ensures |db.payouts| == |old(db.payouts)| + |created|
  {
    ghost var before := db.View();
    var results := CalculateForPeriod(db, accounts, start, end, only);
    ManagersAreDistinct(accounts, only);
    GenerateWritesWhatIsDue(before, accounts, start, end, only);
    created := WriteAll(db, results, Managers(accounts, only), start, end);
  }

  lemma {:induction false} ManagersAreDistinct(accounts: seq<Account>, only: Option<Id>)
    requires DistinctAccounts(accounts)
    ensures DistinctIds(Managers(accounts, only))
    ensures forall m | m in Managers(accounts, only) :: exists a | a in accounts :: a.id == m.id
  {
    if accounts != [] {
      ManagersAreDistinct(accounts[..|accounts| - 1], only);
      assert forall a | a in accounts[..|accounts| - 1] :: a in accounts;
      assert accounts[|accounts| - 1] in accounts;
    }
  }

  ghost predicate DistinctIds(managers: seq<Manager>) {
    forall i, j | 0 <= i < j < |managers| :: managers[i].id != managers[j].id
  }

  /** The manager's calculation is still valid when the payouts before it have been written. */
  lemma WriteIsValid(db: Db, managers: seq<Manager>, start: Time, end: Time, i: nat, now: Db)
    requires i < |managers| && DistinctIds(managers)
    requires RunEvents(db, Payable(Calculations(db.deals, managers, start, end)[..i])) == Some(now)
    ensures Valid(now, Calculate(db.deals, managers[i], start, end))
  {
    var entry := Calculate(db.deals, managers[i], start, end);
    CalculationIsValid(db, managers[i], start, end);
    var writes := Payable(Calculations(db.deals, managers, start, end)[..i]);
    PayableComesFrom(Calculations(db.deals, managers, start, end)[..i]);
    forall e | e in writes ensures e.row.manager != entry.row.manager {
      var j :| 0 <= j < i && Calculations(db.deals, managers, start, end)[j] == e;
      assert managers[j].id != managers[i].id;
    }
    StaysValidThrough(db, writes, entry);
  }

  /** The run after one more calculation. */
  lemma PayableStep(db: Db, calculations: seq<Entry>, i: nat, now: Db)
    requires i < |calculations| && RunEvents(db, Payable(calculations[..i])) == Some(now)
    ensures var pays := calculations[i].row.totalPayout != 0;
            && |Payable(calculations[..i + 1])| == |Payable(calculations[..i])| + (if pays then 1 else 0)
            && RunEvents(db, Payable(calculations[..i + 1])) == if pays then Apply(now, calculations[i]) else Some(now)
  {
    PayableRun(db, calculations[..i], calculations[i], now);
    assert calculations[..i + 1] == calculations[..i] + [calculations[i]];
  }

  lemma PayableRun(db: Db, calculations: seq<Entry>, last: Entry, now: Db)
    requires RunEvents(db, Payable(calculations)) == Some(now)
    ensures |Payable(calculations + [last])| == |Payable(calculations)| + (if last.row.totalPayout != 0 then 1 else 0)
    ensures RunEvents(db, Payable(calculations + [last])) ==
            if last.row.totalPayout != 0 then Apply(now, last) else Some(now)
  {
    PayableSnoc(calculations, last);
    RunSnoc(db, Payable(calculations), last);
  }

  lemma {:induction false} PayableComesFrom(calculations: seq<Entry>)
    ensures forall e | e in Payable(calculations) ::
              e.row.totalPayout != 0 && exists j | 0 <= j < |calculations| :: calculations[j] == e
  {
    if calculations != [] {
      var rest := calculations[..|calculations| - 1];
      PayableComesFrom(rest);
      forall e | e in Payable(rest) ensures exists j | 0 <= j < |calculations| :: calculations[j] == e {
        var j :| 0 <= j < |rest| && rest[j] == e;
        assert calculations[j] == e;
      }
    }
  }

  lemma {:induction false} PayableKeeps(calculations: seq<Entry>, j: nat)
    requires j < |calculations| && calculations[j].row.totalPayout != 0
    ensures calculations[j] in Payable(calculations)
  {
    if j < |calculations| - 1 {
      PayableKeeps(calculations[..|calculations| - 1], j);
    }
  }

  lemma {:induction false} StaysValidThrough(db: Db, writes: seq<Entry>, entry: Entry)
    requires Valid(db, entry) && RunEvents(db, writes).Some?
    requires forall e | e in writes :: e.row.manager != entry.row.manager
    ensures Valid(RunEvents(db, writes).value, entry)
  {
    if writes != [] {
      var rest := writes[..|writes| - 1];
      StaysValidThrough(db, rest, entry);
      CalcStaysValid(RunEvents(db, rest).value, writes[|writes| - 1], entry);
    }
  }

  // ----- completeness, and commission is paid once

  lemma {:induction false} SelectedCovers(deals: seq<Deal>, ids: set<nat>)
    requires forall i | 0 <= i < |deals| :: deals[i].amounts.commission >= 0
    ensures SelectedCommission(deals, ids) >= 0
    ensures forall i | i in ids && i < |deals| :: deals[i].amounts.commission <= SelectedCommission(deals, ids)
  {
    if deals != [] {
      SelectedCovers(deals[..|deals| - 1], ids);
    }
  }

  lemma {:induction false} SelectedZero(deals: seq<Deal>, ids: set<nat>)
    requires forall i | i in ids && i < |deals| :: deals[i].amounts.commission == 0
    ensures SelectedCommission(deals, ids) == 0
  {
    if deals != [] {
      SelectedZero(deals[..|deals| - 1], ids);
    }
  }

  ghost predicate AllClaimed(deals: seq<Deal>, ids: set<nat>) {
    forall i | i in ids :: i < |deals| && deals[i].payout.Some?
  }

  ghost predicate Links(deals: seq<Deal>, later: seq<Deal>, writes: seq<Entry>) {
    && |later| == |deals|
    && (forall i | 0 <= i < |deals| :: later[i] == deals[i].(payout := later[i].payout))
    && (forall j | 0 <= j < |writes| :: AllClaimed(later, writes[j].ids))
  }

  /** Writing payouts changes nothing of a deal but its claim, and every listed deal is claimed. */
  lemma {:induction false} WritesLink(db: Db, writes: seq<Entry>)
    requires RunEvents(db, writes).Some?
    ensures Links(db.deals, RunEvents(db, writes).value.deals, writes)
  {
    if writes != [] {
      var rest, last := writes[..|writes| - 1], writes[|writes| - 1];
      WritesLink(db, rest);
      var now := RunEvents(db, rest).value;
      EntryApplies(now, last);
      LinksSnoc(db.deals, now, rest, last);
      assert writes == rest + [last];
    }
  }

  lemma LinksSnoc(deals: seq<Deal>, now: Db, rest: seq<Entry>, last: Entry)
    requires Links(deals, now.deals, rest) && Valid(now, last)
    ensures Links(deals, LinkDeals(now.deals, last.ids, |now.payouts|), rest + [last])
  {
    var after := LinkDeals(now.deals, last.ids, |now.payouts|);
    forall j | 0 <= j < |rest + [last]| ensures AllClaimed(after, (rest + [last])[j].ids) {
      if j < |rest| {
        assert AllClaimed(now.deals, rest[j].ids);
      }
    }
  }

  /** No write of one `generate` call gets in the way of the next. */
  lemma {:induction false} GenerateSucceeds(db: Db, managers: seq<Manager>, start: Time, end: Time, n: nat)
    requires DistinctIds(managers) && n <= |managers|
    ensures RunEvents(db, Payable(Calculations(db.deals, managers, start, end)[..n])).Some?
  {
    if n > 0 {
      GenerateSucceeds(db, managers, start, end, n - 1);
      var all := Calculations(db.deals, managers, start, end);
      var now := RunEvents(db, Payable(all[..n - 1])).value;
      PayableRun(db, all[..n - 1], all[n - 1], now);
      assert all[..n] == all[..n - 1] + [all[n - 1]];
      WriteIsValid(db, managers, start, end, n - 1, now);
      EntryApplies(now, all[n - 1]);
    }
  }

  /** What `generate` writes. */
  ghost function AllWrites(db: Db, accounts: seq<Account>, start: Time, end: Time, only: Option<Id>): seq<Entry> {
    Payable(Calculations(db.deals, Managers(accounts, only), start, end))
  }

  lemma AllWritesRun(db: Db, accounts: seq<Account>, start: Time, end: Time, only: Option<Id>)
    requires DistinctAccounts(accounts)
    ensures RunEvents(db, AllWrites(db, accounts, start, end, only)).Some?
  {
    var managers := Managers(accounts, only);
    var all := Calculations(db.deals, managers, start, end);
    ManagersAreDistinct(accounts, only);
    GenerateSucceeds(db, managers, start, end, |managers|);
    assert all[..|managers|] == all;
  }

  ghost function AfterGenerate(db: Db, accounts: seq<Account>, start: Time, end: Time, only: Option<Id>): Db
    requires DistinctAccounts(accounts)
  {
    AllWritesRun(db, accounts, start, end, only);
    RunEvents(db, AllWrites(db, accounts, start, end, only)).value
  }

  lemma GenerateLinks(db: Db, accounts: seq<Account>, start: Time, end: Time, only: Option<Id>)
    requires DistinctAccounts(accounts)
    ensures Links(db.deals, AfterGenerate(db, accounts, start, end, only).deals,
                  AllWrites(db, accounts, start, end, only))
  {
    AllWritesRun(db, accounts, start, end, only);
    WritesLink(db, AllWrites(db, accounts, start, end, only));
  }

  lemma {:induction false} ManagerListed(accounts: seq<Account>, only: Option<Id>, a: Account)
    requires a in accounts && Selected(a, only)
    ensures Manager(a.id, a.user.baseSalary) in Managers(accounts, only)
  {
    var last := accounts[|accounts| - 1];
    if a in accounts[..|accounts| - 1] {
      ManagerListed(accounts[..|accounts| - 1], only, a);
    } else {
      assert a == last;
    }
  }

  lemma {:induction false} ListedManager(accounts: seq<Account>, only: Option<Id>, m: Manager)
    requires m in Managers(accounts, only)
    ensures exists a | a in accounts :: Selected(a, only) && m == Manager(a.id, a.user.baseSalary)
  {
    var rest, last := accounts[..|accounts| - 1], accounts[|accounts| - 1];
    if m in Managers(rest, only) {
      ListedManager(rest, only, m);
      var a :| a in rest && Selected(a, only) && m == Manager(a.id, a.user.baseSalary);
      assert a in accounts;
    } else {
      assert last in accounts;
    }
  }

  ghost predicate SalariesOk(accounts: seq<Account>) {
    forall a | a in accounts :: a.user.baseSalary >= 0
  }

  /** The deal counts for the manager's period: paid and not called off, created in it, claimed by nobody. */
  ghost predicate CountsFor(d: Deal, manager: Id, start: Time, end: Time) {
    && d.manager == manager && d.payout == None && start <= d.createdAt && d.createdAt <= end
    && (d.status == PAID || d.status == SHIPPED || d.status == COMPLETED)
  }

  /** The owner is owed something for the period: a base salary, or the commission of some deal. */
  ghost predicate IsOwed(deals: seq<Deal>, owner: Account, start: Time, end: Time) {
    || owner.user.baseSalary > 0
    || exists j | 0 <= j < |deals| :: CountsFor(deals[j], owner.id, start, end) && deals[j].amounts.commission > 0
  }

  /** The account takes part in the call: a manager, and the one asked for if one is asked for. */
  ghost predicate TakesPart(a: Account, only: Option<Id>) {
    a.user.role == MANAGER && (only == None || only == Some(a.id))
  }

  /** The deal counts for the period of a selected manager who is owed something. */
  ghost predicate GetsClaimed(deals: seq<Deal>, d: Deal, accounts: seq<Account>, start: Time, end: Time,
                              only: Option<Id>) {
    exists a | a in accounts :: TakesPart(a, only) && CountsFor(d, a.id, start, end) && IsOwed(deals, a, start, end)
  }

  lemma OwedIsPaid(db: Db, a: Account, start: Time, end: Time)
    requires Inv(db) && a.user.baseSalary >= 0
    ensures Calculate(db.deals, Manager(a.id, a.user.baseSalary), start, end).row.totalPayout != 0
            <==> IsOwed(db.deals, a, start, end)
  {
    var ids := EligibleIds(db.deals, a.id, start, end);
    assert forall n | 0 <= n < |db.deals| :: DealOk(db.deals[n]);
    SelectedCovers(db.deals, ids);
    if forall n | n in ids && n < |db.deals| :: db.deals[n].amounts.commission == 0 {
      SelectedZero(db.deals, ids);
    }
  }

  lemma OwedIsListed(db: Db, accounts: seq<Account>, start: Time, end: Time, only: Option<Id>, i: nat, owner: Account)
    requires Inv(db) && SalariesOk(accounts) && owner in accounts && Selected(owner, only)
    requires i < |db.deals| && CountsFor(db.deals[i], owner.id, start, end) && IsOwed(db.deals, owner, start, end)
    ensures exists e | e in AllWrites(db, accounts, start, end, only) :: i in e.ids
  {
    var managers := Managers(accounts, only);
    var all := Calculations(db.deals, managers, start, end);
    ManagerListed(accounts, only, owner);
    var j :| 0 <= j < |managers| && managers[j] == Manager(owner.id, owner.user.baseSalary);
    OwedIsPaid(db, owner, start, end);
    PayableKeeps(all, j);
    assert i in all[j].ids;
  }

  lemma ListedIsOwed(db: Db, accounts: seq<Account>, start: Time, end: Time, only: Option<Id>, i: nat, e: Entry)
    requires Inv(db) && SalariesOk(accounts)
    requires e in AllWrites(db, accounts, start, end, only) && i in e.ids
    ensures i < |db.deals| && GetsClaimed(db.deals, db.deals[i], accounts, start, end, only)
  {
    var managers := Managers(accounts, only);
    var all := Calculations(db.deals, managers, start, end);
    PayableComesFrom(all);
    var j :| 0 <= j < |all| && all[j] == e;
    assert managers[j] in managers;
    ListedManager(accounts, only, managers[j]);
    var a :| a in accounts && Selected(a, only) && managers[j] == Manager(a.id, a.user.baseSalary);
    OwedIsPaid(db, a, start, end);
  }

  lemma {:induction false} OnlyListedAreClaimed(db: Db, writes: seq<Entry>, i: nat)
    requires RunEvents(db, writes).Some? && i < |db.deals|
    ensures i < |RunEvents(db, writes).value.deals|
    ensures RunEvents(db, writes).value.deals[i].payout != db.deals[i].payout ==> exists e | e in writes :: i in e.ids
  {
    if writes != [] {
      var rest, last := writes[..|writes| - 1], writes[|writes| - 1];
      OnlyListedAreClaimed(db, rest, i);
      EntryApplies(RunEvents(db, rest).value, last);
      assert forall e | e in rest :: e in writes;
      assert last in writes;
    }
  }

  /** Which deals are claimed after `generate`: those claimed before, and those that count for the period
      of a selected manager who is owed something. A deal without commission is claimed along with a
      salary or another deal's commission, and stays unclaimed otherwise. */
  lemma ClaimedAfterGenerateIff(db: Db, accounts: seq<Account>, start: Time, end: Time, only: Option<Id>, i: nat)
    requires Inv(db) && SalariesOk(accounts) && DistinctAccounts(accounts) && i < |db.deals|
    ensures var after := AfterGenerate(db, accounts, start, end, only);
            && i < |after.deals|
            && (after.deals[i].payout.Some?
                <==> db.deals[i].payout.Some? || GetsClaimed(db.deals, db.deals[i], accounts, start, end, only))
  {
    var writes := AllWrites(db, accounts, start, end, only);
    AllWritesRun(db, accounts, start, end, only);
    GenerateLinks(db, accounts, start, end, only);
    if db.deals[i].payout.Some? {
      ClaimsSurvive(db, writes, i);
    }
    OnlyListedAreClaimed(db, writes, i);
    if e :| e in writes && i in e.ids {
      ListedIsOwed(db, accounts, start, end, only, i, e);
      var n :| 0 <= n < |writes| && writes[n] == e;
      assert AllClaimed(AfterGenerate(db, accounts, start, end, only).deals, writes[n].ids);
    } else if GetsClaimed(db.deals, db.deals[i], accounts, start, end, only) {
      var a :| a in accounts && TakesPart(a, only) && CountsFor(db.deals[i], a.id, start, end)
               && IsOwed(db.deals, a, start, end);
      OwedIsListed(db, accounts, start, end, only, i, a);
    }
  }

  // ----- what a payout pays

  function DueOf(manager: Id, start: Time, end: Time): Deal -> int {
    (d: Deal) =>
      if d.manager == manager && d.payout == None && start <= d.createdAt && d.createdAt <= end
         && (d.status == PAID || d.status == SHIPPED || d.status == COMPLETED)
      then d.amounts.commission else 0
  }

  /** The commission of all deals that count for the manager's period. */
  function CommissionDue(deals: seq<Deal>, manager: Id, start: Time, end: Time): int {
    SumOver(deals, DueOf(manager, start, end))
  }

  lemma {:induction false} SelectedIsDue(deals: seq<Deal>, manager: Id, start: Time, end: Time)
    ensures SelectedCommission(deals, EligibleIds(deals, manager, start, end))
            == CommissionDue(deals, manager, start, end)
  {
    if deals != [] {
      var n := |deals| - 1;
      var ids := EligibleIds(deals, manager, start, end);
      SelectedIsDue(deals[..n], manager, start, end);
      assert ids - {n} == EligibleIds(deals[..n], manager, start, end);
      SelectedIgnores(deals[..n], ids, n);
    }
  }

  /** The payout a manager is due for the period: the base salary and the commission, and nothing twice. */
  ghost function DuePayout(deals: seq<Deal>, a: Account, start: Time, end: Time): Payout {
    var commission := CommissionDue(deals, a.id, start, end);
    Payout(a.id, start, end, a.user.baseSalary, commission, a.user.baseSalary + commission, Draft, None)
  }

  ghost predicate PaysWhatIsDue(deals: seq<Deal>, a: Account, start: Time, end: Time, e: Entry) {
    && e.row == DuePayout(deals, a, start, end)
    && forall i: nat :: i in e.ids <==> i < |deals| && CountsFor(deals[i], a.id, start, end)
  }

  lemma CalculationPaysWhatIsDue(deals: seq<Deal>, a: Account, start: Time, end: Time)
    ensures PaysWhatIsDue(deals, a, start, end, Calculate(deals, Manager(a.id, a.user.baseSalary), start, end))
  {
    SelectedIsDue(deals, a.id, start, end);
  }

  /** Every calculation of a period is for an account that takes part, and is what it is due. */
  lemma CalculatedIsDue(deals: seq<Deal>, accounts: seq<Account>, start: Time, end: Time, only: Option<Id>, e: Entry)
    requires e in Calculations(deals, Managers(accounts, only), start, end)
    ensures exists a | a in accounts :: TakesPart(a, only) && PaysWhatIsDue(deals, a, start, end, e)
  {
    var managers := Managers(accounts, only);
    var j :| 0 <= j < |managers| && Calculate(deals, managers[j], start, end) == e;
    assert managers[j] in managers;
    ListedManager(accounts, only, managers[j]);
    var a :| a in accounts && Selected(a, only) && managers[j] == Manager(a.id, a.user.baseSalary);
    CalculationPaysWhatIsDue(deals, a, start, end);
  }

  lemma DueIsCalculated(deals: seq<Deal>, accounts: seq<Account>, start: Time, end: Time, only: Option<Id>, a: Account)
    requires a in accounts && TakesPart(a, only)
    ensures exists e | e in Calculations(deals, Managers(accounts, only), start, end) ::
              PaysWhatIsDue(deals, a, start, end, e)
  {
    var managers := Managers(accounts, only);
    ManagerListed(accounts, only, a);
    var j :| 0 <= j < |managers| && managers[j] == Manager(a.id, a.user.baseSalary);
    assert Calculations(deals, managers, start, end)[j] in Calculations(deals, managers, start, end);
    CalculationPaysWhatIsDue(deals, a, start, end);
  }

  /** Every payout `generate` writes is what some account that takes part is due. */
  lemma WrittenIsDue(db: Db, accounts: seq<Account>, start: Time, end: Time, only: Option<Id>, e: Entry)
    requires e in AllWrites(db, accounts, start, end, only)
    ensures e.row.totalPayout != 0
    ensures exists a | a in accounts :: TakesPart(a, only) && PaysWhatIsDue(db.deals, a, start, end, e)
  {
    PayableComesFrom(Calculations(db.deals, Managers(accounts, only), start, end));
    CalculatedIsDue(db.deals, accounts, start, end, only, e);
  }

  /** Every account that takes part and is due anything, deals or no deals, gets its payout. */
  lemma DueIsWritten(db: Db, accounts: seq<Account>, start: Time, end: Time, only: Option<Id>, a: Account)
    requires a in accounts && TakesPart(a, only)
    requires a.user.baseSalary + CommissionDue(db.deals, a.id, start, end) != 0
    ensures exists e | e in AllWrites(db, accounts, start, end, only) :: PaysWhatIsDue(db.deals, a, start, end, e)
  {
    var all := Calculations(db.deals, Managers(accounts, only), start, end);
    DueIsCalculated(db.deals, accounts, start, end, only, a);
    var j :| 0 <= j < |all| && PaysWhatIsDue(db.deals, a, start, end, all[j]);
    PayableKeeps(all, j);
  }

  /** And only one: no two payouts of one call are for the same manager. */
  lemma OnePayoutPerManager(db: Db, accounts: seq<Account>, start: Time, end: Time, only: Option<Id>, i: nat, j: nat)
    requires DistinctAccounts(accounts) && i < j < |AllWrites(db, accounts, start, end, only)|
    ensures AllWrites(db, accounts, start, end, only)[i].row.manager
            != AllWrites(db, accounts, start, end, only)[j].row.manager
  {
    ManagersAreDistinct(accounts, only);
    PayableStaysDistinct(Calculations(db.deals, Managers(accounts, only), start, end), i, j);
  }

  lemma {:induction false} PayableStaysDistinct(all: seq<Entry>, i: nat, j: nat)
    requires forall a, b | 0 <= a < b < |all| :: all[a].row.manager != all[b].row.manager
    requires i < j < |Payable(all)|
    ensures Payable(all)[i].row.manager != Payable(all)[j].row.manager
  {
    var rest := all[..|all| - 1];
    PayableComesFrom(rest);
    if j < |Payable(rest)| {
      PayableStaysDistinct(rest, i, j);
    } else {
      var e := Payable(rest)[i];
      assert e in Payable(rest);
      var k :| 0 <= k < |rest| && rest[k] == e;
      assert all[k].row.manager != all[|all| - 1].row.manager;
    }
  }

  function Rows(writes: seq<Entry>): seq<Payout> {
    seq(|writes|, j requires 0 <= j < |writes| => writes[j].row)
  }

  lemma {:induction false} WritesAppend(db: Db, writes: seq<Entry>)
    requires RunEvents(db, writes).Some?
    ensures RunEvents(db, writes).value.stock == db.stock
    ensures RunEvents(db, writes).value.payouts == db.payouts + Rows(writes)
  {
    if writes != [] {
      var rest := writes[..|writes| - 1];
      WritesAppend(db, rest);
      EntryApplies(RunEvents(db, rest).value, writes[|writes| - 1]);
      assert Rows(writes) == Rows(rest) + [writes[|writes| - 1].row];
    }
  }

  lemma RowsAreDue(db: Db, accounts: seq<Account>, start: Time, end: Time, only: Option<Id>, j: nat)
    requires j < |AllWrites(db, accounts, start, end, only)|
    ensures IsDueToSomeone(db.deals, accounts, start, end, only, AllWrites(db, accounts, start, end, only)[j].row)
  {
    WrittenIsDue(db, accounts, start, end, only, AllWrites(db, accounts, start, end, only)[j]);
  }

  lemma DueIsAmongRows(db: Db, accounts: seq<Account>, start: Time, end: Time, only: Option<Id>, a: Account)
    requires a in accounts && TakesPart(a, only) && DuePayout(db.deals, a, start, end).totalPayout != 0
    ensures DuePayout(db.deals, a, start, end) in Rows(AllWrites(db, accounts, start, end, only))
  {
    var writes := AllWrites(db, accounts, start, end, only);
    DueIsWritten(db, accounts, start, end, only, a);
    var j :| 0 <= j < |writes| && PaysWhatIsDue(db.deals, a, start, end, writes[j]);
    assert Rows(writes)[j] == DuePayout(db.deals, a, start, end);
  }

  lemma GenerateWritesWhatIsDue(db: Db, accounts: seq<Account>, start: Time, end: Time, only: Option<Id>)
    requires DistinctAccounts(accounts)
    ensures RunEvents(db, AllWrites(db, accounts, start, end, only)).Some?
    ensures Generated(db, RunEvents(db, AllWrites(db, accounts, start, end, only)).value, accounts, start, end, only)
  {
    var writes := AllWrites(db, accounts, start, end, only);
    AllWritesRun(db, accounts, start, end, only);
    WritesAppend(db, writes);
    AppendedRowsAreDue(db, RunEvents(db, writes).value, accounts, start, end, only);
  }

  lemma AppendedRowsAreDue(db: Db, after: Db, accounts: seq<Account>, start: Time, end: Time, only: Option<Id>)
    requires after.stock == db.stock
    requires after.payouts == db.payouts + Rows(AllWrites(db, accounts, start, end, only))
    ensures Generated(db, after, accounts, start, end, only)
  {
    var n := |db.payouts|;
    forall j | n <= j < |after.payouts| ensures IsDueToSomeone(db.deals, accounts, start, end, only, after.payouts[j]) {
      RowsAreDue(db, accounts, start, end, only, j - n);
    }
    forall a | a in accounts && TakesPart(a, only) && DuePayout(db.deals, a, start, end).totalPayout != 0
      ensures DuePayout(db.deals, a, start, end) in after.payouts[n..]
    {
      DueIsAmongRows(db, accounts, start, end, only, a);
      assert after.payouts[n..] == Rows(AllWrites(db, accounts, start, end, only));
    }
  }

  /** After `generate` without a manager filter every commissionable deal of the period with a
      MANAGER-role owner is claimed whose own commission is positive. */
  lemma GenerateIsComplete(db: Db, accounts: seq<Account>, start: Time, end: Time, i: nat, owner: Account)
    requires Inv(db) && SalariesOk(accounts) && DistinctAccounts(accounts)
    requires i < |db.deals| && owner in accounts && owner.user.role == MANAGER && db.deals[i].manager == owner.id
    requires start <= db.deals[i].createdAt <= end && db.deals[i].amounts.commission > 0
    requires db.deals[i].status == PAID || db.deals[i].status == SHIPPED || db.deals[i].status == COMPLETED
    ensures var after := AfterGenerate(db, accounts, start, end, None);
            i < |after.deals| && after.deals[i].payout.Some?
  {
    ClaimedAfterGenerateIff(db, accounts, start, end, None, i);
  }

  /** A manager without salary whose only deal earns nothing: `generate` leaves the deal unclaimed. */
  lemma UnpaidDealStaysUnclaimed(at: Time)
    ensures var d := Deal("m", Some("w"), [Item("pen", 1, 10, 10)], None, Amounts(0, 0, 0, 10, 0.0, 0), PAID, at,
                          None, None);
            var db := Db(map[StockKey("w", "pen") := 0], [d], []);
            var accounts := [Account("m", User(MANAGER, 0.0, 0.0, 0))];
            && Inv(db) && SalariesOk(accounts) && DistinctAccounts(accounts)
            && CountsFor(d, "m", at, at)
            && AfterGenerate(db, accounts, at, at, None).deals == [d]
  {
    var d := Deal("m", Some("w"), [Item("pen", 1, 10, 10)], None, Amounts(0, 0, 0, 10, 0.0, 0), PAID, at, None, None);
    var db := Db(map[StockKey("w", "pen") := 0], [d], []);
    var accounts := [Account("m", User(MANAGER, 0.0, 0.0, 0))];
    ClaimedAfterGenerateIff(db, accounts, at, at, None, 0);
    GenerateLinks(db, accounts, at, at, None);
  }

  lemma {:induction false} ClaimsSurvive(db: Db, writes: seq<Entry>, i: nat)
    requires RunEvents(db, writes).Some? && i < |db.deals| && db.deals[i].payout.Some?
    ensures i < |RunEvents(db, writes).value.deals|
    ensures RunEvents(db, writes).value.deals[i].payout == db.deals[i].payout
  {
    if writes != [] {
      ClaimsSurvive(db, writes[..|writes| - 1], i);
      ApplyEvolves(RunEvents(db, writes[..|writes| - 1]).value, writes[|writes| - 1], i);
    }
  }

  /** A second `generate` for any sub-period, for the same managers or fewer, finds no positive commission
      left: what it still writes are payouts with commission 0, and none for a manager without a salary. */
  lemma CommissionIsPaidOnce(db: Db, accounts: seq<Account>, start: Time, end: Time, first: Option<Id>,
                             start2: Time, end2: Time, second: Option<Id>)
    requires Inv(db) && SalariesOk(accounts) && DistinctAccounts(accounts)
    requires start <= start2 && end2 <= end && (first.None? || first == second)
    ensures var after := AfterGenerate(db, accounts, start, end, first);
            forall e | e in AllWrites(after, accounts, start2, end2, second) ::
              && e.row.totalCommission == 0 && e.row.baseSalary != 0
              && forall i | i in e.ids :: i < |after.deals| && after.deals[i].amounts.commission == 0
  {
    var after := AfterGenerate(db, accounts, start, end, first);
    var managers := Managers(accounts, second);
    var writes := Calculations(after.deals, managers, start2, end2);
    PayableComesFrom(writes);
    forall e | e in Payable(writes)
      ensures && e.row.totalCommission == 0 && e.row.baseSalary != 0
              && forall i | i in e.ids :: i < |after.deals| && after.deals[i].amounts.commission == 0
    {
      var j :| 0 <= j < |writes| && writes[j] == e;
      assert managers[j] in managers;
      ListedManager(accounts, second, managers[j]);
      var a :| a in accounts && Selected(a, second) && managers[j] == Manager(a.id, a.user.baseSalary);
      forall i | i in e.ids ensures i < |after.deals| && after.deals[i].amounts.commission == 0 {
        NothingLeft(db, accounts, start, end, first, a, i);
      }
      SelectedZero(after.deals, e.ids);
    }
  }

  lemma NothingLeft(db: Db, accounts: seq<Account>, start: Time, end: Time, first: Option<Id>, a: Account, i: nat)
    requires Inv(db) && SalariesOk(accounts) && DistinctAccounts(accounts) && a in accounts && Selected(a, first)
    requires i < |AfterGenerate(db, accounts, start, end, first).deals|
    requires Eligible(AfterGenerate(db, accounts, start, end, first).deals[i], a.id, start, end)
    ensures AfterGenerate(db, accounts, start, end, first).deals[i].amounts.commission == 0
  {
    GenerateLinks(db, accounts, start, end, first);
    assert DealOk(db.deals[i]);
    ClaimedAfterGenerateIff(db, accounts, start, end, first, i);
  }

  // ----- calls on one payout

  datatype PayoutError = PayoutNotFound | WrongStatus

  method Update(db: Database, pid: nat, baseSalary: Option<real>, commission: Option<real>, total: Option<real>)
    returns (r: Result<(), PayoutError>)
    modifies db`payouts
    ensures pid >= |old(db.payouts)| ==> r == Err(PayoutNotFound)
    ensures pid < |old(db.payouts)| && old(db.payouts)[pid].status != Draft ==> r == Err(WrongStatus)
    ensures r.Err? ==> db.payouts == old(db.payouts)
    ensures pid < |old(db.payouts)| && old(db.payouts)[pid].status == Draft ==>
              && r.Ok?
              && Apply(old(db.View()), PayoutCorrected(pid, baseSalary, commission, total)) == Some(db.View())
              && db.payouts == old(db.payouts)[pid := Corrected(old(db.payouts)[pid], baseSalary, commission, total)]
  {
    if pid >= |db.payouts| {
      return Err(PayoutNotFound);
    }
    var p := db.payouts[pid];
    if p.status != Draft {
      return Err(WrongStatus);
    }
    db.payouts := db.payouts[pid := Corrected(p, baseSalary, commission, total)];
    return Ok(());
  }

  method Approve(db: Database, pid: nat, now: Time) returns (r: Result<(), PayoutError>)
    modifies db`payouts
    ensures pid >= |old(db.payouts)| ==> r == Err(PayoutNotFound)
    ensures pid < |old(db.payouts)| && old(db.payouts)[pid].status != Draft ==> r == Err(WrongStatus)
    ensures r.Err? ==> db.payouts == old(db.payouts)
    ensures pid < |old(db.payouts)| && old(db.payouts)[pid].status == Draft ==>
              && r.Ok? && |db.payouts| == |old(db.payouts)|
              && Apply(old(db.View()), PayoutApproved(pid, now)) == Some(db.View())
              && db.payouts == old(db.payouts)[pid := db.payouts[pid]]
              && db.payouts[pid] == old(db.payouts)[pid].(status := Approved, approvedAt := Some(now))
  {
    if pid >= |db.payouts| {
      return Err(PayoutNotFound);
    }
    if db.payouts[pid].status != Draft {
      return Err(WrongStatus);
    }
    db.payouts := db.payouts[pid := db.payouts[pid].(status := Approved, approvedAt := Some(now))];
    return Ok(());
  }

  method MarkPaid(db: Database, pid: nat) returns (r: Result<(), PayoutError>)
    modifies db`payouts
    ensures pid >= |old(db.payouts)| ==> r == Err(PayoutNotFound)
    ensures pid < |old(db.payouts)| && old(db.payouts)[pid].status != Approved ==> r == Err(WrongStatus)
    ensures r.Err? ==> db.payouts == old(db.payouts)
    ensures pid < |old(db.payouts)| && old(db.payouts)[pid].status == Approved ==>
              && r.Ok? && Apply(old(db.View()), PayoutMarkedPaid(pid)) == Some(db.View())
              && db.payouts == old(db.payouts)[pid := old(db.payouts)[pid].(status := PaidOut)]
  {
    if pid >= |db.payouts| {
      return Err(PayoutNotFound);
    }
    if db.payouts[pid].status != Approved {
      return Err(WrongStatus);
    }
    db.payouts := db.payouts[pid := db.payouts[pid].(status := PaidOut)];
    return Ok(());
  }
}
