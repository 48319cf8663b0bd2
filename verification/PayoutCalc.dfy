/** What one manager is owed for a period, computed from the deal table as it is now. */
module PayoutCalc {
  import opened Wrappers
  import opened DealStatus
  import opened Ledger

  /** A payout row together with the deals it claims. */
  type Entry = e: Event | e.PayoutGenerated?
    witness PayoutGenerated(Payout("", 0, 0, 0, 0, 0, Draft, None), {})

  datatype Manager = Manager(id: Id, baseSalary: int)

  predicate Eligible(d: Deal, manager: Id, start: Time, end: Time) {
    d.manager == manager && d.status in COMMISSIONABLE && start <= d.createdAt <= end && d.payout == None
  }

  function EligibleIds(deals: seq<Deal>, manager: Id, start: Time, end: Time): set<nat> {
    set i: nat | i < |deals| && Eligible(deals[i], manager, start, end)
  }

  /** The payout row and the deals it will claim. */
  function Calculate(deals: seq<Deal>, m: Manager, start: Time, end: Time): Entry {
    var ids := EligibleIds(deals, m.id, start, end);
    var commission := SelectedCommission(deals, ids);
    PayoutGenerated(Payout(m.id, start, end, m.baseSalary, commission, m.baseSalary + commission, Draft, None), ids)
  }

  lemma CalculationIsValid(db: Db, m: Manager, start: Time, end: Time)
    ensures Valid(db, Calculate(db.deals, m, start, end))
  {
  }

  lemma {:induction false} SelectedCommissionStable(deals: seq<Deal>, later: seq<Deal>, ids: set<nat>)
    requires |deals| <= |later| && forall i | i in ids :: i < |deals|
    requires forall i | 0 <= i < |deals| :: later[i].amounts == deals[i].amounts
    ensures SelectedCommission(later, ids) == SelectedCommission(deals, ids)
  {
    if later != [] {
      var n := |later| - 1;
      if |deals| == |later| {
        SelectedCommissionStable(deals[..n], later[..n], ids - {n});
        SelectedIgnores(deals[..n], ids, n);
        SelectedIgnores(later[..n], ids, n);
      } else {
        SelectedCommissionStable(deals, later[..n], ids);
      }
    }
  }

  lemma {:induction false} SelectedIgnores(deals: seq<Deal>, ids: set<nat>, n: nat)
    requires n >= |deals|
    ensures SelectedCommission(deals, ids - {n}) == SelectedCommission(deals, ids)
  {
    if deals != [] {
      SelectedIgnores(deals[..|deals| - 1], ids, n);
    }
  }

  /** A calculated payout stays writable while other transactions commit, as long as none of them
      claims its deals. */
  lemma CalcStaysValid(db: Db, e: Event, entry: Entry)
    requires Apply(db, e).Some? && Valid(db, entry)
    requires e.PayoutGenerated? ==> e.row.manager != entry.row.manager
    ensures Valid(Apply(db, e).value, entry)
  {
    var after := Apply(db, e).value;
    SelectedCommissionStable(db.deals, after.deals, entry.ids);
  }

  /** A valid entry is written whole: the row is added and exactly its deals are claimed. */
  lemma EntryApplies(db: Db, entry: Entry)
    requires Valid(db, entry)
    ensures Apply(db, entry) ==
            Some(Db(db.stock, LinkDeals(db.deals, entry.ids, |db.payouts|), db.payouts + [entry.row]))
  {
  }
}
