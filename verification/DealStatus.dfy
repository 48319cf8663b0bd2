/** The deal lifecycle: the transition table and the status sets built on it. */
module DealStatus {

  datatype Status = NEW | WAITING_PAYMENT | PAID | SHIPPED | COMPLETED | CANCELLED | REFUNDED

  function NextStatuses(s: Status): set<Status> {
    match s
    case NEW => {WAITING_PAYMENT, CANCELLED}
    case WAITING_PAYMENT => {PAID, CANCELLED}
    case PAID => {SHIPPED, REFUNDED}
    case SHIPPED => {COMPLETED, REFUNDED}
    case COMPLETED => {REFUNDED}
    case CANCELLED => {}
    case REFUNDED => {}
  }

  predicate Allowed(from: Status, to: Status) {
    to in NextStatuses(from)
  }

  const STOCK_RESTORING := {CANCELLED, REFUNDED}

  const TERMINAL := {COMPLETED, CANCELLED, REFUNDED}

  const COMMISSIONABLE := {PAID, SHIPPED, COMPLETED}

  /** The statuses a deal that was paid once can be in from then on. */
  const PAID_ONWARD := {PAID, SHIPPED, COMPLETED, REFUNDED}

  /** How many status changes are still possible at most. */
  function Rank(s: Status): nat {
    match s
    case NEW => 5
    case WAITING_PAYMENT => 4
    case PAID => 3
    case SHIPPED => 2
    case COMPLETED => 1
    case CANCELLED => 0
    case REFUNDED => 0
  }
}
