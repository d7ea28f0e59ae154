/** What the engine hands back: the Decision object, and the outcomes that are thrown instead. */
module Decisions {

  datatype Option<+T> = None | Some(value: T)

  /** The Decision object: approved amount, approved period and error message, each nullable. */
  datatype Decision = Decision(loanAmount: Option<int>, loanPeriod: Option<int>, errorMessage: Option<string>)

  /** Everything calculateApprovedLoan can end in. Rejected and Approved come back as a
      Decision; InvalidLoanerAge and NoValidLoan leave the method as exceptions. */
  datatype Outcome =
    | Rejected(message: string)
    | InvalidLoanerAge(message: string)
    | NoValidLoan
    | Approved(amount: int, period: int)
  {
    predicate IsReturned() {
      Rejected? || Approved?
    }
  }

  /** The Decision object a returned outcome is delivered as: either the loan terms or the
      message is filled in, never both and never neither. */
  function ToDecision(o: Outcome): (d: Decision)
    requires o.IsReturned()
    ensures d.loanAmount.Some? <==> d.loanPeriod.Some?
    ensures d.loanAmount.Some? <==> d.errorMessage.None?
    ensures o.Rejected? ==> d.errorMessage == Some(o.message)
    ensures o.Approved? ==> d.loanAmount == Some(o.amount) && d.loanPeriod == Some(o.period)
  {
    match o
    case Rejected(msg) => Decision(None, None, Some(msg))
    case Approved(a, p) => Decision(Some(a), Some(p), None)
  }
}
