/** The two enumerations of apps/loans/choices.py, with the strings they are stored as. */
module Choices {
  import opened Wrappers

  /** State of a loan: exactly one of pending or approved. */
  datatype LoanState = Pending | Approved {
    /** The stored value of the choice. */
    function Value(): string {
      match this
      case Pending => "pending"
      case Approved => "approved"
    }
  }

  /** Status of one loan term: exactly one of pending or paid. */
  datatype LoanTermStatus = TermPending | Paid {
    function Value(): string {
      match this
      case TermPending => "pending"
      case Paid => "paid"
    }
  }

  /** The choice validation a serializer applies to an incoming `state` string. */
  function ParseLoanState(s: string): (r: Option<LoanState>)
    ensures r.Some? ==> r.value.Value() == s
    ensures r.None? <==> s != "pending" && s != "approved"
  {
    if s == Pending.Value() then Some(Pending)
    else if s == Approved.Value() then Some(Approved)
    else None
  }

  /** Every state is recognised from its own stored value, and the two values differ. */
  lemma LoanStateRoundTrip(st: LoanState)
    ensures ParseLoanState(st.Value()) == Some(st)
    ensures st.Value() == "approved" <==> st == Approved
  {
  }

}
