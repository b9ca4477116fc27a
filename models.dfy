/** The Loan and LoanTerm records of apps/loans/models.py. */
module Models {
  import opened Wrappers
  import opened Choices

  /** Opaque identities (UUIDs in the store, user primary keys). */
  type LoanId = int
  type UserId = int

  /** Money in whole cents. */
  type Cents = int

  /** A point in time, in seconds. */
  type Instant = int

  const CENTS_PER_DOLLAR: int := 100
  const SECONDS_PER_DAY: int := 24 * 60 * 60

  /** An authenticated caller as the views see it. */
  datatype User = User(id: UserId, isStaff: bool)

  /**
   * A loan row. The owner and the identity never change; the approval
   * fields are nullable and stay unset until approval assigns them.
   * `amount` and `term` carry no bounds at this level.
   */
  class Loan {
    const id: LoanId
    const user: UserId
    var amount: Cents
    var term: int
    var state: LoanState
    var approvedBy: Option<UserId>
    var approvedDate: Option<Instant>

    /** A new row takes the field defaults: pending, not approved by anyone. */
    constructor (id: LoanId, user: UserId, amount: Cents, term: int)
      ensures this.id == id && this.user == user
      ensures this.amount == amount && this.term == term
      ensures state == Pending && approvedBy == None && approvedDate == None
      ensures ApprovalRecorded()
    {
      this.id := id;
      this.user := user;
      this.amount := amount;
      this.term := term;
      state := Pending;
      approvedBy := None;
      approvedDate := None;
    }

    /** The stored values of the row's mutable columns. */
    function Fields(): LoanFields
      reads this
    {
      LoanFields(amount, term, state, approvedBy, approvedDate)
    }

    /** The approver and the approval time are set exactly when the loan is approved. */
    predicate ApprovalRecorded()
      reads this
    {
      (state == Approved) == approvedBy.Some? && approvedBy.Some? == approvedDate.Some?
    }
  }

  /** The mutable columns of a loan row, as a value. */
  datatype LoanFields = LoanFields(
    amount: Cents,
    term: int,
    state: LoanState,
    approvedBy: Option<UserId>,
    approvedDate: Option<Instant>)

  /**
   * One installment. It refers to exactly one loan; the due date and the
   * payment date are optional.
   */
  datatype LoanTerm = LoanTerm(
    loan: LoanId,
    amount: Cents,
    dueDate: Option<Instant>,
    status: LoanTermStatus,
    paymentDate: Option<Instant>)

  /** A term as constructed from loan, amount and due date: the other fields take their defaults. */
  function NewLoanTerm(loan: LoanId, amount: Cents, dueDate: Option<Instant>): (t: LoanTerm)
    ensures t.loan == loan && t.amount == amount && t.dueDate == dueDate
    ensures t.status == TermPending && t.paymentDate == None
  {
    LoanTerm(loan, amount, dueDate, TermPending, None)
  }

  /** The loan-term table of the store. */
  class LoanTermTable {
    var rows: seq<LoanTerm>

    constructor ()
      ensures rows == []
    {
      rows := [];
    }

    /** The rows that belong to one loan, in table order. */
    function TermsOf(id: LoanId): (ts: seq<LoanTerm>)
      reads this
    {
      OfLoan(rows, id)
    }

    /** Inserts a batch of rows in one statement. */
    method BulkCreate(batch: seq<LoanTerm>)
      modifies this
      ensures rows == old(rows) + batch
    {
      rows := rows + batch;
    }
  }

  /** The terms of `ts` that refer to loan `id`, in order. */
  function OfLoan(ts: seq<LoanTerm>, id: LoanId): (r: seq<LoanTerm>)
    ensures |r| <= |ts|
    ensures forall t :: t in r <==> t in ts && t.loan == id
  {
    if ts == [] then []
    else (if ts[0].loan == id then [ts[0]] else []) + OfLoan(ts[1..], id)
  }

  /** Appending rows of one loan to the table adds exactly those rows to that loan's terms. */
  lemma {:induction false} OfLoanAppend(ts: seq<LoanTerm>, batch: seq<LoanTerm>, id: LoanId)
    ensures OfLoan(ts + batch, id) == OfLoan(ts, id) + OfLoan(batch, id)
  {
    if ts == [] {
      assert ts + batch == batch;
    } else {
      assert (ts + batch)[1..] == ts[1..] + batch;
      OfLoanAppend(ts[1..], batch, id);
    }
  }

  /** A batch whose every row refers to loan `id` is kept whole by the filter. */
  lemma {:induction false} OfLoanAll(batch: seq<LoanTerm>, id: LoanId)
    requires forall k :: 0 <= k < |batch| ==> batch[k].loan == id
    ensures OfLoan(batch, id) == batch
  {
    if batch != [] {
      OfLoanAll(batch[1..], id);
    }
  }
}
