/** The loan view set of apps/loans/views.py: permissions, listing, retrieval and approval. */
module LoanViews {
  import opened Wrappers
  import opened Choices
  import opened Models
  import opened Serializers
  import opened Amortization

  // ---------------------------------------------------------------------------
  // Permissions

  /** The actions the view set serves (GET, PATCH and POST only). */
  datatype Action = List | Create | Retrieve | PartialUpdate | ApproveLoan | LoanPayment

  datatype Permission = IsAuthenticated | IsAdminUser

  /** The caller of a request: anonymous, or an authenticated user. */
  datatype Requester = Anonymous | Authenticated(user: User)

  /** Approval and partial update are admin-only; every other action needs authentication. */
  function PermissionFor(action: Action): Permission {
    if action == PartialUpdate || action == Action.ApproveLoan then IsAdminUser else IsAuthenticated
  }

  /** Whether the permission class of the action lets the requester through. */
  function HasPermission(requester: Requester, action: Action): (ok: bool)
    ensures ok ==> requester.Authenticated?
  {
    match PermissionFor(action)
    case IsAuthenticated => requester.Authenticated?
    case IsAdminUser => requester.Authenticated? && requester.user.isStaff
  }

  /**
   * Staff users may do everything; any other authenticated user everything
   * except approve and partially update; anonymous callers nothing.
   */
  lemma PermissionMatrix(requester: Requester, action: Action)
    ensures requester.Anonymous? ==> !HasPermission(requester, action)
    ensures requester.Authenticated? && requester.user.isStaff ==> HasPermission(requester, action)
    ensures requester.Authenticated? && !requester.user.isStaff ==>
      (HasPermission(requester, action) <==> action !in {PartialUpdate, Action.ApproveLoan})
  {
  }

  // ---------------------------------------------------------------------------
  // List and retrieve

  /** The loans of `loans` owned by `owner`, in order. */
  function OwnedBy(loans: seq<Loan>, owner: UserId): (r: seq<Loan>)
    ensures multiset(r) <= multiset(loans)
    ensures forall i :: 0 <= i < |r| ==> r[i].user == owner
    ensures forall i :: 0 <= i < |loans| && loans[i].user == owner ==> loans[i] in r
  {
    if loans == [] then []
    else
      var rest := OwnedBy(loans[1..], owner);
      assert loans == [loans[0]] + loans[1..];
      if loans[0].user == owner then [loans[0]] + rest else rest
  }

  /** Listing: with `all` every loan, otherwise only the caller's own. */
  function ListLoans(loans: seq<Loan>, caller: User, all: bool): (r: seq<Loan>)
    ensures all ==> r == loans
    ensures !all ==> multiset(r) <= multiset(loans) && forall i :: 0 <= i < |r| ==> r[i].user == caller.id
    ensures !all ==> forall i :: 0 <= i < |loans| && loans[i].user == caller.id ==> loans[i] in r
  {
    if all then loans else OwnedBy(loans, caller.id)
  }

  /** Listing restricted so that `all` only widens the result for staff. */
  function ListLoansStaffOnly(loans: seq<Loan>, caller: User, all: bool): (r: seq<Loan>)
    ensures all && caller.isStaff ==> r == loans
    ensures !(all && caller.isStaff) ==> multiset(r) <= multiset(loans)
    ensures !(all && caller.isStaff) ==> forall i :: 0 <= i < |r| ==> r[i].user == caller.id
    ensures !(all && caller.isStaff) ==> forall i :: 0 <= i < |loans| && loans[i].user == caller.id ==> loans[i] in r
  {
    if all && caller.isStaff then loans else OwnedBy(loans, caller.id)
  }

  /** As written, a non-staff caller asking for all loans sees a loan owned by someone else. */
  lemma ListAllShowsOthersLoans(other: Loan, caller: User)
    requires !caller.isStaff && other.user != caller.id
    ensures other in ListLoans([other], caller, true)
    ensures other !in ListLoansStaffOnly([other], caller, true)
  {
  }

  /** With the staff restriction, a non-staff caller sees only their own loans whatever `all` says. */
  lemma StaffOnlyListIsPrivate(loans: seq<Loan>, caller: User, all: bool)
    requires !caller.isStaff
    ensures forall i :: 0 <= i < |ListLoansStaffOnly(loans, caller, all)| ==>
      ListLoansStaffOnly(loans, caller, all)[i].user == caller.id
    ensures ListLoansStaffOnly(loans, caller, all) == ListLoans(loans, caller, false)
  {
  }

  datatype AccessError = PermissionDenied

  /** Retrieval: the owner or a staff user gets the loan; anyone else is denied. */
  function RetrieveLoan(loan: Loan, caller: User): (r: Result<Loan, AccessError>)
    ensures r.Success? ==> r.value == loan
    ensures r.Failure? <==> loan.user != caller.id && !caller.isStaff
  {
    if loan.user != caller.id && !caller.isStaff then Failure(PermissionDenied) else Success(loan)
  }

  /** Every loan a listing shows is one the same caller may retrieve. */
  lemma ListedLoansAreRetrievable(loans: seq<Loan>, caller: User, all: bool)
    ensures forall i :: 0 <= i < |ListLoansStaffOnly(loans, caller, all)| ==>
      RetrieveLoan(ListLoansStaffOnly(loans, caller, all)[i], caller).Success?
    ensures !all ==> forall i :: 0 <= i < |ListLoans(loans, caller, all)| ==>
      RetrieveLoan(ListLoans(loans, caller, all)[i], caller).Success?
  {
  }

  // ---------------------------------------------------------------------------
  // Approval

  datatype ApproveError =
    | AlreadyApproved              // the loan was approved before
    | InvalidChoice(value: string) // the requested state is not a state
    | ZeroDivision                 // a term of zero weeks cannot be split
    | Integrity(cause: string)     // the store refused the writes

  /**
   * The `error` field of the bad-request response the view itself builds.
   * An invalid choice and a division by zero are raised past the view and
   * carry no such field.
   */
  function ErrorMessage(e: ApproveError): (m: Option<string>)
    ensures m.Some? <==> e.AlreadyApproved? || e.Integrity?
    ensures e == AlreadyApproved ==> m == Some("Loan is already approved")
    ensures e.Integrity? ==> m == Some(e.cause)
  {
    match e
    case AlreadyApproved =>
      assert "Loan is already " + Approved.Value() == "Loan is already approved";
      Some("Loan is already " + Approved.Value())
    case Integrity(cause) => Some(cause)
    case _ => None
  }

  /** Writes the saved loan row and term rows back: the rollback of the transaction. */
  method RollBack(loan: Loan, table: LoanTermTable, saved: LoanFields, rows: seq<LoanTerm>)
    modifies loan, table
    ensures loan.Fields() == saved && table.rows == rows
  {
    loan.amount, loan.term, loan.state := saved.amount, saved.term, saved.state;
    loan.approvedBy, loan.approvedDate := saved.approvedBy, saved.approvedDate;
    table.rows := rows;
  }

  /**
   * Approval by an administrator. A loan already approved is refused. Otherwise,
   * in one transaction, the requested state is written and, when it is
   * "approved", the approver and approval time are recorded and one term per
   * week is inserted. `fault` is the integrity error the store raises, if any;
   * on any failure the loan and the term table are left as they were.
   */
  method ApproveLoan(loan: Loan, table: LoanTermTable, caller: User, requestedState: Option<string>,
                     now: Instant, fault: Option<string>) returns (r: Outcome<ApproveError>)
    modifies loan, table
    // the guard
    ensures r == Fail(AlreadyApproved) <==> old(loan.state) == Approved
    ensures old(loan.state) == Pending && requestedState.Some? && ParseLoanState(requestedState.value).None? ==>
      r == Fail(InvalidChoice(requestedState.value))
    ensures r == Fail(ZeroDivision) <==>
      old(loan.state) == Pending && requestedState == Some("approved") && old(loan.term) == 0
    ensures r.Fail? && r.error.Integrity? ==> fault == Some(r.error.cause)
    ensures (old(loan.state) == Pending && fault.Some? &&
             (requestedState.Some? ==> ParseLoanState(requestedState.value).Some?) &&
             !(requestedState == Some("approved") && old(loan.term) == 0)) ==>
      r == Fail(Integrity(fault.value))
    ensures r.Pass? <==>
      old(loan.state) == Pending && fault.None? &&
      (requestedState.Some? ==> ParseLoanState(requestedState.value).Some?) &&
      !(requestedState == Some("approved") && old(loan.term) == 0)
    // all or nothing
    ensures r.Fail? ==> loan.Fields() == old(loan.Fields()) && table.rows == old(table.rows)
    // a request that does not approve changes nothing
    ensures r.Pass? && requestedState != Some("approved") ==>
      loan.Fields() == old(loan.Fields()) && table.rows == old(table.rows)
    // an approval
    ensures r.Pass? && requestedState == Some("approved") ==>
      loan.state == Approved && loan.approvedBy == Some(caller.id) && loan.approvedDate == Some(now) &&
      loan.amount == old(loan.amount) && loan.term == old(loan.term) &&
      table.rows == old(table.rows) + Schedule(loan.id, loan.amount, loan.term, now) &&
      table.TermsOf(loan.id) == old(table.TermsOf(loan.id)) + Schedule(loan.id, loan.amount, loan.term, now)
    // no way back from approved, and the approval fields follow the state
    ensures old(loan.state) == Approved ==> loan.state == Approved
    ensures old(loan.ApprovalRecorded()) ==> loan.ApprovalRecorded()
  {
    if loan.state == Approved {
      return Fail(AlreadyApproved);
    }
    // the requested state must be one of the choices
    var parsed: Option<LoanState> := None;
    if requestedState.Some? {
      parsed := ParseLoanState(requestedState.value);
      if parsed.None? {
        return Fail(InvalidChoice(requestedState.value));
      }
    }
    // the transaction begins: remember what a rollback restores
    var saved, savedRows := loan.Fields(), table.rows;
    if parsed.Some? {
      loan.state := parsed.value;
    }
    if requestedState == Some(Approved.Value()) {
      loan.approvedDate := Some(now);
      loan.approvedBy := Some(caller.id);
      if loan.term == 0 {
        RollBack(loan, table, saved, savedRows);
        return Fail(ZeroDivision);
      }
      var terms := BuildLoanTerms(loan.id, loan.amount, loan.term, now);
      ScheduleShape(loan.id, loan.amount, loan.term, now);
      OfLoanAppend(table.rows, terms, loan.id);
      OfLoanAll(terms, loan.id);
      table.BulkCreate(terms);
    }
    if fault.Some? {
      RollBack(loan, table, saved, savedRows);
      return Fail(Integrity(fault.value));
    }
    r := Pass;
  }

  /**
   * A successful approval of a loan that passed the serializer leaves exactly
   * `term` new rows for that loan, pending, weekly, summing to the principal.
   */
  lemma ApprovalCreatesFullSchedule(loan: LoanId, amount: Cents, term: int, now: Instant,
                                    before: seq<LoanTerm>, after: seq<LoanTerm>)
    requires ValidAmount(amount) && ValidTerm(term)
    requires after == before + Schedule(loan, amount, term, now)
    ensures |OfLoan(after, loan)| == |OfLoan(before, loan)| + term
    ensures OfLoan(after, loan) == OfLoan(before, loan) + Schedule(loan, amount, term, now)
    ensures Total(Schedule(loan, amount, term, now)) == amount
    ensures forall t :: t in Schedule(loan, amount, term, now) ==> t.amount > 0 && t.status == TermPending
  {
    var s := Schedule(loan, amount, term, now);
    ScheduleShape(loan, amount, term, now);
    OfLoanAppend(before, s, loan);
    OfLoanAll(s, loan);
    ScheduleTotal(loan, amount, term, now);
    SchedulePositive(loan, amount, term, now);
  }
}
