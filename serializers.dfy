/** Input validation and loan creation of apps/loans/serializers.py. */
module Serializers {
  import opened Wrappers
  import opened Choices
  import opened Models

  /** Term bounds, in weeks. */
  const TERM_MIN: int := 1
  const TERM_MAX: int := 52

  /** Amount bounds, in dollars. */
  const AMOUNT_MIN: int := 1000
  const AMOUNT_MAX: int := 1000000

  datatype Field = AmountField | TermField

  /** Which bound a rejected value violated, quoting the bound. */
  datatype Violation = BelowMinimum(min: int) | AboveMaximum(max: int)

  datatype FieldError = FieldError(field: Field, violation: Violation)

  /** The accepted amounts: both bounds inclusive. */
  predicate ValidAmount(amount: Cents) {
    AMOUNT_MIN * CENTS_PER_DOLLAR <= amount <= AMOUNT_MAX * CENTS_PER_DOLLAR
  }

  /** The accepted terms: both bounds inclusive. */
  predicate ValidTerm(term: int) {
    TERM_MIN <= term <= TERM_MAX
  }

  /** Returns the amount unchanged, or the bound it violates. */
  function ValidateAmount(amount: Cents): (r: Result<Cents, FieldError>)
    ensures r.Success? <==> ValidAmount(amount)
    ensures r.Success? ==> r.value == amount
    ensures r.Failure? ==> r.error.field == AmountField
    ensures amount < AMOUNT_MIN * CENTS_PER_DOLLAR ==> r == Failure(FieldError(AmountField, BelowMinimum(AMOUNT_MIN)))
    ensures amount > AMOUNT_MAX * CENTS_PER_DOLLAR ==> r == Failure(FieldError(AmountField, AboveMaximum(AMOUNT_MAX)))
  {
    if amount < AMOUNT_MIN * CENTS_PER_DOLLAR then Failure(FieldError(AmountField, BelowMinimum(AMOUNT_MIN)))
    else if amount > AMOUNT_MAX * CENTS_PER_DOLLAR then Failure(FieldError(AmountField, AboveMaximum(AMOUNT_MAX)))
    else Success(amount)
  }

  /** Returns the term unchanged, or the bound it violates. */
  function ValidateTerm(term: int): (r: Result<int, FieldError>)
    ensures r.Success? <==> ValidTerm(term)
    ensures r.Success? ==> r.value == term
    ensures r.Failure? ==> r.error.field == TermField
    ensures term < TERM_MIN ==> r == Failure(FieldError(TermField, BelowMinimum(TERM_MIN)))
    ensures term > TERM_MAX ==> r == Failure(FieldError(TermField, AboveMaximum(TERM_MAX)))
  {
    if term < TERM_MIN then Failure(FieldError(TermField, BelowMinimum(TERM_MIN)))
    else if term > TERM_MAX then Failure(FieldError(TermField, AboveMaximum(TERM_MAX)))
    else Success(term)
  }

  /** The error of a field validator, as a list of zero or one entries. */
  function ErrorsOf<T>(r: Result<T, FieldError>): (es: seq<FieldError>)
    ensures |es| == if r.Failure? then 1 else 0
  {
    if r.Failure? then [r.error] else []
  }

  /**
   * Runs both field validators independently and collects every field error:
   * an input bad in both fields reports both.
   */
  function ValidateLoanInput(amount: Cents, term: int): (r: Result<(Cents, int), seq<FieldError>>)
    ensures r.Success? <==> ValidAmount(amount) && ValidTerm(term)
    ensures r.Success? ==> r.value == (amount, term)
    ensures r.Failure? ==> 1 <= |r.error| <= 2
    ensures r.Failure? ==> ((exists e :: e in r.error && e.field == AmountField) <==> !ValidAmount(amount))
    ensures r.Failure? ==> ((exists e :: e in r.error && e.field == TermField) <==> !ValidTerm(term))
  {
    var a := ValidateAmount(amount);
    var t := ValidateTerm(term);
    if a.Success? && t.Success? then Success((a.value, t.value))
    else Failure(ErrorsOf(a) + ErrorsOf(t))
  }

  /**
   * The create request body. Only `amount` and `term` are writable; the other
   * fields are read-only and whatever the client sends in them is ignored.
   */
  datatype CreateInput = CreateInput(
    amount: Cents,
    term: int,
    state: Option<string>,
    approvedDate: Option<Instant>,
    user: Option<UserId>,
    approvedBy: Option<UserId>)

  /**
   * Validates the request and creates a loan owned by the requesting user.
   * The new loan's identity is supplied by the caller.
   */
  method CreateLoan(id: LoanId, caller: User, input: CreateInput) returns (r: Result<Loan, seq<FieldError>>)
    ensures r.Failure? <==> ValidateLoanInput(input.amount, input.term).Failure?
    ensures r.Failure? ==> r.error == ValidateLoanInput(input.amount, input.term).error
    ensures r.Success? ==> fresh(r.value) && r.value.id == id && r.value.user == caller.id
    ensures r.Success? ==> r.value.amount == input.amount && r.value.term == input.term
    ensures r.Success? ==> r.value.state == Pending && r.value.approvedBy == None && r.value.approvedDate == None
    ensures r.Success? ==> ValidAmount(r.value.amount) && ValidTerm(r.value.term) && r.value.ApprovalRecorded()
  {
    var validated := ValidateLoanInput(input.amount, input.term);
    if validated.Failure? {
      return Failure(validated.error);
    }
    var loan := new Loan(id, caller.id, validated.value.0, validated.value.1);
    return Success(loan);
  }
}
