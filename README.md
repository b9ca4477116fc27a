# Loan approval and amortisation — a Dafny model

This project models the core of the `loans` app of a Django loan service: how a loan is
created, filtered and retrieved, and how an administrator approves it.

- A user creates a loan with an amount and a term in weeks. The serializer checks both
  against inclusive bounds: 1000–1000000 dollars and 1–52 weeks. The new loan is owned by
  the requesting user and starts in state `pending`.
- An administrator approves a pending loan. In one transaction the view records the approver
  and the approval time. It then splits the principal into `term` weekly loan terms. Each term
  gets `round(amount / term, 2)`, and the last one also absorbs the rounding drift, so in
  whole cents the terms add up to the principal exactly.
- Listing shows the caller's own loans unless `all` is given. Retrieval refuses a caller who
  is neither the owner nor staff.

Modules: `Choices` (apps/loans/choices.py), `Models` (apps/loans/models.py), `Serializers`
(apps/loans/serializers.py), `Amortization` and `LoanViews` (apps/loans/views.py), and
`Wrappers` (Option/Result/Outcome).

Representation choices:

- Money is whole cents (`Cents = int`). The serializer's dollar bounds are compared as
  `bound * 100`.
- `round(x, 2)` is round-half-to-even of the exact rational, as Python's `round` does on
  exact values. `round(amount - base * term, 2)` is then exact in cents, so the sum property
  holds exactly.
- Time is whole seconds (`Instant = int`). Seven days is 604800 seconds.
- `Loan` is a class, because approval updates the instance in place. `LoanTerm` is a datatype,
  because the core only creates terms. The loan-term table is a class holding a
  `seq<LoanTerm>`, and `bulk_create` appends to it.
- The clock (`timezone.now()`) is the parameter `now`. An integrity error raised by the
  database is the parameter `fault`. Loan identities are supplied by the caller.

Behaviour of the code the model keeps:

- There is no `paid` loan state, no closing date and no repayment: `loan_payment` is empty,
  although apps/loans/tests.py:191-283 expects repayment to work.
- The approval guard refuses only loans that are already `approved`.
- A term of zero weeks makes approval fail with a division by zero; the transaction is
  rolled back.
- A negative term yields an approved loan with no terms, because `range` of a negative
  number is empty.

## Model

| member | source | states |
|---|---|---|
| Choices.ParseLoanState | apps/loans/choices.py:4-6 | a requested state string is accepted exactly when it is "pending" or "approved", and maps back to the state stored under that string |
| Choices.LoanStateRoundTrip | apps/loans/choices.py:4-6 | every loan state is recognised from its own stored value; the value "approved" belongs to `Approved` alone |
| Models.Loan.constructor | apps/loans/models.py:12-20 | a new loan keeps the given owner, amount and term, is `pending`, and has no approver and no approval date |
| Models.NewLoanTerm | apps/loans/models.py:30-37 | a new loan term refers to its one loan, has the given amount and optional due date, is `pending` and has no payment date |
| Models.LoanTermTable.BulkCreate | apps/loans/views.py:133 | the batch is appended to the table after the existing rows |
| Models.OfLoan | apps/loans/models.py:31 | the terms of a loan are exactly the rows whose foreign key is that loan |
| Models.OfLoanAppend | apps/loans/views.py:133 | appending a batch adds the batch's rows for a loan after that loan's existing terms |
| Models.OfLoanAll | apps/loans/models.py:31 | a batch whose every row refers to one loan is, as a whole, that loan's terms |
| Serializers.ValidateAmount | apps/loans/serializers.py:67-76 | the amount is returned unchanged exactly when it lies in [1000, 1000000] dollars, both ends included; below the minimum it is rejected with an amount error naming the minimum, above the maximum with one naming the maximum |
| Serializers.ValidateTerm | apps/loans/serializers.py:78-87 | the term is returned unchanged exactly when it lies in [1, 52], both ends included; below or above, it is rejected with a term error naming the violated bound |
| Serializers.ValidateLoanInput | apps/loans/serializers.py:67-87 | the input is accepted exactly when both fields are in range; otherwise there is an amount error if and only if the amount is out of range, and a term error if and only if the term is out of range, so an input bad in both fields reports both |
| Serializers.CreateLoan | apps/loans/serializers.py:44-65 | creation fails with exactly the validation errors, or yields a fresh loan owned by the caller, with the given amount and term, `pending` and unapproved; read-only fields in the input are ignored |
| Amortization.RoundHalfEven | apps/loans/views.py:111 | the result is the integer nearest to n/d; a tie goes to the even neighbour |
| Amortization.BaseInstallment | apps/loans/views.py:111 | the base installment times the term is within half a term of cents of the principal |
| Amortization.FinalDifference | apps/loans/views.py:112 | the rounding drift is at most half a cent per term |
| Amortization.BuildLoanTerms | apps/loans/views.py:107-131 | the loop builds exactly the schedule: one term per week of the term, with the base amount, the drift added on the last pass, and the due date advanced seven days per pass |
| Amortization.ScheduleShape | apps/loans/views.py:116-131 | an approval creates `term` terms (none for a negative term); all belong to the loan, are `pending` and unpaid |
| Amortization.ScheduleAmounts | apps/loans/views.py:111-119 | every term but the last has the base amount; the last has base plus `amount - base*term`, which differs from the base by at most half a cent per term |
| Amortization.PrefixTotal | apps/loans/views.py:116-119 | the first j terms, for j below the term, sum to j times the base |
| Amortization.ScheduleTotal | apps/loans/views.py:111-119 | the term amounts sum exactly to the principal |
| Amortization.ScheduleWeekly | apps/loans/views.py:115-122 | term k (1-based) is due k weeks after approval; consecutive due dates are exactly seven days apart and strictly increasing |
| Amortization.BaseLowerBound | apps/loans/views.py:111 | for a validated amount and term the base installment is at least ten dollars |
| Amortization.SchedulePositive | apps/loans/views.py:111-119 | for a validated amount and term every term amount, the last included, is positive |
| Amortization.ScheduleExample | apps/loans/tests.py:224-261 | 10000.00 over three weeks gives 3333.33, 3333.33 and 3333.34 |
| LoanViews.HasPermission | apps/loans/views.py:26-31 | only an authenticated requester ever passes a permission check |
| LoanViews.PermissionMatrix | apps/loans/views.py:26-31 | anonymous requesters get nothing; staff users get every action; other users get every action except `approve_loan` and `partial_update` |
| LoanViews.OwnedBy | apps/loans/views.py:46-47 | the filter keeps each of the owner's loans and nothing else, drawn from the input |
| LoanViews.ListLoans | apps/loans/views.py:44-47 | with `all` the listing is every loan; without it, exactly the caller's loans |
| LoanViews.ListLoansStaffOnly | apps/loans/views.py:44-47 | corrected listing: every loan only for a staff caller who asks for all, otherwise exactly the caller's loans |
| LoanViews.ListAllShowsOthersLoans | apps/loans/views.py:44-47 | as written, a non-staff caller asking for all loans is shown another user's loan; the corrected listing does not show it |
| LoanViews.StaffOnlyListIsPrivate | apps/loans/views.py:44-47 | with the correction, a non-staff caller sees only their own loans, with or without `all` |
| LoanViews.RetrieveLoan | apps/loans/views.py:65-73 | retrieval returns the loan itself, and is denied exactly when the caller is neither the owner nor staff |
| LoanViews.ListedLoansAreRetrievable | apps/loans/views.py:44-70 | every loan a caller is listed, without `all` or under the corrected listing, is one the same caller may retrieve |
| LoanViews.ErrorMessage | apps/loans/views.py:87-140 | the view writes an `error` field only for the already-approved refusal, reading "Loan is already approved", and for an integrity error, carrying its cause |
| LoanViews.RollBack | apps/loans/views.py:135-140 | the loan row and the term table are restored to the saved snapshot |
| LoanViews.ApproveLoan | apps/loans/views.py:81-140 | an approved loan, and only an approved loan, is refused with `AlreadyApproved`; an unknown requested state is refused; a term of zero fails; on an otherwise valid request a store fault fails with `Integrity` carrying its cause, and an `Integrity` error comes only from a fault; every failure leaves the loan and the term table unchanged; success happens exactly when none of these applies. A request that does not ask for "approved" changes nothing. An approval sets state, approver and approval time, keeps amount and term, and appends exactly the schedule to the term table, so the loan's own terms grow by exactly that schedule. The state never leaves `approved`, and the approver and approval time stay set exactly when the loan is approved |
| LoanViews.ApprovalCreatesFullSchedule | apps/loans/views.py:100-133 | after a successful approval of a validated loan, that loan's terms grow by exactly `term` rows, pending and positive, summing to the principal |

## Left out

- Repayment: `loan_payment` (apps/loans/views.py:142-149) has an empty body. There is no
  paid loan state, paid amount or closing date in the models. The repayment behaviour the
  test file expects has no code to model.
- Floating point: `FloatField` amounts and float `round` are modelled as exact integer cents
  with round-half-to-even. Sub-cent input amounts are not modelled.
- Transactions and concurrency: `transaction.atomic` is reduced to "the approval either fully
  succeeds or leaves the loan row and the term table as they were". Isolation between
  concurrent requests is not modelled.
- Request plumbing: routing, pagination, schema decorators, status codes and response
  serialisation (`LoanSerializer`, `get_loan_terms`) are left out. The type checks DRF applies
  to `amount` and `term` before the validators run are left out too.
- The framework's own `partial_update` and `perform_update` are not visible. ApproveLoan
  models only the `state` field of the request body. Other writable `LoanSerializer` fields
  sent to the approval endpoint are not modelled.
- `get_object()` lookup and its not-found response: the loan is passed in directly.
- Exact wording of validation messages: errors are modelled by field and violated bound.
- The accounts app (registration, token login, UUID and timestamp generation), the admin
  screens and migrations.
- LoanViews.ErrorMessage: an invalid choice and a division by zero are modelled as error
  kinds only; the framework's responses for them are not modelled.

## Findings

| source | as written | input that shows it | evidently intended | confidence | as-written member | corrected member |
|---|---|---|---|---|---|---|
| apps/loans/views.py:44-47 | with `all` set, every loan is listed, whatever the caller's staff status | a non-staff user requests `?all=True` while another user owns a loan; that loan is listed | only staff may widen the listing to all loans, as apps/loans/tests.py:173-180 expects | medium, not executed | LoanViews.ListAllShowsOthersLoans | LoanViews.StaffOnlyListIsPrivate |
