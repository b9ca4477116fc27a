/**
 * The amortisation step of loan approval (apps/loans/views.py): the principal
 * is split into `term` weekly installments of a rounded base amount, the last
 * one absorbing the rounding remainder.
 */
module Amortization {
  import opened Wrappers
  import opened Choices
  import opened Models
  import opened Serializers

  /** Spacing between consecutive due dates: seven days. */
  const INSTALLMENT_INTERVAL: int := 7 * SECONDS_PER_DAY

  function Abs(x: int): nat {
    if x < 0 then -x else x
  }

  /**
   * The rational n/d rounded to the nearest integer, ties to the even
   * neighbour (the rule of Python's `round`, applied to the exact quotient).
   */
  function RoundHalfEven(n: int, d: int): (q: int)
    requires d != 0
    ensures 2 * Abs(q * d - n) <= Abs(d)
    ensures 2 * Abs(q * d - n) == Abs(d) ==> q % 2 == 0
  {
    if d < 0 then
      var q := RoundPositive(-n, -d);
      assert q * d - n == -(q * (-d) - (-n));
      q
    else
      RoundPositive(n, d)
  }

  /** RoundHalfEven for a positive divisor. */
  function RoundPositive(n: int, d: int): (q: int)
    requires d > 0
    ensures 2 * Abs(q * d - n) <= d
    ensures 2 * Abs(q * d - n) == d ==> q % 2 == 0
  {
    var q0, r := n / d, n % d;
    assert q0 * d - n == -r;
    assert (q0 + 1) * d - n == d - r;
    if 2 * r < d then q0
    else if 2 * r > d then q0 + 1
    else if q0 % 2 == 0 then q0
    else q0 + 1
  }

  /** `round(amount / term, 2)`: the installment amount in cents. */
  function BaseInstallment(amount: Cents, term: int): (base: Cents)
    requires term != 0
    ensures 2 * Abs(base * term - amount) <= Abs(term)
  {
    RoundHalfEven(amount, term)
  }

  /** `round(amount - base * term, 2)`: the rounding drift, exact in cents. */
  function FinalDifference(amount: Cents, term: int): (diff: Cents)
    requires term != 0
    ensures 2 * Abs(diff) <= Abs(term)
  {
    amount - BaseInstallment(amount, term) * term
  }

  /** Amount of installment k (0-based): the base, plus the drift on the last one. */
  function InstallmentAmount(amount: Cents, term: int, k: int): Cents
    requires term != 0
  {
    BaseInstallment(amount, term) + (if k == term - 1 then FinalDifference(amount, term) else 0)
  }

  /** Due date of installment k (0-based): k + 1 weeks after approval. */
  function DueDate(approvedDate: Instant, k: int): Instant {
    approvedDate + (k + 1) * INSTALLMENT_INTERVAL
  }

  /** Number of iterations of `range(term)`. */
  function Count(term: int): nat {
    if term > 0 then term else 0
  }

  /** The terms an approval at `approvedDate` creates for a loan. */
  function Schedule(loan: LoanId, amount: Cents, term: int, approvedDate: Instant): (s: seq<LoanTerm>)
    requires term != 0
  {
    seq(Count(term), k => NewLoanTerm(loan, InstallmentAmount(amount, term, k), Some(DueDate(approvedDate, k))))
  }

  /** Sum of the amounts of a sequence of terms. */
  function Total(ts: seq<LoanTerm>): int {
    if ts == [] then 0 else Total(ts[..|ts| - 1]) + ts[|ts| - 1].amount
  }

  /**
   * The loop that builds the list of terms for a bulk insert: the running
   * amount is the base, raised by the drift on the last pass, and the due
   * date advances one week per pass.
   */
  method BuildLoanTerms(loan: LoanId, amount: Cents, term: int, approvedDate: Instant)
    returns (terms: seq<LoanTerm>)
    requires term != 0
    ensures terms == Schedule(loan, amount, term, approvedDate)
  {
    var termAmount := BaseInstallment(amount, term);
    var finalDiff := FinalDifference(amount, term);
    terms := [];
    var dueDate := approvedDate;
    var k := 0;
    while k < term
      invariant 0 <= k <= Count(term)
      invariant dueDate == approvedDate + k * INSTALLMENT_INTERVAL
      invariant k < term ==> termAmount == BaseInstallment(amount, term)
      invariant terms == Schedule(loan, amount, term, approvedDate)[..k]
    {
      if k == term - 1 {
        termAmount := termAmount + finalDiff;
      }
      dueDate := dueDate + INSTALLMENT_INTERVAL;
      terms := terms + [NewLoanTerm(loan, termAmount, Some(dueDate))];
      k := k + 1;
    }
  }

  /** Every created term belongs to the loan, is pending and unpaid, and there is one per week of the term. */
  lemma ScheduleShape(loan: LoanId, amount: Cents, term: int, approvedDate: Instant)
    requires term != 0
    ensures var s := Schedule(loan, amount, term, approvedDate);
      |s| == (if term > 0 then term else 0) &&
      forall k :: 0 <= k < |s| ==> s[k].loan == loan && s[k].status == TermPending && s[k].paymentDate == None
  {
  }

  /** All terms but the last have the base amount; the last one has base plus the rounding drift. */
  lemma ScheduleAmounts(loan: LoanId, amount: Cents, term: int, approvedDate: Instant)
    requires term > 0
    ensures var s := Schedule(loan, amount, term, approvedDate);
      (forall k :: 0 <= k < term - 1 ==> s[k].amount == BaseInstallment(amount, term)) &&
      s[term - 1].amount == BaseInstallment(amount, term) + (amount - BaseInstallment(amount, term) * term) &&
      2 * Abs(s[term - 1].amount - BaseInstallment(amount, term)) <= term
  {
  }

  /** The sum of the first j terms is j times the base. */
  lemma {:induction false} PrefixTotal(loan: LoanId, amount: Cents, term: int, approvedDate: Instant, j: nat)
    requires 0 < term && j < term
    ensures Total(Schedule(loan, amount, term, approvedDate)[..j]) == j * BaseInstallment(amount, term)
  {
    var s := Schedule(loan, amount, term, approvedDate);
    var base := BaseInstallment(amount, term);
    if j > 0 {
      PrefixTotal(loan, amount, term, approvedDate, j - 1);
      var p := s[..j];
      assert p[..j - 1] == s[..j - 1];
      assert p[j - 1] == s[j - 1];
      assert s[j - 1].amount == base;
      assert Total(p) == Total(s[..j - 1]) + base;
      assert (j - 1) * base + base == j * base;
    }
  }

  /** The installments add up to the principal exactly, to the cent. */
  lemma {:induction false} ScheduleTotal(loan: LoanId, amount: Cents, term: int, approvedDate: Instant)
    requires term > 0
    ensures Total(Schedule(loan, amount, term, approvedDate)) == amount
  {
    var s := Schedule(loan, amount, term, approvedDate);
    var base := BaseInstallment(amount, term);
    PrefixTotal(loan, amount, term, approvedDate, term - 1);
    assert s[..term][..term - 1] == s[..term - 1];
    assert s[..term] == s;
    assert (term - 1) * base + base == term * base;
  }

  /** Term k is due k + 1 weeks after approval: consecutive due dates are one week apart, strictly increasing. */
  lemma ScheduleWeekly(loan: LoanId, amount: Cents, term: int, approvedDate: Instant)
    requires term != 0
    ensures var s := Schedule(loan, amount, term, approvedDate);
      (forall k :: 0 <= k < |s| ==> s[k].dueDate == Some(approvedDate + (k + 1) * INSTALLMENT_INTERVAL)) &&
      (|s| > 0 ==> s[0].dueDate == Some(approvedDate + INSTALLMENT_INTERVAL)) &&
      (forall k :: 0 < k < |s| ==> s[k].dueDate.value == s[k - 1].dueDate.value + INSTALLMENT_INTERVAL) &&
      (forall i, j :: 0 <= i < j < |s| ==> s[i].dueDate.value < s[j].dueDate.value)
  {
    var s := Schedule(loan, amount, term, approvedDate);
    forall i, j | 0 <= i < j < |s|
      ensures s[i].dueDate.value < s[j].dueDate.value
    {
      assert (j + 1) * INSTALLMENT_INTERVAL == (i + 1) * INSTALLMENT_INTERVAL + (j - i) * INSTALLMENT_INTERVAL;
    }
  }

  /** a <= b scales by a non-negative factor. */
  lemma MulMonotone(a: int, b: int, c: int)
    requires a <= b && c >= 0
    ensures a * c <= b * c
  {
  }

  /** With an amount and term the serializer accepts, the base installment is at least ten dollars. */
  lemma BaseLowerBound(amount: Cents, term: int)
    requires ValidAmount(amount) && ValidTerm(term)
    ensures BaseInstallment(amount, term) >= 1000
  {
    var base := BaseInstallment(amount, term);
    assert 2 * (amount - base * term) <= term;
    if base < 1000 {
      MulMonotone(base, 999, term);
      MulMonotone(term, 52, 999);
    }
  }

  /** With an amount and term the serializer accepts, every installment is positive. */
  lemma SchedulePositive(loan: LoanId, amount: Cents, term: int, approvedDate: Instant)
    requires ValidAmount(amount) && ValidTerm(term)
    ensures forall t :: t in Schedule(loan, amount, term, approvedDate) ==> t.amount > 0
  {
    BaseLowerBound(amount, term);
    var s := Schedule(loan, amount, term, approvedDate);
    var diff := FinalDifference(amount, term);
    assert 2 * Abs(diff) <= term;
    forall k | 0 <= k < |s|
      ensures s[k].amount > 0
    {
      assert s[k].amount == BaseInstallment(amount, term) + (if k == term - 1 then diff else 0);
    }
  }

  /** The example of the test suite: 10000.00 over three weeks is 3333.33, 3333.33, 3333.34. */
  lemma ScheduleExample(loan: LoanId, approvedDate: Instant)
    ensures var s := Schedule(loan, 1000000, 3, approvedDate);
      |s| == 3 && s[0].amount == 333333 && s[1].amount == 333333 && s[2].amount == 333334
  {
    assert RoundHalfEven(1000000, 3) == 333333;
  }
}
