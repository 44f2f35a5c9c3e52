/** The EMI formula and the amortization schedule.

    Numbers are reals. `round2` stands for `parseFloat(x.toFixed(2))`; the
    model keeps it abstract, so every property proved here holds for any
    rounding. */
module Amortization {
  import opened Common

  /** Monthly rate as a fraction: the annual percentage divided by 12 and by 100. */
  function MonthlyRate(annualRate: real): (r: real)
    ensures r * 1200.0 == annualRate
  {
    annualRate / 12.0 / 100.0
  }

  /** `Math.pow(x, n)` for a natural exponent. */
  function Pow(x: real, n: nat): real
  {
    if n == 0 then 1.0 else x * Pow(x, n - 1)
  }

  /** The closed-form EMI before rounding,
        principal * r * (1+r)^months / ((1+r)^months - 1),
      or `None` where JavaScript would produce something other than a finite
      number (see README for the one Infinity case this merges with NaN). */
  function EmiRaw(principal: real, annualRate: real, months: int): (e: Option<real>)
    ensures months == 0 ==> e == None
    ensures months >= 0 && e.Some? ==>
              var r := MonthlyRate(annualRate);
              var g := Pow(1.0 + r, months);
              e.value * (g - 1.0) == principal * r * g
  {
    var r := MonthlyRate(annualRate);
    var q := 1.0 + r;
    if months >= 0 then
      var g := Pow(q, months);
      if g - 1.0 == 0.0 then None else Some(principal * r * g / (g - 1.0))
    else if q == 0.0 then
      // Math.pow(0, negative) is Infinity, and Infinity / Infinity is NaN.
      None
    else
      PowNonZero(q, -months);
      var g := 1.0 / Pow(q, -months);
      if g - 1.0 == 0.0 then None else Some(principal * r * g / (g - 1.0))
  }

  lemma {:induction false} PowNonZero(x: real, n: nat)
    requires x != 0.0
    ensures Pow(x, n) != 0.0
  {
    if n > 0 {
      PowNonZero(x, n - 1);
    }
  }

  /** `calculateEMI` / `calculateEMIClient`: NaN becomes 0, anything else is
      rounded. So a zero rate quotes an EMI of 0, and positive inputs quote
      the rounded formula, which is then defined. */
  function Emi(round2: real -> real, principal: real, annualRate: real, months: int): (e: real)
    ensures annualRate == 0.0 ==> e == 0.0
    ensures principal > 0.0 && annualRate > 0.0 && months >= 1 ==>
              EmiRaw(principal, annualRate, months).Some? && e == round2(EmiRaw(principal, annualRate, months).value)
  {
    ZeroRateEmi(principal, months);
    EmiRawPositive(principal, annualRate, months);
    match EmiRaw(principal, annualRate, months)
    case None => 0.0
    case Some(e) => round2(e)
  }

  lemma {:induction false} PowOne(n: nat)
    ensures Pow(1.0, n) == 1.0
  {
    if n > 0 {
      PowOne(n - 1);
    }
  }

  /** A zero interest rate makes the formula 0/0, which is NaN. */
  lemma ZeroRateEmi(principal: real, months: int)
    ensures EmiRaw(principal, 0.0, months) == None
  {
    if months >= 0 {
      PowOne(months);
    } else {
      PowOne(-months);
    }
  }

  lemma {:induction false} PowAboveOne(q: real, n: nat)
    requires q > 1.0
    ensures n >= 1 ==> Pow(q, n) > 1.0
    ensures Pow(q, n) >= 1.0
  {
    if n > 0 {
      PowAboveOne(q, n - 1);
      var p := Pow(q, n - 1);
      assert q * p >= q * 1.0 by {
        assert q * p - q * 1.0 == q * (p - 1.0);
      }
    }
  }

  /** For a positive principal, a positive rate and at least one month the
      formula is a finite, positive amount. */
  lemma EmiRawPositive(principal: real, annualRate: real, months: int)
    ensures principal > 0.0 && annualRate > 0.0 && months >= 1 ==>
              EmiRaw(principal, annualRate, months).Some? && EmiRaw(principal, annualRate, months).value > 0.0
  {
    if principal > 0.0 && annualRate > 0.0 && months >= 1 {
      var r := MonthlyRate(annualRate);
      var g := Pow(1.0 + r, months);
      PowAboveOne(1.0 + r, months);
      assert principal * r > 0.0;
      assert principal * r * g > 0.0;
    }
  }

  // ---------------------------------------------------------------------------
  // The amortization schedule (generateRepaymentSchedule)
  // ---------------------------------------------------------------------------

  /** One entry of the schedule, with the rounded amounts the entry reports. */
  datatype ScheduleRow = ScheduleRow(month: int, payment: real, principal: real, interest: real, balance: real)

  /** The running (unrounded) balance after `k` months: each month the
      interest `b * rate` is charged and the EMI paid. */
  function RunningBalance(principal: real, rate: real, emi: real, k: nat): real
  {
    if k == 0 then principal
    else
      var b := RunningBalance(principal, rate, emi, k - 1);
      b - (emi - b * rate)
  }

  /** The interest charged in month `k` (k >= 1). */
  function InterestOf(principal: real, rate: real, emi: real, k: nat): real
    requires k >= 1
  {
    RunningBalance(principal, rate, emi, k - 1) * rate
  }

  /** The entry pushed for month `k` (k >= 1). */
  function RowFor(round2: real -> real, principal: real, rate: real, emi: real, k: nat): ScheduleRow
    requires k >= 1
  {
    var interest := InterestOf(principal, rate, emi, k);
    ScheduleRow(k, round2(emi), round2(emi - interest), round2(interest),
                Max(round2(RunningBalance(principal, rate, emi, k)), 0.0))
  }

  function MonthsOf(months: int): nat
  {
    if months > 0 then months else 0
  }

  /** What a generated schedule is: one entry per month from month 1, every
      entry as `RowFor` gives it, no earlier month with a non-positive running
      balance, and it stops either after the last month or right after the
      first month whose running balance is <= 0. */
  predicate IsSchedule(s: seq<ScheduleRow>, round2: real -> real, principal: real, annualRate: real, months: int, emi: real)
  {
    var rate := MonthlyRate(annualRate);
    && |s| <= MonthsOf(months)
    && (months > 0 ==> |s| > 0)
    && (forall i :: 0 <= i < |s| ==> s[i] == RowFor(round2, principal, rate, emi, i + 1))
    && (forall k :: 1 <= k < |s| ==> RunningBalance(principal, rate, emi, k) > 0.0)
    && (|s| == MonthsOf(months) || RunningBalance(principal, rate, emi, |s|) <= 0.0)
  }

  /** `generateRepaymentSchedule`: the loop with a mutable balance that
      pushes one entry per month and breaks once the balance is <= 0. */
  method GenerateSchedule(principal: real, annualRate: real, months: int, monthlyEmi: real, round2: real -> real)
    returns (schedule: seq<ScheduleRow>)
    ensures IsSchedule(schedule, round2, principal, annualRate, months, monthlyEmi)
    ensures |schedule| <= MonthsOf(months)
    ensures forall i :: 0 <= i < |schedule| ==>
              && schedule[i].month == i + 1
              && schedule[i].payment == round2(monthlyEmi)
              && schedule[i].balance >= 0.0
    ensures forall k :: 1 <= k < |schedule| ==>
              RunningBalance(principal, MonthlyRate(annualRate), monthlyEmi, k) > 0.0
  {
    var balance := principal;
    schedule := [];
    var monthlyRate := MonthlyRate(annualRate);
    var month := 1;
    while month <= months
      invariant 1 <= month && |schedule| == month - 1 && |schedule| <= MonthsOf(months)
      invariant balance == RunningBalance(principal, monthlyRate, monthlyEmi, month - 1)
      invariant forall i :: 0 <= i < |schedule| ==> schedule[i] == RowFor(round2, principal, monthlyRate, monthlyEmi, i + 1)
      invariant forall k :: 1 <= k < month ==> RunningBalance(principal, monthlyRate, monthlyEmi, k) > 0.0
    {
      var interest := balance * monthlyRate;
      var principalComponent := monthlyEmi - interest;
      balance := balance - principalComponent;
      schedule := schedule + [ScheduleRow(month, round2(monthlyEmi), round2(principalComponent), round2(interest),
                                          Max(round2(balance), 0.0))];
      assert balance == RunningBalance(principal, monthlyRate, monthlyEmi, month);
      assert interest == InterestOf(principal, monthlyRate, monthlyEmi, month);
      assert schedule[month - 1] == RowFor(round2, principal, monthlyRate, monthlyEmi, month);
      if balance <= 0.0 {
        break;
      }
      month := month + 1;
    }
  }

  /** The schedule is determined by its inputs: recomputing it gives the same entries. */
  lemma ScheduleUnique(s: seq<ScheduleRow>, t: seq<ScheduleRow>, round2: real -> real,
                       principal: real, annualRate: real, months: int, emi: real)
    requires IsSchedule(s, round2, principal, annualRate, months, emi)
    requires IsSchedule(t, round2, principal, annualRate, months, emi)
    ensures s == t
  {
    assert |s| == |t|;
    assert forall i :: 0 <= i < |s| ==> s[i] == t[i];
  }

  /** Sum of the (unrounded) principal components of the first `k` months. */
  function PrincipalRepaid(principal: real, rate: real, emi: real, k: nat): real
  {
    if k == 0 then 0.0
    else PrincipalRepaid(principal, rate, emi, k - 1) + (emi - InterestOf(principal, rate, emi, k))
  }

  /** The running balance is the principal minus the principal repaid so far. */
  lemma {:induction false} BalanceIsPrincipalLessRepaid(principal: real, rate: real, emi: real, k: nat)
    ensures RunningBalance(principal, rate, emi, k) == principal - PrincipalRepaid(principal, rate, emi, k)
  {
    if k > 0 {
      BalanceIsPrincipalLessRepaid(principal, rate, emi, k - 1);
    }
  }

  /** 1 + q + ... + q^(k-1). */
  function Geometric(q: real, k: nat): real
  {
    if k == 0 then 0.0 else Geometric(q, k - 1) * q + 1.0
  }

  lemma GeometricStep(g: real, p: real, q: real)
    requires g * (q - 1.0) == p - 1.0
    ensures (g * q + 1.0) * (q - 1.0) == q * p - 1.0
  {
    calc {
      (g * q + 1.0) * (q - 1.0);
      g * (q - 1.0) * q + (q - 1.0);
      (p - 1.0) * q + (q - 1.0);
    }
  }

  lemma {:induction false} GeometricSum(q: real, k: nat)
    ensures Geometric(q, k) * (q - 1.0) == Pow(q, k) - 1.0
  {
    if k > 0 {
      GeometricSum(q, k - 1);
      GeometricStep(Geometric(q, k - 1), Pow(q, k - 1), q);
    }
  }

  lemma BalanceStep(b: real, principal: real, emi: real, rate: real, p: real, g: real)
    requires b == principal * p - emi * g
    ensures b - (emi - b * rate) == principal * ((1.0 + rate) * p) - emi * (g * (1.0 + rate) + 1.0)
  {
    calc {
      b - (emi - b * rate);
      b * (1.0 + rate) - emi;
      (principal * p - emi * g) * (1.0 + rate) - emi;
    }
  }

  /** Closed form of the running balance: P q^k - emi (1 + q + ... + q^(k-1)). */
  lemma {:induction false} BalanceClosedForm(principal: real, rate: real, emi: real, k: nat)
    ensures RunningBalance(principal, rate, emi, k)
            == principal * Pow(1.0 + rate, k) - emi * Geometric(1.0 + rate, k)
  {
    if k > 0 {
      BalanceClosedForm(principal, rate, emi, k - 1);
      BalanceStep(RunningBalance(principal, rate, emi, k - 1), principal, emi, rate,
                  Pow(1.0 + rate, k - 1), Geometric(1.0 + rate, k - 1));
    }
  }

  /** From e (g - 1) = P r g and s r = g - 1 with r != 0 follows e s = P g. */
  lemma CancelRate(e: real, s: real, principal: real, r: real, g: real)
    requires r != 0.0
    requires e * (g - 1.0) == principal * r * g
    requires s * r == g - 1.0
    ensures e * s == principal * g
  {
    assert (e * s) * r == e * (g - 1.0);
    assert (e * s - principal * g) * r == 0.0;
  }

  /** With the exact (unrounded) EMI the running balance is exactly zero
      after the last month: the formula amortizes the loan. */
  lemma ExactEmiAmortizes(principal: real, annualRate: real, months: nat)
    requires EmiRaw(principal, annualRate, months).Some?
    ensures RunningBalance(principal, MonthlyRate(annualRate), EmiRaw(principal, annualRate, months).value, months) == 0.0
    ensures PrincipalRepaid(principal, MonthlyRate(annualRate), EmiRaw(principal, annualRate, months).value, months) == principal
  {
    var r := MonthlyRate(annualRate);
    var q := 1.0 + r;
    var g := Pow(q, months);
    var e := EmiRaw(principal, annualRate, months).value;
    assert g - 1.0 != 0.0;
    assert e * (g - 1.0) == principal * r * g;
    assert r != 0.0 by {
      if r == 0.0 {
        PowOne(months);
      }
    }
    BalanceClosedForm(principal, r, e, months);
    GeometricSum(q, months);
    CancelRate(e, Geometric(q, months), principal, r, g);
    BalanceIsPrincipalLessRepaid(principal, r, e, months);
  }

  lemma {:induction false} PowIncreasing(q: real, j: nat, k: nat)
    requires q > 1.0 && j < k
    ensures Pow(q, j) < Pow(q, k)
  {
    var p := Pow(q, k - 1);
    PowAboveOne(q, k - 1);
    if j < k - 1 {
      PowIncreasing(q, j, k - 1);
    }
    assert Pow(q, k) == q * p;
    assert q * p - p == (q - 1.0) * p;
    assert (q - 1.0) * p > 0.0;
  }

  /** The balance before the last month, times (g - 1), is P r (g - q^k). */
  lemma EarlyBalance(b: real, principal: real, e: real, r: real, g: real, gk: real, sk: real)
    requires b == principal * gk - e * sk
    requires e * (g - 1.0) == principal * r * g
    requires sk * r == gk - 1.0
    ensures b * ((g - 1.0) * r) == principal * r * (g - gk)
  {
    calc {
      b * ((g - 1.0) * r);
      (principal * gk - e * sk) * (g - 1.0) * r;
      principal * gk * (g - 1.0) * r - (e * (g - 1.0)) * (sk * r);
      principal * gk * (g - 1.0) * r - (principal * r * g) * (gk - 1.0);
      principal * r * (g - gk);
    }
  }

  lemma MulPositive(a: real, b: real)
    requires a > 0.0 && b > 0.0
    ensures a * b > 0.0
  {
  }

  lemma PositiveFactor(b: real, c: real, d: real)
    requires c > 0.0
    requires d > 0.0
    requires b * c == d
    ensures b > 0.0
  {
  }

  /** With the exact EMI on valid inputs the running balance stays positive
      before the last month, so the generated schedule has exactly `months`
      entries and does not stop early. */
  lemma ExactEmiFullSchedule(s: seq<ScheduleRow>, round2: real -> real, principal: real, annualRate: real, months: int)
    requires principal > 0.0 && annualRate > 0.0 && months >= 1
    requires EmiRaw(principal, annualRate, months).Some?
    requires IsSchedule(s, round2, principal, annualRate, months, EmiRaw(principal, annualRate, months).value)
    ensures |s| == months
  {
    if |s| < months {
      var r := MonthlyRate(annualRate);
      var q := 1.0 + r;
      var e := EmiRaw(principal, annualRate, months).value;
      var k := |s|;
      var g := Pow(q, months);
      var gk := Pow(q, k);
      PowIncreasing(q, k, months);
      PowAboveOne(q, k);
      assert e * (g - 1.0) == principal * r * g;
      BalanceClosedForm(principal, r, e, k);
      GeometricSum(q, k);
      var b := RunningBalance(principal, r, e, k);
      EarlyBalance(b, principal, e, r, g, gk, Geometric(q, k));
      var pr := principal * r;
      assert pr > 0.0;
      assert g - gk > 0.0;
      var d := pr * (g - gk);
      MulPositive(pr, g - gk);
      assert (g - 1.0) * r > 0.0;
      PositiveFactor(b, (g - 1.0) * r, d);
      assert false;
    }
  }

  // ---------------------------------------------------------------------------
  // The two entry points that compute an EMI
  // ---------------------------------------------------------------------------

  /** Response of `POST /api/calculate-emi`; each figure is formatted with `toFixed(2)`. */
  datatype EmiQuote = EmiQuote(emi: real, totalPayment: real, totalInterest: real)

  datatype QuoteResult = Quote(quote: EmiQuote) | QuoteRefused(message: string)

  const AllFieldsRequired := "All fields are required"

  /** `parseInt` of a JSON number: its integer part, the fraction dropped
      toward zero. This is what `parseInt` gives for magnitudes from 10^-6 up
      to 10^21, where JavaScript writes the number without an exponent. */
  function Truncate(x: real): (n: int)
    ensures x >= 0.0 ==> 0 <= n && n as real <= x < n as real + 1.0
    ensures x < 0.0 ==> n <= 0 && n as real - 1.0 < x <= n as real
  {
    if x >= 0.0 then x.Floor else -((-x).Floor)
  }

  /** `POST /api/calculate-emi`: 400 unless amount, interest rate and tenure
      are all present and non-zero; otherwise the EMI and its totals over the
      tenure's integer part, which is what `parseInt` leaves of it. */
  function QuoteEmi(round2: real -> real, amount: Option<real>, interestRate: Option<real>, tenure: Option<real>)
    : (r: QuoteResult)
    ensures r.QuoteRefused? <==> !(TruthyReal(amount) && TruthyReal(interestRate) && TruthyReal(tenure))
    ensures r.QuoteRefused? ==> r.message == AllFieldsRequired
    ensures r.Quote? ==>
              var months := Truncate(tenure.value);
              var emi := Emi(round2, amount.value, interestRate.value, months);
              r.quote == EmiQuote(round2(emi), round2(emi * months as real),
                                  round2(emi * months as real - amount.value))
  {
    if !TruthyReal(amount) || !TruthyReal(interestRate) || !TruthyReal(tenure) then
      QuoteRefused(AllFieldsRequired)
    else
      var months := Truncate(tenure.value);
      var emi := Emi(round2, amount.value, interestRate.value, months);
      var total := emi * months as real;
      Quote(EmiQuote(round2(emi), round2(total), round2(total - amount.value)))
  }

  /** Unrounded, a whole-month tenure is quoted over exactly that many months,
      and the quoted interest is the total payment less the principal. */
  lemma QuoteInterestIsTotalLessPrincipal(amount: real, interestRate: real, tenure: int)
    requires amount != 0.0 && interestRate != 0.0 && tenure != 0
    ensures var r := QuoteEmi(x => x, Some(amount), Some(interestRate), Some(tenure as real));
            && r.Quote?
            && r.quote.emi == Emi(x => x, amount, interestRate, tenure)
            && r.quote.totalInterest == r.quote.totalPayment - amount
            && r.quote.totalPayment == r.quote.emi * tenure as real
  {
  }

  /** Why `handleCalculate` refuses to compute. */
  datatype CalcError = FillAllFields | MustBePositive

  datatype Calculation = Refused(error: CalcError) | Computed(emi: real, schedule: seq<ScheduleRow>)

  /** The client-side validation of `handleCalculate`: NaN or zero fields
      first, then non-positive ones. */
  function ValidateInputs(principal: Option<real>, rate: Option<real>, tenure: Option<int>): (e: Option<CalcError>)
    ensures e == Some(FillAllFields) <==> !(TruthyReal(principal) && TruthyReal(rate) && TruthyInt(tenure))
    ensures e == None <==> principal.Some? && rate.Some? && tenure.Some?
                           && principal.value > 0.0 && rate.value > 0.0 && tenure.value > 0
  {
    if !TruthyReal(principal) || !TruthyReal(rate) || !TruthyInt(tenure) then Some(FillAllFields)
    else if principal.value <= 0.0 || rate.value <= 0.0 || tenure.value <= 0 then Some(MustBePositive)
    else None
  }

  /** `handleCalculate`: validate, take the EMI from the backend when it
      answered (`backendEmi`), otherwise from the client-side formula, and
      build the schedule. No schedule is produced for refused input. */
  method HandleCalculate(principal: Option<real>, rate: Option<real>, tenure: Option<int>,
                         backendEmi: Option<real>, round2: real -> real)
    returns (c: Calculation)
    ensures c.Refused? <==> ValidateInputs(principal, rate, tenure).Some?
    ensures c.Refused? ==> c == Refused(ValidateInputs(principal, rate, tenure).value)
    ensures c.Computed? ==>
              && principal.value > 0.0 && rate.value > 0.0 && tenure.value > 0
              && c.emi == (if backendEmi.Some? then backendEmi.value
                           else Emi(round2, principal.value, rate.value, tenure.value))
              && IsSchedule(c.schedule, round2, principal.value, rate.value, tenure.value, c.emi)
              && 1 <= |c.schedule| <= tenure.value
  {
    var error := ValidateInputs(principal, rate, tenure);
    if error.Some? {
      return Refused(error.value);
    }
    var emi := if backendEmi.Some? then backendEmi.value
               else Emi(round2, principal.value, rate.value, tenure.value);
    var schedule := GenerateSchedule(principal.value, rate.value, tenure.value, emi, round2);
    c := Computed(emi, schedule);
  }
}
