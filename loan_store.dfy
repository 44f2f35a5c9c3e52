/** The backend's loan lifecycle: loan applications, approval with its
    repayment schedule, rejection, payment posting, and the `MAX(id) + 1`
    allocation of staff and guarantor ids.

    The MySQL tables are fields of one `LoanDatabase` object; each handler is
    a method that runs as one atomic step. */
module LoanStore {
  import opened Common
  import Amortization

  datatype LoanStatus = Pending | Approved | Rejected | Completed | Demo

  /** A calendar date as a month number and a day of the month. */
  datatype Date = Date(month: int, day: int)

  /** `a` is an earlier day than `b`. */
  predicate Before(a: Date, b: Date) {
    a.month < b.month || (a.month == b.month && a.day < b.day)
  }

  /** `setMonth(getMonth() + i)`, without the overflow of short months. */
  function AddMonths(d: Date, i: int): Date {
    Date(d.month + i, d.day)
  }

  datatype Loan = Loan(borrowerId: int, amount: real, interestRate: real, tenure: int, startDate: Date, status: LoanStatus)

  /** A LoanApproval row; `staffId` and `branchId` are `None` for a NULL column. */
  datatype Approval = Approval(loanId: int, staffId: Option<int>, branchId: Option<int>, approvalDate: Date)

  /** The status column of a repayment row. */
  datatype RepaymentStatus = Pending | Partial | Paid

  datatype Repayment = Repayment(loanId: int, dueDate: Date, amountDue: real, amountPaid: real,
                                 penalty: real, status: RepaymentStatus)

  datatype StaffMember = StaffMember(id: int, name: string, role: string, branchId: Option<int>)

  datatype Guarantor = Guarantor(id: int, name: string, contact: string, relation: string, borrowerId: int)

  /** An HTTP answer: 200 with a body, 400 or 404 with an error message. */
  datatype Response<T> = Ok(body: T) | BadRequest(error: string) | NotFound(error: string)

  datatype LoanReceipt = LoanReceipt(loanId: int, status: LoanStatus)
  datatype ApprovalReceipt = ApprovalReceipt(loanId: int, emi: real)
  datatype RejectionReceipt = RejectionReceipt(loanId: int, reason: string)
  datatype PaymentReceipt = PaymentReceipt(repaymentId: int, amountPaid: real, status: RepaymentStatus)

  const AllFieldsRequired := "All fields are required"
  const AlreadyProcessed := "Loan not found or already processed"
  const InvalidPayment := "Valid payment amount is required"
  const RepaymentMissing := "Repayment record not found"
  const StaffFieldsRequired := "Name and role are required"
  const GuarantorFieldsRequired := "Name, contact, and borrower ID are required"

  // ---------------------------------------------------------------------------
  // Pure parts of the handlers
  // ---------------------------------------------------------------------------

  /** The approval and rejection handlers find the loan, and it is still Pending. */
  predicate IsPending(loans: map<int, Loan>, loanId: int) {
    loanId in loans && loans[loanId].status == LoanStatus.Pending
  }

  /** The `= 1` default of `staff_id` and `branch_id`: it applies to a field
      left out of the body only, so an explicit `null` reaches the insert as NULL. */
  function DefaultOne(x: Field<int>): (v: Option<int>)
    ensures v.None? <==> x.Null?
    ensures x.Absent? ==> v == Some(1)
    ensures x.Value? ==> v == Some(x.value)
  {
    match x
    case Absent => Some(1)
    case Null => None
    case Value(n) => Some(n)
  }

  /** The reason echoed by a rejection: the one given, or "Not specified" when it is empty or absent. */
  function ReasonOrDefault(reason: Option<string>): (r: string)
    ensures r == "Not specified" <==> !TruthyText(reason) || reason.value == "Not specified"
    ensures TruthyText(reason) ==> r == reason.value
  {
    if TruthyText(reason) then reason.value else "Not specified"
  }

  /** The row the schedule loop pushes for month `i`: the EMI is due, nothing
      is paid and no penalty has accrued, and from month 1 on it falls due
      after the approval date. */
  function Installment(loanId: int, today: Date, emi: real, i: int): (rp: Repayment)
    ensures Consistent(rp) && rp.status == RepaymentStatus.Pending
    ensures rp.amountPaid == 0.0 && rp.penalty == 0.0 && rp.amountDue == emi && rp.loanId == loanId
    ensures i >= 1 ==> Before(today, rp.dueDate)
  {
    Repayment(loanId, AddMonths(today, i), emi, 0.0, 0.0, RepaymentStatus.Pending)
  }

  /** The ids `first .. first + n - 1` that a bulk insert of `n` rows receives. */
  function IdRange(first: int, n: nat): (ids: set<int>)
    ensures forall k :: k in ids <==> first <= k < first + n
  {
    if n == 0 then {} else IdRange(first, n - 1) + {first + n - 1}
  }

  /** The installments of a `tenure`-month loan, numbered from `first`: one
      per month for a positive tenure and none otherwise, each a fresh,
      unpaid installment of that loan for the EMI. */
  function ScheduleRows(first: int, loanId: int, today: Date, emi: real, tenure: int): (rows: map<int, Repayment>)
    ensures rows.Keys == IdRange(first, Amortization.MonthsOf(tenure))
    ensures forall k :: k in rows ==>
              rows[k].loanId == loanId && rows[k].amountDue == emi && rows[k].amountPaid == 0.0
              && Consistent(rows[k])
  {
    var rows := map k | k in IdRange(first, Amortization.MonthsOf(tenure)) :: Installment(loanId, today, emi, k - first + 1);
    assert rows.Keys == IdRange(first, Amortization.MonthsOf(tenure));
    rows
  }

  /** The ids of the installments that belong to `loanId`. */
  function InstallmentIds(repayments: map<int, Repayment>, loanId: int): set<int> {
    set id | id in repayments && repayments[id].loanId == loanId
  }

  /** A payment request passes `!amount_paid || amount_paid <= 0`. */
  predicate ValidPayment(amount: Option<real>) {
    amount.Some? && amount.value > 0.0
  }

  /** The repayment row after a payment of `payment` posted on `today`. */
  function Posted(rp: Repayment, payment: real, today: Date): (r: Repayment)
    ensures r.amountPaid == rp.amountPaid + payment
    ensures r.status == RepaymentStatus.Paid <==> r.amountPaid >= rp.amountDue
    ensures r.status == RepaymentStatus.Partial <==> 0.0 < r.amountPaid < rp.amountDue
    ensures r.amountPaid < rp.amountDue && Before(rp.dueDate, today) ==>
              r.penalty == (rp.amountDue - r.amountPaid) * 0.02
    ensures !(r.amountPaid < rp.amountDue && Before(rp.dueDate, today)) ==> r.penalty == rp.penalty
    ensures r.loanId == rp.loanId && r.dueDate == rp.dueDate && r.amountDue == rp.amountDue
  {
    var paid := rp.amountPaid + payment;
    var status := if paid >= rp.amountDue then RepaymentStatus.Paid
                  else if paid > 0.0 then RepaymentStatus.Partial
                  else RepaymentStatus.Pending;
    var penalty := if paid < rp.amountDue && Before(rp.dueDate, today) then (rp.amountDue - paid) * 0.02
                   else rp.penalty;
    rp.(amountPaid := paid, status := status, penalty := penalty)
  }

  /** Status and amount paid of a row agree with each other. */
  predicate Consistent(rp: Repayment) {
    && rp.amountPaid >= 0.0
    && (rp.status == RepaymentStatus.Pending ==> rp.amountPaid == 0.0)
    && (rp.status == RepaymentStatus.Partial ==> 0.0 < rp.amountPaid < rp.amountDue)
    && (rp.status == RepaymentStatus.Paid ==> rp.amountPaid >= rp.amountDue)
  }

  /** Posting a valid payment keeps a row consistent, and the unreachable
      `Pending` branch of the status computation is indeed never taken. */
  lemma PostedConsistent(rp: Repayment, payment: real, today: Date)
    requires Consistent(rp) && payment > 0.0
    ensures Consistent(Posted(rp, payment, today))
    ensures Posted(rp, payment, today).status != RepaymentStatus.Pending
  {
  }

  /** Payments accumulate: two postings leave the sum of both paid, and the
      row is `Paid` exactly when that sum covers the amount due. */
  lemma TwoPaymentsAccumulate(rp: Repayment, a: real, b: real, t1: Date, t2: Date)
    ensures var r := Posted(Posted(rp, a, t1), b, t2);
            && r.amountPaid == rp.amountPaid + a + b
            && (r.status == RepaymentStatus.Paid <==> rp.amountPaid + a + b >= rp.amountDue)
            && r.amountDue == rp.amountDue && r.dueDate == rp.dueDate && r.loanId == rp.loanId
  {
    var r1 := Posted(rp, a, t1);
    assert r1.amountDue == rp.amountDue;
  }

  /** Once a row is paid in full, a further positive payment keeps it `Paid`
      and leaves its penalty as it was. */
  lemma PaidStaysPaid(rp: Repayment, payment: real, today: Date)
    requires rp.amountPaid >= rp.amountDue && payment > 0.0
    ensures Posted(rp, payment, today).status == RepaymentStatus.Paid
    ensures Posted(rp, payment, today).penalty == rp.penalty
  {
  }

  /** The overdue penalty is recomputed from what is still outstanding, not
      added up: posting again on the same overdue row replaces it. */
  lemma PenaltyNotCumulative(rp: Repayment, a: real, b: real, today: Date)
    requires Before(rp.dueDate, today)
    requires rp.amountPaid + a + b < rp.amountDue
    ensures Posted(Posted(rp, a, today), b, today).penalty == (rp.amountDue - (rp.amountPaid + a + b)) * 0.02
  {
    var r1 := Posted(rp, a, today);
    assert r1.amountDue == rp.amountDue && r1.dueDate == rp.dueDate;
  }

  // ---------------------------------------------------------------------------
  // The loan lifecycle
  // ---------------------------------------------------------------------------

  /** The only status changes: Pending to Approved or Rejected. */
  predicate StatusMayBecome(before: LoanStatus, after: LoanStatus) {
    before == after || (before == LoanStatus.Pending && (after == Approved || after == Rejected))
  }

  /** No loan disappears, no loan changes anything but its status, and every
      status change follows the lifecycle. */
  ghost predicate LifecycleStep(before: map<int, Loan>, after: map<int, Loan>) {
    forall id :: id in before ==>
      && id in after
      && after[id] == before[id].(status := after[id].status)
      && StatusMayBecome(before[id].status, after[id].status)
  }

  lemma LifecycleTransitive(a: map<int, Loan>, b: map<int, Loan>, c: map<int, Loan>)
    requires LifecycleStep(a, b) && LifecycleStep(b, c)
    ensures LifecycleStep(a, c)
  {
    forall id | id in a
      ensures id in c && c[id] == a[id].(status := c[id].status)
      ensures StatusMayBecome(a[id].status, c[id].status)
    {
      assert id in b;
    }
  }

  /** Changing one loan's status along the lifecycle is a lifecycle step. */
  lemma StatusChangeIsStep(loans: map<int, Loan>, loanId: int, status: LoanStatus)
    requires loanId in loans && StatusMayBecome(loans[loanId].status, status)
    ensures LifecycleStep(loans, loans[loanId := loans[loanId].(status := status)])
  {
    var after := loans[loanId := loans[loanId].(status := status)];
    forall id | id in loans
      ensures id in after && after[id] == loans[id].(status := after[id].status)
      ensures StatusMayBecome(loans[id].status, after[id].status)
    {
    }
  }

  /** `Approved` and `Rejected` are terminal: over any run of lifecycle steps
      such a loan keeps its status. */
  lemma TerminalStatusesStay(a: map<int, Loan>, b: map<int, Loan>, id: int)
    requires LifecycleStep(a, b) && id in a
    requires a[id].status == Approved || a[id].status == Rejected
    ensures id in b && b[id] == a[id]
  {
    assert id in b;
  }

  /** The id the staff and guarantor handlers allocate: one more than the
      largest id in the table, or 1 when the table is empty. */
  function NextId(ids: seq<int>): (n: int)
    ensures forall i :: 0 <= i < |ids| ==> ids[i] < n
    ensures ids == [] ==> n == 1
    ensures ids != [] ==> n - 1 in ids
  {
    if ids == [] then 1
    else
      var rest := NextId(ids[1..]);
      if ids[1..] == [] || ids[0] + 1 > rest then ids[0] + 1 else rest
  }

  /** The ids of the staff table, in insertion order. */
  function StaffIds(staff: seq<StaffMember>): seq<int> {
    seq(|staff|, i requires 0 <= i < |staff| => staff[i].id)
  }

  /** The ids of the guarantor table, in insertion order. */
  function GuarantorIds(guarantors: seq<Guarantor>): seq<int> {
    seq(|guarantors|, i requires 0 <= i < |guarantors| => guarantors[i].id)
  }

  predicate DistinctIds(ids: seq<int>) {
    forall i, j :: 0 <= i < j < |ids| ==> ids[i] != ids[j]
  }

  /** Appending the id `NextId` allocates keeps the ids distinct. */
  lemma NextIdKeepsDistinct(ids: seq<int>)
    requires DistinctIds(ids)
    ensures DistinctIds(ids + [NextId(ids)])
  {
  }

  lemma {:induction false} IdRangeSize(first: int, n: nat)
    ensures |IdRange(first, n)| == n
  {
    if n > 0 {
      IdRangeSize(first, n - 1);
      assert first + n - 1 !in IdRange(first, n - 1);
    }
  }

  // ---------------------------------------------------------------------------
  // What the tables keep true between requests
  // ---------------------------------------------------------------------------

  /** Every key was handed out by the auto-increment counter `next`. */
  predicate KeysBelow<T>(m: map<int, T>, next: int) {
    forall k :: k in m ==> 1 <= k < next
  }

  predicate ApprovalFor(approvals: seq<Approval>, loanId: int) {
    exists i :: 0 <= i < |approvals| && approvals[i].loanId == loanId
  }

  /** Approval rows and approved loans are in one-to-one correspondence. */
  predicate ApprovalsMatch(loans: map<int, Loan>, approvals: seq<Approval>) {
    && (forall i :: 0 <= i < |approvals| ==>
          approvals[i].loanId in loans && loans[approvals[i].loanId].status == Approved)
    && (forall i, j :: 0 <= i < j < |approvals| ==> approvals[i].loanId != approvals[j].loanId)
    && (forall id :: id in loans && loans[id].status == Approved ==> ApprovalFor(approvals, id))
  }

  /** Installments exist only for approved loans, and each is consistent. */
  predicate InstallmentsMatch(loans: map<int, Loan>, repayments: map<int, Repayment>) {
    forall id :: id in repayments ==>
      && repayments[id].loanId in loans
      && loans[repayments[id].loanId].status == Approved
      && Consistent(repayments[id])
  }

  /** What the tables and counters keep true between requests. */
  ghost predicate TablesValid(loans: map<int, Loan>, approvals: seq<Approval>, repayments: map<int, Repayment>,
                              staff: seq<StaffMember>, guarantors: seq<Guarantor>,
                              nextLoanId: int, nextRepaymentId: int)
  {
    && nextLoanId >= 1 && nextRepaymentId >= 1
    && KeysBelow(loans, nextLoanId)
    && KeysBelow(repayments, nextRepaymentId)
    && ApprovalsMatch(loans, approvals)
    && InstallmentsMatch(loans, repayments)
    && DistinctIds(StaffIds(staff))
    && DistinctIds(GuarantorIds(guarantors))
  }

  /** A loan that is still pending has no installments. */
  lemma PendingHasNoInstallments(loans: map<int, Loan>, repayments: map<int, Repayment>, loanId: int)
    requires InstallmentsMatch(loans, repayments) && IsPending(loans, loanId)
    ensures InstallmentIds(repayments, loanId) == {}
  {
    forall id | id in repayments
      ensures id !in InstallmentIds(repayments, loanId)
    {
      assert repayments[id].loanId in loans && loans[repayments[id].loanId].status == Approved;
    }
  }

  /** Approving a pending loan, with its approval row and a schedule of fresh
      consistent installments, keeps both correspondences. */
  lemma ApprovalKeepsMatch(loans: map<int, Loan>, approvals: seq<Approval>, repayments: map<int, Repayment>,
                           loanId: int, approval: Approval, rows: map<int, Repayment>)
    requires ApprovalsMatch(loans, approvals) && InstallmentsMatch(loans, repayments)
    requires IsPending(loans, loanId) && approval.loanId == loanId
    requires forall k :: k in rows ==> rows[k].loanId == loanId && Consistent(rows[k])
    ensures var after := loans[loanId := loans[loanId].(status := Approved)];
            && ApprovalsMatch(after, approvals + [approval])
            && InstallmentsMatch(after, repayments + rows)
  {
    var after := loans[loanId := loans[loanId].(status := Approved)];
    var all := approvals + [approval];
    forall id | id in after && after[id].status == Approved
      ensures ApprovalFor(all, id)
    {
      if id == loanId {
        assert all[|approvals|].loanId == id;
      } else {
        var i :| 0 <= i < |approvals| && approvals[i].loanId == id;
        assert all[i].loanId == id;
      }
    }
  }

  /** Rejecting a pending loan keeps both correspondences. */
  lemma RejectionKeepsMatch(loans: map<int, Loan>, approvals: seq<Approval>, repayments: map<int, Repayment>,
                            loanId: int)
    requires ApprovalsMatch(loans, approvals) && InstallmentsMatch(loans, repayments)
    requires IsPending(loans, loanId)
    ensures var after := loans[loanId := loans[loanId].(status := Rejected)];
            && ApprovalsMatch(after, approvals)
            && InstallmentsMatch(after, repayments)
  {
    var after := loans[loanId := loans[loanId].(status := Rejected)];
    forall id | id in after && after[id].status == Approved
      ensures ApprovalFor(approvals, id)
    {
      assert id in loans && loans[id].status == Approved;
    }
  }

  /** After an approval whose schedule insert succeeded, the loan's
      installments are exactly the ids the insert received. */
  lemma ScheduleIsLoansInstallments(loans: map<int, Loan>, repayments: map<int, Repayment>, first: int,
                                    loanId: int, today: Date, emi: real, tenure: int)
    requires InstallmentsMatch(loans, repayments) && IsPending(loans, loanId)
    ensures InstallmentIds(repayments + ScheduleRows(first, loanId, today, emi, tenure), loanId)
            == IdRange(first, Amortization.MonthsOf(tenure))
  {
    var rows := ScheduleRows(first, loanId, today, emi, tenure);
    PendingHasNoInstallments(loans, repayments, loanId);
    forall id | id in InstallmentIds(repayments + rows, loanId)
      ensures id in IdRange(first, Amortization.MonthsOf(tenure))
    {
      assert id in rows || id in InstallmentIds(repayments, loanId);
    }
  }

  /** Installment `i` of the schedule, for `i` in `1 .. tenure`, has id
      `first + i - 1` and is due `i` months after the approval date. */
  lemma ScheduleRowsAt(first: int, loanId: int, today: Date, emi: real, tenure: int, i: int)
    requires 1 <= i <= tenure
    ensures var rows := ScheduleRows(first, loanId, today, emi, tenure);
            && first + i - 1 in rows
            && rows[first + i - 1] == Installment(loanId, today, emi, i)
            && rows[first + i - 1].dueDate == AddMonths(today, i)
  {
  }

  /** The rows the approval loop collects, keyed by the ids the insert hands
      out, are the schedule. */
  lemma CollectedRowsAreSchedule(rows: seq<Repayment>, first: int, loanId: int, today: Date, emi: real, tenure: int)
    requires |rows| == Amortization.MonthsOf(tenure)
    requires forall j :: 0 <= j < |rows| ==> rows[j] == Installment(loanId, today, emi, j + 1)
    ensures (map k | k in IdRange(first, |rows|) :: rows[k - first]) == ScheduleRows(first, loanId, today, emi, tenure)
  {
  }

  /** What a successful approval leaves behind: both correspondences still
      hold, the new installment ids are the next `n` values of the counter,
      and, when the insert succeeded, the loan owns exactly those `n`
      installments, the `i`-th due `i` months ahead; otherwise it owns none. */
  lemma ApprovalOutcome(loans: map<int, Loan>, approvals: seq<Approval>, repayments: map<int, Repayment>,
                        first: int, loanId: int, approval: Approval, today: Date, emi: real, tenure: int,
                        inserted: bool)
    requires ApprovalsMatch(loans, approvals) && InstallmentsMatch(loans, repayments)
    requires KeysBelow(repayments, first) && first >= 1
    requires IsPending(loans, loanId) && approval.loanId == loanId
    ensures var added := if inserted then ScheduleRows(first, loanId, today, emi, tenure) else map[];
            var after := loans[loanId := loans[loanId].(status := Approved)];
            var n := Amortization.MonthsOf(tenure);
            && ApprovalsMatch(after, approvals + [approval])
            && InstallmentsMatch(after, repayments + added)
            && KeysBelow(repayments + added, if inserted then first + n else first)
            && InstallmentIds(repayments + added, loanId) == (if inserted then IdRange(first, n) else {})
            && |InstallmentIds(repayments + added, loanId)| == (if inserted then n else 0)
            && (inserted ==> forall i :: 1 <= i <= n ==>
                  && first + i - 1 in repayments + added
                  && (repayments + added)[first + i - 1] == Installment(loanId, today, emi, i))
  {
    var n := Amortization.MonthsOf(tenure);
    var added := if inserted then ScheduleRows(first, loanId, today, emi, tenure) else map[];
    IdRangeSize(first, n);
    ApprovalKeepsMatch(loans, approvals, repayments, loanId, approval, added);
    if inserted {
      ScheduleIsLoansInstallments(loans, repayments, first, loanId, today, emi, tenure);
      forall i | 1 <= i <= n
        ensures first + i - 1 in repayments + added
        ensures (repayments + added)[first + i - 1] == Installment(loanId, today, emi, i)
      {
        ScheduleRowsAt(first, loanId, today, emi, tenure, i);
      }
    } else {
      PendingHasNoInstallments(loans, repayments, loanId);
      assert repayments + added == repayments;
    }
  }

  /** An approval keeps the tables valid. */
  lemma ApprovalKeepsTables(loans: map<int, Loan>, approvals: seq<Approval>, repayments: map<int, Repayment>,
                            staff: seq<StaffMember>, guarantors: seq<Guarantor>, nextLoanId: int, first: int,
                            loanId: int, approval: Approval, today: Date, emi: real, tenure: int, inserted: bool)
    requires TablesValid(loans, approvals, repayments, staff, guarantors, nextLoanId, first)
    requires IsPending(loans, loanId) && approval.loanId == loanId
    ensures TablesValid(loans[loanId := loans[loanId].(status := Approved)], approvals + [approval],
                        repayments + (if inserted then ScheduleRows(first, loanId, today, emi, tenure) else map[]),
                        staff, guarantors, nextLoanId,
                        if inserted then first + Amortization.MonthsOf(tenure) else first)
  {
    ApprovalOutcome(loans, approvals, repayments, first, loanId, approval, today, emi, tenure, inserted);
  }

  /** The bulk insert: the collected rows receive the ids `first`,
      `first + 1`, ... in order, which makes them the schedule. */
  method NumberRows(rows: seq<Repayment>, first: int, loanId: int, today: Date, emi: real, tenure: int)
    returns (added: map<int, Repayment>)
    requires |rows| == Amortization.MonthsOf(tenure)
    requires forall j :: 0 <= j < |rows| ==> rows[j] == Installment(loanId, today, emi, j + 1)
    ensures added == ScheduleRows(first, loanId, today, emi, tenure)
  {
    added := map k | k in IdRange(first, |rows|) :: rows[k - first];
    CollectedRowsAreSchedule(rows, first, loanId, today, emi, tenure);
  }

  /** The installments the approval loop pushes, months `1 .. tenure`. */
  method BuildSchedule(loanId: int, today: Date, emi: real, tenure: int) returns (rows: seq<Repayment>)
    ensures |rows| == Amortization.MonthsOf(tenure)
    ensures forall j :: 0 <= j < |rows| ==> rows[j] == Installment(loanId, today, emi, j + 1)
  {
    rows := [];
    var i := 1;
    while i <= tenure
      invariant 1 <= i <= Amortization.MonthsOf(tenure) + 1 && |rows| == i - 1
      invariant forall j :: 0 <= j < |rows| ==> rows[j] == Installment(loanId, today, emi, j + 1)
    {
      rows := rows + [Installment(loanId, today, emi, i)];
      i := i + 1;
    }
  }

  // ---------------------------------------------------------------------------
  // The tables and the request handlers
  // ---------------------------------------------------------------------------

  class LoanDatabase {
    var loans: map<int, Loan>
    var approvals: seq<Approval>
    var repayments: map<int, Repayment>
    var staff: seq<StaffMember>
    var guarantors: seq<Guarantor>
    /** The AUTO_INCREMENT counters of `Loan.loan_id` and `Repayment.repayment_id`. */
    var nextLoanId: int
    var nextRepaymentId: int

    ghost predicate Valid()
      reads this
    {
      TablesValid(loans, approvals, repayments, staff, guarantors, nextLoanId, nextRepaymentId)
    }

    constructor ()
      ensures Valid()
      ensures loans == map[] && approvals == [] && repayments == map[] && staff == [] && guarantors == []
      ensures nextLoanId == 1 && nextRepaymentId == 1
    {
      loans, approvals, repayments := map[], [], map[];
      staff, guarantors := [], [];
      nextLoanId, nextRepaymentId := 1, 1;
    }

    /** `POST /api/loans`: a new application, always `Pending`, dated today. */
    method CreateLoan(borrowerId: Option<int>, amount: Option<real>, interestRate: Option<real>,
                      tenure: Option<int>, today: Date)
      returns (r: Response<LoanReceipt>)
      requires Valid()
      modifies this
      ensures Valid()
      ensures LifecycleStep(old(loans), loans)
      ensures !(TruthyInt(borrowerId) && TruthyReal(amount) && TruthyReal(interestRate) && TruthyInt(tenure)) ==>
                r == BadRequest(AllFieldsRequired) && unchanged(this)
      ensures TruthyInt(borrowerId) && TruthyReal(amount) && TruthyReal(interestRate) && TruthyInt(tenure) ==>
                && r == Ok(LoanReceipt(old(nextLoanId), LoanStatus.Pending))
                && old(nextLoanId) !in old(loans)
                && loans == old(loans)[old(nextLoanId) :=
                     Loan(borrowerId.value, amount.value, interestRate.value, tenure.value, today, LoanStatus.Pending)]
                && nextLoanId == old(nextLoanId) + 1
                && approvals == old(approvals) && repayments == old(repayments)
                && staff == old(staff) && guarantors == old(guarantors)
                && nextRepaymentId == old(nextRepaymentId)
    {
      if !(TruthyInt(borrowerId) && TruthyReal(amount) && TruthyReal(interestRate) && TruthyInt(tenure)) {
        return BadRequest(AllFieldsRequired);
      }
      var id := nextLoanId;
      loans := loans[id := Loan(borrowerId.value, amount.value, interestRate.value, tenure.value, today, LoanStatus.Pending)];
      nextLoanId := nextLoanId + 1;
      r := Ok(LoanReceipt(id, LoanStatus.Pending));
    }

    /** `PUT /api/loans/:id/approve`, run as one transaction. `staffId` and
        `branchId` are the request's fields, `Absent` when it leaves them out
        and `Null` when it sends `null`. The insert of
        the schedule may fail (`scheduleInserted` false); the transaction then
        commits all the same. */
    method Approve(loanId: int, staffId: Field<int>, branchId: Field<int>, today: Date,
                   scheduleInserted: bool, round2: real -> real)
      returns (r: Response<ApprovalReceipt>)
      requires Valid()
      modifies this
      ensures Valid()
      ensures LifecycleStep(old(loans), loans)
      ensures !IsPending(old(loans), loanId) ==> r == NotFound(AlreadyProcessed) && unchanged(this)
      ensures IsPending(old(loans), loanId) ==>
                var loan := old(loans)[loanId];
                var emi := Amortization.Emi(round2, loan.amount, loan.interestRate, loan.tenure);
                var n := Amortization.MonthsOf(loan.tenure);
                && r == Ok(ApprovalReceipt(loanId, emi))
                && loans == old(loans)[loanId := loan.(status := Approved)]
                && approvals == old(approvals) + [Approval(loanId, DefaultOne(staffId), DefaultOne(branchId), today)]
                && repayments == old(repayments) +
                     (if scheduleInserted then ScheduleRows(old(nextRepaymentId), loanId, today, emi, loan.tenure)
                      else map[])
                && nextRepaymentId == old(nextRepaymentId) + (if scheduleInserted then n else 0)
                && staff == old(staff) && guarantors == old(guarantors) && nextLoanId == old(nextLoanId)
    {
      if !IsPending(loans, loanId) {
        return NotFound(AlreadyProcessed);
      }
      var loan := loans[loanId];
      var emi := Amortization.Emi(round2, loan.amount, loan.interestRate, loan.tenure);
      var approval := Approval(loanId, DefaultOne(staffId), DefaultOne(branchId), today);
      var rows := BuildSchedule(loanId, today, emi, loan.tenure);
      var first := nextRepaymentId;
      var added: map<int, Repayment> := map[];
      if scheduleInserted {
        added := NumberRows(rows, first, loanId, today, emi, loan.tenure);
      }
      var approved := loans[loanId := loan.(status := Approved)];
      var next := if scheduleInserted then first + |rows| else first;
      ApprovalKeepsTables(loans, approvals, repayments, staff, guarantors, nextLoanId, first,
                          loanId, approval, today, emi, loan.tenure, scheduleInserted);
      StatusChangeIsStep(loans, loanId, Approved);
      loans, approvals, repayments, nextRepaymentId := approved, approvals + [approval], repayments + added, next;
      r := Ok(ApprovalReceipt(loanId, emi));
    }

    /** `PUT /api/loans/:id/reject`. */
    method Reject(loanId: int, reason: Option<string>) returns (r: Response<RejectionReceipt>)
      requires Valid()
      modifies this
      ensures Valid()
      ensures LifecycleStep(old(loans), loans)
      ensures !IsPending(old(loans), loanId) ==> r == NotFound(AlreadyProcessed) && unchanged(this)
      ensures IsPending(old(loans), loanId) ==>
                && r == Ok(RejectionReceipt(loanId, ReasonOrDefault(reason)))
                && loans == old(loans)[loanId := old(loans)[loanId].(status := Rejected)]
                && approvals == old(approvals) && repayments == old(repayments)
                && staff == old(staff) && guarantors == old(guarantors)
                && nextLoanId == old(nextLoanId) && nextRepaymentId == old(nextRepaymentId)
    {
      if !IsPending(loans, loanId) {
        return NotFound(AlreadyProcessed);
      }
      RejectionKeepsMatch(loans, approvals, repayments, loanId);
      StatusChangeIsStep(loans, loanId, Rejected);
      loans := loans[loanId := loans[loanId].(status := Rejected)];
      r := Ok(RejectionReceipt(loanId, ReasonOrDefault(reason)));
    }

    /** `PUT /api/repayments/:id/pay`: add a payment to an installment. */
    method Pay(repaymentId: int, amount: Option<real>, today: Date) returns (r: Response<PaymentReceipt>)
      requires Valid()
      modifies this
      ensures Valid()
      ensures !ValidPayment(amount) ==> r == BadRequest(InvalidPayment) && unchanged(this)
      ensures ValidPayment(amount) && repaymentId !in old(repayments) ==>
                r == NotFound(RepaymentMissing) && unchanged(this)
      ensures ValidPayment(amount) && repaymentId in old(repayments) ==>
                var posted := Posted(old(repayments)[repaymentId], amount.value, today);
                && r == Ok(PaymentReceipt(repaymentId, posted.amountPaid, posted.status))
                && posted.amountPaid > old(repayments)[repaymentId].amountPaid
                && repayments == old(repayments)[repaymentId := posted]
                && loans == old(loans) && approvals == old(approvals)
                && staff == old(staff) && guarantors == old(guarantors)
                && nextLoanId == old(nextLoanId) && nextRepaymentId == old(nextRepaymentId)
    {
      if !ValidPayment(amount) {
        return BadRequest(InvalidPayment);
      }
      if repaymentId !in repayments {
        return NotFound(RepaymentMissing);
      }
      var posted := Posted(repayments[repaymentId], amount.value, today);
      PostedConsistent(repayments[repaymentId], amount.value, today);
      repayments := repayments[repaymentId := posted];
      r := Ok(PaymentReceipt(repaymentId, posted.amountPaid, posted.status));
    }

    /** `POST /api/staff`: the new member gets `MAX(staff_id) + 1`. */
    method AddStaff(name: Option<string>, role: Option<string>, branchId: Option<int>) returns (r: Response<int>)
      requires Valid()
      modifies this
      ensures Valid()
      ensures !(TruthyText(name) && TruthyText(role)) ==> r == BadRequest(StaffFieldsRequired) && unchanged(this)
      ensures TruthyText(name) && TruthyText(role) ==>
                var id := NextId(StaffIds(old(staff)));
                && r == Ok(id)
                && (forall i :: 0 <= i < |old(staff)| ==> old(staff)[i].id < id)
                && staff == old(staff) + [StaffMember(id, name.value, role.value,
                                                      if TruthyInt(branchId) then branchId else None)]
                && loans == old(loans) && approvals == old(approvals) && repayments == old(repayments)
                && guarantors == old(guarantors)
                && nextLoanId == old(nextLoanId) && nextRepaymentId == old(nextRepaymentId)
    {
      if !(TruthyText(name) && TruthyText(role)) {
        return BadRequest(StaffFieldsRequired);
      }
      var id := NextId(StaffIds(staff));
      NextIdKeepsDistinct(StaffIds(staff));
      assert forall i :: 0 <= i < |staff| ==> StaffIds(staff)[i] == staff[i].id;
      var member := StaffMember(id, name.value, role.value, if TruthyInt(branchId) then branchId else None);
      assert StaffIds(staff + [member]) == StaffIds(staff) + [id];
      staff := staff + [member];
      r := Ok(id);
    }

    /** `POST /api/guarantors`: the new guarantor gets `MAX(guarantor_id) + 1`. */
    method AddGuarantor(name: Option<string>, contact: Option<string>, relation: Option<string>,
                        borrowerId: Option<int>)
      returns (r: Response<int>)
      requires Valid()
      modifies this
      ensures Valid()
      ensures !(TruthyText(name) && TruthyText(contact) && TruthyInt(borrowerId)) ==>
                r == BadRequest(GuarantorFieldsRequired) && unchanged(this)
      ensures TruthyText(name) && TruthyText(contact) && TruthyInt(borrowerId) ==>
                var id := NextId(GuarantorIds(old(guarantors)));
                && r == Ok(id)
                && (forall i :: 0 <= i < |old(guarantors)| ==> old(guarantors)[i].id < id)
                && guarantors == old(guarantors) + [Guarantor(id, name.value, contact.value,
                                                    if TruthyText(relation) then relation.value else "Friend",
                                                    borrowerId.value)]
                && loans == old(loans) && approvals == old(approvals) && repayments == old(repayments)
                && staff == old(staff)
                && nextLoanId == old(nextLoanId) && nextRepaymentId == old(nextRepaymentId)
    {
      if !(TruthyText(name) && TruthyText(contact) && TruthyInt(borrowerId)) {
        return BadRequest(GuarantorFieldsRequired);
      }
      var id := NextId(GuarantorIds(guarantors));
      NextIdKeepsDistinct(GuarantorIds(guarantors));
      assert forall i :: 0 <= i < |guarantors| ==> GuarantorIds(guarantors)[i] == guarantors[i].id;
      var g := Guarantor(id, name.value, contact.value, if TruthyText(relation) then relation.value else "Friend",
                         borrowerId.value);
      assert GuarantorIds(guarantors + [g]) == GuarantorIds(guarantors) + [id];
      guarantors := guarantors + [g];
      r := Ok(id);
    }
  }
}
