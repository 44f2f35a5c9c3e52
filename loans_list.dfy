/** The loan list page: the Demo filter, the status badge, the per-row
    actions and the quick-stat cards. */
module LoansList {
  import opened Common

  /** A row of `GET /api/loans`; `status` is `None` when it is null. */
  datatype LoanRow = LoanRow(loanId: int, status: Option<string>)

  predicate IsDemo(row: LoanRow) {
    row.status == Some("Demo")
  }

  /** The loans the page lists: every row but the Demo ones, in their order. */
  function RealLoans(loans: seq<LoanRow>): (r: seq<LoanRow>)
    ensures |r| <= |loans|
    ensures forall x :: x in r <==> x in loans && !IsDemo(x)
  {
    if loans == [] then []
    else (if IsDemo(loans[0]) then [] else [loans[0]]) + RealLoans(loans[1..])
  }

  /** The filter keeps the original order: filtering two lists one after the
      other gives the filtered lists one after the other. */
  lemma {:induction false} RealLoansAppend(a: seq<LoanRow>, b: seq<LoanRow>)
    ensures RealLoans(a + b) == RealLoans(a) + RealLoans(b)
  {
    if a == [] {
      assert a + b == b;
    } else {
      assert (a + b)[1..] == a[1..] + b;
      RealLoansAppend(a[1..], b);
    }
  }

  /** Filtering twice is filtering once. */
  lemma {:induction false} RealLoansIdempotent(loans: seq<LoanRow>)
    ensures RealLoans(RealLoans(loans)) == RealLoans(loans)
  {
    if loans != [] {
      var head := if IsDemo(loans[0]) then [] else [loans[0]];
      RealLoansAppend(head, RealLoans(loans[1..]));
      RealLoansIdempotent(loans[1..]);
      assert RealLoans(head) == head;
    }
  }

  /** How many rows carry exactly the status `status`. */
  function CountStatus(loans: seq<LoanRow>, status: string): (n: nat)
    ensures n <= |loans|
  {
    if loans == [] then 0
    else (if loans[0].status == Some(status) then 1 else 0) + CountStatus(loans[1..], status)
  }

  /** No row has two statuses, so the counts of three different statuses
      add up to at most the number of rows. */
  lemma {:induction false} ThreeCountsBounded(loans: seq<LoanRow>, s1: string, s2: string, s3: string)
    requires s1 != s2 && s2 != s3 && s1 != s3
    ensures CountStatus(loans, s1) + CountStatus(loans, s2) + CountStatus(loans, s3) <= |loans|
  {
    if loans != [] {
      ThreeCountsBounded(loans[1..], s1, s2, s3);
    }
  }

  /** `getStatusVariant`, matching the status exactly. */
  function StatusVariant(status: Option<string>): (v: string)
    ensures v == "success" <==> status == Some("Approved")
    ensures v == "warning" <==> status == Some("Pending")
    ensures v == "danger" <==> status == Some("Rejected")
    ensures v == "info" <==> status == Some("Completed")
    ensures v == "secondary" <==> status !in {Some("Approved"), Some("Pending"), Some("Rejected"), Some("Completed")}
  {
    if status == Some("Approved") then "success"
    else if status == Some("Pending") then "warning"
    else if status == Some("Rejected") then "danger"
    else if status == Some("Completed") then "info"
    else "secondary"
  }

  datatype Actions = ApproveOrReject | NoActions

  /** The buttons of a row: Approve and Reject for a pending loan only. */
  function RowActions(row: LoanRow): (a: Actions)
    ensures a == ApproveOrReject <==> row.status == Some("Pending")
  {
    if row.status == Some("Pending") then ApproveOrReject else NoActions
  }

  /** A row has buttons exactly when its badge is the "warning" one. */
  lemma ActionsAgreeWithBadge(row: LoanRow)
    ensures RowActions(row) == ApproveOrReject <==> StatusVariant(row.status) == "warning"
  {
  }

  /** How many rows show the Approve and Reject buttons. */
  function CountActionable(loans: seq<LoanRow>): nat {
    if loans == [] then 0
    else (if RowActions(loans[0]) == ApproveOrReject then 1 else 0) + CountActionable(loans[1..])
  }

  /** The "Awaiting Action" card counts the rows that offer actions. */
  lemma {:induction false} AwaitingIsActionable(loans: seq<LoanRow>)
    ensures Stats(loans).awaiting == CountActionable(loans)
  {
    if loans != [] {
      AwaitingIsActionable(loans[1..]);
    }
  }

  datatype QuickStats = QuickStats(total: nat, approved: nat, pending: nat, rejected: nat, awaiting: nat)

  /** The quick-stat cards over the listed (already filtered) loans. */
  function Stats(loans: seq<LoanRow>): (s: QuickStats)
    ensures s.total == |loans|
    ensures s.approved == CountStatus(loans, "Approved")
    ensures s.pending == CountStatus(loans, "Pending")
    ensures s.rejected == CountStatus(loans, "Rejected")
    ensures s.approved + s.pending + s.rejected <= s.total
    ensures s.awaiting == s.pending
  {
    ThreeCountsBounded(loans, "Approved", "Pending", "Rejected");
    QuickStats(|loans|, CountStatus(loans, "Approved"), CountStatus(loans, "Pending"),
               CountStatus(loans, "Rejected"), CountStatus(loans, "Pending"))
  }
}
