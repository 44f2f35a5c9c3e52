/** The dashboard: its status badge and display name, which ignore case, the
    active and pending counts, the recent-loans table and the progress bars. */
module HomePage {
  import opened Common
  import LoansList

  /** `toLowerCase` on the letters the four status words are made of. */
  function LowerChar(c: char): char {
    if 'A' <= c <= 'Z' then (c as int + 32) as char else c
  }

  function ToLower(s: string): (r: string)
    ensures |r| == |s| && forall i :: 0 <= i < |s| ==> r[i] == LowerChar(s[i])
  {
    seq(|s|, i requires 0 <= i < |s| => LowerChar(s[i]))
  }

  /** The status, lower-cased, is the word `word`; a null status is no word. */
  predicate LowerIs(status: Option<string>, word: string) {
    status.Some? && ToLower(status.value) == word
  }

  predicate Known(status: Option<string>) {
    LowerIs(status, "approved") || LowerIs(status, "pending") || LowerIs(status, "rejected") || LowerIs(status, "completed")
  }

  /** `getStatusVariant`, by the lower-cased status. */
  function StatusVariant(status: Option<string>): (v: string)
    ensures v == "success" <==> LowerIs(status, "approved")
    ensures v == "warning" <==> LowerIs(status, "pending")
    ensures v == "danger" <==> LowerIs(status, "rejected")
    ensures v == "info" <==> LowerIs(status, "completed")
    ensures v == "secondary" <==> !Known(status)
  {
    if LowerIs(status, "approved") then "success"
    else if LowerIs(status, "pending") then "warning"
    else if LowerIs(status, "rejected") then "danger"
    else if LowerIs(status, "completed") then "info"
    else "secondary"
  }

  /** `getStatusDisplayName`: the four known statuses in their canonical
      spelling, any other status as it is, and "Unknown" for a null or empty
      one. */
  function StatusDisplayName(status: Option<string>): (d: string)
    ensures LowerIs(status, "approved") ==> d == "Approved"
    ensures LowerIs(status, "pending") ==> d == "Pending"
    ensures LowerIs(status, "rejected") ==> d == "Rejected"
    ensures LowerIs(status, "completed") ==> d == "Completed"
    ensures !Known(status) && TruthyText(status) ==> d == status.value
    ensures !Known(status) && !TruthyText(status) ==> d == "Unknown"
  {
    if LowerIs(status, "approved") then "Approved"
    else if LowerIs(status, "pending") then "Pending"
    else if LowerIs(status, "rejected") then "Rejected"
    else if LowerIs(status, "completed") then "Completed"
    else if TruthyText(status) then status.value
    else "Unknown"
  }

  lemma CanonicalSpellings()
    ensures ToLower("Approved") == "approved" && ToLower("Pending") == "pending"
    ensures ToLower("Rejected") == "rejected" && ToLower("Completed") == "completed"
    ensures !Known(Some("Unknown"))
  {
    assert ToLower("Unknown")[0] == 'u';
  }

  /** Displaying a displayed name changes nothing. */
  lemma DisplayNameIdempotent(status: Option<string>)
    ensures StatusDisplayName(Some(StatusDisplayName(status))) == StatusDisplayName(status)
  {
    CanonicalSpellings();
  }

  /** The display name keeps the badge colour. */
  lemma DisplayNameKeepsVariant(status: Option<string>)
    ensures StatusVariant(Some(StatusDisplayName(status))) == StatusVariant(status)
  {
    CanonicalSpellings();
  }

  /** The case-insensitive badge of the dashboard is the loan list's exact-match
      badge of the display name. */
  lemma VariantIsListVariantOfDisplayName(status: Option<string>)
    ensures StatusVariant(status) == LoansList.StatusVariant(Some(StatusDisplayName(status)))
  {
    CanonicalSpellings();
  }

  datatype Dashboard = Dashboard(totalLoans: int, activeLoans: nat, pendingLoans: nat,
                                 recentLoans: seq<LoansList.LoanRow>)

  /** `fetchDashboardData`: the counts and the recent loans come from the
      non-Demo loans; the total comes from the portfolio summary, `0` when
      the summary has none. */
  function FetchDashboard(loans: seq<LoansList.LoanRow>, summaryTotal: Option<int>): (d: Dashboard)
    ensures var listed := LoansList.RealLoans(loans);
            && d.activeLoans == LoansList.CountStatus(listed, "Approved")
            && d.pendingLoans == LoansList.CountStatus(listed, "Pending")
            && d.activeLoans + d.pendingLoans <= |listed|
            && |d.recentLoans| == (if |listed| < 5 then |listed| else 5)
            && d.recentLoans == listed[..|d.recentLoans|]
            && d.totalLoans == (if TruthyInt(summaryTotal) then summaryTotal.value else 0)
  {
    var listed := LoansList.RealLoans(loans);
    LoansList.ThreeCountsBounded(listed, "Approved", "Pending", "Rejected");
    Dashboard(if TruthyInt(summaryTotal) then summaryTotal.value else 0,
              LoansList.CountStatus(listed, "Approved"), LoansList.CountStatus(listed, "Pending"),
              if |listed| < 5 then listed else listed[..5])
  }

  /** The width of a progress bar: the count as a percentage of the total,
      the total taken as at least 1 so that nothing is divided by zero. The
      bar is at most full when the count does not exceed the total. */
  function ProgressPercent(count: nat, total: int): (p: real)
    ensures p >= 0.0
    ensures count <= total ==> p <= 100.0
    ensures total <= 1 ==> p == count as real * 100.0
  {
    var m := Max(total as real, 1.0);
    assert m >= 1.0;
    RatioBound(count as real, m);
    count as real / m * 100.0
  }

  lemma RatioBound(c: real, m: real)
    requires c >= 0.0 && m >= 1.0
    ensures c / m >= 0.0
    ensures c <= m ==> c / m <= 1.0
  {
  }
}
