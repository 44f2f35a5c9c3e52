/** The repayment page: the status badge and the days-overdue count of an
    installment row, and the four summary cards over all rows.

    Times are day counts: a due date is the midnight that starts its day, and
    `now` is the moment the page renders, with the time of day as a fraction. */
module RepaymentView {
  import opened Common

  /** A row of the repayment list. A field that is absent or does not parse
      is `None`; `dueDay` is `None` when the date does not parse. */
  datatype RepaymentRow = RepaymentRow(amountDue: Option<real>, amountPaid: Option<real>, dueDay: Option<int>)

  /** An amount that is absent or does not parse counts as 0. */
  function OrZero(x: Option<real>): real {
    if x.Some? then x.value else 0.0
  }

  function DueOf(row: RepaymentRow): real {
    OrZero(row.amountDue)
  }

  function PaidOf(row: RepaymentRow): real {
    OrZero(row.amountPaid)
  }

  /** The due date lies before the current moment; a date that does not
      parse is never before anything. */
  predicate DueBefore(dueDay: Option<int>, now: real) {
    dueDay.Some? && (dueDay.value as real) < now
  }

  datatype Label = Paid | Partial | Overdue | Pending

  datatype StatusInfo = StatusInfo(status: Label, variant: string)

  /** The badge colour of each label. */
  function LabelVariant(which: Label): string {
    match which
    case Paid => "success"
    case Partial => "warning"
    case Overdue => "danger"
    case Pending => "secondary"
  }

  /** Different labels get different badge colours. */
  lemma LabelVariantInjective(a: Label, b: Label)
    requires LabelVariant(a) == LabelVariant(b)
    ensures a == b
  {
  }

  /** `getStatusInfo`: exactly one label is chosen, by the amounts first and
      by the due date only for a row with nothing paid. */
  function GetStatusInfo(row: RepaymentRow, now: real): (s: StatusInfo)
    ensures s.status == Paid <==> PaidOf(row) >= DueOf(row)
    ensures s.status == Partial <==> 0.0 < PaidOf(row) < DueOf(row)
    ensures s.status == Overdue <==> PaidOf(row) <= 0.0 && PaidOf(row) < DueOf(row) && DueBefore(row.dueDay, now)
    ensures s.status == Pending <==> PaidOf(row) <= 0.0 && PaidOf(row) < DueOf(row) && !DueBefore(row.dueDay, now)
    ensures s.variant == LabelVariant(s.status)
  {
    var paid, due := PaidOf(row), DueOf(row);
    if paid >= due then StatusInfo(Paid, "success")
    else if paid > 0.0 && paid < due then StatusInfo(Partial, "warning")
    else if DueBefore(row.dueDay, now) then StatusInfo(Overdue, "danger")
    else StatusInfo(Pending, "secondary")
  }

  /** `Math.ceil`. */
  function Ceil(x: real): (c: int)
    ensures x <= c as real < x + 1.0
  {
    -((-x).Floor)
  }

  /** `getDaysOverdue`: whole days, rounded up, since the due date, and 0 when
      the due date is not in the past or does not parse. */
  function GetDaysOverdue(dueDay: Option<int>, now: real): (d: nat)
    ensures d > 0 <==> DueBefore(dueDay, now)
    ensures d > 0 ==> (d - 1) as real < now - dueDay.value as real <= d as real
  {
    if dueDay.None? then 0
    else
      var c := Ceil(now - dueDay.value as real);
      if c > 0 then c else 0
  }

  /** The "Total due" card: the amounts due summed from the first row to the
      last, an unparseable amount counting as 0. It is not negative when no
      row owes a negative amount. */
  function TotalDue(rows: seq<RepaymentRow>): (t: real)
    ensures (forall i :: 0 <= i < |rows| ==> DueOf(rows[i]) >= 0.0) ==> t >= 0.0
  {
    if rows == [] then 0.0 else TotalDue(rows[..|rows| - 1]) + DueOf(rows[|rows| - 1])
  }

  /** The "Total paid" card, summed the same way. When every row is paid in
      full it covers the total due, and when no row is overpaid it does not
      exceed it. */
  function TotalPaid(rows: seq<RepaymentRow>): (t: real)
    ensures (forall i :: 0 <= i < |rows| ==> PaidOf(rows[i]) >= DueOf(rows[i])) ==> t >= TotalDue(rows)
    ensures (forall i :: 0 <= i < |rows| ==> PaidOf(rows[i]) <= DueOf(rows[i])) ==> t <= TotalDue(rows)
  {
    if rows == [] then 0.0 else TotalPaid(rows[..|rows| - 1]) + PaidOf(rows[|rows| - 1])
  }

  /** The "Pending amount" card: total due less total paid. It is never
      negative while no row is overpaid, and never positive once every row
      is paid in full. */
  function TotalPending(rows: seq<RepaymentRow>): (p: real)
    ensures (forall i :: 0 <= i < |rows| ==> PaidOf(rows[i]) <= DueOf(rows[i])) ==> p >= 0.0
    ensures (forall i :: 0 <= i < |rows| ==> PaidOf(rows[i]) >= DueOf(rows[i])) ==> p <= 0.0
  {
    TotalDue(rows) - TotalPaid(rows)
  }

  /** What is still owed, row by row: the sum of due less paid. */
  function Outstanding(rows: seq<RepaymentRow>): real {
    if rows == [] then 0.0 else (DueOf(rows[0]) - PaidOf(rows[0])) + Outstanding(rows[1..])
  }

  /** Totals over a list split in two parts are the sums of the parts' totals. */
  lemma {:induction false} TotalsSplit(a: seq<RepaymentRow>, b: seq<RepaymentRow>)
    ensures TotalDue(a + b) == TotalDue(a) + TotalDue(b)
    ensures TotalPaid(a + b) == TotalPaid(a) + TotalPaid(b)
  {
    if b == [] {
      assert a + b == a;
    } else {
      var c := b[..|b| - 1];
      assert (a + b)[..|a + b| - 1] == a + c;
      assert (a + b)[|a + b| - 1] == b[|b| - 1];
      TotalsSplit(a, c);
    }
  }

  /** `totalPending` is the sum, over the rows, of what each row still owes. */
  lemma {:induction false} PendingIsOutstanding(rows: seq<RepaymentRow>)
    ensures TotalPending(rows) == Outstanding(rows)
  {
    if rows != [] {
      PendingIsOutstanding(rows[1..]);
      TotalsSplit([rows[0]], rows[1..]);
      assert [rows[0]] + rows[1..] == rows;
      assert [rows[0]][..0] == [];
    }
  }

  /** When every row is labelled `Paid`, nothing is left pending. */
  lemma {:induction false} AllPaidNothingPending(rows: seq<RepaymentRow>, now: real)
    requires forall i :: 0 <= i < |rows| ==> GetStatusInfo(rows[i], now).status == Paid
    ensures TotalPending(rows) <= 0.0
  {
    PendingIsOutstanding(rows);
    AllPaidOutstanding(rows, now);
  }

  lemma {:induction false} AllPaidOutstanding(rows: seq<RepaymentRow>, now: real)
    requires forall i :: 0 <= i < |rows| ==> GetStatusInfo(rows[i], now).status == Paid
    ensures Outstanding(rows) <= 0.0
  {
    if rows != [] {
      assert GetStatusInfo(rows[0], now).status == Paid;
      assert forall i :: 0 <= i < |rows[1..]| ==> rows[1..][i] == rows[i + 1];
      AllPaidOutstanding(rows[1..], now);
    }
  }

  /** The filter of the "Overdue" card, also the row's own `isOverdue`. */
  predicate IsOverdue(row: RepaymentRow, now: real) {
    DueBefore(row.dueDay, now) && PaidOf(row) < DueOf(row)
  }

  /** A row counted overdue is late by at least one day and not paid in full,
      so its label is `Partial` or `Overdue`, never `Paid`; and every row
      labelled `Overdue` is counted. */
  lemma OverdueAgreesWithLabel(row: RepaymentRow, now: real)
    ensures IsOverdue(row, now) <==> GetDaysOverdue(row.dueDay, now) > 0 && PaidOf(row) < DueOf(row)
    ensures IsOverdue(row, now) ==> GetStatusInfo(row, now).status in {Partial, Overdue}
    ensures GetStatusInfo(row, now).status == Overdue ==> IsOverdue(row, now)
  {
  }

  function OverdueRows(rows: seq<RepaymentRow>, now: real): (r: seq<RepaymentRow>)
    ensures |r| <= |rows|
    ensures forall i :: 0 <= i < |r| ==> r[i] in rows && IsOverdue(r[i], now)
    ensures forall i :: 0 <= i < |rows| && IsOverdue(rows[i], now) ==> rows[i] in r
  {
    if rows == [] then []
    else (if IsOverdue(rows[0], now) then [rows[0]] else []) + OverdueRows(rows[1..], now)
  }

  /** The filter keeps the original order: filtering two lists one after the
      other gives the filtered lists one after the other. */
  lemma {:induction false} OverdueRowsAppend(a: seq<RepaymentRow>, b: seq<RepaymentRow>, now: real)
    ensures OverdueRows(a + b, now) == OverdueRows(a, now) + OverdueRows(b, now)
  {
    if a == [] {
      assert a + b == b;
    } else {
      assert (a + b)[1..] == a[1..] + b;
      OverdueRowsAppend(a[1..], b, now);
    }
  }

  /** The "Overdue" card: the length of the overdue filter. It counts every
      row labelled `Overdue` and no row labelled `Paid`. */
  function OverdueCount(rows: seq<RepaymentRow>, now: real): (n: nat)
    ensures CountLabel(rows, now, Overdue) <= n <= |rows| - CountLabel(rows, now, Paid)
  {
    OverdueRowsBounds(rows, now);
    |OverdueRows(rows, now)|
  }

  /** How many rows `getStatusInfo` gives the label `which`. */
  function CountLabel(rows: seq<RepaymentRow>, now: real, which: Label): nat {
    if rows == [] then 0
    else (if GetStatusInfo(rows[0], now).status == which then 1 else 0) + CountLabel(rows[1..], now, which)
  }

  /** The overdue filter keeps at least the rows labelled `Overdue` and at
      most the rows not labelled `Paid`. */
  lemma {:induction false} OverdueRowsBounds(rows: seq<RepaymentRow>, now: real)
    ensures CountLabel(rows, now, Overdue) <= |OverdueRows(rows, now)| <= |rows| - CountLabel(rows, now, Paid)
  {
    if rows != [] {
      OverdueRowsBounds(rows[1..], now);
      OverdueAgreesWithLabel(rows[0], now);
    }
  }
}
