# Microfinance loan lifecycle — a Dafny model

This project models the core of a small microfinance system: an Express/MySQL
backend and a React frontend.

- **The loan lifecycle** in the backend. `LoanStore.LoanDatabase` is a class
  that holds the tables the handlers change:
  - `loans`: id to loan;
  - `approvals`: the approval rows, in order;
  - `repayments`: id to installment;
  - `staff` and `guarantors`;
  - the two auto-increment counters.

  Each handler is a method that runs as one atomic step:
  - create a loan application;
  - approve it, writing an approval row and a `tenure`-month installment schedule;
  - reject it;
  - post a payment to an installment;
  - add staff or guarantors with `MAX(id) + 1` ids.

  `Valid()` is the invariant every handler keeps:
  - keys come from the counters;
  - approval rows and approved loans correspond one to one;
  - installments belong to approved loans and their status agrees with what was paid;
  - staff and guarantor ids are distinct.

  Every handler's loan-table change is a `LifecycleStep`: loans never disappear, and a status only moves Pending → Approved or Pending → Rejected. So Approved and Rejected are terminal.
- **The EMI formula and the amortization schedule** (`Amortization`).
  - The closed-form EMI is defined over reals, with NaN mapped to 0.
  - The schedule loop is an imperative method proved against the predicate `IsSchedule`.
  - Lemmas prove that the exact EMI amortizes the loan: the balance is 0 after the last month, the principal is repaid, and the schedule does not stop early.
  - The calculator's input validation and its backend/fallback choice are modelled.
- **The frontend classifiers**:
  - `RepaymentView`: the repayment status badge, the days overdue and the summary cards;
  - `Analytics`: the defaulter risk bucket;
  - `LoansList`: the Demo filter, the exact-match status badge, the Pending-only actions and the quick stats;
  - `HomePage`: the case-insensitive badge and display name, the dashboard counts, the recent-loans slice and the progress bars.

Modelling choices:
- Amounts are `real`.
- `round2` stands for `parseFloat(x.toFixed(2))`. It is a parameter, so every property holds for any rounding.
- A JavaScript value that is missing, null or NaN is `Option.None`. The truthiness tests `!x` are the predicates in `Common`. Where a destructuring default tells a missing field from a `null` (the approval's staff and branch ids), the field is a `Common.Field`: `Absent`, `Null` or `Value`.
- Backend dates are `Date(month, day)`. The i-th installment is due at `AddMonths(today, i)`. `today` (`CURDATE()`, `new Date()`) is a parameter.
- Frontend due dates are day numbers. `now` is a real day count.
- The approval's schedule insert can fail, and the transaction then commits anyway. This is the boolean `scheduleInserted`: with `false`, the loan ends up Approved, with its approval row and no installments. The model keeps this behaviour of the code as it is.

Where the code does less than its own structure suggests, the model follows what the code does:
- The approval handler wraps its queries in a transaction (microfinance-backend/server.js:132-199), which a reader expects to make the approval and its schedule all-or-nothing. The schedule insert's error, however, is only logged, and the transaction commits. So a failed schedule insert leaves an Approved loan with no installments (`LoanStore.ApprovalOutcome`), and "a loan has `tenure` installments" holds only when the insert succeeds.
- A non-positive `tenure` gives no installments and an empty amortization schedule.
- The `'Pending'` branch of the payment status is unreachable; `LoanStore.PostedConsistent` proves this.

## Model

| member | source | states |
|---|---|---|
| `Amortization.MonthlyRate` | microfinance-frontend/src/components/EMICalculator.js:20 | The monthly rate is the annual percentage divided by 1200. |
| `Amortization.EmiRaw` | microfinance-backend/server.js:29-32 | No value for a zero-month term, where the denominator vanishes. Whenever it has a value E for a non-negative term n, E solves the annuity equation E·((1+r)^n − 1) = P·r·(1+r)^n, with r the monthly rate. |
| `Amortization.Emi` | microfinance-backend/server.js:29-34 | The EMI that `calculateEMI` (and the identical `calculateEMIClient` of EMICalculator.js:18-28) returns: a zero rate gives 0, and positive inputs give the rounded formula value, which is then defined. |
| `Amortization.ZeroRateEmi` | microfinance-frontend/src/components/EMICalculator.js:18-28 | At a zero rate the formula is 0/0 (NaN), whatever the principal and term. |
| `Amortization.EmiRawPositive` | microfinance-backend/server.js:29-34 | For positive principal and rate and at least one month, the formula gives a finite, positive EMI. |
| `Amortization.GenerateSchedule` | microfinance-frontend/src/components/EMICalculator.js:31-57 | The result is the schedule (`IsSchedule`). It has at most `months` entries, numbered 1, 2, … consecutively. Each payment is the rounded EMI and each reported balance is ≥ 0. Every month before the last has a positive running balance, so the loop stops right after the first non-positive one. |
| `Amortization.ScheduleUnique` | microfinance-frontend/src/components/EMICalculator.js:37-51 | Two schedules for the same inputs are equal, so `IsSchedule` determines the loop's output. |
| `Amortization.BalanceIsPrincipalLessRepaid` | microfinance-frontend/src/components/EMICalculator.js:38-40 | The running balance after k months is the principal minus the sum of the principal components of those months. Each principal component is the EMI less the interest on the previous balance. |
| `Amortization.BalanceClosedForm` | microfinance-frontend/src/components/EMICalculator.js:38-40 | Closed form of the balance after k months: P·q^k − emi·(1 + q + … + q^(k−1)), with q = 1 + r. |
| `Amortization.GeometricSum` | microfinance-frontend/src/components/EMICalculator.js:38-40 | (1 + q + … + q^(k−1))·(q − 1) = q^k − 1. |
| `Amortization.ExactEmiAmortizes` | microfinance-frontend/src/components/EMICalculator.js:18-51 | With the unrounded EMI, the running balance is exactly 0 after the last month and the principal is repaid in full. |
| `Amortization.ExactEmiFullSchedule` | microfinance-frontend/src/components/EMICalculator.js:37-51 | With the unrounded EMI on positive inputs, the schedule has exactly `months` entries: it never breaks early. |
| `Amortization.Truncate` | microfinance-backend/server.js:50 | `parseInt` of a number x with 10^-6 ≤ abs(x) < 10^21: the integer part, rounded toward zero, so within 1 of the number and not farther from 0. The model applies the same rule to every x; the two ranges outside are listed under "## Left out". |
| `Amortization.QuoteEmi` | microfinance-backend/server.js:41-59 | Returns 400 "All fields are required" exactly when amount, rate or tenure is missing or zero; the test is on the tenure as sent. Otherwise it returns the rounded EMI, total payment and total interest, computed over the tenure's integer part (for a tenure t with 10^-6 ≤ abs(t) < 10^21, see "## Left out"). |
| `Amortization.QuoteInterestIsTotalLessPrincipal` | microfinance-backend/server.js:48-58 | For a whole-month tenure, before rounding, the quoted EMI is `calculateEMI` over that many months, total payment = EMI × tenure, and total interest = total payment − principal. |
| `Amortization.ValidateInputs` | microfinance-frontend/src/components/EMICalculator.js:66-81 | "Fill all fields" exactly when a field is missing or zero. No error exactly when all three are present and positive. |
| `Amortization.HandleCalculate` | microfinance-frontend/src/components/EMICalculator.js:59-119 | It refuses exactly when validation fails, and then it produces no schedule. Otherwise it uses the backend EMI if one arrived, else the client formula. The schedule is then `IsSchedule` for that EMI, with between 1 and `tenure` entries. |
| `LoanStore.DefaultOne` | microfinance-backend/server.js:130 | A staff or branch id left out of the request becomes 1. An explicit `null` stays NULL, and a sent value is kept. |
| `LoanStore.Installment` | microfinance-backend/server.js:172-179 | The row pushed for month i is a consistent, Pending installment for the EMI with nothing paid and no penalty. For i ≥ 1 it falls due after the approval date. |
| `LoanStore.ScheduleRows` | microfinance-backend/server.js:168-183 | The schedule's ids are exactly the next `max(tenure, 0)` counter values. Every row belongs to the loan, is due the EMI, has nothing paid and is consistent. |
| `LoanStore.ReasonOrDefault` | microfinance-backend/server.js:226 | The echoed reason is the given one when non-empty, otherwise "Not specified". |
| `LoanStore.Posted` | microfinance-backend/server.js:265-279 | The amount paid accumulates. The status is Paid iff the new amount ≥ the amount due, and Partial iff 0 < new < due. The penalty is (due − new)·0.02 when short and overdue, otherwise unchanged. Loan, due date and amount due never change. |
| `LoanStore.PostedConsistent` | microfinance-backend/server.js:278-279 | A positive payment keeps a row's status consistent with its amount paid. It never yields the status `Pending`. |
| `LoanStore.TwoPaymentsAccumulate` | microfinance-backend/server.js:265 | Two postings add both payments, and the row is Paid exactly when their sum covers the amount due. |
| `LoanStore.PaidStaysPaid` | microfinance-backend/server.js:271-279 | A paid row stays Paid under a further payment, and its penalty is kept. |
| `LoanStore.PenaltyNotCumulative` | microfinance-backend/server.js:271-273 | The penalty is recomputed from what is outstanding, not summed over postings. |
| `LoanStore.LifecycleTransitive` | microfinance-backend/server.js:128-230 | Lifecycle steps compose. |
| `LoanStore.StatusChangeIsStep` | microfinance-backend/server.js:151 | Moving one loan along Pending → Approved/Rejected is a lifecycle step. |
| `LoanStore.TerminalStatusesStay` | microfinance-backend/server.js:136-146 | A loan that is Approved or Rejected is unchanged by any lifecycle step. |
| `LoanStore.NextId` | microfinance-backend/server.js:440-445 | `COALESCE(MAX(id), 0) + 1` exceeds every existing id. It is 1 on an empty table, and otherwise one more than an existing id. |
| `LoanStore.NextIdKeepsDistinct` | microfinance-backend/server.js:440-448 | Appending the allocated id keeps the ids distinct. |
| `LoanStore.IdRangeSize` | microfinance-backend/server.js:182-183 | A bulk insert of n rows receives n ids. |
| `LoanStore.PendingHasNoInstallments` | microfinance-backend/server.js:166-190 | Under the invariant, a pending loan owns no installments. |
| `LoanStore.ApprovalKeepsMatch` | microfinance-backend/server.js:151-165 | Approving a pending loan and appending its approval row keeps the correspondences. This holds when it also receives fresh, consistent installments of its own. |
| `LoanStore.RejectionKeepsMatch` | microfinance-backend/server.js:219-220 | Rejecting a pending loan keeps the correspondences. |
| `LoanStore.ScheduleIsLoansInstallments` | microfinance-backend/server.js:166-190 | After the schedule insert, the loan's installments are exactly the ids the insert received. |
| `LoanStore.ScheduleRowsAt` | microfinance-backend/server.js:170-180 | Installment i (1..tenure) has id first + i − 1 and is due i months ahead, with amount due = EMI, paid = 0, penalty = 0 and status Pending. |
| `LoanStore.ApprovalOutcome` | microfinance-backend/server.js:166-199 | After an approval the correspondences hold and the counter covers the new ids. When the insert succeeded, the loan owns exactly `tenure` installments, the i-th due i months ahead. When it failed, the loan owns none. |
| `LoanStore.ApprovalKeepsTables` | microfinance-backend/server.js:128-205 | An approval keeps the whole table invariant. |
| `LoanStore.CollectedRowsAreSchedule` | microfinance-backend/server.js:182-183 | The rows collected by the loop, keyed by their insert ids, are the schedule. |
| `LoanStore.NumberRows` | microfinance-backend/server.js:182-183 | The bulk insert numbers the collected rows from the counter and yields the schedule. |
| `LoanStore.BuildSchedule` | microfinance-backend/server.js:168-180 | The loop pushes one row per month 1..tenure, row j being installment j + 1. |
| `LoanStore.LoanDatabase.CreateLoan` | microfinance-backend/server.js:108-125 | Returns 400 with no change unless all four fields are truthy. Otherwise it inserts exactly one `Pending` loan under the fresh id and returns that id. Nothing else changes. |
| `LoanStore.LoanDatabase.Approve` | microfinance-backend/server.js:128-205 | Returns 404 with no change unless the loan is Pending. Otherwise that loan becomes Approved, one approval row is appended (a staff or branch id left out becoming 1, an explicit null staying NULL) and the schedule is added if the insert succeeded. The commit happens either way. Nothing else changes. |
| `LoanStore.LoanDatabase.Reject` | microfinance-backend/server.js:207-230 | Returns 404 with no change unless the loan is Pending. Otherwise only that loan becomes Rejected: no approval or installment rows are added. The reason defaults to "Not specified". |
| `LoanStore.LoanDatabase.Pay` | microfinance-backend/server.js:251-291 | Returns 400 for a missing or non-positive amount and 404 for an unknown id, changing nothing. Otherwise only that row is replaced by `Posted`, with a strictly larger amount paid, and the new amount and status are returned. |
| `LoanStore.LoanDatabase.AddStaff` | microfinance-backend/server.js:433-457 | Returns 400 with no change unless name and role are non-empty. Otherwise it appends one member with an id above every existing one. A falsy branch id becomes null. |
| `LoanStore.LoanDatabase.AddGuarantor` | microfinance-backend/server.js:476-500 | Returns 400 with no change unless name, contact and borrower id are given. Otherwise it appends one guarantor with an id above every existing one, the relation defaulting to "Friend". |
| `RepaymentView.GetStatusInfo` | microfinance-frontend/src/components/RepaymentManagement.js:87-102 | Unparseable amounts count as 0. The result is Paid iff paid ≥ due, and Partial iff 0 < paid < due. Otherwise it is Overdue iff the due date is past, else Pending. Each label has its badge colour. |
| `RepaymentView.LabelVariantInjective` | microfinance-frontend/src/components/RepaymentManagement.js:93-101 | Different labels have different badge colours. |
| `RepaymentView.Ceil` | microfinance-frontend/src/components/RepaymentManagement.js:130 | `Math.ceil`: the least integer ≥ x. |
| `RepaymentView.GetDaysOverdue` | microfinance-frontend/src/components/RepaymentManagement.js:126-132 | Never negative, and positive iff the due date is in the past. It is then the day difference rounded up. |
| `RepaymentView.TotalDue` | microfinance-frontend/src/components/RepaymentManagement.js:135 | The "Total due" card is not negative when no row owes a negative amount. |
| `RepaymentView.TotalPaid` | microfinance-frontend/src/components/RepaymentManagement.js:136 | The "Total paid" card covers the total due when every row is paid in full, and does not exceed it when no row is overpaid. |
| `RepaymentView.TotalPending` | microfinance-frontend/src/components/RepaymentManagement.js:135-137 | The "Pending amount" card is ≥ 0 while no row is overpaid and ≤ 0 once every row is paid in full. |
| `RepaymentView.TotalsSplit` | microfinance-frontend/src/components/RepaymentManagement.js:135-136 | The due and paid totals of two concatenated lists are the sums of their totals. |
| `RepaymentView.PendingIsOutstanding` | microfinance-frontend/src/components/RepaymentManagement.js:135-137 | The pending total (total due − total paid) is the sum over the rows of due − paid. |
| `RepaymentView.AllPaidNothingPending` | microfinance-frontend/src/components/RepaymentManagement.js:93-94 | If every row is labelled Paid, the pending total is ≤ 0. |
| `RepaymentView.OverdueAgreesWithLabel` | microfinance-frontend/src/components/RepaymentManagement.js:370-377 | A row's `isOverdue` holds iff its days overdue are positive and it is not fully paid. Such a row is labelled Partial or Overdue, never Paid, and every Overdue-labelled row is overdue. |
| `RepaymentView.OverdueRows` | microfinance-frontend/src/components/RepaymentManagement.js:138-142 | The overdue filter keeps exactly the late, not fully paid rows, and no more rows than there are. |
| `RepaymentView.OverdueRowsAppend` | microfinance-frontend/src/components/RepaymentManagement.js:138-142 | The filter distributes over concatenation. With the membership contract this fixes its result row by row, repeated rows and order included. |
| `RepaymentView.OverdueCount` | microfinance-frontend/src/components/RepaymentManagement.js:138-142 | The "Overdue" card counts at least the rows labelled Overdue and at most the rows not labelled Paid. |
| `RepaymentView.OverdueRowsBounds` | microfinance-frontend/src/components/RepaymentManagement.js:138-142 | The Overdue-labelled rows ≤ the rows the overdue filter keeps ≤ the rows not labelled Paid ≤ the number of rows. |
| `Analytics.RiskOf` | microfinance-frontend/src/components/Analytics.js:114-118 | High Risk iff days > 90, Medium Risk iff 60 < days ≤ 90, Watch List iff days ≤ 60 or null. |
| `Analytics.BadgeOf` | microfinance-frontend/src/components/Analytics.js:115-117 | Each risk level has its own badge colour: danger iff High Risk, warning iff Medium Risk, info iff Watch List. |
| `Analytics.GetDefaulterStatus` | microfinance-frontend/src/components/Analytics.js:114-118 | The badge is danger/"High Risk", warning/"Medium Risk" or info/"Watch List" in those three cases. |
| `Analytics.RiskMonotone` | microfinance-frontend/src/components/Analytics.js:114-118 | More days overdue never give a lower risk level. |
| `Analytics.BadgeInjective` | microfinance-frontend/src/components/Analytics.js:115-117 | Each badge names one risk level. |
| `LoansList.RealLoans` | microfinance-frontend/src/components/LoansList.js:20 | Keeps exactly the rows whose status is not "Demo", and no more rows than there are. |
| `LoansList.RealLoansAppend` | microfinance-frontend/src/components/LoansList.js:20 | Filtering distributes over concatenation, so the original order is kept. |
| `LoansList.RealLoansIdempotent` | microfinance-frontend/src/components/LoansList.js:20 | Filtering twice is filtering once. |
| `LoansList.CountStatus` | microfinance-frontend/src/components/LoansList.js:256-276 | A status count never exceeds the number of rows. |
| `LoansList.ThreeCountsBounded` | microfinance-frontend/src/components/LoansList.js:256-276 | The counts of three different statuses add up to at most the number of rows. |
| `LoansList.StatusVariant` | microfinance-frontend/src/components/LoansList.js:85-93 | Exact match: Approved → success, Pending → warning, Rejected → danger, Completed → info, exactly as iff; everything else → secondary. |
| `LoansList.RowActions` | microfinance-frontend/src/components/LoansList.js:207-225 | Approve/Reject are offered iff the status is exactly "Pending"; every other row shows no actions. |
| `LoansList.ActionsAgreeWithBadge` | microfinance-frontend/src/components/LoansList.js:207-225 | A row has actions iff its badge is the warning one. |
| `LoansList.AwaitingIsActionable` | microfinance-frontend/src/components/LoansList.js:284-286 | "Awaiting Action" equals the number of rows that offer actions. |
| `LoansList.Stats` | microfinance-frontend/src/components/LoansList.js:240-288 | Total is the row count. Approved, Pending and Rejected are the numbers of rows with exactly that status, so Approved + Pending + Rejected ≤ Total; and "Awaiting Action" equals the Pending count. |
| `HomePage.StatusVariant` | microfinance-frontend/src/components/HomePage.js:58-66 | Case-insensitive: approved → success, pending → warning, rejected → danger, completed → info, each as iff; anything else, including null, → secondary. |
| `HomePage.StatusDisplayName` | microfinance-frontend/src/components/HomePage.js:68-76 | The four statuses, in any case, get their canonical spelling. Any other non-empty status is returned unchanged, and a null or empty one gives "Unknown". |
| `HomePage.DisplayNameIdempotent` | microfinance-frontend/src/components/HomePage.js:68-76 | The display name of a display name is itself. |
| `HomePage.DisplayNameKeepsVariant` | microfinance-frontend/src/components/HomePage.js:58-76 | The badge of the display name is the badge of the status. |
| `HomePage.VariantIsListVariantOfDisplayName` | microfinance-frontend/src/components/HomePage.js:58-76 | The dashboard's case-insensitive badge equals the loan list's exact-match badge of the display name. |
| `HomePage.CanonicalSpellings` | microfinance-frontend/src/components/HomePage.js:68-76 | The canonical names lower-case to the keywords; "Unknown" is not a keyword. |
| `HomePage.FetchDashboard` | microfinance-frontend/src/components/HomePage.js:21-47 | The active and pending counts come from the non-Demo list and together never exceed its length. The recent loans are its first min(5, n) entries. The total is the summary's, or 0. |
| `HomePage.ProgressPercent` | microfinance-frontend/src/components/HomePage.js:256-268 | The denominator is max(total, 1), so there is no division by zero. The bar is ≥ 0, at most 100 when count ≤ total, and count·100 when total ≤ 1. |

## Left out

- Express routing and the MySQL connection are not modelled. Neither are the read-only report endpoints: the loan, repayment, borrower and staff lists, the portfolio, defaulter and regional analytics, the branch and region lists, health and debug. All of their logic is SQL run by the database.
- Borrower creation, region creation (`POST /api/regions`, microfinance-backend/server.js:648-664, a 400 without a name and otherwise one insert), and guarantor update/delete are plain pass-through inserts and updates; they are not modelled.
- Transactions, rollbacks and concurrency are not modelled. Each handler is one atomic step. Lost updates between concurrent payments are not captured.
- A failing query (the 500 answers) is not modelled, except the schedule insert of an approval, which is the boolean `scheduleInserted`.
- Floating point is not modelled. Amounts are reals, and `toFixed(2)`/`parseFloat` rounding is the abstract `round2`. The string formatting of `toFixed` is left out, so responses carry the number.
- Amortization.EmiRaw: JavaScript gives Infinity, not NaN, for a non-zero numerator over a zero denominator. This happens only for `months = 0` or a rate of −2400 %. The model maps that case to 0 together with NaN.
- Calendar arithmetic is not modelled. `setMonth` overflow on short months, `toISOString` time zones and daylight-saving shifts in the millisecond day difference are left out. Backend dates are (month, day) pairs and frontend dates are day numbers.
- Request bodies with non-numeric strings, where JavaScript coerces through `parseFloat`/`parseInt`, are not modelled. Numeric fields arrive as numbers, and absent, null or NaN values as `None`. The app's own forms post numbers as strings, and a numeric string such as "0" is truthy, so the source accepts it where the model's truthiness test on the number 0 refuses. This affects the 400 checks of `LoanStore.LoanDatabase.CreateLoan` and `LoanStore.LoanDatabase.AddGuarantor`, and the `branch_id || null` of `LoanStore.LoanDatabase.AddStaff`, which keeps "0" where the model stores null. The approval's staff and branch ids are the exception: there, a field left out and a `null` differ, and the model keeps them apart.
- Amortization.Truncate: `parseInt` reads the number's string form. JavaScript writes a number with 0 < |x| < 10^-6 or |x| ≥ 10^21 in exponent notation, and `parseInt` then keeps only the digits before the `e`. So `parseInt(5e-7)` is 5 and `parseInt(1.5e-7)` is 1, and a number of 10^21 or more gives its leading digit. The model truncates toward zero on these ranges too, giving 0 for the small ones.
- Amortization.QuoteEmi: a tenure t with 10^-6 ≤ |t| < 1 passes the 400 check and truncates to 0 months. JavaScript then quotes an Infinity EMI and a NaN total; the model quotes 0, as the `Amortization.EmiRaw` line above explains. A tenure with 0 < |t| < 10^-6 or |t| ≥ 10^21 is quoted in JavaScript over the leading digit of its exponent notation (5e-7 gives 5 months), while the model quotes it over the truncated value (0 months for the small range), as the `Amortization.Truncate` line explains.
- LoanStore.LoanDatabase.CreateLoan: the tenure is taken as an integer. A fractional tenure in the request is stored as the Loan table's column converts it, and that schema is not part of this model.
- LoanStore.LoanDatabase.Approve: an explicit `null` staff or branch id is stored as NULL (`None` in the approval row). If the LoanApproval table refused NULL, the insert would fail and the handler would answer 500 after a rollback. That failure is not modelled, because the table's schema is not part of this model.
- Authentication and the hard-coded admin login are not modelled. Neither are React rendering, `setState`, axios, the other UI components and `Intl.NumberFormat` currency formatting.
- `toLowerCase` is modelled on ASCII letters only. This does not change which statuses match the four keywords.
- The portfolio-summary figures (`total_loans`) come from SQL. They are an input of `HomePage.FetchDashboard`.
