/** The analytics page's risk badge for a defaulter. */
module Analytics {
  import opened Common

  datatype Risk = WatchList | MediumRisk | HighRisk

  datatype Badge = Badge(variant: string, text: string)

  /** Risk levels in increasing order. */
  function Rank(risk: Risk): nat {
    match risk
    case WatchList => 0
    case MediumRisk => 1
    case HighRisk => 2
  }

  /** The bucket `getDefaulterStatus` puts a defaulter in. `daysOverdue` is
      `None` when the field is null or absent: both compare false against the
      thresholds. */
  function RiskOf(daysOverdue: Option<int>): (risk: Risk)
    ensures risk == HighRisk <==> daysOverdue.Some? && daysOverdue.value > 90
    ensures risk == MediumRisk <==> daysOverdue.Some? && 60 < daysOverdue.value <= 90
    ensures risk == WatchList <==> daysOverdue.None? || daysOverdue.value <= 60
  {
    if daysOverdue.Some? && daysOverdue.value > 90 then HighRisk
    else if daysOverdue.Some? && daysOverdue.value > 60 then MediumRisk
    else WatchList
  }

  /** The badge shown for a risk level; its colour alone tells the level. */
  function BadgeOf(risk: Risk): (b: Badge)
    ensures b.variant == "danger" <==> risk == HighRisk
    ensures b.variant == "warning" <==> risk == MediumRisk
    ensures b.variant == "info" <==> risk == WatchList
  {
    match risk
    case HighRisk => Badge("danger", "High Risk")
    case MediumRisk => Badge("warning", "Medium Risk")
    case WatchList => Badge("info", "Watch List")
  }

  /** `getDefaulterStatus`. */
  function GetDefaulterStatus(daysOverdue: Option<int>): (b: Badge)
    ensures daysOverdue.Some? && daysOverdue.value > 90 ==> b == Badge("danger", "High Risk")
    ensures daysOverdue.Some? && 60 < daysOverdue.value <= 90 ==> b == Badge("warning", "Medium Risk")
    ensures daysOverdue.None? || daysOverdue.value <= 60 ==> b == Badge("info", "Watch List")
  {
    BadgeOf(RiskOf(daysOverdue))
  }

  /** More days overdue never give a lower risk level. */
  lemma RiskMonotone(d1: int, d2: int)
    requires d1 <= d2
    ensures Rank(RiskOf(Some(d1))) <= Rank(RiskOf(Some(d2)))
  {
  }

  /** Each badge names one risk level. */
  lemma BadgeInjective(a: Risk, b: Risk)
    requires BadgeOf(a) == BadgeOf(b)
    ensures a == b
  {
  }
}
