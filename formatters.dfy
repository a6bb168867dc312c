/** The plan tables of utils/formatters.js: the price in rupees and the display name of
    each plan identifier, with their fall-backs for any other string. */
module Formatters {
  import opened UserModel

  /** `getPlanAmount`: the price of a plan identifier; 0 for any other string. */
  function PlanAmount(plan: string): (r: nat)
    ensures r > 0 <==> ParsePlan(plan).Some?
  {
    if plan == "1month" then 1500
    else if plan == "2month" then 2500
    else if plan == "3month" then 3500
    else if plan == "6month" then 5000
    else if plan == "yearly" then 8000
    else 0
  }

  /** `getPlanDisplayName`: the display name of a plan identifier; any other string is
      returned unchanged. */
  function PlanDisplayName(plan: string): (r: string)
    ensures ParsePlan(plan).None? ==> r == plan
  {
    if plan == "1month" then "1 Month"
    else if plan == "2month" then "2 Months"
    else if plan == "3month" then "3 Months"
    else if plan == "6month" then "6 Months"
    else if plan == "yearly" then "1 Year"
    else plan
  }

  /** The price of every plan the schema admits, in rupees. */
  function PlanPrice(p: Plan): (r: nat)
    ensures r == PlanAmount(PlanId(p))
    ensures r > 0
  {
    match p
    case OneMonth => 1500
    case TwoMonth => 2500
    case ThreeMonth => 3500
    case SixMonth => 5000
    case Yearly => 8000
  }

  /** A longer plan always costs more. */
  lemma PriceIncreasesWithDuration(p: Plan, q: Plan)
    ensures Months(p) < Months(q) <==> PlanAmount(PlanId(p)) < PlanAmount(PlanId(q))
  {
  }

  /** The five plans have five different display names, none equal to an identifier. */
  lemma DisplayNamesDistinct(p: Plan, q: Plan)
    ensures PlanDisplayName(PlanId(p)) == PlanDisplayName(PlanId(q)) <==> p == q
    ensures ParsePlan(PlanDisplayName(PlanId(p))).None?
  {
  }
}
