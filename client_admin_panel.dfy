/** The computations of the member dashboard in client/src/components/AdminPanel.tsx:
    the tab filters, the plan tables, the revenue figures, the photo address, the
    days-left badge, the actions offered on a row, and the local list after an approval
    or a deletion. Dates are milliseconds; `calendar` gives the local year and month of an
    instant, and `today` is the instant the panel renders at. */
module ClientAdminPanel {
  import opened Text
  import opened Lists
  import opened Clock
  import opened UserModel
  import opened Formatters
  import opened PdfService

  /** A member as the dashboard receives it: every field a string, dates parsed. */
  datatype ClientUser = ClientUser(
    id: string, name: string, email: string, photo: string, plan: string,
    startDate: int, endDate: int, paymentMethod: string, paymentStatus: string)

  /** `isSubscriptionExpired`: today is after the end date. */
  predicate IsSubscriptionExpired(today: int, endDate: int) {
    today > endDate
  }

  datatype Tab = AllTab | PendingTab | PlanTab(plan: Plan) | ExpiredTab | OnlinePaymentTab

  /** The test a tab applies to one member. */
  predicate Selects(tab: Tab, today: int, u: ClientUser) {
    match tab
    case AllTab => true
    case PendingTab => u.paymentStatus == "pending"
    case PlanTab(p) => u.plan == PlanId(p)
    case ExpiredTab => IsSubscriptionExpired(today, u.endDate)
    case OnlinePaymentTab => u.paymentMethod == "online" && u.paymentStatus == "pending"
  }

  function Selector(tab: Tab, today: int): ClientUser -> bool {
    (u: ClientUser) => Selects(tab, today, u)
  }

  /** `filteredUsers`: the list unchanged on the 'all' tab, filtered on every other. */
  function FilteredUsers(users: seq<ClientUser>, tab: Tab, today: int): seq<ClientUser> {
    if tab == AllTab then users else Filter(users, Selector(tab, today))
  }

  /** Every tab shows exactly the members its test selects, each as often as it is
      listed, in the order of the list; 'all' shows the list as it is. */
  lemma FilteredUsersExact(users: seq<ClientUser>, tab: Tab, today: int, u: ClientUser)
    ensures multiset(FilteredUsers(users, tab, today))[u] ==
      if Selects(tab, today, u) then multiset(users)[u] else 0
    ensures IsSubsequence(FilteredUsers(users, tab, today), users)
    ensures tab == AllTab ==> FilteredUsers(users, tab, today) == users
  {
    if tab == AllTab {
      FilterKeepsAll(users, Selector(tab, today));
    }
    FilterMultiplicity(users, Selector(tab, today), u);
    FilterIsSubsequence(users, Selector(tab, today));
  }

  /** Every member of the 'online-payment' tab is also on the 'pending' tab. */
  lemma OnlinePaymentTabWithinPending(users: seq<ClientUser>, today: int, u: ClientUser)
    requires u in FilteredUsers(users, OnlinePaymentTab, today)
    ensures u in FilteredUsers(users, PendingTab, today)
    ensures u.paymentMethod == "online"
  {
    FilterMembership(users, Selector(OnlinePaymentTab, today), u);
    FilterMembership(users, Selector(PendingTab, today), u);
  }

  /** The panel's own `getPlanAmount`. */
  function ClientPlanAmount(plan: string): nat {
    if plan == "1month" then 1500
    else if plan == "2month" then 2500
    else if plan == "3month" then 3500
    else if plan == "6month" then 5000
    else if plan == "yearly" then 8000
    else 0
  }

  /** It is the table of utils/formatters.js, fall-back included. */
  lemma ClientPlanAmountAgrees(plan: string)
    ensures ClientPlanAmount(plan) == PlanAmount(plan)
    ensures ClientPlanAmount(plan) > 0 <==> ParsePlan(plan).Some?
  {
  }

  /** `getPlanAmountDisplay`. */
  function PlanAmountDisplay(plan: string): string {
    if plan == "1month" then "₹1,500"
    else if plan == "2month" then "₹2,500"
    else if plan == "3month" then "₹3,500"
    else if plan == "6month" then "₹5,000"
    else if plan == "yearly" then "₹8,000"
    else "N/A"
  }

  /** The amount shown on a row is the amount printed on the receipt, and it shows 'N/A'
      exactly for the plans that earn nothing in the revenue figures. */
  lemma PlanAmountDisplayAgrees(plan: string)
    ensures PlanAmountDisplay(plan) == ReceiptAmount(plan)
    ensures PlanAmountDisplay(plan) == "N/A" <==> ClientPlanAmount(plan) == 0
  {
    ReceiptAmountMissingIffUnpriced(plan);
  }

  /** The panel's own `getPlanDisplayName`. */
  function ClientPlanDisplayName(plan: string): string {
    if plan == "1month" then "1 Month"
    else if plan == "2month" then "2 Months"
    else if plan == "3month" then "3 Months"
    else if plan == "6month" then "6 Months"
    else if plan == "yearly" then "1 Year"
    else plan
  }

  lemma ClientPlanDisplayNameAgrees(plan: string)
    ensures ClientPlanDisplayName(plan) == PlanDisplayName(plan)
  {
  }

  // ---------------------------------------------------------------- revenue

  predicate Confirmed(u: ClientUser) {
    u.paymentStatus == "confirmed"
  }

  function Amount(u: ClientUser): int {
    ClientPlanAmount(u.plan)
  }

  /** The confirmed revenue of the whole list. */
  function ConfirmedTotal(users: seq<ClientUser>): int {
    SumBy(Filter(users, Confirmed), Amount)
  }

  /** A local year and month. */
  datatype YearMonth = YearMonth(year: int, month: int)

  function StartedIn(calendar: int -> YearMonth, ym: YearMonth): ClientUser -> bool {
    (u: ClientUser) => calendar(u.startDate) == ym && Confirmed(u)
  }

  function StartedInYear(calendar: int -> YearMonth, year: int): ClientUser -> bool {
    (u: ClientUser) => calendar(u.startDate).year == year && Confirmed(u)
  }

  /** `calculateMonthlyRevenue`: confirmed members who started in the current month. */
  function MonthlyRevenue(users: seq<ClientUser>, today: int, calendar: int -> YearMonth): int {
    SumBy(Filter(users, StartedIn(calendar, calendar(today))), Amount)
  }

  /** `calculateYearlyRevenue`: confirmed members who started in the current year. */
  function YearlyRevenue(users: seq<ClientUser>, today: int, calendar: int -> YearMonth): int {
    SumBy(Filter(users, StartedInYear(calendar, calendar(today).year)), Amount)
  }

  /** The month's revenue is part of the year's, which is part of the confirmed total. */
  lemma MonthlyWithinYearly(users: seq<ClientUser>, today: int, calendar: int -> YearMonth)
    ensures 0 <= MonthlyRevenue(users, today, calendar) <= YearlyRevenue(users, today, calendar)
    ensures YearlyRevenue(users, today, calendar) <= ConfirmedTotal(users)
  {
    var month, year := StartedIn(calendar, calendar(today)), StartedInYear(calendar, calendar(today).year);
    SumByFilterMonotone(users, month, year, Amount);
    SumByFilterMonotone(users, year, Confirmed, Amount);
    SumByNonNegative(Filter(users, month), Amount);
  }

  /** The confirmed members whose plan field is `k`. */
  function OfPlan(k: string): ClientUser -> bool {
    (u: ClientUser) => Confirmed(u) && u.plan == k
  }

  /** The revenue of plan `k`. */
  function PlanShare(users: seq<ClientUser>, k: string): int {
    SumBy(Filter(users, OfPlan(k)), Amount)
  }

  /** The keys of `calculateRevenueByPlan`'s result: the five plans, and whatever other
      plan field a confirmed member has. */
  predicate PlanKey(users: seq<ClientUser>, k: string) {
    ParsePlan(k).Some? || exists j :: 0 <= j < |users| && Confirmed(users[j]) && users[j].plan == k
  }

  /** `calculateRevenueByPlan`: the five plans start at 0, and each confirmed member adds
      the amount of its plan to the entry of its plan field, creating that entry if it is
      missing. */
  method RevenueByPlan(users: seq<ClientUser>) returns (revenue: map<string, int>)
    ensures forall k :: k in revenue <==> PlanKey(users, k)
    ensures forall k :: k in revenue ==> revenue[k] == PlanShare(users, k)
  {
    revenue := map["1month" := 0, "2month" := 0, "3month" := 0, "6month" := 0, "yearly" := 0];
    var i := 0;
    while i < |users|
      invariant 0 <= i <= |users|
      invariant revenue == ByPlanTable(users[..i])
    {
      var u := users[i];
      assert users[..i + 1][..i] == users[..i];
      if Confirmed(u) {
        var current := if u.plan in revenue then revenue[u.plan] else 0;
        revenue := revenue[u.plan := current + ClientPlanAmount(u.plan)];
      }
      i := i + 1;
    }
    assert users[..i] == users;
    ByPlanTableUpTo(users, |users|);
  }

  /** The table `calculateRevenueByPlan` returns has the five plans, which add up to the
      confirmed total. */
  lemma RevenueByPlanTotals(users: seq<ClientUser>, revenue: map<string, int>)
    requires forall k :: k in revenue <==> PlanKey(users, k)
    requires forall k :: k in revenue ==> revenue[k] == PlanShare(users, k)
    ensures "1month" in revenue && "2month" in revenue && "3month" in revenue
      && "6month" in revenue && "yearly" in revenue
    ensures revenue["1month"] + revenue["2month"] + revenue["3month"] + revenue["6month"]
      + revenue["yearly"] == ConfirmedTotal(users)
  {
    PlanEntry(users, revenue, "1month");
    PlanEntry(users, revenue, "2month");
    PlanEntry(users, revenue, "3month");
    PlanEntry(users, revenue, "6month");
    PlanEntry(users, revenue, "yearly");
    PlanSharesSumToTotal(users);
  }

  /** A plan of the five always has its entry, holding that plan's revenue. */
  lemma PlanEntry(users: seq<ClientUser>, revenue: map<string, int>, k: string)
    requires forall k :: k in revenue <==> PlanKey(users, k)
    requires forall k :: k in revenue ==> revenue[k] == PlanShare(users, k)
    requires ParsePlan(k).Some?
    ensures k in revenue && revenue[k] == PlanShare(users, k)
  {
    assert PlanKey(users, k);
  }

  /** Any entry of that table for a plan outside the five holds 0. */
  lemma RevenueByPlanUnknownZero(users: seq<ClientUser>, revenue: map<string, int>)
    requires forall k :: k in revenue ==> revenue[k] == PlanShare(users, k)
    ensures forall k :: k in revenue && ParsePlan(k).None? ==> revenue[k] == 0
  {
    forall k | k in revenue && ParsePlan(k).None?
      ensures revenue[k] == 0
    {
      UnknownPlanEarnsNothing(users, k);
    }
  }

  /** The five plans at 0. */
  function InitialPlanTable(): map<string, int> {
    map["1month" := 0, "2month" := 0, "3month" := 0, "6month" := 0, "yearly" := 0]
  }

  /** One member's contribution: a confirmed member adds its amount to the entry of its
      plan field, which starts from 0 when it is missing. */
  function Credit(revenue: map<string, int>, u: ClientUser): map<string, int> {
    if Confirmed(u) then
      revenue[u.plan := (if u.plan in revenue then revenue[u.plan] else 0) + ClientPlanAmount(u.plan)]
    else revenue
  }

  /** The table the members of `s` build, in order. */
  function ByPlanTable(s: seq<ClientUser>): map<string, int> {
    if s == [] then InitialPlanTable() else Credit(ByPlanTable(s[..|s| - 1]), s[|s| - 1])
  }

  /** After the first `i` members the table has the five plans and the plan field of
      every confirmed member so far as keys, each holding that plan's revenue so far. */
  lemma {:induction false} ByPlanTableUpTo(users: seq<ClientUser>, i: int)
    requires 0 <= i <= |users|
    ensures ByPlanUpTo(users, i, ByPlanTable(users[..i]))
  {
    if i == 0 {
      ByPlanStart(users, ByPlanTable(users[..0]));
    } else {
      ByPlanTableUpTo(users, i - 1);
      assert users[..i][..i - 1] == users[..i - 1];
      ByPlanStep(users, i - 1, ByPlanTable(users[..i - 1]), ByPlanTable(users[..i]));
    }
  }

  /** The table after the first `i` members. */
  ghost predicate ByPlanUpTo(users: seq<ClientUser>, i: int, revenue: map<string, int>)
    requires 0 <= i <= |users|
  {
    && (forall k :: k in revenue <==> PlanKey(users[..i], k))
    && (forall k :: k in revenue ==> revenue[k] == PlanShare(users[..i], k))
  }

  lemma ByPlanStart(users: seq<ClientUser>, revenue: map<string, int>)
    requires revenue == InitialPlanTable()
    ensures ByPlanUpTo(users, 0, revenue)
  {
    assert users[..0] == [];
  }

  lemma ByPlanStep(users: seq<ClientUser>, i: int, before: map<string, int>, after: map<string, int>)
    requires 0 <= i < |users| && ByPlanUpTo(users, i, before)
    requires after == Credit(before, users[i])
    ensures ByPlanUpTo(users, i + 1, after)
  {
    PlanKeyStep(users, i);
    forall k | k in after
      ensures after[k] == PlanShare(users[..i + 1], k)
    {
      assert ParsePlan(k).Some? ==> PlanKey(users[..i], k);
      CreditEntry(users, i, before, after, k);
    }
  }

  /** One entry of the table after member `i` is credited. */
  lemma CreditEntry(users: seq<ClientUser>, i: int, before: map<string, int>, after: map<string, int>, k: string)
    requires 0 <= i < |users|
    requires forall k :: k in before ==> before[k] == PlanShare(users[..i], k)
    requires ParsePlan(k).Some? ==> k in before
    requires after == Credit(before, users[i]) && k in after
    ensures after[k] == PlanShare(users[..i + 1], k)
  {
    SumByFilterStep(users, OfPlan(k), Amount, i);
    if k !in before {
      UnknownPlanEarnsNothing(users[..i], k);
    }
  }

  lemma PlanKeyStep(users: seq<ClientUser>, i: int)
    requires 0 <= i < |users|
    ensures forall k :: PlanKey(users[..i + 1], k) <==>
      PlanKey(users[..i], k) || (Confirmed(users[i]) && users[i].plan == k)
  {
    var s, t := users[..i], users[..i + 1];
    forall k
      ensures PlanKey(t, k) <==> PlanKey(s, k) || (Confirmed(users[i]) && users[i].plan == k)
    {
      if PlanKey(t, k) && ParsePlan(k).None? {
        var j :| 0 <= j < |t| && Confirmed(t[j]) && t[j].plan == k;
        if j < i {
          assert s[j] == t[j];
        }
      }
      if PlanKey(s, k) && ParsePlan(k).None? {
        var j :| 0 <= j < |s| && Confirmed(s[j]) && s[j].plan == k;
        assert t[j] == s[j];
      }
      if Confirmed(users[i]) && users[i].plan == k {
        assert t[i] == users[i];
      }
    }
  }

  /** An entry for a plan outside the table holds 0. */
  lemma {:induction false} UnknownPlanEarnsNothing(users: seq<ClientUser>, k: string)
    requires ParsePlan(k).None?
    ensures PlanShare(users, k) == 0
  {
    if users != [] {
      var n := |users| - 1;
      UnknownPlanEarnsNothing(users[..n], k);
      SumByFilterStep(users, OfPlan(k), Amount, n);
      assert users[..n + 1] == users;
    }
  }

  /** The five plan entries add up to the confirmed total. */
  lemma {:induction false} PlanSharesSumToTotal(users: seq<ClientUser>)
    ensures PlanShare(users, "1month") + PlanShare(users, "2month") + PlanShare(users, "3month")
      + PlanShare(users, "6month") + PlanShare(users, "yearly") == ConfirmedTotal(users)
  {
    if users != [] {
      var n := |users| - 1;
      PlanSharesSumToTotal(users[..n]);
      SumByFilterStep(users, OfPlan("1month"), Amount, n);
      SumByFilterStep(users, OfPlan("2month"), Amount, n);
      SumByFilterStep(users, OfPlan("3month"), Amount, n);
      SumByFilterStep(users, OfPlan("6month"), Amount, n);
      SumByFilterStep(users, OfPlan("yearly"), Amount, n);
      SumByFilterStep(users, Confirmed, Amount, n);
      assert users[..n + 1] == users;
    }
  }

  /** The confirmed members who paid by method `m`. */
  function PaidBy(m: string): ClientUser -> bool {
    (u: ClientUser) => Confirmed(u) && u.paymentMethod == m
  }

  /** `calculatePaymentMethodRevenue`: each confirmed member adds its amount to the cash
      total or the online total, or to neither for any other payment method. */
  method PaymentMethodRevenue(users: seq<ClientUser>) returns (cash: int, online: int)
    ensures cash == SumBy(Filter(users, PaidBy("cash")), Amount)
    ensures online == SumBy(Filter(users, PaidBy("online")), Amount)
  {
    cash, online := 0, 0;
    var i := 0;
    while i < |users|
      invariant 0 <= i <= |users|
      invariant cash == SumBy(Filter(users[..i], PaidBy("cash")), Amount)
      invariant online == SumBy(Filter(users[..i], PaidBy("online")), Amount)
    {
      var u := users[i];
      SumByFilterStep(users, PaidBy("cash"), Amount, i);
      SumByFilterStep(users, PaidBy("online"), Amount, i);
      if Confirmed(u) {
        if u.paymentMethod == "cash" {
          cash := cash + ClientPlanAmount(u.plan);
        } else if u.paymentMethod == "online" {
          online := online + ClientPlanAmount(u.plan);
        }
      }
      i := i + 1;
    }
    assert users[..i] == users;
  }

  /** Cash and online revenue never exceed the confirmed total, and make it up exactly
      when every confirmed member paid by cash or online. */
  lemma {:induction false} PaymentMethodsWithinTotal(users: seq<ClientUser>)
    ensures SumBy(Filter(users, PaidBy("cash")), Amount) + SumBy(Filter(users, PaidBy("online")), Amount)
      <= ConfirmedTotal(users)
    ensures (forall j :: 0 <= j < |users| && Confirmed(users[j]) ==>
               users[j].paymentMethod == "cash" || users[j].paymentMethod == "online") ==>
      SumBy(Filter(users, PaidBy("cash")), Amount) + SumBy(Filter(users, PaidBy("online")), Amount)
        == ConfirmedTotal(users)
  {
    if users != [] {
      var n := |users| - 1;
      PaymentMethodsWithinTotal(users[..n]);
      SumByFilterStep(users, PaidBy("cash"), Amount, n);
      SumByFilterStep(users, PaidBy("online"), Amount, n);
      SumByFilterStep(users, Confirmed, Amount, n);
      assert users[..n + 1] == users;
      assert forall j :: 0 <= j < n ==> users[..n][j] == users[j];
    }
  }

  // ---------------------------------------------------------------- photo address

  /** `path.replace(/\/+/g, '/')`: every run of '/' becomes one '/'. */
  function CollapseSlashes(s: string): (r: string)
    ensures |r| <= |s|
    ensures s != [] ==> r != [] && r[|r| - 1] == s[|s| - 1]
    ensures NoDoubleSlash(r)
  {
    if |s| < 2 then s
    else
      var init := CollapseSlashes(s[..|s| - 1]);
      if s[|s| - 1] == '/' && s[|s| - 2] == '/' then init else init + [s[|s| - 1]]
  }

  predicate NoDoubleSlash(s: string) {
    forall i :: 0 <= i < |s| - 1 ==> !(s[i] == '/' && s[i + 1] == '/')
  }

  predicate NotSlash(c: char) {
    c != '/'
  }

  /** Collapsing removes slashes only: every other character is kept, in order. */
  lemma {:induction false} CollapseKeepsOtherCharacters(s: string)
    ensures Filter(CollapseSlashes(s), NotSlash) == Filter(s, NotSlash)
  {
    if |s| >= 2 {
      var init := s[..|s| - 1];
      CollapseKeepsOtherCharacters(init);
      var c := CollapseSlashes(init);
      if s[|s| - 1] == '/' && s[|s| - 2] == '/' {
        assert Filter(s, NotSlash) == Filter(init, NotSlash);
      } else {
        var last := s[|s| - 1];
        assert (c + [last])[..|c|] == c;
        assert Filter(c + [last], NotSlash) == Filter(c, NotSlash) + (if NotSlash(last) then [last] else []);
      }
    }
  }

  /** A path without a doubled slash is left as it is, so collapsing twice is
      collapsing once. */
  lemma {:induction false} CollapseOfCollapsed(s: string)
    requires NoDoubleSlash(s)
    ensures CollapseSlashes(s) == s
  {
    if |s| >= 2 {
      var init := s[..|s| - 1];
      CollapseOfCollapsed(init);
      assert init + [s[|s| - 1]] == s;
    }
  }

  lemma CollapseIdempotent(s: string)
    ensures CollapseSlashes(CollapseSlashes(s)) == CollapseSlashes(s)
  {
    CollapseOfCollapsed(CollapseSlashes(s));
  }

  /** The run of '/' at the front of `t` dropped. */
  function DropSlashes(t: string): (r: string)
    ensures |r| <= |t|
    ensures r != [] ==> r[0] != '/'
  {
    if t != [] && t[0] == '/' then DropSlashes(t[1..]) else t
  }

  /** What is left after the leading run ends as `t` ends; nothing is left only when `t`
      is all slashes. */
  lemma {:induction false} DropSlashesLast(t: string)
    requires t != []
    ensures DropSlashes(t) == [] ==> t[|t| - 1] == '/'
    ensures DropSlashes(t) != [] ==> DropSlashes(t)[|DropSlashes(t)| - 1] == t[|t| - 1]
  {
    if t[0] == '/' && |t| > 1 {
      DropSlashesLast(t[1..]);
    }
  }

  /** The regular-expression replacement read front to back, as the matcher scans: at a
      '/' the whole run that starts there is matched and replaced by one '/'; any other
      character is copied. */
  function ReplaceSlashRuns(s: string): string
    decreases |s|
  {
    if s == [] then []
    else if s[0] == '/' then ['/'] + ReplaceSlashRuns(DropSlashes(s[1..]))
    else [s[0]] + ReplaceSlashRuns(s[1..])
  }

  /** Dropping the leading run of a string extended by one character. */
  lemma {:induction false} DropSlashesSnoc(t: string, c: char)
    ensures DropSlashes(t + [c]) ==
      if DropSlashes(t) == [] then (if c == '/' then [] else [c]) else DropSlashes(t) + [c]
  {
    if t != [] && t[0] == '/' {
      assert (t + [c])[1..] == t[1..] + [c];
      DropSlashesSnoc(t[1..], c);
    } else if t == [] {
      assert t + [c] == [c];
      assert [c][1..] == [];
    }
  }

  /** Reading a string extended by one character front to back: a '/' after a '/' joins
      the run before it, and anything else is copied. */
  lemma {:induction false} ReplaceSlashRunsSnoc(s: string, c: char)
    ensures ReplaceSlashRuns(s + [c]) ==
      if c == '/' && s != [] && s[|s| - 1] == '/' then ReplaceSlashRuns(s) else ReplaceSlashRuns(s) + [c]
    decreases |s|
  {
    if s == [] {
      assert [] + [c] == [c];
      if c == '/' {
        assert DropSlashes([c][1..]) == [];
      } else {
        assert [c][1..] == [];
      }
    } else if s[0] != '/' {
      assert (s + [c])[1..] == s[1..] + [c];
      ReplaceSlashRunsSnoc(s[1..], c);
      if s[1..] == [] {
        assert s == [s[0]];
      } else {
        assert s[1..][|s[1..]| - 1] == s[|s| - 1];
      }
    } else {
      var t := s[1..];
      assert (s + [c])[1..] == t + [c];
      DropSlashesSnoc(t, c);
      var d := DropSlashes(t);
      if t != [] {
        DropSlashesLast(t);
      }
      if d == [] {
        if c != '/' {
          assert [c][1..] == [];
        } else {
          assert DropSlashes([]) == [];
        }
      } else {
        ReplaceSlashRunsSnoc(d, c);
      }
    }
  }

  /** Collapsing from the back is the front-to-back replacement: every run of '/' is
      replaced by exactly one '/', and everything else is copied in order. */
  lemma {:induction false} CollapseIsReplace(s: string)
    ensures CollapseSlashes(s) == ReplaceSlashRuns(s)
    decreases |s|
  {
    if |s| == 1 {
      if s[0] == '/' {
        assert DropSlashes(s[1..]) == [];
      } else {
        assert s[1..] == [];
      }
    } else if |s| >= 2 {
      var init := s[..|s| - 1];
      CollapseIsReplace(init);
      ReplaceSlashRunsSnoc(init, s[|s| - 1]);
      assert init + [s[|s| - 1]] == s;
    }
  }

  /** `a//b` collapses to `a/b`: the run keeps one slash. */
  lemma CollapseKeepsOneSlash()
    ensures CollapseSlashes("a//b") == "a/b"
  {
    CollapseIsReplace("a//b");
    assert "a//b"[1..] == "//b";
    assert DropSlashes("//b"[1..]) == "b";
  }

  const DefaultAvatar := "/default-avatar.png"

  /** `getPhotoUrl` with `API_BASE_URL` as `base`. */
  function PhotoUrl(photoPath: Option<string>, base: string): string {
    if photoPath.None? || photoPath.value == "" then DefaultAvatar
    else if StartsWith(photoPath.value, "http") then photoPath.value
    else
      var clean := CollapseSlashes(photoPath.value);
      if Contains(clean, base) then clean else base + clean
  }

  /** The three outcomes of `getPhotoUrl`: the default avatar for a missing path, an
      absolute address as it is, and otherwise the collapsed path, under the base
      address unless it already holds it. */
  lemma PhotoUrlCases(photoPath: Option<string>, base: string)
    ensures photoPath.None? || photoPath.value == "" ==> PhotoUrl(photoPath, base) == DefaultAvatar
    ensures photoPath.Some? && StartsWith(photoPath.value, "http") ==> PhotoUrl(photoPath, base) == photoPath.value
    ensures photoPath.Some? && photoPath.value != "" && !StartsWith(photoPath.value, "http") ==>
      var clean := CollapseSlashes(photoPath.value);
      Contains(PhotoUrl(photoPath, base), base) &&
      PhotoUrl(photoPath, base) == (if Contains(clean, base) then clean else base + clean)
  {
    if photoPath.Some? && photoPath.value != "" && !StartsWith(photoPath.value, "http") {
      var clean := CollapseSlashes(photoPath.value);
      if !Contains(clean, base) {
        ContainsInfix([], base, clean);
        assert [] + base + clean == base + clean;
      }
    }
  }

  /** An uploaded photo's path `/uploads/<name>` is served from the base address. */
  lemma UploadedPhotoUrl(name: string, base: string)
    requires NoDoubleSlash("/uploads/" + name) && !Contains("/uploads/" + name, base)
    ensures PhotoUrl(Some("/uploads/" + name), base) == base + "/uploads/" + name
  {
    var p := "/uploads/" + name;
    CollapseOfCollapsed(p);
    assert p[0] == '/';
  }

  // ---------------------------------------------------------------- badge

  datatype Badge = ExpiredBadge | DaysLeftBadge(days: int) | ActiveBadge(days: int)

  /** The badge of the subscription column: the days left rounded up; below 0 expired,
      up to 7 a countdown, beyond that active. */
  function SubscriptionBadge(today: int, endDate: int): (b: Badge)
    ensures b.ExpiredBadge? <==> endDate - today <= -DayMillis
    ensures b.DaysLeftBadge? <==> -DayMillis < endDate - today <= 7 * DayMillis
    ensures b.DaysLeftBadge? ==> 0 <= b.days <= 7 && b.days == CeilDiv(endDate - today, DayMillis)
    ensures b.ActiveBadge? ==> b.days > 7 && b.days == CeilDiv(endDate - today, DayMillis)
  {
    var daysLeft := CeilDiv(endDate - today, DayMillis);
    if daysLeft < 0 then ExpiredBadge
    else if daysLeft <= 7 then DaysLeftBadge(daysLeft)
    else ActiveBadge(daysLeft)
  }

  /** A member whose end date passed less than a day ago is on the 'expired' tab, yet
      its badge counts 0 days left. */
  lemma JustExpiredShowsZeroDays(users: seq<ClientUser>, u: ClientUser, today: int)
    requires u in users && today - DayMillis < u.endDate < today
    ensures u in FilteredUsers(users, ExpiredTab, today)
    ensures SubscriptionBadge(today, u.endDate) == DaysLeftBadge(0)
  {
    FilterMembership(users, Selector(ExpiredTab, today), u);
  }

  // ---------------------------------------------------------------- row actions and local updates

  datatype Action = Approve | Notify | View | Edit | Delete

  /** The buttons of a row: approve for a pending payment, notify for an expired
      subscription, and view, edit and delete always. */
  function RowActions(u: ClientUser, today: int): set<Action> {
    (if u.paymentStatus == "pending" then {Approve} else {})
    + (if IsSubscriptionExpired(today, u.endDate) then {Notify} else {})
    + {View, Edit, Delete}
  }

  /** The approve button is offered on exactly the rows of the 'pending' tab, the
      notify button on exactly those of the 'expired' tab. */
  lemma RowActionsMatchTabs(users: seq<ClientUser>, u: ClientUser, today: int)
    requires u in users
    ensures Approve in RowActions(u, today) <==> u in FilteredUsers(users, PendingTab, today)
    ensures Notify in RowActions(u, today) <==> u in FilteredUsers(users, ExpiredTab, today)
    ensures {View, Edit, Delete} <= RowActions(u, today)
  {
    FilterMembership(users, Selector(PendingTab, today), u);
    FilterMembership(users, Selector(ExpiredTab, today), u);
  }

  /** The list after a successful approval: the payment of every row with that id is
      confirmed. */
  function AfterApprove(users: seq<ClientUser>, userId: string): (r: seq<ClientUser>)
    ensures |r| == |users|
    ensures forall i :: 0 <= i < |users| && users[i].id != userId ==> r[i] == users[i]
    ensures forall i :: 0 <= i < |users| && users[i].id == userId ==>
      r[i] == users[i].(paymentStatus := "confirmed")
  {
    seq(|users|, i requires 0 <= i < |users| =>
      if users[i].id == userId then users[i].(paymentStatus := "confirmed") else users[i])
  }

  /** After the approval the member is off the 'pending' tab and every other row is
      where it was; approving twice is approving once. */
  lemma AfterApproveLeavesPending(users: seq<ClientUser>, userId: string, today: int, u: ClientUser)
    requires u in FilteredUsers(AfterApprove(users, userId), PendingTab, today)
    ensures u.id != userId && u in users
  {
    var r := AfterApprove(users, userId);
    FilterMembership(r, Selector(PendingTab, today), u);
    var i :| 0 <= i < |r| && r[i] == u;
  }

  lemma AfterApproveIdempotent(users: seq<ClientUser>, userId: string)
    ensures AfterApprove(AfterApprove(users, userId), userId) == AfterApprove(users, userId)
  {
  }

  function OtherThan(userId: string): ClientUser -> bool {
    (u: ClientUser) => u.id != userId
  }

  /** The list after a successful deletion. */
  function AfterDelete(users: seq<ClientUser>, userId: string): seq<ClientUser> {
    Filter(users, OtherThan(userId))
  }

  /** Deleting removes exactly the rows with that id and keeps the rest in order. */
  lemma AfterDeleteExact(users: seq<ClientUser>, userId: string, u: ClientUser)
    ensures u in AfterDelete(users, userId) <==> u in users && u.id != userId
    ensures IsSubsequence(AfterDelete(users, userId), users)
  {
    FilterMembership(users, OtherThan(userId), u);
    FilterIsSubsequence(users, OtherThan(userId));
  }
}
