/** The member document of models/User.js: closed enumerations for the plan, the
    payment method and the two statuses, the defaults, the normalisation Mongoose
    applies on save (`trim` on the name, `lowercase` on the email), the `required`
    and `enum` validators, the two unique indexes and `isExpired`. Times are integer
    milliseconds since the epoch. */
module UserModel {
  import opened Text

  datatype Option<T> = None | Some(value: T)

  type Id = string
  type Millis = int

  /** The five membership plans the schema's `enum` admits. */
  datatype Plan = OneMonth | TwoMonth | ThreeMonth | SixMonth | Yearly

  /** The identifier stored for a plan. */
  function PlanId(p: Plan): string {
    match p
    case OneMonth => "1month"
    case TwoMonth => "2month"
    case ThreeMonth => "3month"
    case SixMonth => "6month"
    case Yearly => "yearly"
  }

  /** The `enum` validator on `plan`: the plan a stored string names, if any. */
  function ParsePlan(s: string): (r: Option<Plan>)
    ensures r.Some? ==> PlanId(r.value) == s
  {
    if s == "1month" then Some(OneMonth)
    else if s == "2month" then Some(TwoMonth)
    else if s == "3month" then Some(ThreeMonth)
    else if s == "6month" then Some(SixMonth)
    else if s == "yearly" then Some(Yearly)
    else None
  }

  /** Every plan's identifier parses back to that plan, so the enumeration and the
      identifiers are in one-to-one correspondence. */
  lemma ParsePlanRoundTrip(p: Plan)
    ensures ParsePlan(PlanId(p)) == Some(p)
  {
  }

  /** The strings the schema accepts for `plan` are exactly the five identifiers. */
  lemma PlanDomain(s: string)
    ensures ParsePlan(s).Some? <==> s in {"1month", "2month", "3month", "6month", "yearly"}
  {
  }

  /** The duration, in months, that a plan's identifier names. */
  function Months(p: Plan): nat {
    match p
    case OneMonth => 1
    case TwoMonth => 2
    case ThreeMonth => 3
    case SixMonth => 6
    case Yearly => 12
  }

  datatype PaymentMethod = Cash | Online

  function PaymentMethodId(m: PaymentMethod): string {
    match m
    case Cash => "cash"
    case Online => "online"
  }

  /** The `enum` validator on `paymentMethod`. */
  function ParsePaymentMethod(s: string): (r: Option<PaymentMethod>)
    ensures r.Some? <==> s in {"cash", "online"}
    ensures r.Some? ==> PaymentMethodId(r.value) == s
  {
    if s == "cash" then Some(Cash) else if s == "online" then Some(Online) else None
  }

  datatype PaymentStatus = PaymentPending | Confirmed | PaymentFailed

  datatype SubscriptionStatus = Active | Expired | SubscriptionPending

  /** The schema's defaults for the two status fields. */
  const DefaultPaymentStatus: PaymentStatus := PaymentPending
  const DefaultSubscriptionStatus: SubscriptionStatus := SubscriptionPending

  /** One stored member. `id` is the document's `_id`. */
  datatype Member = Member(
    id: Id,
    name: string,
    email: string,
    phone: string,
    dob: Millis,
    plan: Plan,
    startDate: Millis,
    endDate: Millis,
    paymentMethod: PaymentMethod,
    paymentStatus: PaymentStatus,
    subscriptionStatus: SubscriptionStatus)

  /** `isExpired`: the current time is past the end date. */
  predicate IsExpired(m: Member, now: Millis) {
    now > m.endDate
  }

  /** A member is expired at every instant after its end date and at none up to it,
      the end date itself included. */
  lemma IsExpiredBoundary(m: Member, now: Millis)
    ensures IsExpired(m, now) <==> m.endDate < now
    ensures !IsExpired(m, m.endDate)
  {
  }

  /** The name as stored: the schema's `trim` setter. */
  function NormaliseName(s: string): string { Trim(s) }

  /** The email as stored: the schema's `lowercase` setter. */
  function NormaliseEmail(s: string): string { ToLower(s) }

  /** Storing an already stored value changes nothing. */
  lemma NormalisationIdempotent(name: string, email: string)
    ensures NormaliseName(NormaliseName(name)) == NormaliseName(name)
    ensures NormaliseEmail(NormaliseEmail(email)) == NormaliseEmail(email)
  {
    TrimIdempotent(name);
  }

  /** What every stored document satisfies: the `required` validators passed on the
      normalised strings, and the setters have been applied. */
  predicate WellFormed(m: Member) {
    && m.name != "" && IsTrimmed(m.name)
    && m.email != "" && IsLowerCase(m.email)
    && m.phone != ""
  }

  /** A well-formed document is unchanged by the setters: storing it again stores the same
      strings. */
  lemma WellFormedIsNormalised(m: Member)
    requires WellFormed(m)
    ensures NormaliseName(m.name) == m.name && NormaliseEmail(m.email) == m.email
  {
    TrimOfTrimmed(m.name);
    ToLowerOfLowerCase(m.email);
  }

  /** The two unique indexes: no two members share an email, and no two share a phone. */
  ghost predicate UniqueContacts(members: map<Id, Member>) {
    forall a, b :: a in members && b in members && a != b ==>
      members[a].email != members[b].email && members[a].phone != members[b].phone
  }

  /** The collection invariant: keys are the documents' ids, every document is well formed,
      and the unique indexes hold. */
  ghost predicate StoreValid(members: map<Id, Member>) {
    && (forall id :: id in members ==> members[id].id == id && WellFormed(members[id]))
    && UniqueContacts(members)
  }

  /** The fields a new document is created from, as strings and instants. */
  datatype Draft = Draft(
    name: string,
    email: string,
    phone: string,
    dob: Millis,
    plan: string,
    startDate: Millis,
    endDate: Millis,
    paymentMethod: string)

  /** `User.create`: applies the setters, then the `required` and `enum` validators; on
      success the document has the given statuses. */
  function CreateDocument(id: Id, d: Draft, ps: PaymentStatus, ss: SubscriptionStatus): (r: Option<Member>)
    ensures r.Some? <==>
      && Trim(d.name) != "" && d.email != "" && d.phone != ""
      && ParsePlan(d.plan).Some? && ParsePaymentMethod(d.paymentMethod).Some?
    ensures r.Some? ==>
      && WellFormed(r.value) && r.value.id == id
      && r.value.email == ToLower(d.email) && r.value.name == Trim(d.name) && r.value.phone == d.phone
      && PlanId(r.value.plan) == d.plan && PaymentMethodId(r.value.paymentMethod) == d.paymentMethod
      && r.value.dob == d.dob && r.value.startDate == d.startDate && r.value.endDate == d.endDate
      && r.value.paymentStatus == ps && r.value.subscriptionStatus == ss
  {
    var name := NormaliseName(d.name);
    var email := NormaliseEmail(d.email);
    if name == "" || email == "" || d.phone == "" then None
    else match (ParsePlan(d.plan), ParsePaymentMethod(d.paymentMethod))
      case (Some(plan), Some(pm)) =>
        Some(Member(id, name, email, d.phone, d.dob, plan, d.startDate, d.endDate, pm, ps, ss))
      case _ => None
  }

  /** No member of `members` other than `id` shares an email or a phone with `m`. */
  predicate ContactsFree(members: map<Id, Member>, id: Id, m: Member) {
    forall other :: other in members && other != id ==>
      members[other].email != m.email && members[other].phone != m.phone
  }

  /** Storing a well-formed document under its own id keeps the collection valid when its
      contacts are free. */
  lemma StoreValidPut(members: map<Id, Member>, m: Member)
    requires StoreValid(members)
    requires WellFormed(m) && ContactsFree(members, m.id, m)
    ensures StoreValid(members[m.id := m])
  {
    var after := members[m.id := m];
    forall a, b | a in after && b in after && a != b
      ensures after[a].email != after[b].email && after[a].phone != after[b].phone
    {
      if a == m.id {
        assert after[b] == members[b];
      } else if b == m.id {
        assert after[a] == members[a];
      } else {
        assert after[a] == members[a] && after[b] == members[b];
      }
    }
  }

  /** Removing a document keeps the collection valid. */
  lemma StoreValidRemove(members: map<Id, Member>, id: Id)
    requires StoreValid(members)
    ensures StoreValid(members - {id})
  {
  }

  /** A document already stored has free contacts, and keeps them when only fields other
      than its email and phone change. */
  lemma StoredContactsFree(members: map<Id, Member>, id: Id, m: Member)
    requires StoreValid(members) && id in members
    requires m.email == members[id].email && m.phone == members[id].phone
    ensures ContactsFree(members, id, m)
  {
  }

  /** The expire step's change to one member: status 'expired', every other field kept. */
  function Expire(m: Member): Member {
    m.(subscriptionStatus := Expired)
  }

  /** The collection after the members in `ids` have been marked expired and saved. */
  function ExpireSome(members: map<Id, Member>, ids: set<Id>): (r: map<Id, Member>)
    ensures r.Keys == members.Keys
  {
    map id | id in members :: if id in ids then Expire(members[id]) else members[id]
  }

  /** Expiring one more member is one more map update. */
  lemma ExpireSomeStep(members: map<Id, Member>, ids: set<Id>, id: Id)
    requires id in members
    ensures ExpireSome(members, ids + {id}) == ExpireSome(members, ids)[id := Expire(members[id])]
  {
  }

  /** Marking members expired changes their subscription status and nothing else, and
      keeps the collection valid. */
  lemma ExpireSomeKeepsValid(members: map<Id, Member>, ids: set<Id>)
    requires StoreValid(members)
    ensures StoreValid(ExpireSome(members, ids))
    ensures forall id :: id in members ==> ExpireSome(members, ids)[id].subscriptionStatus in {members[id].subscriptionStatus, Expired}
  {
    var after := ExpireSome(members, ids);
    assert forall id :: id in after ==> after[id].email == members[id].email && after[id].phone == members[id].phone;
  }

}
