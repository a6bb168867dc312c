/** `checkExpiredSubscriptions` of services/subscriptionService.js over a `MemberStore`:
    first every member whose end date has passed and who is not yet expired is marked
    expired, saved and sent a "Membership Expired" email; then every active member whose
    end date falls within the next seven days is sent a reminder with a ceiling day count.
    A thrown step ends the call, and the error is swallowed. */
module SubscriptionService {
  import opened UserModel
  import opened Mail
  import opened Lists
  import opened UserController
  import opened Clock

  /** The first query: end date before `now`, status not already 'expired'. */
  predicate DueForExpiry(m: Member, now: Millis) {
    m.endDate < now && m.subscriptionStatus != Expired
  }

  /** The second query: end date strictly between `now` and seven days later, status 'active'. */
  predicate DueForReminder(m: Member, now: Millis) {
    now < m.endDate < now + 7 * DayMillis && m.subscriptionStatus == Active
  }

  /** The `daysLeft` of a reminder. */
  function DaysLeft(m: Member, now: Millis): int {
    CeilDiv(m.endDate - now, DayMillis)
  }

  /** Every reminded member has between one and seven days left. */
  lemma DaysLeftInWindow(m: Member, now: Millis)
    requires DueForReminder(m, now)
    ensures 1 <= DaysLeft(m, now) <= 7
  {
    var r := DaysLeft(m, now);
    assert (r - 1) * DayMillis < 7 * DayMillis && 0 < r * DayMillis;
  }

  /** A member whose end date is the current instant is neither expired nor reminded. */
  lemma BoundaryNeitherExpiredNorReminded(m: Member, now: Millis)
    requires m.endDate == now
    ensures !DueForExpiry(m, now) && !DueForReminder(m, now)
  {
  }

  ghost function DueIds(members: map<Id, Member>, now: Millis): set<Id> {
    set id | id in members && DueForExpiry(members[id], now)
  }

  ghost function ReminderIds(members: map<Id, Member>, now: Millis): set<Id> {
    set id | id in members && DueForReminder(members[id], now)
  }

  /** The collection after a complete expire step. */
  ghost function ExpireAll(members: map<Id, Member>, now: Millis): map<Id, Member> {
    ExpireSome(members, DueIds(members, now))
  }

  /** After a complete expire step every member whose end date has passed is expired,
      whatever its payment status; every other member is untouched, and of the changed ones
      only the subscription status changed. */
  lemma ExpireAllEffect(members: map<Id, Member>, now: Millis)
    ensures ExpireAll(members, now).Keys == members.Keys
    ensures forall id :: id in members && members[id].endDate < now ==>
      ExpireAll(members, now)[id] == members[id].(subscriptionStatus := Expired)
    ensures forall id :: id in members && members[id].endDate >= now ==> ExpireAll(members, now)[id] == members[id]
  {
  }

  /** A second expire step, at the same or any later instant, finds nothing to do among the
      members the first one expired, and a repeated step at the same instant changes nothing. */
  lemma SecondPassSkipsExpired(members: map<Id, Member>, now: Millis, later: Millis)
    ensures forall id :: id in DueIds(members, now) ==> !DueForExpiry(ExpireAll(members, now)[id], later)
    ensures ExpireAll(ExpireAll(members, now), now) == ExpireAll(members, now)
  {
    var once := ExpireAll(members, now);
    assert DueIds(once, now) == {};
  }

  /** No member is both expired and reminded by one call: the reminder query runs on the
      collection after the expire step, where every member it expired is 'expired'. */
  lemma ExpiredAndRemindedDisjoint(members: map<Id, Member>, now: Millis)
    ensures DueIds(members, now) !! ReminderIds(ExpireAll(members, now), now)
  {
  }

  /** With no active member there is no reminder to send. Since no handler makes a member
      active, the reminder step of a store that started empty never sends anything. */
  lemma NoActiveNoReminders(members: map<Id, Member>, now: Millis)
    requires forall id :: id in members ==> members[id].subscriptionStatus != Active
    ensures ReminderIds(members, now) == {}
  {
  }

  function ExpiryMail(m: Member): MailMessage {
    MailMessage(m.email, "Membership Expired", Some(MembershipExpiredHtml(m.name, m.endDate)))
  }

  function ReminderMail(m: Member, now: Millis): MailMessage {
    MailMessage(m.email, "Membership Expiring Soon", Some(ExpiringSoonHtml(m.name, DaysLeft(m, now), m.endDate)))
  }

  function ExpiryOptions(m: Member): (o: EmailOptions)
    ensures BuildMail(o) == ExpiryMail(m)
  {
    EmailOptions(m.email, "Membership Expired", Some(MembershipExpiredHtml(m.name, m.endDate)), None)
  }

  function ReminderOptions(m: Member, now: Millis): (o: EmailOptions)
    ensures BuildMail(o) == ReminderMail(m, now)
  {
    EmailOptions(m.email, "Membership Expiring Soon", Some(ExpiringSoonHtml(m.name, DaysLeft(m, now), m.endDate)), None)
  }

  datatype PassOutcome = Completed | Aborted(message: string)

  /** Every email of `log` was delivered. */
  predicate AllSent(log: seq<Dispatch>) {
    forall k :: 0 <= k < |log| ==> log[k].result.Sent?
  }

  /** A loop of emails that stops at the first failure: every email before the last was
      delivered, a completed loop delivered all of them, and an aborted one ends with the
      failure whose message it reports. */
  predicate StoppedAtFirstFailure(outcome: PassOutcome, log: seq<Dispatch>) {
    && (forall k :: 0 <= k < |log| - 1 ==> log[k].result.Sent?)
    && (outcome.Completed? ==> AllSent(log))
    && (outcome.Aborted? ==> |log| > 0 && log[|log| - 1].result == FailedAfterRetries(outcome.message))
  }

  /** A completed loop that sends one more email has completed again exactly when that
      email was delivered. */
  lemma StoppedAtFirstFailureStep(log: seq<Dispatch>, d: Dispatch)
    requires StoppedAtFirstFailure(Completed, log)
    ensures StoppedAtFirstFailure(if d.result.Sent? then Completed else Aborted(d.result.message), log + [d])
  {
    assert forall k :: 0 <= k < |log| ==> (log + [d])[k] == log[k];
  }

  /** An aborted loop did not deliver every email. */
  lemma AbortedNotAllSent(outcome: PassOutcome, log: seq<Dispatch>)
    requires StoppedAtFirstFailure(outcome, log)
    ensures outcome.Completed? <==> AllSent(log)
  {
    if outcome.Aborted? {
      assert !log[|log| - 1].result.Sent?;
    }
  }

  /** Every email of `log` came to what its transport decides: the `k`-th one went through
      `mailer(first + k)`. */
  predicate DrivenBy(log: seq<Dispatch>, mailer: nat -> Transport, first: nat) {
    forall k :: 0 <= k < |log| ==> log[k].result == DispatchOutcome(mailer(first + k))
  }

  lemma DrivenByStep(log: seq<Dispatch>, mailer: nat -> Transport, first: nat, d: Dispatch)
    requires DrivenBy(log, mailer, first) && d.result == DispatchOutcome(mailer(first + |log|))
    ensures DrivenBy(log + [d], mailer, first)
  {
    assert forall k :: 0 <= k < |log| ==> (log + [d])[k] == log[k];
  }

  /** Two runs driven by consecutive transports make one. */
  lemma DrivenByAppend(a: seq<Dispatch>, b: seq<Dispatch>, mailer: nat -> Transport)
    requires DrivenBy(a, mailer, 0) && DrivenBy(b, mailer, |a|)
    ensures DrivenBy(a + b, mailer, 0)
  {
    assert forall k :: 0 <= k < |a| ==> (a + b)[k] == a[k];
    assert forall k :: 0 <= k < |b| ==> (a + b)[|a| + k] == b[k];
  }

  /** Each of the `n` transports from `first` on delivers within its three attempts. */
  predicate AllDelivered(mailer: nat -> Transport, first: nat, n: nat) {
    forall k: nat :: first <= k < first + n ==> DispatchOutcome(mailer(k)).Sent?
  }

  /** A loop over `n` emails, driven by the transports from `first` on, that stops at its
      first failure and gets through all `n` when it completes, completes exactly when each
      of those `n` transports delivers. */
  lemma CompletedIffAllDelivered(outcome: PassOutcome, log: seq<Dispatch>, n: nat, mailer: nat -> Transport, first: nat)
    requires StoppedAtFirstFailure(outcome, log) && DrivenBy(log, mailer, first) && |log| <= n
    requires outcome.Completed? ==> |log| == n
    ensures outcome.Completed? <==> AllDelivered(mailer, first, n)
  {
    if outcome.Aborted? {
      var k := |log| - 1;
      assert log[k].result == DispatchOutcome(mailer(first + k));
    } else {
      forall k: nat | first <= k < first + n
        ensures DispatchOutcome(mailer(k)).Sent?
      {
        assert log[k - first].result.Sent?;
      }
    }
  }

  /** How many emails a run at `now` sends when none fails: one per member due for expiry,
      then one per member due for a reminder once those are expired. */
  ghost function RunLength(members: map<Id, Member>, now: Millis): nat {
    |DueIds(members, now)| + |ReminderIds(ExpireAll(members, now), now)|
  }

  /** `log` holds the "Membership Expired" email of each member of `ids`, in order. */
  predicate ExpiriesLogged(log: seq<Dispatch>, members: map<Id, Member>, ids: seq<Id>) {
    |log| == |ids| && forall k :: 0 <= k < |ids| ==> ids[k] in members && log[k].mail == ExpiryMail(members[ids[k]])
  }

  /** `log` holds the reminder of each member of `ids` at instant `now`, in order. */
  predicate RemindersLogged(log: seq<Dispatch>, members: map<Id, Member>, ids: seq<Id>, now: Millis) {
    |log| == |ids| && forall k :: 0 <= k < |ids| ==> ids[k] in members && log[k].mail == ReminderMail(members[ids[k]], now)
  }

  lemma ExpiriesLoggedStep(log: seq<Dispatch>, members: map<Id, Member>, ids: seq<Id>, id: Id, result: DispatchResult)
    requires ExpiriesLogged(log, members, ids) && id in members
    ensures ExpiriesLogged(log + [Dispatch(ExpiryMail(members[id]), result)], members, ids + [id])
  {
    var d := Dispatch(ExpiryMail(members[id]), result);
    assert forall k :: 0 <= k < |log| ==> (log + [d])[k] == log[k] && (ids + [id])[k] == ids[k];
  }

  lemma RemindersLoggedStep(log: seq<Dispatch>, members: map<Id, Member>, ids: seq<Id>, now: Millis, id: Id, result: DispatchResult)
    requires RemindersLogged(log, members, ids, now) && id in members
    ensures RemindersLogged(log + [Dispatch(ReminderMail(members[id], now), result)], members, ids + [id], now)
  {
    var d := Dispatch(ReminderMail(members[id], now), result);
    assert forall k :: 0 <= k < |log| ==> (log + [d])[k] == log[k] && (ids + [id])[k] == ids[k];
  }

  /** The log of the first loop after one more turn, while the loop has not yet failed. */
  lemma ExpiryTurnLogged(mails: seq<Dispatch>, before: map<Id, Member>, expired: seq<Id>, id: Id, result: DispatchResult, mailer: nat -> Transport)
    requires ExpiriesLogged(mails, before, expired) && id in before
    requires StoppedAtFirstFailure(Completed, mails) && DrivenBy(mails, mailer, 0)
    requires result == DispatchOutcome(mailer(|expired|))
    ensures var d := Dispatch(ExpiryMail(before[id]), result);
      && ExpiriesLogged(mails + [d], before, expired + [id])
      && StoppedAtFirstFailure(if result.Sent? then Completed else Aborted(result.message), mails + [d])
      && DrivenBy(mails + [d], mailer, 0)
  {
    var d := Dispatch(ExpiryMail(before[id]), result);
    ExpiriesLoggedStep(mails, before, expired, id, result);
    StoppedAtFirstFailureStep(mails, d);
    DrivenByStep(mails, mailer, 0, d);
  }

  /** One turn of the first loop: the member is marked expired and saved, then sent the
      "Membership Expired" email. */
  method ExpireOne(store: MemberStore, ghost before: map<Id, Member>, ghost done: set<Id>, id: Id, transport: Transport)
    returns (result: DispatchResult)
    requires StoreValid(before) && store.members == ExpireSome(before, done) && id in before
    modifies store
    ensures store.receipts == old(store.receipts)
    ensures store.members == ExpireSome(before, done + {id})
    ensures store.outbox == old(store.outbox) + [Dispatch(ExpiryMail(before[id]), result)]
    ensures result == DispatchOutcome(transport)
  {
    ExpireSomeKeepsValid(before, done);
    ExpireSomeStep(before, done, id);
    store.MarkExpired(id);
    result := store.SendAndLog(ExpiryOptions(store.members[id]), transport);
  }

  /** The first loop over the list the first query returned: each member is marked
      expired and saved, then sent the "Membership Expired" email; a failed email ends the
      loop. `expired` is the prefix of `queue` the loop got through. */
  method ExpireLoop(store: MemberStore, queue: seq<Id>, mailer: nat -> Transport)
    returns (outcome: PassOutcome, expired: seq<Id>, ghost mails: seq<Dispatch>)
    requires store.Valid() && forall k :: 0 <= k < |queue| ==> queue[k] in store.members
    modifies store
    ensures store.receipts == old(store.receipts)
    ensures |expired| <= |queue| && expired == queue[..|expired|]
    ensures outcome.Completed? ==> expired == queue
    ensures store.members == ExpireSome(old(store.members), set id | id in expired)
    ensures store.outbox == old(store.outbox) + mails
    ensures ExpiriesLogged(mails, old(store.members), expired)
    ensures StoppedAtFirstFailure(outcome, mails)
    ensures DrivenBy(mails, mailer, 0)
    ensures outcome.Completed? <==> AllDelivered(mailer, 0, |queue|)
  {
    ghost var before := store.members;
    ghost var log := store.outbox;
    outcome, expired, mails := Completed, [], [];
    ghost var done: set<Id> := {};
    var i := 0;
    while i < |queue| && outcome.Completed?
      invariant 0 <= i <= |queue| && expired == queue[..i]
      invariant done == set id | id in expired
      invariant store.receipts == old(store.receipts)
      invariant store.members == ExpireSome(before, done)
      invariant store.outbox == log + mails
      invariant ExpiriesLogged(mails, before, expired)
      invariant StoppedAtFirstFailure(outcome, mails)
      invariant DrivenBy(mails, mailer, 0)
    {
      var id := queue[i];
      var result := ExpireOne(store, before, done, id, mailer(i));
      PrefixStep(queue, i);
      ElementsStep(expired, id);
      var d := Dispatch(ExpiryMail(before[id]), result);
      ExpiryTurnLogged(mails, before, expired, id, result, mailer);
      AppendStep(log, mails, d);
      expired := expired + [id];
      done := done + {id};
      mails := mails + [d];
      if result.FailedAfterRetries? {
        outcome := Aborted(result.message);
      }
      i := i + 1;
    }
    CompletedIffAllDelivered(outcome, mails, |queue|, mailer, 0);
  }

  /** The first query and the first loop: every member whose end date has passed and who
      is not yet expired, in the order the query returns them, until an email fails. */
  method ExpireStep(store: MemberStore, now: Millis, mailer: nat -> Transport)
    returns (outcome: PassOutcome, expired: seq<Id>, ghost mails: seq<Dispatch>)
    requires store.Valid()
    modifies store
    ensures store.Valid() && store.receipts == old(store.receipts)
    ensures NoNewActive(old(store.members), store.members)
    ensures NoDuplicates(expired) && forall id :: id in expired ==> id in DueIds(old(store.members), now)
    ensures store.members == ExpireSome(old(store.members), set id | id in expired)
    ensures outcome.Completed? ==> (set id | id in expired) == DueIds(old(store.members), now)
    ensures store.outbox == old(store.outbox) + mails
    ensures ExpiriesLogged(mails, old(store.members), expired)
    ensures StoppedAtFirstFailure(outcome, mails)
    ensures DrivenBy(mails, mailer, 0)
    ensures outcome.Completed? ==> |expired| == |DueIds(old(store.members), now)|
    ensures outcome.Completed? <==> AllDelivered(mailer, 0, |DueIds(old(store.members), now)|)
  {
    ghost var before := store.members;
    var due := set id | id in store.members && DueForExpiry(store.members[id], now);
    assert due == DueIds(before, now);
    var queue := Enumerate(due);
    assert forall k :: 0 <= k < |queue| ==> queue[k] in due;
    outcome, expired, mails := ExpireLoop(store, queue, mailer);
    ExpireSomeKeepsValid(before, set id | id in expired);
    PrefixNoDuplicates(queue, |expired|);
    if outcome.Completed? {
      ElementsOfListing(due, queue);
    }
  }

  /** The log of the second loop after one more turn, while the loop has not yet failed. */
  lemma ReminderTurnLogged(mails: seq<Dispatch>, members: map<Id, Member>, reminded: seq<Id>, now: Millis, id: Id,
                           result: DispatchResult, mailer: nat -> Transport, first: nat)
    requires RemindersLogged(mails, members, reminded, now) && id in members
    requires StoppedAtFirstFailure(Completed, mails) && DrivenBy(mails, mailer, first)
    requires result == DispatchOutcome(mailer(first + |reminded|))
    ensures var d := Dispatch(ReminderMail(members[id], now), result);
      && RemindersLogged(mails + [d], members, reminded + [id], now)
      && StoppedAtFirstFailure(if result.Sent? then Completed else Aborted(result.message), mails + [d])
      && DrivenBy(mails + [d], mailer, first)
  {
    var d := Dispatch(ReminderMail(members[id], now), result);
    RemindersLoggedStep(mails, members, reminded, now, id, result);
    StoppedAtFirstFailureStep(mails, d);
    DrivenByStep(mails, mailer, first, d);
  }

  /** The second loop over the list the second query returned: each member is sent a
      reminder; nothing is saved, and a failed email ends the loop. `first` numbers the
      emails after those of the first loop. */
  method ReminderLoop(store: MemberStore, list: seq<Id>, now: Millis, mailer: nat -> Transport, first: nat)
    returns (outcome: PassOutcome, reminded: seq<Id>, ghost mails: seq<Dispatch>)
    requires forall k :: 0 <= k < |list| ==> list[k] in store.members
    modifies store
    ensures store.members == old(store.members) && store.receipts == old(store.receipts)
    ensures |reminded| <= |list| && reminded == list[..|reminded|]
    ensures outcome.Completed? ==> reminded == list
    ensures store.outbox == old(store.outbox) + mails
    ensures RemindersLogged(mails, store.members, reminded, now)
    ensures StoppedAtFirstFailure(outcome, mails)
    ensures DrivenBy(mails, mailer, first)
    ensures outcome.Completed? <==> AllDelivered(mailer, first, |list|)
  {
    outcome, reminded, mails := Completed, [], [];
    var members := store.members;
    ghost var log := store.outbox;
    var j := 0;
    while j < |list| && outcome.Completed?
      invariant 0 <= j <= |list| && reminded == list[..j]
      invariant store.members == members && store.receipts == old(store.receipts)
      invariant store.outbox == log + mails
      invariant RemindersLogged(mails, members, reminded, now)
      invariant StoppedAtFirstFailure(outcome, mails)
      invariant DrivenBy(mails, mailer, first)
    {
      var id := list[j];
      var result := store.SendAndLog(ReminderOptions(members[id], now), mailer(first + j));
      var d := Dispatch(ReminderMail(members[id], now), result);
      PrefixStep(list, j);
      ReminderTurnLogged(mails, members, reminded, now, id, result, mailer, first);
      AppendStep(log, mails, d);
      reminded := reminded + [id];
      mails := mails + [d];
      if result.FailedAfterRetries? {
        outcome := Aborted(result.message);
      }
      j := j + 1;
    }
    CompletedIffAllDelivered(outcome, mails, |list|, mailer, first);
  }

  /** The second query and the second loop: every active member whose end date falls in
      the next seven days, in the order the query returns them, until an email fails. */
  method ReminderStep(store: MemberStore, now: Millis, mailer: nat -> Transport, first: nat)
    returns (outcome: PassOutcome, reminded: seq<Id>, ghost mails: seq<Dispatch>)
    requires store.Valid()
    modifies store
    ensures store.Valid()
    ensures store.members == old(store.members) && store.receipts == old(store.receipts)
    ensures NoDuplicates(reminded) && forall id :: id in reminded ==> id in ReminderIds(store.members, now)
    ensures outcome.Completed? ==> (set id | id in reminded) == ReminderIds(store.members, now)
    ensures store.outbox == old(store.outbox) + mails
    ensures RemindersLogged(mails, store.members, reminded, now)
    ensures StoppedAtFirstFailure(outcome, mails)
    ensures DrivenBy(mails, mailer, first)
    ensures outcome.Completed? <==> AllDelivered(mailer, first, |ReminderIds(store.members, now)|)
  {
    var nearing := set id | id in store.members && DueForReminder(store.members[id], now);
    assert nearing == ReminderIds(store.members, now);
    var list := Enumerate(nearing);
    assert forall k :: 0 <= k < |list| ==> list[k] in nearing;
    outcome, reminded, mails := ReminderLoop(store, list, now, mailer, first);
    PrefixNoDuplicates(list, |reminded|);
    if outcome.Completed? {
      ElementsOfListing(nearing, list);
    }
  }

  /** Two loops that each stop at their first failure, the second run only after the first
      completed, stop at the first failure of the two. */
  lemma StoppedAtFirstFailureAppend(first: seq<Dispatch>, outcome: PassOutcome, second: seq<Dispatch>)
    requires StoppedAtFirstFailure(Completed, first) && StoppedAtFirstFailure(outcome, second)
    ensures StoppedAtFirstFailure(outcome, first + second)
  {
    var all := first + second;
    assert forall k :: 0 <= k < |first| ==> all[k] == first[k];
    assert forall k :: 0 <= k < |second| ==> all[|first| + k] == second[k];
  }

  /** A run whose first loop completed over `d` emails completes exactly when the `d + r`
      transports it uses all deliver, given that its second loop over `r` emails completes
      exactly when the `r` after the first `d` deliver. */
  lemma RunDeliveredIff(mailer: nat -> Transport, expiryOutcome: PassOutcome, outcome: PassOutcome, d: nat, r: nat)
    requires expiryOutcome.Completed? <==> AllDelivered(mailer, 0, d)
    requires expiryOutcome.Completed?
    requires outcome.Completed? <==> AllDelivered(mailer, d, r)
    ensures outcome.Completed? <==> AllDelivered(mailer, 0, d + r)
  {
  }

  /** One run of `checkExpiredSubscriptions` at instant `now`. `mailer(k)` is the transport
      seen by the `k`-th email of the run. `expired` lists the members marked expired, in
      query order, and `reminded` those a reminder was attempted for. The reminder step
      starts only after a complete expire step; a failed email ends the run, which still
      returns normally. */
  method CheckExpiredSubscriptions(store: MemberStore, now: Millis, mailer: nat -> Transport)
    returns (outcome: PassOutcome, expired: seq<Id>, reminded: seq<Id>, ghost expiryMails: seq<Dispatch>, ghost reminderMails: seq<Dispatch>)
    requires store.Valid()
    modifies store
    ensures store.Valid()
    ensures store.receipts == old(store.receipts)
    ensures NoNewActive(old(store.members), store.members)
    ensures NoDuplicates(expired) && forall id :: id in expired ==> id in DueIds(old(store.members), now)
    ensures store.members == ExpireSome(old(store.members), set id | id in expired)
    ensures store.outbox == old(store.outbox) + expiryMails + reminderMails
    ensures ExpiriesLogged(expiryMails, old(store.members), expired)
    ensures RemindersLogged(reminderMails, store.members, reminded, now)
    ensures outcome.Completed? || reminded != [] ==>
      (set id | id in expired) == DueIds(old(store.members), now) && store.members == ExpireAll(old(store.members), now)
    ensures NoDuplicates(reminded) && forall id :: id in reminded ==> id in ReminderIds(store.members, now)
    ensures outcome.Completed? ==> (set id | id in reminded) == ReminderIds(store.members, now)
    ensures StoppedAtFirstFailure(outcome, expiryMails + reminderMails)
    ensures DrivenBy(expiryMails + reminderMails, mailer, 0)
    ensures outcome.Completed? <==> AllDelivered(mailer, 0, RunLength(old(store.members), now))
  {
    ghost var before := store.members;
    outcome, expired, expiryMails := ExpireStep(store, now, mailer);
    reminded, reminderMails := [], [];
    ghost var d := |DueIds(before, now)|;
    if outcome.Aborted? {
      assert expiryMails + reminderMails == expiryMails;
      return;
    }
    assert |expired| == |DueIds(before, now)| && store.members == ExpireAll(before, now);
    ghost var expiryOutcome := outcome;
    outcome, reminded, reminderMails := ReminderStep(store, now, mailer, |expired|);
    StoppedAtFirstFailureAppend(expiryMails, outcome, reminderMails);
    DrivenByAppend(expiryMails, reminderMails, mailer);
    RunDeliveredIff(mailer, expiryOutcome, outcome, |expired|, |ReminderIds(store.members, now)|);
  }
}
