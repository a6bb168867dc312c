/** The request handlers of controllers/userController.js over an in-memory collection.
    `MemberStore` holds the documents by id, the names of the receipt files on disk, and
    a log of the emails the handlers dispatched. Every handler is one atomic step; the
    transports, the clock, the PDF writer and Mongoose's date casting are parameters. */
module UserController {
  import opened Text
  import opened Lists
  import opened UserModel
  import opened Mail
  import opened PdfService
  import EmailService

  /** The response: an HTTP status and the JSON body's shape. */
  datatype Body =
    | ErrorMessage(message: string)
    | ErrorMessages(messages: seq<string>)
    | ErrorDetail(message: string, error: string)
    | Thrown                                  // `message: error.message` of a Mongoose error
    | MemberBody(member: Member)
    | MembersBody(members: seq<Member>)
    | ApprovedBody(message: string, receiptUrl: string)
    | SuccessMessage(message: string)

  datatype Reply = Reply(status: nat, body: Body)

  function NotFound(): Reply { Reply(404, ErrorMessage("User not found")) }

  // ---------------------------------------------------------------------------------
  // register: the validation list

  /** `req.body` of a registration; the empty string stands for a missing field, since
      both are falsy. */
  datatype RegisterBody = RegisterBody(
    name: string, email: string, phone: string, dob: string,
    plan: string, startDate: string, endDate: string, paymentMethod: string)

  /** `/\S+@\S+\.\S+/.test(s)`: somewhere in `s` a non-space character, '@', a non-empty
      run of non-space characters, '.', and a non-space character. */
  predicate LooseEmail(s: string) {
    exists a: int, d: int :: 0 < a && a + 1 < d && d + 1 < |s| && LooseEmailAt(s, a, d)
  }

  /** The match of `LooseEmail` with '@' at `a` and the '.' at `d`. */
  predicate LooseEmailAt(s: string, a: int, d: int)
    requires 0 < a && a + 1 < d && d + 1 < |s|
  {
    && s[a] == '@' && s[d] == '.'
    && !IsSpace(s[a - 1]) && !IsSpace(s[d + 1])
    && forall k :: a < k < d ==> !IsSpace(s[k])
  }

  /** `/^\d{10}$/.test(s)`. */
  predicate TenDigits(s: string) {
    |s| == 10 && forall k :: 0 <= k < |s| ==> IsDigit(s[k])
  }

  const RegistrationMessages: seq<string> := [
    "Name is required", "Valid email is required", "Valid phone number is required",
    "Date of birth is required", "Plan is required", "Start date is required",
    "End date is required", "Payment method is required"]

  /** Check `i` of the eight in the handler rejects the body. */
  predicate FieldRejected(b: RegisterBody, i: int) {
    if i == 0 then b.name == ""
    else if i == 1 then b.email == "" || !LooseEmail(b.email)
    else if i == 2 then b.phone == "" || !TenDigits(b.phone)
    else if i == 3 then b.dob == ""
    else if i == 4 then b.plan == ""
    else if i == 5 then b.startDate == ""
    else if i == 6 then b.endDate == ""
    else if i == 7 then b.paymentMethod == ""
    else false
  }

  predicate RegistrationAccepted(b: RegisterBody) {
    forall i :: 0 <= i < 8 ==> !FieldRejected(b, i)
  }

  /** The eight messages are different from one another. */
  lemma MessagesDistinct()
    ensures NoDuplicates(RegistrationMessages)
  {
  }

  /** `errors` after the first `i` checks: the message of each failing check among them,
      in order, at the positions `idx`. */
  ghost predicate CollectedUpTo(b: RegisterBody, i: int, idx: seq<nat>, errors: seq<string>) {
    && 0 <= i <= 8
    && Spells(idx, errors, RegistrationMessages)
    && (forall k :: 0 <= k < |idx| ==> idx[k] < i)
    && (forall j :: 0 <= j < 8 ==> (RegistrationMessages[j] in errors <==> j < i && FieldRejected(b, j)))
  }

  /** Running check `i`. */
  lemma CollectStep(b: RegisterBody, i: int, idx: seq<nat>, errors: seq<string>)
    requires CollectedUpTo(b, i, idx, errors) && i < 8
    ensures FieldRejected(b, i) ==> CollectedUpTo(b, i + 1, idx + [i], errors + [RegistrationMessages[i]])
    ensures !FieldRejected(b, i) ==> CollectedUpTo(b, i + 1, idx, errors)
  {
    MessagesDistinct();
    var m := RegistrationMessages;
    assert forall k :: 0 <= k < |errors| ==> errors[k] == m[idx[k]];
    if FieldRejected(b, i) {
      forall j | 0 <= j < 8
        ensures m[j] in errors + [m[i]] <==> j < i + 1 && FieldRejected(b, j)
      {
        if j != i {
          assert m[j] != m[i];
        }
      }
    } else {
      forall j | 0 <= j < 8 && m[j] in errors
        ensures j < i
      {
        var k :| 0 <= k < |errors| && errors[k] == m[j];
        assert m[idx[k]] == m[j];
      }
    }
  }

  /** After all eight checks the list is empty exactly when every check passed. */
  lemma CollectedAll(b: RegisterBody, idx: seq<nat>, errors: seq<string>)
    requires CollectedUpTo(b, 8, idx, errors)
    ensures errors == [] <==> RegistrationAccepted(b)
    ensures forall m :: m in errors ==> m in RegistrationMessages
    ensures IsSubsequence(errors, RegistrationMessages)
  {
    if errors != [] {
      assert errors[0] == RegistrationMessages[idx[0]];
    }
  }

  /** The `errors` list: the message of every failing check, in the order of the checks. */
  method CollectErrors(b: RegisterBody) returns (errors: seq<string>)
    ensures errors == [] <==> RegistrationAccepted(b)
    ensures forall i :: 0 <= i < 8 ==> (RegistrationMessages[i] in errors <==> FieldRejected(b, i))
    ensures forall m :: m in errors ==> m in RegistrationMessages
    ensures IsSubsequence(errors, RegistrationMessages)
  {
    errors := [];
    ghost var idx: seq<nat> := [];
    var i := 0;
    while i < 8
      invariant CollectedUpTo(b, i, idx, errors)
    {
      CollectStep(b, i, idx, errors);
      if FieldRejected(b, i) {
        errors := errors + [RegistrationMessages[i]];
        idx := idx + [i];
      }
      i := i + 1;
    }
    CollectedAll(b, idx, errors);
  }


  /** `findOne({ email })`, with the schema's `lowercase` applied to the filter. */
  predicate EmailTaken(members: map<Id, Member>, email: string) {
    exists id :: id in members && members[id].email == ToLower(email)
  }

  /** `findOne({ phone })`. */
  predicate PhoneTaken(members: map<Id, Member>, phone: string) {
    exists id :: id in members && members[id].phone == phone
  }

  /** The draft `User.create` receives, with the three dates cast by `castDate`; `None` when
      a cast fails. */
  function RegistrationDraft(b: RegisterBody, castDate: string -> Option<Millis>): (r: Option<Draft>)
    ensures r.Some? <==> castDate(b.dob).Some? && castDate(b.startDate).Some? && castDate(b.endDate).Some?
    ensures r.Some? ==> r.value.email == b.email && r.value.phone == b.phone && r.value.name == b.name
  {
    var dob, start, end := castDate(b.dob), castDate(b.startDate), castDate(b.endDate);
    if dob.Some? && start.Some? && end.Some? then
      Some(Draft(b.name, b.email, b.phone, dob.value, b.plan, start.value, end.value, b.paymentMethod))
    else None
  }

  // ---------------------------------------------------------------------------------
  // updateUser: the allow-list and the patch

  /** A value in a JSON body as the handler sees it. */
  datatype BodyValue = Undefined | Null | Str(text: string)

  const AllowedFields: set<string> := {"name", "email", "phone", "plan", "startDate", "endDate"}

  /** The `updates` object: every allowed key of `body` whose value is not `undefined`. */
  method AllowedUpdates(body: map<string, BodyValue>) returns (updates: map<string, BodyValue>)
    ensures forall k :: k in updates <==> k in body && k in AllowedFields && body[k] != Undefined
    ensures forall k :: k in updates ==> updates[k] == body[k]
  {
    updates := map[];
    var keys := Enumerate(body.Keys);
    var i := 0;
    while i < |keys|
      invariant 0 <= i <= |keys|
      invariant forall k :: k in updates <==> k in keys[..i] && k in AllowedFields && body[k] != Undefined
      invariant forall k :: k in updates ==> k in body && updates[k] == body[k]
    {
      var key := keys[i];
      if key in AllowedFields && body[key] != Undefined {
        updates := updates[key := body[key]];
      }
      assert keys[..i + 1] == keys[..i] + [key];
      i := i + 1;
    }
    assert keys[..|keys|] == keys;
  }

  /** The update validators (`runValidators: true`) and casting, field by field: a
      `required` string that is not empty (for `name`, once trimmed), a plan the `enum`
      admits, a date that casts. `null` fails `required`; `updates` never holds
      `undefined`. */
  predicate NameAccepted(v: BodyValue) { v.Str? && Trim(v.text) != "" }

  /** `email` and `phone`: `required`, checked on the value as sent. */
  predicate TextAccepted(v: BodyValue) { v.Str? && v.text != "" }

  predicate PlanAccepted(v: BodyValue) { v.Str? && ParsePlan(v.text).Some? }

  predicate DateAccepted(v: BodyValue, castDate: string -> Option<Millis>) { v.Str? && castDate(v.text).Some? }

  predicate UpdatesAccepted(updates: map<string, BodyValue>, castDate: string -> Option<Millis>) {
    && ("name" in updates ==> NameAccepted(updates["name"]))
    && ("email" in updates ==> TextAccepted(updates["email"]))
    && ("phone" in updates ==> TextAccepted(updates["phone"]))
    && ("plan" in updates ==> PlanAccepted(updates["plan"]))
    && ("startDate" in updates ==> DateAccepted(updates["startDate"], castDate))
    && ("endDate" in updates ==> DateAccepted(updates["endDate"], castDate))
  }

  /** The document after `findByIdAndUpdate` with accepted updates: each updated field holds
      the update value after the setters, every other field keeps its value. */
  function Patched(m: Member, updates: map<string, BodyValue>, castDate: string -> Option<Millis>): (r: Member)
    requires WellFormed(m) && UpdatesAccepted(updates, castDate)
    ensures WellFormed(r)
    ensures r.id == m.id && r.dob == m.dob && r.paymentMethod == m.paymentMethod
    ensures r.paymentStatus == m.paymentStatus && r.subscriptionStatus == m.subscriptionStatus
    ensures r.name == (if "name" in updates then Trim(updates["name"].text) else m.name)
    ensures r.email == (if "email" in updates then ToLower(updates["email"].text) else m.email)
    ensures r.phone == (if "phone" in updates then updates["phone"].text else m.phone)
    ensures "plan" in updates ==> PlanId(r.plan) == updates["plan"].text
    ensures "plan" !in updates ==> r.plan == m.plan
    ensures r.startDate == (if "startDate" in updates then castDate(updates["startDate"].text).value else m.startDate)
    ensures r.endDate == (if "endDate" in updates then castDate(updates["endDate"].text).value else m.endDate)
  {
    var name := if "name" in updates then PatchedName(updates["name"]) else m.name;
    var email := if "email" in updates then PatchedEmail(updates["email"]) else m.email;
    var phone := if "phone" in updates then PatchedPhone(updates["phone"]) else m.phone;
    var plan := if "plan" in updates then PatchedPlan(updates["plan"]) else m.plan;
    var start := if "startDate" in updates then PatchedDate(updates["startDate"], castDate) else m.startDate;
    var end := if "endDate" in updates then PatchedDate(updates["endDate"], castDate) else m.endDate;
    m.(name := name, email := email, phone := phone, plan := plan, startDate := start, endDate := end)
  }

  function PatchedName(v: BodyValue): (r: string)
    requires NameAccepted(v)
    ensures r == Trim(v.text) && r != "" && IsTrimmed(r)
  {
    Trim(v.text)
  }

  function PatchedEmail(v: BodyValue): (r: string)
    requires TextAccepted(v)
    ensures r == ToLower(v.text) && r != "" && IsLowerCase(r)
  {
    ToLower(v.text)
  }

  function PatchedPhone(v: BodyValue): (r: string)
    requires TextAccepted(v)
    ensures r == v.text && r != ""
  {
    v.text
  }

  function PatchedPlan(v: BodyValue): (r: Plan)
    requires PlanAccepted(v)
    ensures PlanId(r) == v.text
  {
    ParsePlan(v.text).value
  }

  function PatchedDate(v: BodyValue, castDate: string -> Option<Millis>): (r: Millis)
    requires DateAccepted(v, castDate)
    ensures r == castDate(v.text).value
  {
    castDate(v.text).value
  }

  /** An update with no allowed field leaves the document as it is. */
  lemma PatchWithoutUpdatesIsIdentity(m: Member, castDate: string -> Option<Millis>)
    requires WellFormed(m)
    ensures Patched(m, map[], castDate) == m
  {
  }

  /** The patched document would share an email or a phone with another member: the
      unique indexes reject the write. */
  predicate Collides(members: map<Id, Member>, id: Id, m: Member) {
    exists other :: other in members && other != id && (members[other].email == m.email || members[other].phone == m.phone)
  }

  /** No member leaves `before` for `after` active unless it already was. */
  predicate NoNewActive(before: map<Id, Member>, after: map<Id, Member>) {
    forall id :: id in after && after[id].subscriptionStatus == Active ==>
      id in before && before[id].subscriptionStatus == Active
  }

  /** The options of the "Payment Confirmed" message of `approvePayment`. */
  function ApprovalOptions(m: Member): EmailOptions {
    EmailOptions(m.email, "Payment Confirmed - Gym Membership", Some(PaymentConfirmedHtml(m.name, m.plan, m.startDate, m.endDate)), None)
  }

  /** The options of the renewal notice of `notifyExpiredMember`. */
  function RenewalOptions(m: Member): EmailOptions {
    EmailOptions(m.email, "Your Gym Membership Has Expired - Renew Now!", Some(RenewalNoticeHtml(m.name, m.plan, m.startDate, m.endDate)), None)
  }

  /** The registration message: a template name and no html, so the message has no body. */
  function RegistrationOptions(m: Member): EmailOptions {
    EmailOptions(m.email, "Registration Confirmation", None, Some("registration"))
  }

  /** How many of `n` listed receipts the clean-up unlinks when the unlink of the one at
      index `failsAt` throws: those before it, or all of them. */
  function UnlinkedCount(n: nat, failsAt: Option<nat>): (r: nat)
    ensures r <= n
    ensures r < n <==> failsAt.Some? && failsAt.value < n
    ensures r < n ==> r == failsAt.value
  {
    if failsAt.Some? && failsAt.value < n then failsAt.value else n
  }

  class MemberStore {
    /** The `users` collection by `_id`. */
    var members: map<Id, Member>
    /** The file names in the receipts directory. */
    var receipts: set<string>
    /** Every `sendEmail` call made through this store, in order. */
    var outbox: seq<Dispatch>

    ghost predicate Valid()
      reads this
    {
      StoreValid(members)
    }

    constructor ()
      ensures Valid()
      ensures members == map[] && receipts == {} && outbox == []
    {
      members := map[];
      receipts := {};
      outbox := [];
    }

    /** Sends one message through services/emailService.js and logs it. */
    method SendAndLog(options: EmailOptions, transport: Transport) returns (result: DispatchResult)
      modifies this
      ensures members == old(members) && receipts == old(receipts)
      ensures outbox == old(outbox) + [Dispatch(BuildMail(options), result)]
      ensures result == DispatchOutcome(transport)
      ensures result.Sent? <==> exists k :: 0 <= k < MaxAttempts && transport(k).Delivered?
      ensures result.FailedAfterRetries? ==> result.message == TerminalMessage(FailureMessage(transport(MaxAttempts - 1)))
    {
      var attempts: nat, delays: seq<nat>, mail: MailMessage;
      attempts, delays, mail, result := EmailService.SendEmail(options, transport);
      outbox := outbox + [Dispatch(mail, result)];
    }

    /** `user.subscriptionStatus = 'expired'; await user.save()` on a stored member. */
    method MarkExpired(id: Id)
      requires Valid() && id in members
      modifies this
      ensures Valid()
      ensures members == old(members)[id := Expire(old(members)[id])]
      ensures receipts == old(receipts) && outbox == old(outbox)
    {
      var m := Expire(members[id]);
      StoredContactsFree(members, id, m);
      StoreValidPut(members, m);
      members := members[id := m];
    }

    /** `register`. `newId` is the `_id` the database assigns. */
    method Register(b: RegisterBody, newId: Id, castDate: string -> Option<Millis>, transport: Transport)
      returns (reply: Reply)
      requires Valid()
      requires newId !in members
      modifies this
      ensures Valid()
      ensures receipts == old(receipts)
      ensures NoNewActive(old(members), members)
      ensures !RegistrationAccepted(b) ==>
        && reply.status == 400 && reply.body.ErrorMessages?
        && (forall i :: 0 <= i < 8 ==> (RegistrationMessages[i] in reply.body.messages <==> FieldRejected(b, i)))
      ensures RegistrationAccepted(b) && EmailTaken(old(members), b.email) ==>
        reply == Reply(400, ErrorMessage("Email already registered"))
      ensures RegistrationAccepted(b) && !EmailTaken(old(members), b.email) && PhoneTaken(old(members), b.phone) ==>
        reply == Reply(400, ErrorMessage("Phone number already registered"))
      ensures reply.status == 400 ==> members == old(members) && outbox == old(outbox)
      // the document is created, or nothing happens
      ensures members == old(members) || (newId in members && members == old(members)[newId := members[newId]])
      ensures newId in members ==>
        && members[newId].paymentStatus == PaymentPending
        && members[newId].subscriptionStatus == SubscriptionPending
        && members[newId].email == ToLower(b.email) && members[newId].phone == b.phone
        && PlanId(members[newId].plan) == b.plan
        && outbox == old(outbox) + [Dispatch(BuildMail(RegistrationOptions(members[newId])), DispatchOutcome(transport))]
        && (reply.status == 201 <==> DispatchOutcome(transport).Sent?)
        && (reply.status == 201 ==> reply.body == MemberBody(members[newId]))
        && (reply.status != 201 ==> reply == Reply(500, ErrorMessage("Error registering user")))
      // an accepted body with free contacts creates the document `User.create` builds from
      // the cast draft, or fails with a 500 when a cast or the schema rejects it
      ensures RegistrationAccepted(b) && !EmailTaken(old(members), b.email) && !PhoneTaken(old(members), b.phone) ==>
        var draft := RegistrationDraft(b, castDate);
        var created := if draft.Some? then CreateDocument(newId, draft.value, PaymentPending, SubscriptionPending) else None;
        && (created.Some? ==> members == old(members)[newId := created.value])
        && (created.None? ==>
              reply == Reply(500, ErrorMessage("Error registering user")) && members == old(members) && outbox == old(outbox))
      ensures newId !in members ==> reply.status in {400, 500} && outbox == old(outbox)
      ensures reply.status == 201 ==> newId in members
    {
      var errors := CollectErrors(b);
      if errors != [] {
        return Reply(400, ErrorMessages(errors));
      }
      if EmailTaken(members, b.email) {
        return Reply(400, ErrorMessage("Email already registered"));
      }
      if PhoneTaken(members, b.phone) {
        return Reply(400, ErrorMessage("Phone number already registered"));
      }
      var draft := RegistrationDraft(b, castDate);
      if draft.None? {
        return Reply(500, ErrorMessage("Error registering user"));
      }
      var created := CreateDocument(newId, draft.value, PaymentPending, SubscriptionPending);
      if created.None? {
        return Reply(500, ErrorMessage("Error registering user"));
      }
      var m := created.value;
      StoreValidPut(members, m);
      members := members[newId := m];
      var result := SendAndLog(RegistrationOptions(m), transport);
      if result.Sent? {
        reply := Reply(201, MemberBody(m));
      } else {
        reply := Reply(500, ErrorMessage("Error registering user"));
      }
    }

    /** `approvePayment` at millisecond `millis`, with `write` what writing the PDF comes to.
        Nothing checks the current payment status. */
    method ApprovePayment(userId: Id, millis: nat, write: WriteOutcome, transport: Transport)
      returns (reply: Reply)
      requires Valid()
      modifies this
      ensures Valid()
      ensures NoNewActive(old(members), members)
      ensures userId !in old(members) ==>
        reply == NotFound() && members == old(members) && receipts == old(receipts) && outbox == old(outbox)
      ensures userId in old(members) && write != Written ==>
        && reply == Reply(500, ErrorMessage(GenerateReceipt(old(members)[userId], millis, write).message))
        && members == old(members) && receipts == old(receipts) && outbox == old(outbox)
      ensures userId in old(members) && write == Written ==>
        && members == old(members)[userId := old(members)[userId].(paymentStatus := Confirmed)]
        && receipts == old(receipts) + {ReceiptFileName(userId, millis)}
        && outbox == old(outbox) + [Dispatch(BuildMail(ApprovalOptions(members[userId])), DispatchOutcome(transport))]
        && (DispatchOutcome(transport).Sent? ==>
              reply == Reply(200, ApprovedBody("Payment approved successfully", ReceiptUrl(ReceiptFileName(userId, millis)))))
        && (DispatchOutcome(transport).FailedAfterRetries? ==>
              reply == Reply(500, ErrorMessage(DispatchOutcome(transport).message)))
    {
      if userId !in members {
        return NotFound();
      }
      var user := members[userId];
      var receipt := GenerateReceipt(user, millis, write);
      if receipt.ReceiptFailed? {
        return Reply(500, ErrorMessage(receipt.message));
      }
      receipts := receipts + {receipt.fileName};
      user := user.(paymentStatus := Confirmed);
      StoredContactsFree(members, userId, user);
      StoreValidPut(members, user);
      members := members[userId := user];
      var result := SendAndLog(ApprovalOptions(user), transport);
      if result.Sent? {
        reply := Reply(200, ApprovedBody("Payment approved successfully", receipt.url));
      } else {
        reply := Reply(500, ErrorMessage(result.message));
      }
    }

    /** `getAllUsers`: every document once, in the collection's order. */
    method GetAllUsers() returns (reply: Reply)
      ensures reply.status == 200 && reply.body.MembersBody?
      ensures |reply.body.members| == |members|
      ensures forall m :: m in reply.body.members <==> exists id :: id in members && members[id] == m
    {
      var ids := Enumerate(members.Keys);
      var list: seq<Member> := [];
      var i := 0;
      while i < |ids|
        invariant 0 <= i <= |ids|
        invariant |list| == i
        invariant forall k :: 0 <= k < i ==> list[k] == members[ids[k]]
      {
        list := list + [members[ids[i]]];
        i := i + 1;
      }
      reply := Reply(200, MembersBody(list));
      forall m | exists id :: id in members && members[id] == m
        ensures m in list
      {
        var id :| id in members && members[id] == m;
        var k :| 0 <= k < |ids| && ids[k] == id;
        assert list[k] == m;
      }
    }

    /** `updateUser`: the allow-listed, defined values of `body` are validated, then the
        document is looked up and patched. */
    method UpdateUser(userId: Id, body: map<string, BodyValue>, castDate: string -> Option<Millis>)
      returns (reply: Reply)
      requires Valid()
      modifies this
      ensures Valid()
      ensures receipts == old(receipts) && outbox == old(outbox)
      ensures NoNewActive(old(members), members)
      ensures members == old(members) || (userId in members && members == old(members)[userId := members[userId]])
      ensures userId in members ==>
        && userId in old(members)
        && members[userId].paymentStatus == old(members)[userId].paymentStatus
        && members[userId].subscriptionStatus == old(members)[userId].subscriptionStatus
        && members[userId].paymentMethod == old(members)[userId].paymentMethod
        && members[userId].dob == old(members)[userId].dob
      ensures !UpdatesAccepted(AllowedOf(body), castDate) ==> reply == Reply(500, Thrown) && members == old(members)
      ensures UpdatesAccepted(AllowedOf(body), castDate) && userId !in old(members) ==>
        reply == NotFound() && members == old(members)
      ensures UpdatesAccepted(AllowedOf(body), castDate) && userId in old(members) ==>
        var patched := Patched(old(members)[userId], AllowedOf(body), castDate);
        if Collides(old(members), userId, patched) then reply == Reply(500, Thrown) && members == old(members)
        else reply == Reply(200, MemberBody(patched)) && members == old(members)[userId := patched]
    {
      var updates := AllowedUpdates(body);
      assert updates == AllowedOf(body);
      if !UpdatesAccepted(updates, castDate) {
        return Reply(500, Thrown);
      }
      if userId !in members {
        return NotFound();
      }
      var patched := Patched(members[userId], updates, castDate);
      if Collides(members, userId, patched) {
        return Reply(500, Thrown);
      }
      assert ContactsFree(members, userId, patched);
      Put(patched);
      reply := Reply(200, MemberBody(patched));
    }

    /** Writes a well-formed document whose contacts are free under its own id. */
    method Put(m: Member)
      requires Valid() && WellFormed(m) && ContactsFree(members, m.id, m)
      modifies this
      ensures Valid()
      ensures members == old(members)[m.id := m]
      ensures receipts == old(receipts) && outbox == old(outbox)
    {
      StoreValidPut(members, m);
      members := members[m.id := m];
    }

    /** The `forEach` of `deleteUser`: the listed files are unlinked in turn, and an
        `unlinkSync` that throws on the file at index `failsAt` ends the loop there, leaving
        that file and every later one. */
    method RemoveReceipts(names: seq<string>, failsAt: Option<nat>)
      modifies this
      ensures receipts == set f | f in old(receipts) && f !in names[..UnlinkedCount(|names|, failsAt)]
      ensures members == old(members) && outbox == old(outbox)
    {
      ghost var n := UnlinkedCount(|names|, failsAt);
      var i := 0;
      while i < |names| && failsAt != Some(i)
        invariant 0 <= i <= n
        invariant receipts == set f | f in old(receipts) && f !in names[..i]
        invariant members == old(members) && outbox == old(outbox)
      {
        receipts := receipts - {names[i]};
        assert names[..i + 1] == names[..i] + [names[i]];
        i := i + 1;
      }
    }

    /** `deleteUser`. `listingFails` says whether reading the receipts directory throws, and
        `unlinkFailsAt` at which of the member's receipts, in the listing's order, an
        `unlinkSync` throws. Either error only ends the clean-up: the inner `catch` swallows
        it and the member is deleted all the same. `userReceipts` is the member's part of
        the listing, whose order the file system decides. */
    method DeleteUser(userId: Id, listingFails: bool, unlinkFailsAt: Option<nat>)
      returns (reply: Reply, ghost userReceipts: seq<string>)
      requires Valid()
      modifies this
      ensures Valid()
      ensures outbox == old(outbox)
      ensures NoNewActive(old(members), members)
      ensures userId !in old(members) ==> reply == NotFound() && members == old(members) && receipts == old(receipts)
      ensures userId in old(members) ==>
        && reply == Reply(200, SuccessMessage("User and associated files deleted successfully"))
        && members == old(members) - {userId}
        && (listingFails ==> receipts == old(receipts))
        && (!listingFails ==>
              && (forall f :: f in userReceipts <==> f in old(receipts) && StartsWith(f, ReceiptPrefix(userId)))
              && receipts == set f | f in old(receipts) && f !in userReceipts[..UnlinkedCount(|userReceipts|, unlinkFailsAt)])
        && (!listingFails && unlinkFailsAt.None? ==>
              receipts == set f | f in old(receipts) && !StartsWith(f, ReceiptPrefix(userId)))
    {
      userReceipts := [];
      if userId !in members {
        return NotFound(), userReceipts;
      }
      if !listingFails {
        var files := Enumerate(receipts);
        var prefix := ReceiptPrefix(userId);
        var mine := Filter(files, f => StartsWith(f, prefix));
        ghost var before := receipts;
        RemoveReceipts(mine, unlinkFailsAt);
        userReceipts := mine;
        forall f
          ensures f in userReceipts <==> f in before && StartsWith(f, prefix)
        {
          FilterMembership(files, g => StartsWith(g, prefix), f);
        }
      }
      StoreValidRemove(members, userId);
      members := members - {userId};
      reply := Reply(200, SuccessMessage("User and associated files deleted successfully"));
    }

    /** `getUser`. */
    method GetUser(userId: Id) returns (reply: Reply)
      ensures userId in members ==> reply == Reply(200, MemberBody(members[userId]))
      ensures userId !in members ==> reply == NotFound()
    {
      if userId in members {
        reply := Reply(200, MemberBody(members[userId]));
      } else {
        reply := NotFound();
      }
    }

    /** `notifyExpiredMember`: the renewal notice goes to the stored member; the `email` and
        `name` of the request body are read but never used. */
    method NotifyExpiredMember(userId: Id, bodyEmail: string, bodyName: string, transport: Transport)
      returns (reply: Reply)
      requires Valid()
      modifies this
      ensures Valid()
      ensures members == old(members) && receipts == old(receipts)
      ensures userId !in members ==> reply == NotFound() && outbox == old(outbox)
      ensures userId in members ==>
        && outbox == old(outbox) + [Dispatch(BuildMail(RenewalOptions(members[userId])), DispatchOutcome(transport))]
        && (DispatchOutcome(transport).Sent? ==> reply == Reply(200, SuccessMessage("Notification sent successfully")))
        && (DispatchOutcome(transport).FailedAfterRetries? ==>
              reply == Reply(500, ErrorDetail("Failed to send email notification", DispatchOutcome(transport).message)))
    {
      if userId !in members {
        return NotFound();
      }
      var user := members[userId];
      var result := SendAndLog(RenewalOptions(user), transport);
      if result.Sent? {
        reply := Reply(200, SuccessMessage("Notification sent successfully"));
      } else {
        reply := Reply(500, ErrorDetail("Failed to send email notification", result.message));
      }
    }
  }

  /** The allow-listed, defined part of a body, as a value. */
  function AllowedOf(body: map<string, BodyValue>): (r: map<string, BodyValue>)
    ensures forall k :: k in r ==> k in AllowedFields && k in body && r[k] == body[k] && r[k] != Undefined
  {
    map k | k in body && k in AllowedFields && body[k] != Undefined :: body[k]
  }
}
