# Gym membership lifecycle, modelled in Dafny

This project models the membership back end of a gym and its two admin front ends.

A member registers with a name, an e-mail address, a phone number, a date of birth, one
of five plans (one, two, three or six months, or a year) and a payment method. The
member is stored with payment status `pending` and subscription status `pending`.

An administrator then works on the stored members:

- approving a payment generates a PDF receipt, confirms the payment and mails the
  member;
- a member can be edited through an allow-list of fields, deleted together with their
  receipts, or sent a renewal notice.

Once a day, at local midnight, an expiration pass runs in two steps:

1. It marks every member whose end date has passed as `expired` and mails each one.
2. It mails a reminder to every active member whose membership ends within seven days.

Every e-mail goes through a dispatcher that makes up to three attempts with a wait
between them.

Around this core sit several smaller pieces:

- the upload middleware, which renames and filters member photos;
- the token check and role check of the authentication middleware;
- the plan price and name tables;
- the routes that serve uploads and receipts;
- the client's registration form (its validation, plan choice, photo check, and how it
  reads the server's answer);
- the dashboard computations of the two admin panels (tabs, revenue figures, badges,
  row buttons, and the list shown after an approval or a deletion).

## How the model is organised

Each source file of the core is one Dafny module:

| module | models |
|---|---|
| UserModel | models/User.js |
| UserController | controllers/userController.js |
| SubscriptionService | services/subscriptionService.js |
| EmailService | services/emailService.js |
| GymEmailService | gym-server/services/emailService.js |
| PdfService | gym-server/services/pdfService.js |
| Formatters | utils/formatters.js |
| GymServer | gym-server/server.js |
| Upload | middleware/upload.js |
| Auth | middleware/auth.js |
| ClientAdminPanel | client/src/components/AdminPanel.tsx |
| RegistrationForm | client/src/components/RegistrationForm.tsx |
| AdminApp | admin/src/components/AdminPanel.tsx |

Five shared modules hold what several of them need:

- **Mail**: the options, messages and attempt outcomes that both copies of `sendEmail`
  use, and `DispatchOutcome`, what a dispatch comes to for a given transport.
- **Text**: JavaScript string operations (`trim`, ASCII `toLowerCase`, `startsWith`,
  `includes`, `split`, `indexOf`, number formatting).
- **Lists**: `filter`, sums, sub-sequences and multiplicities.
- **NodePath**: Node's `path.basename` and `path.extname`.
- **Clock**: `Math.ceil` of an integer quotient.

The database is a class, `UserController.MemberStore`, which holds three things:

- the `users` collection, as a map from id to member;
- the set of file names in the receipts directory;
- the log of every e-mail dispatched.

Its methods are the handlers, each one atomic step. Its invariant is that every stored
document is well formed (name trimmed and non-empty, e-mail lower-cased and non-empty,
phone non-empty) and that no two members share an e-mail or a phone (the two unique
indexes). Every handler and the whole expiration pass preserve the invariant. Each one
also proves that no member becomes `active` that was not active before: no code path
ever assigns `active`. As a result, the reminder step of a store that started empty
never sends anything (`SubscriptionService.NoActiveNoReminders`).

Effects outside the program are parameters, listed below.

| effect | given as |
|---|---|
| time | integer milliseconds |
| the SMTP transport | the outcome of each attempt, indexed from 0 |
| the transport seen by each e-mail of a call | a function from the e-mail's index to a transport |
| JWT verification | a function from a token to the decoded payload, or nothing |
| date casting in Mongoose | a function from a string to an instant, or nothing |
| the upload's random suffix | a number |
| writing the PDF | its outcome |
| reading the receipts directory | whether it throws |
| unlinking the member's receipts | the index of the first unlink that throws, or none |
| `addMonths`, `toISOString().split('T')[0]` | functions |
| local year and month of an instant | a function |
| the confirmation dialog | a boolean |
| every fetch | the response it gets |

Some points where the model follows the code rather than a reading of it:

- **The controller's dependencies.** controllers/userController.js requires
  `../services/emailService` (the linear-backoff copy) and `../services/pdfService`.
  The second file is not part of this model. gym-server/services/pdfService.js stands in
  for it.
- **Update validation.** `updateUser` runs the update validators (`runValidators`)
  before the id lookup. A rejected update is therefore a 500 even for an unknown id.
- **E-mail lookups.** The schema's `lowercase` and `trim` setters apply to query
  filters, so `findOne({ email })` compares lower-cased addresses.
- **Upload size.** `file.size` is not yet known inside multer's `fileFilter`, so the size
  test there passes every file. The model makes the size optional. The size limit itself
  is multer's `limits.fileSize`, which answers `LIMIT_FILE_SIZE`.
- **The admin app's status route.** The separate admin app (admin/src) sends
  `PATCH /api/users/:id/status` with the statuses `pending`, `confirmed` and `expired`.
  Neither route file defines that path, and `expired` is not a payment status of the
  schema. The model takes the app's own types and keeps only its client-side behaviour.
- **The admin app's user list.** That app stores the whole body of `GET /api/users` as
  its list. The model takes the fetched list as given.

## Model

| member | source | states |
|---|---|---|
| UserModel.ParsePlan | models/User.js:25-29 | a string the plan `enum` accepts names exactly one plan, whose identifier is that string |
| UserModel.ParsePlanRoundTrip | models/User.js:28 | every plan's identifier is accepted and names that plan again |
| UserModel.PlanDomain | models/User.js:28 | the plan validator accepts exactly the five strings 1month, 2month, 3month, 6month, yearly |
| UserModel.ParsePaymentMethod | models/User.js:38-42 | the payment method validator accepts exactly "cash" and "online", and each names that method |
| UserModel.IsExpiredBoundary | models/User.js:56-58 | `isExpired` holds exactly when the end date is before now; at the end date itself the member is not expired |
| UserModel.NormalisationIdempotent | models/User.js:5-15 | applying the `trim` and `lowercase` setters twice is applying them once |
| UserModel.WellFormedIsNormalised | models/User.js:5-15 | a stored document's name and e-mail are unchanged by the setters |
| UserModel.CreateDocument | models/User.js:4-53 | create succeeds exactly when the trimmed name, the e-mail and the phone are non-empty and the plan and payment method are in their enums; the document is then well formed, with the normalised strings, the given dates and the given statuses |
| UserModel.StoreValidPut | models/User.js:10-20 | writing a well-formed document whose e-mail and phone no other member holds keeps both unique indexes |
| UserModel.StoreValidRemove | models/User.js:10-20 | removing a document keeps the collection valid |
| UserModel.StoredContactsFree | models/User.js:10-20 | a stored document that keeps its e-mail and phone collides with no other member |
| UserModel.ExpireSome | services/subscriptionService.js:15-17 | marking members expired keeps the set of ids |
| UserModel.ExpireSomeStep | services/subscriptionService.js:15-17 | expiring one more member is one more single-document update |
| UserModel.ExpireSomeKeepsValid | services/subscriptionService.js:15-17 | marking members expired keeps the collection valid and changes a subscription status only to 'expired' |
| Formatters.PlanAmount | utils/formatters.js:9-18 | the amount is positive exactly for the five plan identifiers, 0 for any other string that names no inherited member of a plain object |
| Formatters.PlanDisplayName | utils/formatters.js:20-29 | any string that is neither a plan identifier nor the name of an inherited member of a plain object is returned unchanged |
| Formatters.PlanPrice | utils/formatters.js:10-16 | every plan the schema admits has a positive amount, the one `getPlanAmount` gives |
| Formatters.PriceIncreasesWithDuration | utils/formatters.js:10-16 | a plan costs less than another exactly when it lasts fewer months |
| Formatters.DisplayNamesDistinct | utils/formatters.js:20-29 | the five display names are distinct, and none is a plan identifier |
| Auth.BearerTokenHasNoSpace | middleware/auth.js:9-10 | a token taken from a Bearer header has no space |
| Auth.HeaderTakesPrecedence | middleware/auth.js:9-13 | with a Bearer header the cookie does not affect the token |
| Auth.BearerTokenSelected | middleware/auth.js:9-10 | `Bearer t` yields the token t |
| Auth.Protect | middleware/auth.js:4-41 | 401 "Not authorized to access this route" without a truthy token, 401 "Invalid or expired token" when it does not verify, otherwise the decoded payload is handed on |
| Auth.ProtectAuthorizesOnlyVerified | middleware/auth.js:15-33 | the handler runs exactly when a non-empty selected token verifies; every refusal is a 401 |
| Auth.BareBearerRefused | middleware/auth.js:9-20 | a header starting with "Bearer" but holding no space yields no token and a 401, even with a valid cookie |
| Auth.EmptyBearerRefused | middleware/auth.js:9-20 | "Bearer " yields the empty token, refused with 401 |
| Auth.CookieUsedWithoutBearer | middleware/auth.js:11-13 | without a Bearer header a non-empty cookie token is the token, and verification decides |
| Auth.RestrictTo | middleware/auth.js:43-50 | `next()` exactly when the user's role is listed, otherwise a 403 "Not authorized to access this route" |
| Auth.RestrictToMonotone | middleware/auth.js:45 | listing more roles never shuts out a user who was let through |
| Upload.Sanitize | middleware/upload.js:19 | same length; letters, digits and '.' kept, every other character becomes '_' |
| Upload.SanitizeKeepsSafeNames | middleware/upload.js:19 | a name of letters, digits and '.' only is unchanged |
| Upload.SanitizeIdempotent | middleware/upload.js:19 | sanitising twice is sanitising once |
| Upload.StoredFileName | middleware/upload.js:17-24 | the stored name never contains '/' |
| Upload.SplitStoredFileName | middleware/upload.js:20-21 | the stored name splits back into the millisecond, the random suffix and the sanitised original name |
| Upload.StoredFileNameInjective | middleware/upload.js:20-21 | equal stored names come from the same millisecond, the same suffix and the same sanitised name |
| Upload.StoredFileNameKeepsExtension | middleware/upload.js:19-21 | a photo named stem plus extension of kept characters keeps that extension once stored |
| Upload.FileFilter | middleware/upload.js:35-59 | accepted exactly when the size, if known, is at most 2 MB and both the lower-cased extension and the mime type contain jpeg, jpg or png; the rejection message names the size or the type accordingly |
| Upload.FileFilterAcceptsJpeg | middleware/upload.js:48-54 | a JPEG within the limit is accepted whatever the case of its extension |
| Upload.FileFilterAcceptsPng | middleware/upload.js:48-54 | a PNG within the limit is accepted |
| Upload.FileFilterMatchIsUnanchored | middleware/upload.js:43-54 | `.apng` with `image/apng` passes the unanchored match, and an unmeasured size passes the size test |
| Upload.FileFilterRejectsGif | middleware/upload.js:48-58 | a GIF is rejected with the type message |
| Upload.FileFilterSizeFirst | middleware/upload.js:43-46 | an oversized file is rejected for its size before its type is looked at |
| Upload.HandleUploadError | middleware/upload.js:63-84 | `next()` exactly when there is no error; every error is a 400, with the dedicated message for LIMIT_FILE_SIZE, otherwise the error's own message or a default when it is empty |
| Upload.RejectedFileAnswered | middleware/upload.js:77-81 | a file the filter rejects is answered 400 with the filter's message |
| NodePath.BaseName | gym-server/server.js:110 | the base name has no '/' |
| NodePath.BaseNameOfName | gym-server/server.js:110 | a name without '/' is its own base name and the base name of any path ending in it |
| NodePath.ExtName | gym-server/server.js:62 | the extension is empty or a '.' followed by no other '.' |
| NodePath.ExtNameOf | middleware/upload.js:49 | stem plus extension has that extension |
| Clock.CeilDiv | services/subscriptionService.js:38 | the rounded-up quotient is the least r with x at most r times d |
| Mail.BuildMail | services/emailService.js:39-51 | the message has the options' recipient, subject and html, unchanged |
| Mail.TemplateIgnored | controllers/userController.js:61-71 | the `template` key does not affect the message; options with no html send a message with no body |
| Mail.TerminalMessage | services/emailService.js:78-80 | the thrown message is "Failed to send email after 3 attempts: " followed by the last failure's message |
| Mail.DispatchOutcomeSent | services/emailService.js:28-86 | the dispatch result read front to back succeeds exactly when one of the three attempts delivers |
| EmailService.SendEmail | services/emailService.js:28-86 | 1 to 3 attempts; success exactly when some attempt of the first three delivers, with the first delivery's info and no later attempt; otherwise 3 attempts and the terminal message; waits 1000·k after failure k, none after the last; the result is always `DispatchOutcome` of the transport |
| EmailService.FailTwiceThenDeliver | services/emailService.js:32-84 | two failures then a delivery give 3 attempts, waits 1000 and 2000, and success |
| GymEmailService.SendEmail | gym-server/services/emailService.js:33-99 | the same retry contract with waits of 2000·2^k after failure k, so 4000 then 8000; the result is `DispatchOutcome` of the transport |
| GymEmailService.FailTwiceThenDeliver | gym-server/services/emailService.js:37-96 | two failures then a delivery give 3 attempts, waits 4000 and 8000, and success |
| PdfService.ReceiptFileName | gym-server/services/pdfService.js:14 | every receipt name of a member starts with "receipt-<id>-" |
| PdfService.ReceiptNameDeterminesInstant | gym-server/services/pdfService.js:14 | one member's receipts made at different milliseconds have different names |
| PdfService.PrefixIdentifiesOwner | gym-server/services/pdfService.js:14 | with ids free of '-', a receipt name carries the prefix of its owner only |
| PdfService.ReceiptAmountMissingIffUnpriced | gym-server/services/pdfService.js:42-49 | the receipt prints 'N/A' exactly when `getPlanAmount` gives 0, for every plan key that names no inherited member of a plain object |
| PdfService.ReceiptAmountAgreesWithFormatters | gym-server/services/pdfService.js:42-49 | the receipt's amount is the rupee rendering of `getPlanAmount` for every priced plan |
| PdfService.GenerateReceipt | gym-server/services/pdfService.js:5-78 | a path is returned exactly when the write succeeded, and it is "/receipts/receipt-<id>-<millis>.pdf"; a missing file gives "Failed to create receipt file" and a stream error its own message |
| GymServer.TimeToMidnight | gym-server/server.js:157-165 | the first delay is positive, at most a day, and ends on a midnight |
| GymServer.MidnightIsNextDay | gym-server/server.js:159-165 | now plus the delay is 00:00 of the following day |
| GymServer.MidnightIsFirst | gym-server/server.js:159-165 | no midnight lies strictly between now and the first run |
| GymServer.RunsAtMidnight | gym-server/server.js:167-171 | every run falls on a midnight, the first within a day, the next ones a day apart |
| GymServer.UploadContentType | gym-server/server.js:62-68 | an upload is served as one of JPEG, PNG, GIF or octet-stream |
| GymServer.UploadContentTypeCases | gym-server/server.js:62-68 | JPEG exactly for .jpg/.jpeg, PNG for .png, GIF for .gif in any case, octet-stream otherwise |
| GymServer.UploadContentTypeIgnoresCase | gym-server/server.js:62 | `stem.JPG` is served as JPEG |
| GymServer.UploadsRoute | gym-server/server.js:56-90 | an existing file is served with its content type; otherwise the default avatar as PNG if it exists, else 404 "Image not found" |
| GymServer.ReceiptsRoute | gym-server/server.js:104-121 | an existing receipt is served as an application/pdf attachment under its base name; a missing one is 404 "Receipt not found" |
| GymServer.ReceiptDownloadedUnderItsName | gym-server/server.js:105-110 | a generated receipt's URL is "/receipts/<name>" and it downloads under that name |
| UserController.MessagesDistinct | controllers/userController.js:15-22 | the eight validation messages are distinct |
| UserController.CollectedAll | controllers/userController.js:14-26 | after the eight checks the list is empty exactly when every check passed, and it lists messages in check order |
| UserController.CollectErrors | controllers/userController.js:14-22 | the list holds the message of exactly the failing checks, in the order of the checks |
| UserController.RegistrationDraft | controllers/userController.js:47-58 | the draft exists exactly when the three dates cast, and carries the body's name, e-mail and phone |
| UserController.AllowedUpdates | controllers/userController.js:172-180 | `updates` holds exactly the allowed keys of the body whose value is not undefined, with the body's values |
| UserController.AllowedOf | controllers/userController.js:172-180 | the allow-listed part of a body holds only allowed, defined body values |
| UserController.Patched | controllers/userController.js:182-189 | the patched document is well formed, changes only the updated fields (after the setters), and keeps id, dob, payment method and both statuses |
| UserController.PatchWithoutUpdatesIsIdentity | controllers/userController.js:176-189 | an update without allowed fields leaves the document as it is |
| UserController.MemberStore.MarkExpired | services/subscriptionService.js:16-17 | one member's subscription becomes expired, the collection stays valid, nothing else changes |
| UserController.MemberStore.Register | controllers/userController.js:9-86 | 400 with exactly the failing checks' messages; then 400 for a taken e-mail before a taken phone, storing nothing; otherwise, when the dates cast and the document validates, exactly that document (the body's name, dob, dates and payment method, the normalised e-mail, pending/pending) is stored under the new id, else 500 "Error registering user" with nothing stored or sent; one registration e-mail whose result is what the transport gives; 201 exactly when it was delivered, otherwise 500 |
| UserController.MemberStore.ApprovePayment | controllers/userController.js:88-148 | unknown id: 404 and nothing changes; a failed receipt: 500 with its message and nothing changes; otherwise the receipt is added, only the payment status becomes confirmed (whatever it was), then one confirmation e-mail whose logged result is what the transport gives; 200 exactly when it was delivered, otherwise 500 with the terminal message |
| UserController.MemberStore.GetAllUsers | controllers/userController.js:150-166 | 200 with exactly the stored documents, as many as are stored |
| UserController.MemberStore.UpdateUser | controllers/userController.js:168-213 | a rejected update is 500 and changes nothing; an unknown id is 404; otherwise the patched document is stored unless it collides on e-mail or phone (500); statuses, payment method and dob never change |
| UserController.MemberStore.RemoveReceipts | controllers/userController.js:243-251 | the listed files are removed in order up to the first `unlinkSync` that throws; that file and the ones after it stay |
| UserController.UnlinkedCount | controllers/userController.js:243-251 | the number of files removed is all of them unless an unlink fails within the list, and then exactly the position of that failure |
| UserController.MemberStore.DeleteUser | controllers/userController.js:215-277 | unknown id: 404 and nothing changes; otherwise the receipts starting with "receipt-<id>-" are listed, and removed in order up to the first failing unlink (none if listing fails, all if no unlink fails), then the member is removed, and 200 |
| UserController.MemberStore.GetUser | controllers/userController.js:279-300 | 200 with the stored document, or 404 |
| UserController.MemberStore.NotifyExpiredMember | controllers/userController.js:354-439 | unknown id: 404 and no e-mail; otherwise one renewal notice to the stored member's e-mail (the body's e-mail and name unused) whose logged result is what the transport gives; 200 exactly when it was delivered, otherwise 500 "Failed to send email notification" with the terminal message; the store is unchanged |
| SubscriptionService.DaysLeftInWindow | services/subscriptionService.js:28-38 | every reminded member has 1 to 7 days left, rounded up |
| SubscriptionService.BoundaryNeitherExpiredNorReminded | services/subscriptionService.js:9-34 | a member whose end date is now is neither expired nor reminded |
| SubscriptionService.ExpireAllEffect | services/subscriptionService.js:9-17 | after a complete expire step every member past its end date is expired whatever its payment status; only that status changed; every other member is untouched |
| SubscriptionService.SecondPassSkipsExpired | services/subscriptionService.js:9-17 | a later pass selects none of the members already expired, and repeating the step changes nothing |
| SubscriptionService.ExpiredAndRemindedDisjoint | services/subscriptionService.js:9-34 | no member is both expired and reminded by one call |
| SubscriptionService.NoActiveNoReminders | services/subscriptionService.js:28-34 | with no active member no reminder is selected |
| SubscriptionService.ExpiryOptions | services/subscriptionService.js:20-24 | the options build the member's "Membership Expired" message: its address, name and end date |
| SubscriptionService.ReminderOptions | services/subscriptionService.js:38-44 | the options build the member's "Membership Expiring Soon" message: its address, name, days left and end date |
| SubscriptionService.AbortedNotAllSent | services/subscriptionService.js:46-48 | a pass completed exactly when every e-mail it attempted was delivered |
| SubscriptionService.StoppedAtFirstFailureAppend | services/subscriptionService.js:15-45 | the reminder loop runs only after a complete expire loop, so the call stops at its first failed e-mail |
| SubscriptionService.CompletedIffAllDelivered | services/subscriptionService.js:15-45 | a loop that stops at its first failed e-mail completes exactly when each transport it was to use delivers |
| SubscriptionService.ExpireOne | services/subscriptionService.js:16-24 | the member is saved as expired, then sent one "Membership Expired" e-mail whose result is what its transport gives |
| SubscriptionService.ExpireLoop | services/subscriptionService.js:15-25 | the members handled are a prefix of the list, each expired and mailed once, in order; the k-th e-mail's result is what transport k gives; the loop completes exactly when every transport of the list delivers, and otherwise stops at the first one that does not |
| SubscriptionService.ExpireStep | services/subscriptionService.js:9-25 | only due members are expired, each once; the step completes exactly when the transports of all due members deliver, and then expires every member with end date before now that was not yet expired; the collection stays valid |
| SubscriptionService.ReminderLoop | services/subscriptionService.js:37-45 | a prefix of the list is reminded in order, the k-th e-mail through transport first+k; no member is modified; the loop completes exactly when each of those transports delivers |
| SubscriptionService.ReminderStep | services/subscriptionService.js:28-45 | only active members ending within seven days are reminded, each once; all of them exactly when each of their transports delivers; nothing is modified |
| SubscriptionService.CheckExpiredSubscriptions | services/subscriptionService.js:4-49 | the expire step, then the reminder step on the updated collection only if the first completed; the log holds exactly those e-mails, the k-th with the result of transport k; the run completes exactly when every transport it would use on a failure-free run delivers, and stops at the first that does not, returning normally; no member becomes active |
| ClientAdminPanel.FilteredUsersExact | client/src/components/AdminPanel.tsx:68-89 | each tab shows exactly the members its test selects, as often as listed, in order; 'all' shows the list unchanged |
| ClientAdminPanel.OnlinePaymentTabWithinPending | client/src/components/AdminPanel.tsx:84-85 | every member on the 'online-payment' tab is online and on the 'pending' tab |
| ClientAdminPanel.ClientPlanAmountAgrees | client/src/components/AdminPanel.tsx:91-100 | the panel's amount table is `getPlanAmount` of utils/formatters.js, positive exactly for the five plans |
| ClientAdminPanel.PlanAmountDisplayAgrees | client/src/components/AdminPanel.tsx:102-111 | the displayed amount is the receipt's, and 'N/A' exactly where the amount is 0 |
| ClientAdminPanel.ClientPlanDisplayNameAgrees | client/src/components/AdminPanel.tsx:239-248 | the panel's display names are those of utils/formatters.js |
| ClientAdminPanel.MonthlyWithinYearly | client/src/components/AdminPanel.tsx:186-210 | 0 ≤ monthly revenue ≤ yearly revenue ≤ the confirmed total |
| ClientAdminPanel.RevenueByPlan | client/src/components/AdminPanel.tsx:212-228 | the keys are the five plans and every confirmed member's plan field; each entry is that plan's confirmed revenue |
| ClientAdminPanel.RevenueByPlanTotals | client/src/components/AdminPanel.tsx:212-228 | the five plan entries are present and add up to the confirmed total |
| ClientAdminPanel.RevenueByPlanUnknownZero | client/src/components/AdminPanel.tsx:222-225 | an entry created for an unknown plan, one naming no inherited member of a plain object, holds 0 |
| ClientAdminPanel.UnknownPlanEarnsNothing | client/src/components/AdminPanel.tsx:99 | a plan outside the table, naming no inherited member of a plain object, earns nothing |
| ClientAdminPanel.PlanSharesSumToTotal | client/src/components/AdminPanel.tsx:212-228 | the five plans' revenues sum to the confirmed total |
| ClientAdminPanel.PaymentMethodRevenue | client/src/components/AdminPanel.tsx:274-291 | cash and online are the confirmed revenue of the members paying that way |
| ClientAdminPanel.PaymentMethodsWithinTotal | client/src/components/AdminPanel.tsx:274-291 | cash plus online is at most the confirmed total, and equal when every confirmed member pays cash or online |
| ClientAdminPanel.CollapseSlashes | client/src/components/AdminPanel.tsx:257 | no doubled '/' remains, the result is no longer, and its last character is kept |
| ClientAdminPanel.CollapseKeepsOtherCharacters | client/src/components/AdminPanel.tsx:257 | collapsing removes only slashes, keeping every other character in order |
| ClientAdminPanel.CollapseOfCollapsed | client/src/components/AdminPanel.tsx:257 | a path without doubled '/' is unchanged |
| ClientAdminPanel.CollapseIdempotent | client/src/components/AdminPanel.tsx:257 | collapsing twice is collapsing once |
| ClientAdminPanel.CollapseIsReplace | client/src/components/AdminPanel.tsx:257 | collapsing equals the front-to-back replacement of every maximal run of '/' by exactly one '/', copying every other character |
| ClientAdminPanel.CollapseKeepsOneSlash | client/src/components/AdminPanel.tsx:257 | "a//b" becomes "a/b": a run keeps one slash |
| ClientAdminPanel.PhotoUrlCases | client/src/components/AdminPanel.tsx:250-271 | a missing path gives the default avatar, an http address is returned as is, otherwise the collapsed path under the base address unless it already contains it |
| ClientAdminPanel.UploadedPhotoUrl | client/src/components/AdminPanel.tsx:264-267 | `/uploads/<name>` is served from the base address |
| ClientAdminPanel.SubscriptionBadge | client/src/components/AdminPanel.tsx:599-623 | with days left rounded up: Expired below 0, a countdown from 0 to 7, Active beyond |
| ClientAdminPanel.JustExpiredShowsZeroDays | client/src/components/AdminPanel.tsx:599-610 | a member whose end date passed less than a day ago is on the 'expired' tab yet shows "0 days left" |
| ClientAdminPanel.RowActionsMatchTabs | client/src/components/AdminPanel.tsx:627-665 | approve exactly on 'pending' rows, notify exactly on 'expired' rows, view, edit and delete on every row |
| ClientAdminPanel.AfterApprove | client/src/components/AdminPanel.tsx:139-143 | same length; rows of that id become confirmed, every other row is unchanged |
| ClientAdminPanel.AfterApproveLeavesPending | client/src/components/AdminPanel.tsx:139-143 | after the approval only other members remain on the 'pending' tab |
| ClientAdminPanel.AfterApproveIdempotent | client/src/components/AdminPanel.tsx:139-143 | approving twice is approving once |
| ClientAdminPanel.AfterDeleteExact | client/src/components/AdminPanel.tsx:686 | exactly the rows of that id are removed, the rest kept in order |
| RegistrationForm.PlansCoverSchema | client/src/components/RegistrationForm.tsx:38-69 | five options, one per plan of the schema, no plan twice |
| RegistrationForm.PlansAgreeWithFormatters | client/src/components/RegistrationForm.tsx:38-69 | each option's price and name are those of utils/formatters.js, and its months the plan's duration |
| RegistrationForm.HandlePlanSelect | client/src/components/RegistrationForm.tsx:143-153 | plan and selected plan set, start today, end `months` later; every other field unchanged |
| RegistrationForm.InitialStateIsFirstPlan | client/src/components/RegistrationForm.tsx:73-87 | the initial state is the one-month plan chosen at that moment |
| RegistrationForm.LastPlanSelectionWins | client/src/components/RegistrationForm.tsx:143-153 | choosing two plans at one moment is choosing the second |
| RegistrationForm.HandlePhotoChange | client/src/components/RegistrationForm.tsx:127-141 | no file: nothing changes; over 2 MB: a toast and the state unchanged; otherwise only the photo is set |
| RegistrationForm.AcceptedPhotoWithinServerLimit | client/src/components/RegistrationForm.tsx:130 | a photo the form takes is never refused by the upload filter for its size |
| RegistrationForm.ClientEmailIsLoose | client/src/components/RegistrationForm.tsx:170-171 | an address the form accepts passes the server's pattern too |
| RegistrationForm.LooseEmailNotClient | client/src/components/RegistrationForm.tsx:170-171 | "a@b@c.d" passes the server's pattern but not the form's |
| RegistrationForm.FieldErrorMeaning | client/src/components/RegistrationForm.tsx:159-199 | a field has an error exactly when it fails its check, with the empty-field message when blank and the format message otherwise |
| RegistrationForm.FormValidIffNoFieldError | client/src/components/RegistrationForm.tsx:155-203 | the form is valid exactly when no field has an error |
| RegistrationForm.FormValidIffFiveChecksPass | client/src/components/RegistrationForm.tsx:155-203 | the form is valid exactly when each of the five checks, name, e-mail, phone, date of birth and photo, records no error |
| RegistrationForm.ValidateForm | client/src/components/RegistrationForm.tsx:155-203 | records the error of exactly the failing fields; the result is true exactly when there is none, that is when the form is valid |
| RegistrationForm.BlankIsNotEmail | client/src/components/RegistrationForm.tsx:166-174 | a blank address fails the pattern |
| RegistrationForm.BlankIsNotTenDigits | client/src/components/RegistrationForm.tsx:178-186 | a blank phone fails the pattern |
| RegistrationForm.ValidFormPassesServerChecks | client/src/components/RegistrationForm.tsx:226-232 | a valid form with both dates passes every field check of `register` |
| RegistrationForm.BodyAsWired | client/src/components/RegistrationForm.tsx:223-237 | as the server is wired, the multipart body reaches `register` with every field missing |
| RegistrationForm.ValidFormRejectedAsWired | client/src/components/RegistrationForm.tsx:223-237 | a valid form builds a body that would pass every check, yet as wired it fails all eight |
| RegistrationForm.CheckEmail | client/src/components/RegistrationForm.tsx:93-121 | the flag is set exactly when the address matches and the server says it exists; the e-mail error follows the flag; the data is unchanged |
| RegistrationForm.Submit | client/src/components/RegistrationForm.tsx:205-218 | the request is sent exactly for a valid form whose address is not known to be taken, with the form's fields; errors are cleared exactly for a valid form |
| RegistrationForm.OrElse | client/src/components/RegistrationForm.tsx:256-262 | a missing or empty message is replaced by the fall-back, any other is kept |
| RegistrationForm.Classify | client/src/components/RegistrationForm.tsx:244-258 | the e-mail branch exactly when the message contains "email", the phone branch exactly when it contains "phone" and not "email", case-sensitively |
| RegistrationForm.CatchToasts | client/src/components/RegistrationForm.tsx:269-281 | no toast exactly when the error's message contains "Email already exists" or "Phone number already exists", otherwise the one retry toast |
| RegistrationForm.Respond | client/src/components/RegistrationForm.tsx:239-281 | success toasts and navigates; the e-mail and phone branches set their field's error and toast once; every other failure leaves the state and toasts the message (or the status's fallback), then whatever the catch block adds for the thrown message |
| RegistrationForm.DuplicateEmailReplyMisread | client/src/components/RegistrationForm.tsx:245-258 | the server's "Email already registered" marks no field and falls to the generic branch |
| RegistrationForm.EmailReplyReadAsOther | client/src/components/RegistrationForm.tsx:245-257 | that message is read as neither duplicate, and the catch block adds the retry toast |
| RegistrationForm.DuplicatePhoneReplyMisread | client/src/components/RegistrationForm.tsx:250-258 | the server's "Phone number already registered" marks no field and falls to the generic branch |
| RegistrationForm.PhoneReplyReadAsOther | client/src/components/RegistrationForm.tsx:250-257 | that message is read as neither duplicate, and the catch block adds the retry toast |
| RegistrationForm.ClassifyIgnoringCase | client/src/components/RegistrationForm.tsx:244-253 | the same branches decided on the lower-cased message |
| RegistrationForm.DuplicateRepliesRecognised | client/src/components/RegistrationForm.tsx:245-253 | with case-insensitive tests each duplicate answer marks its own field |
| RegistrationForm.IgnoringCaseAgreesOnLowerCase | client/src/components/RegistrationForm.tsx:245-250 | on messages without capitals both readings agree |
| AdminApp.FilteredUsersExact | admin/src/components/AdminPanel.tsx:66-71 | 'all' shows every user; 'pending' and 'expired' exactly those with that status, as often as listed, in order |
| AdminApp.StatusTabsDisjoint | admin/src/components/AdminPanel.tsx:68-69 | no user is on both status tabs |
| AdminApp.RowActionsMoveForward | admin/src/components/AdminPanel.tsx:215-236 | pending is offered only confirmed, confirmed only expired, expired no change; delete on every row, last |
| AdminApp.FetchUsers | admin/src/components/AdminPanel.tsx:45-64 | a fetched list replaces the shown one, a failed fetch keeps it |
| AdminApp.AfterRequest | admin/src/components/AdminPanel.tsx:73-93 | an OK response reloads the list, any other keeps it |
| AdminApp.AfterDelete | admin/src/components/AdminPanel.tsx:95-115 | nothing happens unless the dialog is confirmed, then as after a request |
| AdminApp.ListComesFromServer | admin/src/components/AdminPanel.tsx:84-111 | after a status change or deletion the list is the old one or exactly the server's, never edited locally |

## Left out

- Persistence and wiring: MongoDB specifics (ObjectId casting, CastError), the Express
  wiring, CORS, cookies and the routes. Each handler is one atomic step on an in-memory
  map.
- Concurrency: the interleaving of requests and the daily pass on the event loop.
- Mongoose's validation error texts: a rejected create or update is just the 500 its
  `catch` sends.
- JSON values other than strings, null and undefined in request bodies. A response body
  the client cannot parse as JSON.
- Presentation: the HTML of every e-mail (only the values it interpolates are kept), the
  PDF layout, `Intl.NumberFormat`, `toLocaleDateString` and `date-fns` `format`.
- The `Authentication error` 500 of `protect`, which only an exception outside the two
  tested paths reaches.
- Real time:
  - `setTimeout`/`setInterval` and the retry sleeps are returned as values;
  - local time zones and daylight saving are given as integer days;
  - dates that do not parse (NaN) are not modelled;
  - `new Date()` is a parameter.
- `addMonths` and `toISOString` are parameters, so calendar clamping is not modelled.
- Text: `toLowerCase` covers ASCII letters only. The sanitiser works on UTF-16 code
  units, which the model treats as characters.
- `fs.existsSync`: every listed receipt exists when it is unlinked, since each handler
  is one atomic step. Directory creation and stream errors when the PDF is written are
  one outcome of `generateReceipt`.
- UserController.MemberStore.DeleteUser and UserController.MemberStore.RemoveReceipts:
  the failing `unlinkSync` is a parameter, the position in the list of the first unlink
  that throws; the error itself, logged and swallowed by the inner `catch`, is not kept.
- Lookups in the plain-object tables (utils/formatters.js:17, 28,
  gym-server/services/pdfService.js:49, client/src/components/AdminPanel.tsx:99, 110,
  224, 247): a key that names a member every object inherits (`constructor`,
  `toString`, `__proto__`, …) finds that member in JavaScript, where the model finds
  nothing. The schema's enum (models/User.js:28) keeps such keys out of stored plans.
  Formatters.PlanAmount, Formatters.PlanDisplayName,
  PdfService.ReceiptAmountMissingIffUnpriced, ClientAdminPanel.UnknownPlanEarnsNothing
  and ClientAdminPanel.RevenueByPlanUnknownZero hold for every other key.
- RegistrationForm.RegisterBodyOf and RegistrationForm.ValidFormPassesServerChecks
  describe the body as the form builds it, read by a server that parses multipart form
  data. As wired, the registration route parses no such body (see Findings).
- The file filter does not test the number of files per request (`files: 1`).
- The e-mail check's 500 ms debounce and the photo preview's FileReader.
- `createTestUser` and `cleanupTestUsers`: test fixtures.
- The `register` and `getAllUsers` stubs at the end of gym-server/server.js: dead code.
- `formatIndianPrice` and the panels' `formatCurrency`: presentation only.
- The client dashboard's edit form and the notification modal: these only send requests
  and patch fields.
- The admin app's status request, whose route the server does not define. Only the list
  reload that follows it is modelled.

## Findings

| source | as written | input that shows it | evidently intended | confidence | as-written member | corrected member |
|---|---|---|---|---|---|---|
| client/src/components/RegistrationForm.tsx:245-250 | the 400 answer is tested case-sensitively for "email", then "phone" | the server's own duplicate answers "Email already registered" and "Phone number already registered" (controllers/userController.js:33, 42) contain neither word in lower case, so the form marks no field and shows the generic retry toast | the duplicate answers mark the e-mail or phone field, and set the e-mail flag | not executed | RegistrationForm.DuplicateEmailReplyMisread | RegistrationForm.DuplicateRepliesRecognised |
| client/src/components/RegistrationForm.tsx:223-237 | the form is posted as multipart form data, while the registration route (gym-server/routes/userRoutes.js:8, routes/userRoutes.js:7) has no multipart parser and the server installs only JSON and URL-encoded parsing (gym-server/server.js:45-46) | any valid form: `register` finds every field missing and answers 400 with all eight messages | the route parses the multipart body, so a valid form passes every field check | not executed | RegistrationForm.ValidFormRejectedAsWired | RegistrationForm.ValidFormPassesServerChecks |
