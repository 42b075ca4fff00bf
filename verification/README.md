# Verified model of the Ludora backend's state machines

The backend keeps its state in database tables that service calls read and write. This project
models the calls with the most state and branching and proves what they keep over every run:
message receipts and unread counters, message paging, Stripe webhooks, token rotation, one-time
codes, hour preferences, slot booking, session rosters, friendships, offset paging and ratings.

Each module follows one pattern. A datatype (`Tables`, `State`) is the content of the tables; a
function (`Step`, `Process`, ...) says what one call does to it, including its error branches and
the writes that stay when a call stops half-way; a class performs the same call write by write, and
its methods are proved to do exactly what that function says; lemmas then speak about all runs
(`Run`, `Follow`, `Deliver`) of those functions.  A module whose name ends in History says, for each
column of the tables and told on the tables and calls alone, which call of the run it goes back to.

| file | content |
|---|---|
| Receipts.dfy | messages, receipts, members; refinement of a counter machine |
| ReceiptStatements.dfy, OverlappingReads.dfy | the same calls statement by statement, interleaved in any way; overlapping reads |
| Cursor.dfy, Keyset.dfy, MessagePaging.dfy | composite cursor, keyset paging in general, message paging |
| Upserts.dfy, Webhooks.dfy | replayable writes, Stripe event processing |
| WebhookStatements.dfy | overlapping deliveries of one event, statement by statement |
| Tokens.dfy, Codes.dfy | refresh-token rotation and one-time codes under interleaving |
| Sieve.dfy, HourPreferences.dfy | keep-what-is-not-redundant loop, hour preferences and their meaning |
| Booking.dfy, Roster.dfy | slots and sessions, teams, players and chat |
| Friends.dfy, Ratings.dfy, OffsetPaging.dfy | friendships, ratings, ranked pages |
| Histories.dfy | since when something holds, and which write was the last |
| ReceiptHistory.dfy, WebhookHistory.dfy, TokenHistory.dfy, CodeHistory.dfy, RosterHistory.dfy, FriendHistory.dfy, BookingHistory.dfy, RatingHistory.dfy | what each table owes to the calls of a run |

Assumptions, taken from the Prisma schema where it says so: composite keys and `@unique` columns are
unique; row uids are fresh; the default receipt status is DELIVERED; a new slot is unreserved;
timestamps have millisecond precision and are read as UTC; a block inside one `$transaction` is one
step, and so is a call except where a module splits it (reads and sends of messages, webhook
deliveries, refresh, link and code exchange). The clock, generated uids and tokens, and what a query
may answer in several ways are parameters.

What the code does that its documentation or its schema would not suggest, each with a proof of when
it happens, most with a run in which it does:

- A refund whose upper-cased status is not in the `RefundStatus` enum (Stripe's `requires_action`)
  makes the handler throw after it has already marked the payment REFUNDED
  (`Webhooks.FailsCleanlyExactly`, `Webhooks.RefundRequiringAction`). The status REJECTED computed for
  an account is not in the `StripeAccountStatus` enum either; that error is swallowed and nothing is stored.
- A processed event falls back to PROCESSING when a delivery that looked it up earlier continues
  (`WebhookStatements.ProcessedFallsBackExactly`, `WebhookStatements.LateCallUndoesProcessed`); the
  tables still converge once all calls have ended (`WebhookStatements.OverlapsConverge`).
- `calculateGlobalStatus` calls a message without recipients read by everyone, the service does not
  (`Receipts.EveryoneReadFormulasAgree`, `Receipts.AloneInChat`).
- Two overlapping reads of one user both report the same messages as newly read
  (`OverlappingReads.ReportedCountExactly`, `OverlappingReads.OneMessageReportedTwice`).
- Two clicks on one e-mail link can both pass the guard (`Codes.AcceptedAgainIffLinkInProgress`,
  `Codes.DoubleClickAcceptsTwice`).
- A creator who leaves and rejoins a session stays out of its chat, and his next leave throws after
  the player is gone (`Roster.WhoBreaksOff`, `Roster.RejoinedCreatorBreaksOff`). From a private session
  he is shut out, not being a friend of his own (`Roster.PrivateCreatorCannotRejoin`).
- Switching teams can exceed a team's capacity (`Roster.CapacityOverRunsExactly`,
  `Roster.SwitchOverfillsTeam`).
- Users of whom one has blocked the other can become friends again (`Friends.BlockedFriendsExactly`,
  `Friends.FriendsWhileBlocked`).
- Booking never compares the slot's field with the requested field (`Booking.SlotFieldsAgreeExactly`,
  `Booking.SlotOfAnotherField`).
- The check that a session stays within one day compares weekdays, so one that ends on the same weekday
  a week later passes (`Booking.SameDayExactly`, `Booking.WeekLongSession`).
- A one-time preference for today is no longer read once its instant has passed, even for a session
  later today (`HourPreferences.ReadFilterIsHarmlessExactly`). `dayOfWeek` is a NOT NULL column, so a
  one-time preference without it makes `createMany` fail after the old rows are cleared
  (`HourPreferences.PreferenceStore.CreateMany`).

## Model

| member | source | states |
|---|---|---|
| Receipts.RunRefines | src/conversations/services/messages.service.ts:37-105 | Over every run of sends, reads, deletions and membership changes, the receipt tables refine a machine of counters: a send sets the sender's counter to 0 and adds 1 for every other member of the conversation, a read clears the reader's counter, nothing else moves |
| Receipts.ReadReturnsUnreadCount | src/conversations/services/messages.service.ts:284-358 | On every reachable state the count a read returns is the reader's counter before it; it becomes 0 and every other unread count stays |
| Receipts.UnreadCountIsCounter | src/notifications/notifications.service.ts:49-62 | On every reachable state the count of a user's unread receipts in a conversation equals the abstract counter |
| Receipts.ListCountIsCounter | src/conversations/services/conversations.service.ts:219-231 | So does the unread count of the conversation list, whose filter is different |
| Receipts.BadgeIsCounters | src/conversations/services/conversations.service.ts:389-410 | hasUnreadMessages holds iff some visible, unarchived conversation of the user has a positive counter |
| Receipts.Reachable | src/conversations/services/messages.service.ts:370-388 | On every reachable state each message has its sender's receipt, which is SENT, and every other receipt is DELIVERED or READ |
| Receipts.ReadNeverReverts | src/conversations/services/messages.service.ts:323-329 | Whatever calls follow, a receipt is never withdrawn and a READ receipt stays READ |
| Receipts.EveryoneReadFormulasAgree | src/conversations/mappers/message.mapper.ts:67-81 | The mapper's counting formula and the service's filtering formula agree on "anyone read" always, and on "everyone read" exactly for messages with at least one recipient |
| Receipts.AloneInChat | src/conversations/services/messages.service.ts:331-347 | A run, one member and one message of his, on which the two formulas differ |
| Receipts.GlobalStatusNeverLies | src/conversations/services/messages.service.ts:318-321 | On every reachable state a message that is not DELETED is READ if some receipt of it is READ, and SENT otherwise |
| Receipts.MessagesAreNeverRemoved | src/conversations/services/messages.service.ts:390-419 | No run removes a message or moves it to another conversation; deletion only sets its status |
| Receipts.DeletedBySender | src/conversations/services/messages.service.ts:402-419 | On every reachable state a DELETED message was deleted by its sender |
| Receipts.ConversationStore.MarkMessagesAsRead | src/conversations/services/messages.service.ts:284-358 | The write-by-write call does exactly the step of the model, including the number of updated receipts |
| Receipts.ConversationStore.CreateTextMessage | src/conversations/services/messages.service.ts:37-105 | Marks the sender's messages read, then creates the message and its receipts; nothing if the sender is no member |
| Receipts.ConversationStore.CreateMediaMessage | src/conversations/services/messages.service.ts:116-191 | As for text, but a missing file is rejected after the sender's messages were marked read |
| Receipts.ConversationStore.DeleteMessage | src/conversations/services/messages.service.ts:390-419 | Only the sender deletes, only once, and only the status changes |
| ReceiptHistory.MessageExactly | src/conversations/services/messages.service.ts:46-66 | Over every run the messages of a conversation are exactly those its members sent, with a file that was there |
| ReceiptHistory.ReceiptExactly | src/conversations/services/messages.service.ts:360-388 | Over every run a receipt is held by the sender of a message and by those who were members when it was sent, by nobody else |
| ReceiptHistory.ReadExactly | src/conversations/services/messages.service.ts:303-329 | Over every run a receipt is READ iff its holder, then a member, opened the conversation or sent to it after receiving the message |
| ReceiptHistory.StatusExactly | src/conversations/services/messages.service.ts:318-321 | Over every run the status of a message is what the last of these calls gave it: SENT when sent, READ when somebody reads it for the first time, DELETED when its sender deletes it |
| ReceiptHistory.SettingsExactly | src/conversations/services/conversation-members.service.ts:129-160 | Over every run who is a member, visible and archived as his last call about that says, visible and not archived when he was added |
| ReceiptHistory.LastReadExactly | src/conversations/services/messages.service.ts:291-301 | Over every run a member's lastReadAt is the instant of his last read or send |
| ReceiptHistory.AnswersExactly | src/conversations/services/messages.service.ts:390-414 | On every reachable state which calls are refused, and which answer with a message or a count |
| ReceiptHistory.SummariesExactly | src/conversations/services/messages.service.ts:331-347 | A read summarises exactly the messages it found unread; each has been read by somebody, and by everyone iff all receipts but the sender's are READ |
| ReceiptStatements.UninterruptedRead | src/conversations/services/messages.service.ts:291-329 | The statements of a read, run in a row, are exactly the one-step read, with its count and its summaries; for a user who is no member the first one writes nothing and the answer is an error |
| ReceiptStatements.UninterruptedSend | src/conversations/services/messages.service.ts:43-79 | The statements of a send, run in a row, are exactly the one-step send with its answer, also when the sender is no member, the file is missing or the message uid is taken |
| ReceiptStatements.Reachable | src/conversations/services/messages.service.ts:370-388 | Over every interleaving of statements, also of calls that die, a sender's receipt is SENT if it is there, nobody else's is, and it is missing only while its send is in flight |
| ReceiptStatements.CountsMoveExactly | src/conversations/services/messages.service.ts:323-329 | Over every interleaving an unread count moves by exactly two statements: the insert of receipts adds 1 for each addressee, the update of a read's receipts takes away those still unread |
| ReceiptStatements.TargetsAreMarked | src/conversations/services/messages.service.ts:318-321 | Right after the statement that marks the targets of a read, over every interleaving, each of them is READ and no other message has changed |
| ReceiptStatements.CountsAgreeAtEveryMoment | src/conversations/services/conversations.service.ts:219-231 | Between any two statements the list count equals the unread count |
| ReceiptStatements.BadgeAgreesAtEveryMoment | src/conversations/services/conversations.service.ts:389-410 | Between any two statements the badge is lit iff such a count is positive for a listed conversation |
| ReceiptStatements.EveryoneReadOnceSent | src/conversations/mappers/message.mapper.ts:67-81 | The two read summaries compare as above for every message whose send is over |
| ReceiptStatements.GrowsOverRuns | src/conversations/services/messages.service.ts:318-329 | No interleaving withdraws a receipt, reverts READ, or changes a message's sender or conversation |
| ReceiptStatements.ReadKeepsItsPromise | src/conversations/services/messages.service.ts:303-329 | Each message that was unread when a read looked is read for good once the read has updated its receipts, whatever runs in between and afterwards |
| OverlappingReads.StillUnreadExactly | src/conversations/services/messages.service.ts:303-329 | Over every interleaving the last statement of a read finds unread exactly those of its targets that no other read of the same user has ended on since it looked |
| OverlappingReads.ReportedCountExactly | src/conversations/services/messages.service.ts:323-329 | A read reports the unread count at the moment it looked; its last statement lowers the unread count by that number iff no other read of the same user that shares a target ended in between |
| OverlappingReads.OneMessageReportedTwice | src/conversations/services/messages.service.ts:354-357 | A run in which two reads both report the one unread message |
| Cursor.CursorRoundTrip | src/conversations/services/messages.service.ts:207-217 | Parsing a printed cursor gives back instant and uid exactly when the uid is not empty, for every uid, also one containing "::"; with an empty uid the cursor is ignored |
| Cursor.CursorMeans | src/conversations/services/messages.service.ts:207-217 | What every string means as a cursor: it is cut at its first "::", ignored without one or with nothing behind it, and otherwise its date is read or the query fails |
| Cursor.SeparatorIsFirst | src/conversations/services/messages.service.ts:258-261 | In a printed cursor the first "::" is the separator that was printed |
| Cursor.IsoRoundTrip | src/conversations/services/messages.service.ts:214 | Reading a printed ISO timestamp gives the same instant, whatever the engine does with other strings |
| MessagePaging.RequestIsOnePage | src/conversations/services/messages.service.ts:219-275 | A request carrying a printed cursor returns the newest `limit` rows older than that row, and a cursor iff there are more, printed from the oldest row returned |
| MessagePaging.FailsExactly | src/conversations/services/messages.service.ts:219-261 | A request fails iff its date cannot be read, or its limit is 0 and there is a row to show |
| MessagePaging.PagingCoversTheStart | src/conversations/services/messages.service.ts:236-261 | A client that follows nextCursor until null has been given every message of its first request exactly once, in strictly descending order over all pages, whatever was sent or soft-deleted meanwhile |
| MessagePaging.PagingIsExact | src/conversations/services/messages.service.ts:252-261 | If only newer messages appear meanwhile, it is given exactly the messages of its first request and ends after max(1, ceil(n/limit)) requests, neither earlier nor later |
| Upserts.ReplayIsIdempotent | src/webhooks/webhooks.service.ts:166-176 | Any list of "create if missing, else set the status" writes, with any repetition of keys, can be replayed without effect |
| Webhooks.CrashThenRedeliver | src/webhooks/webhooks.service.ts:138-181 | If a call dies after any of its handler's writes and the event is delivered again, all tables and the answer are those of one clean delivery |
| Webhooks.ManyCrashesThenRedeliver | src/webhooks/webhooks.service.ts:32-86 | The same after any number of crashed calls in a row |
| Webhooks.FailsCleanlyExactly | src/webhooks/webhooks.service.ts:157-177 | A handler that throws has written nothing, on all tables that deliveries and crashes can lead to, iff it is not a refunded charge carrying a status that cannot be stored |
| Webhooks.RefundRequiringAction | src/webhooks/webhooks.service.ts:157-177 | A run in which a delivery fails and leaves the payment REFUNDED without a refund row |
| Webhooks.StoredRateExactly | prisma/schema/billing.prisma:65 | A commission rate fits the Decimal(5,4) column iff it is below 9.99995 either way, and is then stored to within half a ten-thousandth |
| Webhooks.DuplicatesLeaveNoTrace | src/webhooks/webhooks.service.ts:33-48 | After every history and for every further sequence of deliveries of a set of payloads, the tables equal those after delivering only the first success of each event, iff no payload of the set fails uncleanly |
| Webhooks.SuccessesAreDistinct | src/webhooks/webhooks.service.ts:38-41 | No event id is processed successfully twice |
| Webhooks.ProcessedIsAbsorbing | src/webhooks/webhooks.service.ts:38-41 | Over deliveries and crashes one after the other, in any order, a PROCESSED event keeps its row |
| Webhooks.ProcessingMeansDied | src/webhooks/webhooks.service.ts:71-83 | Over calls one after the other an event is left PROCESSING only if the last call about it died |
| Webhooks.BillingDataIsFinal | src/webhooks/webhooks.service.ts:107-122 | Over deliveries and crashes mixed in any way, no payment or refund row is removed and nothing in it but its status changes |
| Webhooks.RefundsBelongToPayments | src/webhooks/webhooks.service.ts:152-176 | Over deliveries and crashes every refund row refers to a payment that is there |
| Webhooks.PaymentsRecordIntents | src/webhooks/webhooks.service.ts:88-122 | Every payment row that appears records a delivered payment intent, with its metadata and the commission rate as the column stores it |
| WebhookHistory.PaymentStatusExactly | src/webhooks/webhooks.service.ts:88-195 | Over every run of deliveries and crashes a payment has the status of the last call that reached it: SUCCESS after an intent with metadata, FAILED after a failed intent, REFUNDED after a refunded charge, DISPUTED after a dispute |
| WebhookHistory.RefundRowExactly | src/webhooks/webhooks.service.ts:157-177 | Over every run a refund row has the status of the last entry with its id that was stored, and the amount, reason and payment of the first |
| WebhookHistory.RefundStatuses | src/webhooks/webhooks.service.ts:159 | What is stored for each status string that Stripe sends for a refund |
| WebhookHistory.RefundReasons | src/webhooks/webhooks.service.ts:160-163 | What is stored for each reason string |
| WebhookHistory.StorableStatuses | prisma/schema/billing.prisma:25-32 | Which status strings can be stored at all |
| WebhookHistory.AccountStatusExactly | src/webhooks/webhooks.service.ts:197-230 | Over every run an account has the status of the last update that could be stored: ACTIVE with charges and payouts, PENDING without a reason, RESTRICTED with one, nothing for a rejection |
| WebhookHistory.EventExactly | src/webhooks/webhooks.service.ts:44-83 | Over every run an event is PROCESSED or FAILED as the last call about it that was not turned away ended, PROCESSING if that call died |
| WebhookHistory.ReceivedExactly | src/webhooks/webhooks.service.ts:33-86 | A delivery is answered "received" iff it is turned away or its handler finds and can write every row it needs |
| WebhookStatements.OverlapsConverge | src/webhooks/webhooks.service.ts:32-86 | However the statements of several deliveries of one event interleave, once all have ended all tables are those after one clean delivery and all got its answer |
| WebhookStatements.OverlapThenRedeliver | src/webhooks/webhooks.service.ts:32-86 | If some of them died anywhere and the event is not marked PROCESSED, one more delivery brings all tables where one clean delivery would have |
| WebhookStatements.ProcessedStaysWhenQuiet | src/webhooks/webhooks.service.ts:38-41 | A PROCESSED event with no call in flight stays so under any interleaving of deliveries of any events |
| WebhookStatements.ProcessedFallsBackExactly | src/webhooks/webhooks.service.ts:33-48 | While deliveries of an event overlap, PROCESSED can still be lost iff some call has looked the event up and not yet recorded it |
| WebhookStatements.LateCallUndoesProcessed | src/webhooks/webhooks.service.ts:44-48 | A run in which PROCESSED is lost |
| Webhooks.WebhookStore.ProcessStripeEvent | src/webhooks/webhooks.service.ts:32-86 | The call, with its five handlers, does exactly what the model's Process says |
| Webhooks.WebhookStore.HandlePaymentIntentSucceeded | src/webhooks/webhooks.service.ts:88-125 | Upserts the payment; returns silently on missing metadata; throws if a new row's foreign keys are unknown or its commission rate cannot be stored |
| Webhooks.WebhookStore.HandleChargeRefunded | src/webhooks/webhooks.service.ts:138-181 | The loop makes the planned writes in order and throws at the first status that cannot be stored |
| Webhooks.WebhookStore.HandleAccountUpdated | src/webhooks/webhooks.service.ts:197-230 | Stores the computed account status if the enum has it and the account exists, otherwise changes nothing |
| Tokens.RotatedAtMostOnce | src/auth/services/auth-b2c.service.ts:571-604 | Over every interleaving of lookups, rotations, logins, logouts and resets each refresh-token row is rotated at most once and is gone afterwards |
| Tokens.RotationsAreOfPresentedToken | src/auth/services/auth-b2c.service.ts:535-604 | A refresh that succeeds rotates the very row of the token it presented, which had not expired when it was looked up; that row goes and one row of the same user, alive for seven days, comes |
| Tokens.OneLiveTokenPerLogin | src/auth/services/auth-b2c.service.ts:521-613 | Of all rows descending from one login at most one is live at any moment |
| Tokens.LogoutEndsLineage | src/auth/services/auth-b2c.service.ts:619-628 | After a logout or a successful reset no live row of the user ever descends from a row issued before it, even for refreshes whose lookup came first |
| Tokens.LogoutEndsAccess | src/auth/services/auth-b2c.service.ts:619-628 | After a logout every access token of the user in the table was issued by a call completed since |
| TokenHistory.LookupExactly | src/auth/services/auth-b2c.service.ts:535-557 | On every reachable state a refresh gets past its lookup iff the user is known and connected and has that token, not expired; it is then about that row |
| TokenHistory.RefreshRowExactly | src/auth/services/auth-b2c.service.ts:571-604 | Over every interleaving a refresh token is in the table, for seven days from its issue, iff a right login, a reset or a refresh issued it and no logout, reset or rotation has ended it since |
| TokenHistory.LoginThenRefresh | src/auth/services/auth-b2c.service.ts:521-613 | A connected user who presents the token of his login within seven days gets a new one, unless a logout, a reset or another rotation came first or the new token is taken |
| TokenHistory.AccessExactly | src/auth/services/auth-b2c.service.ts:589-604 | What each call does to a user's access tokens: a login adds one, a reset leaves one, a refresh replaces one, a logout leaves none; others keep theirs |
| Tokens.AuthStore.FindRefreshToken | src/auth/services/auth-b2c.service.ts:535-557 | Finds the unexpired row of the token for a known, connected user, and writes nothing |
| Tokens.AuthStore.RotateToken | src/auth/services/auth-b2c.service.ts:571-604 | The rotating transaction succeeds iff the row is still there and the new token is not taken, and is undone otherwise |
| Tokens.AuthStore.IssueTokens | src/auth/services/auth-b2c.service.ts:344-360 | Inserts both tokens or neither |
| Tokens.AuthStore.LogoutUser | src/auth/services/auth-b2c.service.ts:619-628 | Removes all tokens of the user and no others |
| Tokens.AuthStore.ResetForgottenPassword | src/auth/services/auth-b2c.service.ts:701-737 | Replaces all tokens of a known user by one new pair, or changes nothing |
| Codes.AtMostOneOutstanding | src/auth/services/auth-b2c.service.ts:438-452 | Over every interleaving each user has at most one outstanding code |
| Codes.AcceptedIsLastAndFresh | src/auth/services/auth-b2c.service.ts:643-685 | Every accepted code is the last one issued to its user and was checked at most 15 minutes after it was issued, strictly less for a link |
| Codes.AcceptedAgainIffLinkInProgress | src/auth/guards/verify-email.guard.ts:41-53 | A code is accepted again exactly when a click on its link has passed the guard and not yet reached the service |
| Codes.DoubleClickAcceptsTwice | src/auth/services/auth-b2c.service.ts:473-484 | A run in which one code is accepted twice |
| CodeHistory.ClickInProgressExactly | src/auth/guards/verify-email.guard.ts:36-53 | A click is between guard and service iff the guard found a known user with that code, not expired, and the service was not called since |
| CodeHistory.VerifiedExactly | src/auth/services/auth-b2c.service.ts:473-484 | Over every interleaving a user is verified iff some click on his link passed the guard and its service call came later |
| CodeHistory.ResendExactly | src/auth/services/auth-b2c.service.ts:496-515 | A resend issues a code iff the user is known and no such click has completed, and changes nothing otherwise |
| CodeHistory.OutstandingExactly | src/users/users.service.ts:603-627 | Over every interleaving a code is outstanding, for fifteen minutes, iff it was issued and since then no newer one, no served click and no exchange ended it |
| CodeHistory.ExchangeInProgressExactly | src/auth/services/auth-b2c.service.ts:643-664 | An exchange is between lookup and writes iff it found a known user's code not expired before now and has not written since |
| CodeHistory.ResetTokensExactly | src/auth/services/auth-b2c.service.ts:673-682 | Reset tokens were created for exactly the users of the exchanges that reached their writes, in that order |
| Codes.CodeStore.SendCode | src/users/users.service.ts:603-627 | Replaces the user's codes by a new one that lives 15 minutes |
| Codes.CodeStore.ResendVerificationCode | src/auth/services/auth-b2c.service.ts:496-515 | The same, refused for unknown and for verified users |
| Codes.CodeStore.VerifyEmailLink | src/auth/services/auth-b2c.service.ts:473-484 | Marks the user verified and deletes all his codes |
| Codes.CodeStore.FindForExchange | src/auth/services/auth-b2c.service.ts:643-664 | Finds the code of a known user unless it expired before now |
| Codes.CodeStore.ExchangeCode | src/auth/services/auth-b2c.service.ts:673-682 | Creates the reset token, then deletes the code, and fails if it was gone |
| HourPreferences.ValidatedIsCanonical | src/user-preferences/services/hour-preferences.service.ts:90-149 | The validated list holds submitted entries only, no two recurrent ones with the same day and period, no two one-time ones with the same instant and period, and no dated one-time one covered by a recurrent one |
| HourPreferences.DroppedHasWitness | src/user-preferences/services/hour-preferences.service.ts:96-142 | Every dropped entry has a kept entry that makes it redundant |
| HourPreferences.ValidateIsIdempotent | src/user-preferences/services/hour-preferences.service.ts:90-149 | Validating a validated list returns it |
| HourPreferences.KeptKeysIgnoreOrder | src/user-preferences/services/hour-preferences.service.ts:93-95 | The set of kept keys does not depend on the order or the repetitions of the submission |
| HourPreferences.KeptKeys | src/user-preferences/services/hour-preferences.service.ts:109-127 | A submitted key survives iff no submitted recurrent entry covers it |
| HourPreferences.ValidatePreservesMeaning | src/sessions/services/sessions.service.ts:445-455 | For every session start the validated list matches iff the submitted list does |
| HourPreferences.ReadPreservesMeaning | src/user-preferences/services/hour-preferences.service.ts:69-74 | The same after the read filter |
| HourPreferences.ReadFilterIsHarmlessExactly | src/user-preferences/services/hour-preferences.service.ts:62-75 | The read filter itself changes no storable list's answer for a session start iff the session is on a later day or outside all periods |
| HourPreferences.StoredListMeansSubmittedList | src/user-preferences/services/hour-preferences.service.ts:18-49 | The rows read back match a session start iff a submitted preference that is recurrent or in the future does |
| HourPreferences.MatchesExactly | src/sessions/services/sessions.service.ts:445-455 | The hours of each period, and the weekday or day a preference asks for |
| HourPreferences.RowExactly | src/user-preferences/services/hour-preferences.service.ts:24-45 | What is stored for a preference: everything, but an unreadable date is dropped and a recurrent one cut to midnight |
| HourPreferences.StorableWithDays | src/user-preferences/services/hour-preferences.service.ts:39-45 | A list with a day in every entry can be stored; an entry that no other makes redundant must have one |
| HourPreferences.ReadExactly | src/user-preferences/services/hour-preferences.service.ts:69-74 | What is read back: everything recurrent and what is dated later than now |
| HourPreferences.SortedIsStableSort | src/user-preferences/services/hour-preferences.service.ts:93-95 | The sort puts recurrent entries first and leaves the entries of each type in their order |
| HourPreferences.ValidateHourPreferences | src/user-preferences/services/hour-preferences.service.ts:90-149 | The loop computes the validated list of the model |
| HourPreferences.PreferenceStore.CreateMany | src/user-preferences/services/hour-preferences.service.ts:18-49 | Replaces the user's rows by the validated ones, or leaves none if one of them cannot be stored or there is no such user |
| HourPreferences.PreferenceStore.FindAllByUserUid | src/user-preferences/services/hour-preferences.service.ts:51-77 | Returns the user's recurrent and future rows, an error for unknown users |
| Booking.NoInstantIsBookedTwice | src/sessions/services/sessions.service.ts:109-145 | Over every run no instant belongs to two sessions on one private field |
| Booking.ReservedIffOneSession | src/sessions/services/sessions.service.ts:159-237 | Over every run a slot is reserved iff a session refers to it, that session is the only one and has the slot's times |
| Booking.SlotsMayOverlap | src/fields/services/field-slots.service.ts:45-62 | Slots of one field can overlap |
| Booking.SlotFieldsAgreeExactly | src/sessions/services/sessions.service.ts:111-127 | Over a run all sessions are on their slots' fields iff every accepted booking named a slot of its own field |
| Booking.SlotOfAnotherField | src/sessions/services/sessions.service.ts:111-127 | A run with a session on the slot of another field |
| Booking.SameDayExactly | src/shared/utils/date.utils.ts:114-127 | Times are accepted iff they are not past, in order and a whole number of weeks apart in days; accepted times lie on one calendar day iff they are less than 24 hours apart |
| Booking.WeekLongSession | src/shared/utils/date.utils.ts:114-127 | A run that creates a session ending a week later |
| BookingHistory.SlotExactly | src/fields/services/field-slots.service.ts:26-65 | Over every run the slots are those that the partner of a field added, with their times |
| BookingHistory.SessionExactly | src/sessions/services/sessions.service.ts:74-177 | Over every run the sessions are those asked for when they could be booked, with field, times and slot as asked |
| BookingHistory.AnswersExactly | src/sessions/services/sessions.service.ts:74-145 | On every reachable state which slots and sessions are accepted: the field, its partner or its sport, the times, a free slot and no session in the way |
| BookingHistory.ErrorsInOrder | src/sessions/services/sessions.service.ts:74-145 | On every reachable state a refused booking names the first condition that fails |
| Booking.BookingStore.CreateSlot | src/fields/services/field-slots.service.ts:26-65 | Checks in order and inserts an unreserved slot |
| Booking.BookingStore.MarkAsReserved | src/fields/services/field-slots.service.ts:102-108 | Sets the flag of that slot only; throws if there is none |
| Booking.BookingStore.CreateSession | src/sessions/services/sessions.service.ts:74-240 | Checks in order, inserts the session and reserves its slot on a private field |
| Roster.Reachable | src/sessions/services/session-players.service.ts:94-153 | Over every run of create, join, switch and leave a player's team belongs to his session, chat members are players, and only the creator may play outside the chat |
| Roster.CreatorInChatIffNeverLeft | src/sessions/services/session-players.service.ts:134-138 | The creator is in the chat iff he has never left the session |
| Roster.WhoBreaksOff | src/sessions/services/session-players.service.ts:257-279 | The only call that throws after a write is the leave of a creator who had left before |
| Roster.RejoinedCreatorBreaksOff | src/sessions/services/session-players.service.ts:257-279 | A run in which it does |
| Roster.PlayersWereAllowed | src/sessions/services/session-players.service.ts:337-417 | Over every run of session and friendship calls, somebody who is not the creator plays exactly if a join brought him in and he has not left since; at that join the team had room, he was no player, no block stood in the block table between him and a player, and for a private session the friendship table held an accepted row between him and the creator |
| Roster.PrivatePlayersWereAccepted | src/sessions/services/session-players.service.ts:339-363 | Every player of a private session but its creator joined after one of the two had accepted the other's request |
| Roster.PrivateCreatorCannotRejoin | src/sessions/services/session-players.service.ts:339-363 | Over every run the creator of a private session cannot join it |
| Roster.SocialIsFriendsRun | src/sessions/services/session-players.service.ts:339-415 | Session calls leave friendships and blocks as the friendship calls among them made them |
| Roster.SwitchConserves | src/sessions/services/session-players.service.ts:283-329 | An accepted switch moves one player from one team to the other and changes no other count |
| Roster.CapacityIsRespected | src/sessions/services/session-players.service.ts:365-382 | Over every run of create, join and leave no team exceeds maxPlayersPerTeam |
| Roster.SwitchKeepsCapacityExactly | src/sessions/services/session-players.service.ts:283-329 | A switch keeps every team within capacity iff the target team has room |
| Roster.CapacityOverRunsExactly | src/sessions/services/session-players.service.ts:283-329 | Over every run no team was ever over capacity iff every switch carried out found room |
| Roster.SwitchOverfillsTeam | src/sessions/services/session-players.service.ts:283-329 | A run that puts two players on a team for one |
| Roster.RemainingDisplaysAgreeExactly | src/sessions/services/sessions.service.ts:855-862 | The session's remaining count is at most the sum over its teams, equal iff no team is over capacity or none is under it |
| Roster.DisplaysAgreeOverRuns | src/sessions/mappers/session-team.mapper.ts:20-37 | On every state reached by create, join and leave the two displays agree |
| RosterHistory.SessionExactly | src/sessions/services/sessions.service.ts:152-177 | Over every run the sessions are those that creations asked for, each with the creator, visibility, start and capacity of its call, the capacity given per game mode |
| RosterHistory.TeamExactly | src/sessions/services/sessions.service.ts:179-186 | Over every run the teams of a session are the two of its creation |
| RosterHistory.PlayerExactly | src/sessions/services/session-players.service.ts:94-329 | Over every run a user is on a team iff a creation, a join or a switch put him there, told on the tables before it, and neither a leave nor a switch took him off since |
| RosterHistory.ChatExactly | src/sessions/services/session-players.service.ts:134-138 | Over every run a user is in the chat iff he created the session or joined one that is not his, and has not left since |
| RosterHistory.AnswersExactly | src/sessions/services/session-players.service.ts:257-300 | On every reachable state which calls are refused |
| RosterHistory.PrivateMeansAccepted | src/sessions/services/session-players.service.ts:339-363 | If the creation of a session asked for a private one, whoever else plays in it joined after he or the creator had accepted the other's request |
| Roster.RosterStore.CreateSession | src/sessions/services/sessions.service.ts:159-208 | Session, two teams, creator on the first team of team A's name, chat with the creator |
| Roster.RosterStore.VerifyPlayerEligibility | src/sessions/services/session-players.service.ts:337-417 | The lookups of friendship, team, capacity, player and blocks, made in order, accept exactly the joins the model calls eligible |
| Roster.RosterStore.JoinSession | src/sessions/services/session-players.service.ts:94-153 | Makes the lookups of eligibility in order, inserts the player, and the chat member unless he is the creator |
| Roster.RosterStore.LeaveSession | src/sessions/services/session-players.service.ts:241-281 | Deletes the player, then the chat member, which throws if there is none |
| Roster.RosterStore.SwitchPlayerToAnotherTeam | src/sessions/services/session-players.service.ts:283-329 | Changes the team of a player to another team of the session |
| Friends.Reachable | src/friends/friends.service.ts:38-110 | Over every run no self row, no CANCELED row, and at most one PENDING or ACCEPTED row per unordered pair |
| Friends.FindRowIsUnique | src/friends/friends.service.ts:318-330 | findFirst never has two rows to choose from |
| Friends.AcceptedWasRequestedAndAccepted | src/friends/friends.service.ts:304-421 | Every accepted row was requested by its first user and later accepted by its second, and the two were neither removed nor blocked since |
| Friends.PendingWasRequested | src/friends/friends.service.ts:75-80 | Every pending row was requested by its first user, and the two were not severed since |
| Friends.BlockedFriendsExactly | src/friends/friends.service.ts:38-80 | Over every run a request or friendship stands beside a block between the same two exactly if it was requested while the block stood and neither was undone since |
| Friends.FriendsWhileBlocked | src/friends/friends.service.ts:38-80 | A run in which a blocked pair become friends |
| Friends.FriendsCountIsDistinctFriends | src/users/mappers/user.mapper.ts:87 | The sum of sent and received accepted rows is the number of distinct friends |
| FriendHistory.RowExactly | src/friends/friends.service.ts:38-475 | Over every run a row is pending, accepted or rejected iff it was requested, or so answered by its receiver, when that was allowed, and was not answered, cancelled, removed or blocked since |
| FriendHistory.BlockExactly | src/moderation/moderation.service.ts:23-89 | Over every run a known user is blocked by another iff that one blocked him and has not unblocked him since |
| FriendHistory.AnswersExactly | src/friends/friends.service.ts:38-393 | On every reachable state which calls are carried out |
| Friends.FriendStore.Create | src/friends/friends.service.ts:38-80 | Inserts a request unless one of the refusals applies |
| Friends.FriendStore.Update | src/friends/friends.service.ts:304-393 | Answers the pending row if authorised; a cancelled row is deleted |
| Friends.FriendStore.RemoveFriend | src/friends/friends.service.ts:446-475 | Deletes the accepted row between the two |
| Friends.FriendStore.BlockUser | src/moderation/moderation.service.ts:23-67 | Inserts the block and deletes both rows between the two |
| Friends.FriendStore.UnblockUser | src/moderation/moderation.service.ts:69-89 | Deletes an existing block only |
| OffsetPaging.HydrationRestoresRank | src/users/users.service.ts:327-330 | Whatever order the database returns the rows in, and even if some are gone, the index sort shows the page's existing entries in page order |
| OffsetPaging.OffsetPagingIsExact | src/users/users.service.ts:297-304 | Following the offset cursor gives exactly the ranked list, in max(1, ceil(n/limit)) requests |
| OffsetPaging.OffsetRoundTrip | src/sessions/services/sessions.service.ts:277 | Reading a printed offset gives it back |
| OffsetPaging.OffsetFailsExactly | src/users/users.service.ts:149-150 | A cursor is refused iff it is not empty and does not begin with a digit |
| Ratings.CheckMeansDistinctPlayers | src/sessions/services/session-players.service.ts:177-190 | The check holds iff the uids are pairwise different players of the session |
| Ratings.AcceptedBatchIsSound | src/ratings/ratings.service.ts:20-60 | An accepted batch never rates the evaluator, rates each of some players once, keeps earlier ratings and adds nothing else |
| Ratings.StatusMovesForward | src/sessions/services/session-players.service.ts:425-471 | Over every run a rating status only moves forward and VALIDATED is final |
| RatingHistory.StatusExactly | src/sessions/services/session-players.service.ts:425-471 | Over every run a player's rating status is the one he was last given, by an allowed update or, VALIDATED, by rating the others |
| RatingHistory.RatingExactly | src/ratings/ratings.service.ts:20-46 | Over every run a rating is in the table iff it was there or is the first note of that evaluator for that player in an accepted batch |
| RatingHistory.AnswersExactly | src/ratings/ratings.service.ts:48-60 | Which updates and batches are accepted |
| Ratings.RatingStore.UpdateRatingStatus | src/sessions/services/session-players.service.ts:425-471 | Refused for strangers and for the three backward moves, otherwise sets the status |
| Ratings.RatingStore.CreateRatings | src/ratings/ratings.service.ts:20-46 | Inserts the new ratings and validates the evaluator, or does nothing |

## Left out

- Controllers, DTO validation, guards other than the e-mail link's, logging, metrics, e-mails, push and socket events, storage, maps, Firebase, and the Stripe and Apple clients: I/O around the modelled calls.
- JWT signing, argon2 and encryption: tokens, passwords and codes are given values.
- Receipts.ConversationStore.MarkMessagesAsRead: one step although its statements are in no transaction; what holds when statements interleave is in ReceiptStatements and OverlappingReads, except what the summaries of overlapping reads say. The same holds for the sends.
- Receipts: deletion of users (which empties senderUid and cascades receipts), the conversation's updatedAt, message contents and a failing upload, which behaves like a missing file.
- "A deleted message stays deleted": a later read by a recipient sets its globalStatus to READ.
- Cursor.IsoRoundTrip: years have four digits, and a client's own timestamp in the printed layout with an impossible day, such as 31 February, is read field by field instead of being left to the engine.
- Cursor: the text order of uids is by character; the database's collation is another total order, and the proofs need no more.
- WebhookStatements: overlapping deliveries of different events about one payment, whose order decides its status.
- Webhooks: a commission rate that is not a number, and whether the database looks at a rate it cannot store when the payment exists already (here it does not); a payment's generated uid is identified with its payment intent id.
- Tokens: Google, Apple and partner logins, which issue tokens without a transaction, and the access token issued by the code exchange (a step of Codes).
- Codes: two issuing transactions running at once, since a transaction is one step.
- HourPreferences: concurrent submissions of one user between clearing and inserting.
- Booking: changing a session's times (`update` re-checks nothing), and two session creations at once, whose checks and writes are not in one transaction.
- Roster: accepting invitations (the service passes the session uid as team uid, so the effect depends on foreign keys), two joins at once, and the removal of users.
- OffsetPaging.OffsetPagingIsExact: the ranking scores and SQL similarity are not modelled, the ranked list is given; popping and sorting of the local array are on values; cursors with a sign or leading spaces fail instead of being parsed.
- Lists whose cursor is the popped extra item (sessions of a user, conversations, friends): that item is skipped, so no coverage is claimed.
- Ratings: the mapping of sport-specific notes, one number here.
