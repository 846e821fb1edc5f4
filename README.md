# piump back-end: conversation, messaging and booking rules in Dafny

This project models the real-time conversation layer of the piump back end and proves properties of it. That layer covers:

- the conversation directory (conversations, participant rows, per-conversation meta rows);
- the message store;
- the read-receipt tracker;
- the transactional outbox (producer and one consumer tick);
- the Socket.IO room registry.

It also models the small rule cores around it: provider listing, matching and relation updates, grouping of scheduled bookings by zip, same-day date assignment with a cutoff, the Express auth guards, and the `ALLOWED_ZIPS` setting.

The database is replaced by in-memory tables held by classes. `Conversations.Directory`, `Messages.MessageLog`, `Receipts.ReceiptTable`, `Outbox.OutboxLog`, `Providers.ProviderTable` and `Bookings.BookingTable` hold sequences or maps of records. Operations that write are methods whose postconditions give the whole new state, and queries are functions. Several things become parameters:

- ids, timestamps and the `uuid()` value the store or the runtime would assign;
- the New York wall-clock time;
- the outbox handlers, as a map from topic to outcome;
- JWT verification, as an oracle that returns the claims or nothing.

Module layout follows the source: one module per core file (`conversations`, `messages`, `receipts`, `outbox`, `outbox_consumer`, `rooms`, `providers`, `bookings`, `assigned_date`, `cutoff_time`, `booking_service`, `auth`, `env`). Three modules are shared:

- `Base`: Option, Result and the thrown `Error`.
- `Sorting`: a generic insertion sort standing in for `ORDER BY`, with `Take` and `Drop` for `take` and `skip`.
- `Calendar`: dates and the three text forms.

Where a comment and the code disagree, the model follows the code. `src/lib/time.ts` says "after 11:00" but compares against 12:00; the model uses 12:00.

## Model

| member | source | states |
|---|---|---|
| Conversations.Directory.CreateConversation | src/modules/conversations/service.ts:16-45 | A missing or empty participant list fails with `participant_ids_required` and writes nothing. A repeated participant fails with the store's unique-pair error and writes nothing. Otherwise it appends the conversation and one participant row per id. It creates the meta row `(createdAt, "")` only when absent and otherwise leaves it unchanged. |
| Conversations.CreatedRowsAreExact | src/modules/conversations/service.ts:24-35 | After creation each given user has exactly one row for the new conversation and nobody else has one. The participant query returns exactly the given ids. |
| Conversations.UserIdsOf | src/modules/conversations/service.ts:68-72 | A user id is returned iff a row (c, u) exists. The result has no repeats when the rows have none. |
| Conversations.ConversationsOfUser | src/modules/conversations/service.ts:51-52 | A conversation is selected iff the user has a participant row for it. |
| Conversations.ListingOrderIsTotalPreorder | src/modules/conversations/service.ts:57-60 | The two-key order (lastMessageAt desc with NULL first, then createdAt desc) is total and transitive. |
| Conversations.Directory.ListUserConversations | src/modules/conversations/service.ts:50-62 | Returns exactly the user's conversations, as a permutation of the filtered table, ordered pairwise by the listing order. |
| Conversations.ListingIsByRecency | src/modules/conversations/service.ts:57-60 | In a valid directory, earlier entries have a later or equal `lastMessageAt`. Ties are ordered by `createdAt` descending. |
| Conversations.Directory.GetConversationParticipantIds | src/modules/conversations/service.ts:67-73 | Returns the user ids of exactly the conversation's rows, without repeats. |
| Conversations.Directory.AssertUserInConversation | src/modules/conversations/service.ts:78-88 | Passes iff the (user, conversation) row exists. Otherwise fails with `not_in_conversation` and code `FORBIDDEN`. It is a function, so it changes nothing. |
| Messages.CreatedPayload | src/modules/messages/service.ts:37-41 | The payload has exactly the keys messageId, conversationId and senderId, taken from the message. |
| Messages.CreateMessage | src/modules/messages/service.ts:4-44 | Fails with `not_in_conversation` iff the sender has no participant row, and then message, meta and outbox are unchanged. On success it appends exactly one message and returns it. The conversation's meta becomes (createdAt, id), whether created or updated, and other meta rows are unchanged. It appends exactly one `chat.message.created` event. |
| Messages.CreateMessageKeepsMetaInStep | src/modules/messages/service.ts:29-34 | If every conversation's meta row names its latest message, that still holds after the message append and the meta upsert. |
| Messages.CreateConversationKeepsMetaInStep | src/modules/conversations/service.ts:37-42 | The creation meta upsert keeps the meta rows in step with the message log. |
| Messages.MessageLog.FindMessage | src/modules/receipts/routes.ts:8 | Finds a message iff one has the id, and it is that message. |
| Receipts.FindKey | src/modules/receipts/routes.ts:16-17 | Returns the first receipt with the (message, user) key, or reports that none has it. |
| Receipts.Upsert | src/modules/receipts/routes.ts:16-20 | The result holds the receipt `(message, user, now)`. It is one row longer exactly when the key was absent. Every receipt with another key is in the result iff it was in the table. |
| Receipts.UpsertEffect | src/modules/receipts/routes.ts:16-20 | Afterwards exactly one receipt has the key and it reads `now`. Keys stay unique. It adds a row only when the key was absent. Receipts of other pairs are unchanged. |
| Receipts.UpsertIdempotent | src/modules/receipts/routes.ts:16-20 | Two upserts for the same pair equal one upsert at the later time. |
| Receipts.ReadAccess | src/modules/receipts/routes.ts:8-14 | An unknown message gives `Message not found`. An existing message whose conversation lacks the reader gives `Participant not found`. Otherwise it returns the message. Success iff both lookups hold. |
| Receipts.ReceiptTable.UpsertReceipt | src/modules/receipts/routes.ts:16-20 | The table becomes the upsert of the old table, and key uniqueness is kept. |
| Receipts.MarkReadHttp | src/modules/receipts/routes.ts:6-26 | A lookup failure yields that error and no write. Success upserts and broadcasts `receipt:new` to the whole conversation room, with no socket excluded. |
| Receipts.MarkReadSocket | src/modules/receipts/routes.ts:30-45 | A lookup failure is dropped silently, with no write and no emit. Otherwise it upserts and broadcasts to the room, excluding the sending socket. |
| Outbox.OutboxLog.ProduceOutbox | src/modules/outbox/producer.ts:4-12 | Appends exactly one PENDING event with the topic, the payload and the possibly absent key. Earlier events are untouched. |
| Outbox.SameKeyTwice | src/modules/outbox/producer.ts:4-12 | Two productions with the same key leave two events: there is no de-duplication. |
| OutboxConsumer.Backoff | src/modules/outbox/consumer.ts:32 | The delay is `min(60000, (attempts+1)*2000)`, always between 2000 and 60000. |
| OutboxConsumer.BackoffMonotone | src/modules/outbox/consumer.ts:32 | The delay never decreases as attempts grow. |
| OutboxConsumer.DueEvents | src/modules/outbox/consumer.ts:15 | Selects exactly the PENDING events with `availableAt <= now`, and ids stay unique. |
| OutboxConsumer.Claim | src/modules/outbox/consumer.ts:14-18 | Exactly `min(50, #due)` events, each due and in the table, in createdAt-ascending order, with unique ids. No due event left out is older than a claimed one. All due events are claimed when there are at most 50. |
| OutboxConsumer.Tick | src/modules/outbox/consumer.ts:13-37 | The loop settles every claimed event by id, in batch order. The table ends as `TickResult`, and ids stay unique. |
| OutboxConsumer.ClaimedOutcome | src/modules/outbox/consumer.ts:21-35 | A resolving handler, or a topic with no handler, makes the event SENT with `sentAt = now`. A throwing handler leaves it PENDING with attempts+1, error = the reason and availableAt = now + backoff. |
| OutboxConsumer.Dispatch | src/modules/outbox/consumer.ts:23-24 | A topic without a handler resolves. Otherwise the outcome is that handler's on the payload. |
| OutboxConsumer.Settle | src/modules/outbox/consumer.ts:25-35 | Id, topic, payload, key and createdAt are kept. Resolving makes the event SENT at `now` with attempts unchanged. Throwing keeps it PENDING, leaves `sentAt`, adds one attempt, records the reason and moves availableAt to between now+2000 and now+60000. |
| OutboxConsumer.DefaultHandlersOutcome | src/modules/outbox/consumer.ts:5-35 | With the installed handler table, read as a JS object literal, a claimed event ends SENT at `now` iff its topic is not one of the inherited `Object.prototype` members whose bare call throws (`valueOf`, `hasOwnProperty`, `__proto__`, …). Such an event stays PENDING with one more attempt and the TypeError recorded, and the outcome depends on the topic alone. |
| OutboxConsumer.UnclaimedUnchanged | src/modules/outbox/consumer.ts:20-36 | An event outside the batch is exactly as before. |
| OutboxConsumer.SentIsTerminal | src/modules/outbox/consumer.ts:15 | A SENT event is never claimed and is left unchanged by a tick. |
| OutboxConsumer.OutcomeIsPerEvent | src/modules/outbox/consumer.ts:20-36 | An event's new state depends only on its own handler's outcome, so one failure does not affect the others. |
| OutboxConsumer.RetryNotClaimedEarly | src/modules/outbox/consumer.ts:15-35 | In any table, an event whose handler threw is neither due nor claimed before now + backoff. |
| OutboxConsumer.RetryTiming | src/modules/outbox/consumer.ts:25-35 | For an event alone in the table: after a failure it is not claimable before now + backoff and is claimable from then on. |
| OutboxConsumer.SentAfterTwoFailures | src/modules/outbox/consumer.ts:13-37 | An event that fails twice and then resolves, ticked when due, ends SENT with attempts 2. |
| Rooms.RoomOf | src/modules/conversations/socket.ts:59-61 | The name `conv:<id>` decodes back to the conversation id and never as a user room. |
| Rooms.UserRoom | src/modules/conversations/socket.ts:64-66 | The name `user:<id>` decodes back to the user id and never as a conversation room. |
| Conversations.ConversationIdsOf | src/modules/conversations/socket.ts:19-22 | An id is listed iff the user has a participant row for that conversation. |
| Rooms.RoomNamesInjective | src/modules/conversations/socket.ts:59-66 | `roomOf` and `userRoom` are injective, and a conversation room never equals a user room. |
| Rooms.AutoJoinMatchesMembership | src/modules/conversations/socket.ts:19-23 | The rooms auto-joined at connect are exactly the rooms of the user's conversations. |
| Rooms.AutoJoinedRooms | src/modules/conversations/socket.ts:18-24 | Fed the membership query's answer, the connect handler leaves the socket in a conversation's room iff it already held it or the user takes part in that conversation. |
| Rooms.Connection.OnConnection | src/modules/conversations/socket.ts:18-27 | The socket gains `roomOf(c)` for every listed conversation plus its user room, or nothing when the query failed. Online presence targets the rooms held. |
| Rooms.AfterJoin | src/modules/conversations/socket.ts:31-34 | An empty id changes nothing. Otherwise the room is added and no other room changes. |
| Rooms.AfterLeave | src/modules/conversations/socket.ts:37-40 | An empty id changes nothing. Otherwise the room is removed and no other room changes. |
| Rooms.JoinLeaveIdempotent | src/modules/conversations/socket.ts:31-40 | Repeating a join or a leave changes nothing further. |
| Rooms.Connection.JoinConversation | src/modules/conversations/socket.ts:31-34 | The room set becomes `AfterJoin` of the old one, and the socket's own room stays. |
| Rooms.Connection.LeaveConversation | src/modules/conversations/socket.ts:37-40 | The room set becomes `AfterLeave` of the old one, and the socket's own room stays. |
| Rooms.Connection.TypingBroadcast | src/modules/conversations/socket.ts:43-46 | Nothing for an empty id. Otherwise the conversation room, excluding this socket, with `isTyping` coerced by truthiness. |
| Rooms.ToRooms | src/modules/conversations/socket.ts:49-53 | A non-empty room list targets those rooms. An empty list targets every socket. |
| Rooms.OfflinePresence | src/modules/conversations/socket.ts:51-54 | The offline notice targets exactly the given non-empty room set. |
| Rooms.LeaveAll | src/modules/conversations/socket.ts:51-54 | Before `disconnect` fires, Socket.IO has removed the socket from every room, so none is left. |
| Rooms.OfflineAsWritten | src/modules/conversations/socket.ts:51-54 | As written: the notice is built from the rooms left after leaving all of them, and so it targets every socket with offline presence. |
| Rooms.Connection.DisconnectAsWritten | src/modules/conversations/socket.ts:51-54 | The rooms are emptied first, then the handler emits; the room set ends empty and the notice is `OfflineAsWritten` of the rooms held. |
| Rooms.OfflineAsWrittenMissesRooms | src/modules/conversations/socket.ts:51-54 | As written, the offline notice goes to every socket, never to the rooms held. |
| Rooms.Connection.Disconnect | src/modules/conversations/socket.ts:51-54 | Corrected: the offline notice targets exactly the rooms held when closing starts, and then all rooms are left. |
| Providers.NewestMatching | src/repositories/providerRepo.ts:44-80 | The matching providers of the table, each as often as it occurs, in createdAt-descending order. |
| Providers.ListProviders | src/repositories/providerRepo.ts:32-82 | Only matching providers from the table, newest first. The page has exactly `min(take, max(0, #matching - skip))` providers (defaults 50 and 0), and its k-th provider is the `(skip + k)`-th match. |
| Providers.NoParamsMatchAll | src/repositories/providerRepo.ts:44-75 | With no arguments, no filter restricts the result. |
| Providers.FalsyFiltersAreIgnored | src/repositories/providerRepo.ts:62-75 | `categoryId: 0`, `zip: ""` and `search: ""` give the same listing as leaving them out. |
| Providers.SearchIgnoresCase | src/repositories/providerRepo.ts:66-74 | The search text matches the same providers after ASCII lower-casing. |
| Providers.CompanyNameIsSearched | src/repositories/providerRepo.ts:69 | A search text that occurs in the company name selects the provider. |
| Providers.OldestMatching | src/repositories/providerRepo.ts:125-143 | The approved providers offering the category and serving the zip, with AM meaning `operatesAM` and anything else `operatesPM`, each as often as it occurs, oldest first. |
| Providers.MatchProviders | src/repositories/providerRepo.ts:123-144 | Only approved providers offering the category and serving the zip. AM means `operatesAM`, and anything else means `operatesPM`. The result has exactly `min(take, #matches)` providers (default 20), and they are the oldest matches, in order. |
| Providers.CategoriesAdded | src/repositories/providerRepo.ts:147-160 | The categories become the union with the given ids. Nothing else changes. |
| Providers.CategoriesSet | src/repositories/providerRepo.ts:162-175 | The categories become exactly the given ids. Nothing else changes. |
| Providers.CategoriesRemoved | src/repositories/providerRepo.ts:177-190 | The categories become the old ones minus the given ids. Nothing else changes. |
| Providers.ZonesAdded | src/repositories/providerRepo.ts:193-206 | The zones become the union with the given zips. Nothing else changes. |
| Providers.ZonesSet | src/repositories/providerRepo.ts:208-221 | The zones become exactly the given zips. Nothing else changes. |
| Providers.ZonesRemoved | src/repositories/providerRepo.ts:223-236 | The zones become the old ones minus the given zips. Nothing else changes. |
| Providers.CategoryUpdatesCompose | src/repositories/providerRepo.ts:147-190 | Adding twice equals adding once. Removing after adding equals removing. Removing the ids just set leaves no category. |
| Providers.ZoneUpdatesCompose | src/repositories/providerRepo.ts:193-236 | The same laws hold for service zones. |
| Providers.ProviderTable.ApproveProvider | src/repositories/providerRepo.ts:113-119 | An unknown id fails. Otherwise only `approved` changes, to the flag given or `true`. |
| Providers.ProviderTable.AddCategoriesToProvider | src/repositories/providerRepo.ts:147-160 | An unknown provider or an unknown category fails and writes nothing. Otherwise the stored provider becomes `CategoriesAdded`. |
| Providers.ProviderTable.SetCategoriesToProvider | src/repositories/providerRepo.ts:162-175 | The same, with `CategoriesSet`. |
| Providers.ProviderTable.RemoveCategoriesFromProvider | src/repositories/providerRepo.ts:177-190 | An unknown provider fails. Otherwise the stored provider becomes `CategoriesRemoved`. |
| Providers.ProviderTable.AddServiceZonesToProvider | src/repositories/providerRepo.ts:193-206 | An unknown provider or an unknown zip fails. Otherwise the stored provider becomes `ZonesAdded`. |
| Providers.ProviderTable.SetServiceZonesToProvider | src/repositories/providerRepo.ts:208-221 | The same, with `ZonesSet`. |
| Providers.ProviderTable.RemoveServiceZonesFromProvider | src/repositories/providerRepo.ts:223-236 | An unknown provider fails. Otherwise the stored provider becomes `ZonesRemoved`. |
| Bookings.ScheduledOn | src/repositories/bookinRepo.ts:69-73 | Exactly the SCHEDULED bookings assigned to the day. |
| Bookings.CodesIn | src/repositories/bookinRepo.ts:77-84 | A code is in a zip's list iff some row of that zip carries it. The list is in row order. |
| Bookings.BookingTable.GroupScheduledByZip | src/repositories/bookinRepo.ts:68-87 | A day that is not a date fails. The call fails iff some row read stops the loop, with that first row's error: `Zip not found` for a user without a truthy zip, and a TypeError for a zip that names an inherited `Object.prototype` member such as `constructor`. Otherwise the keys are exactly the zips seen, and each list holds that zip's codes in row order. |
| Bookings.FirstRowError | src/repositories/bookinRepo.ts:77-83 | The loop stops iff some row has no truthy zip or a zip in `Object.prototype`'s member names. The error is that of the first such row, with every earlier row passing. |
| Bookings.GroupRows | src/repositories/bookinRepo.ts:76-86 | Over the rows read, it fails iff the loop stops, with the first stopping row's error (`Zip not found`, or the TypeError of `push` on an inherited member). Otherwise each zip seen gets exactly its rows' codes in row order. |
| Bookings.GroupStep | src/repositories/bookinRepo.ts:82-83 | Pushing a row's code onto its zip's list keeps the grouping exact. |
| Bookings.GroupsAreNonEmpty | src/repositories/bookinRepo.ts:82-83 | Every key has a non-empty list. |
| Bookings.CodeLandsInItsZip | src/repositories/bookinRepo.ts:77-84 | A code is in zip z's list exactly when a row of zip z carries it. |
| Bookings.BookingTable.MarkScheduled | src/repositories/bookinRepo.ts:58-66 | An unknown code fails. Otherwise only that booking changes, and the result is the old booking with status SCHEDULED and the subscription id replaced only by a non-empty one. |
| Bookings.BookingTable.CreateBookingDB | src/repositories/bookinRepo.ts:25-41 | A date that is not ISO is refused. Then a code already taken fails with the unique-constraint error, and an unknown user fails with the foreign-key error (`P2003`). Either way nothing is written. Otherwise it appends one PENDING booking with the input's fields. |
| Calendar.NextDay | src/lib/computeAssignedDate.ts:28 | The next date is valid, later, and no valid date lies between. |
| Calendar.ParseISO | src/lib/computeAssignedDate.ts:7-8 | Only real calendar dates with four-digit years are returned. |
| Calendar.FormatISO | src/lib/computeAssignedDate.ts:8 | For a four-digit year the text is ten characters, `yyyy-MM-dd`, with digits in each field. |
| Calendar.ParseDMY | src/lib/computeAssignedDate.ts:11-12 | Only real calendar dates are returned. |
| Calendar.ParseMDY | src/lib/computeAssignedDate.ts:14-15 | Only real calendar dates are returned. |
| Calendar.DMYRoundTrip | src/lib/computeAssignedDate.ts:11-12 | Parsing the `dd/MM/yyyy` text of a valid date with a four-digit year gives that date. |
| Calendar.MDYRoundTrip | src/lib/computeAssignedDate.ts:14-15 | Parsing the `MM/dd/yyyy` text of a valid date with a four-digit year gives that date. |
| Calendar.DMYCanonical | src/lib/computeAssignedDate.ts:11-12 | Text that parses as `dd/MM/yyyy` is exactly the `dd/MM/yyyy` text of the date read. |
| Calendar.MDYCanonical | src/lib/computeAssignedDate.ts:14-15 | Text that parses as `MM/dd/yyyy` is exactly the `MM/dd/yyyy` text of the date read. |
| Calendar.ISORoundTrip | src/lib/computeAssignedDate.ts:7-8 | Parsing the ISO text of a date gives the date. |
| Calendar.ISOCanonical | src/lib/computeAssignedDate.ts:7-8 | A bare ISO date that parses formats back to itself. |
| Calendar.ISOIsNotSlashed | src/lib/computeAssignedDate.ts:7-15 | ISO output never parses as dd/MM/yyyy or MM/dd/yyyy. |
| AssignedDate.ToISODateNY | src/lib/computeAssignedDate.ts:5-20 | ISO is tried first, then dd/MM/yyyy, then MM/dd/yyyy. Text no format reads comes back unchanged. |
| AssignedDate.SameDayDate | src/lib/computeAssignedDate.ts:22-29 | Strictly after 11:00 it is tomorrow, otherwise today. |
| AssignedDate.ComputeAssignedDate | src/lib/computeAssignedDate.ts:22-33 | Same-day bookings use the cutoff date. Other bookings use the normalised input. |
| AssignedDate.SameDayCutoff | src/lib/computeAssignedDate.ts:24-28 | After 11:00:00.000 the result is tomorrow's ISO date. At or before it, today's. |
| AssignedDate.NotSameDayIgnoresClock | src/lib/computeAssignedDate.ts:32 | Without sameDay the result does not depend on the clock. |
| AssignedDate.DayFirstTextIsRead | src/lib/computeAssignedDate.ts:7-12 | The `dd/MM/yyyy` text of any real date normalises to that date's ISO text. |
| AssignedDate.AmbiguousSlashedDateIsDayFirst | src/lib/computeAssignedDate.ts:7-15 | When the `MM/dd/yyyy` text of a date also reads as a real day-first date, that day-first date wins: month and day swap. |
| AssignedDate.MonthFirstWhenDayFirstFails | src/lib/computeAssignedDate.ts:11-15 | The `MM/dd/yyyy` text of a date with day above 12 normalises to that date's ISO text. |
| AssignedDate.ToISODateNYIdempotent | src/lib/computeAssignedDate.ts:5-20 | Normalising twice is normalising once. |
| AssignedDate.EmptyOnlyFromEmpty | src/lib/computeAssignedDate.ts:19 | The result is empty iff the input is. |
| CutoffTime.AssignedDay | src/lib/time.ts:5-15 | Strictly after 12:00 it is tomorrow, otherwise today. |
| CutoffTime.SameDayIsIgnored | src/lib/time.ts:5-15 | `sameDay` does not affect the result. |
| CutoffTime.NeverBeforeToday | src/lib/time.ts:10-15 | The day is today or tomorrow, never earlier than today. |
| CutoffTime.ComputeAssignedDate | src/lib/time.ts:5-15 | For a four-digit year the result is ten characters and parses back to the assigned day. |
| BookingService.BuildBookingRow | src/services/bookingService.ts:6-19 | Fails iff the computed date is empty. Otherwise: the generated id, the computed date, status `pending`, the input fields copied, and no Stripe ids. |
| BookingService.RejectedOnlyForEmptyDate | src/services/bookingService.ts:8-12 | The guard fires iff the booking is not same-day and its date is the empty text. |
| BookingService.SameDayAlwaysAccepted | src/services/bookingService.ts:8-12 | A same-day booking is always built, for the cutoff date. |
| Auth.TokenOf | src/middleware/auth.ts:17 | The token is the header without its first seven characters, or empty for shorter headers. |
| Auth.AuthDecision | src/middleware/auth.ts:12-26 | 401 `Missing bearer token` iff the header is absent or does not start with `Bearer`. 500 `Invalid token` iff verification of the sliced token fails. Otherwise the decoded claims. |
| Auth.ConventionalHeader | src/middleware/auth.ts:15-17 | `Bearer <t>` yields token `t`. |
| Auth.GluedPrefixDropsACharacter | src/middleware/auth.ts:15-17 | `Bearer` followed directly by a character passes the check and loses that character. |
| Auth.UserTypeDecision | src/middleware/auth.ts:28-35 | No claims gives 401. A type not listed gives 403. Otherwise it admits the request with the claims. |
| Auth.UserTypeListMonotone | src/middleware/auth.ts:32 | An empty list rejects everyone. Listing more types never admits fewer requests. |
| Auth.Exchange.RequireAuth | src/middleware/auth.ts:12-26 | Either the rejection is recorded and `next` is not called, or `req.auth` is set and `next` is called exactly once. |
| Auth.Exchange.RequireUserType | src/middleware/auth.ts:28-35 | Either the rejection is recorded, or `next` is called exactly once. |
| Auth.GuardedRoute | src/middleware/auth.ts:12-35 | The handler is reached iff the bearer token verifies and its type is listed. |
| Env.Split | src/env.ts:54 | At least one field, and no field contains a comma. |
| Env.SplitJoin | src/env.ts:54 | Joining the fields with commas gives back the text. |
| Env.JoinSplit | src/env.ts:54 | Splitting comma-free fields joined with commas gives back the fields. |
| Env.Trim | src/env.ts:54 | Neither end is white space, and no comma is introduced. |
| Env.TrimIsSlice | src/env.ts:54 | The trimmed text is a slice of the input, everything cut off on either side is white space, and neither end of the slice is white space. |
| Env.TrimIdempotent | src/env.ts:54 | Trimming twice is trimming once. |
| Env.TrimmedNonEmptyClean | src/env.ts:54 | From comma-free fields, every kept field is non-empty, trimmed and comma-free. |
| Env.AllowedZips | src/env.ts:14-54 | Every allowed zip is non-empty, equals its trimmed form, and has no comma. A comma-free setting gives its trimmed text alone, or nothing when that is empty. |
| Env.AllowedZipsFromFields | src/env.ts:54 | A zip is allowed iff it is non-empty and is the trimmed form of some comma-separated field of the setting. |
| Env.EmptySettingAllowsNothing | src/env.ts:14-54 | A missing setting and the empty setting both give no zips. |
| Env.FieldOrderKept | src/env.ts:54 | The fields of `a,b` give a's zips followed by b's, so order is preserved. |
| Env.PaddedFieldIsTrimmed | src/env.ts:54 | `" 10001 ,,10002"` gives `["10001", "10002"]`. |

## Left out

- Prisma, PostgreSQL, Fastify, Express and the Socket.IO transport are replaced by in-memory tables and returned `Emit` values. Acknowledgements and error envelopes are not modelled.
- The three writes of `createMessage` happen in one method. The model does not capture a crash between them, or concurrent writers interleaving with them.
- Ids and timestamps assigned by the store are parameters, and their freshness is a precondition. The store guarantees it; the source does not check it.
- Nothing requires the clock to be monotonic, so `now` values are unrelated across calls.
- `OutboxConsumer.Settle`: one `now` stands for every clock reading of a tick. The source reads the clock again for each event, for `sentAt` and for the backoff's `Date.now()` after the handler's await, so its `availableAt` is at least the claim time plus the backoff rather than equal to it.
- `Bookings.GroupRows`: the text of the TypeError that `push` on an inherited member raises is engine-specific and is modelled as `TypeError`.
- `OutboxConsumer.DefaultHandlers`: the text `String(e)` gives for the TypeError of an inherited key is engine-specific and is modelled as `TypeError`.
- The outbox loop's `setTimeout` rescheduling and any concurrency between ticks are left out. One tick is modelled, with the handlers given as a map from topic to outcome.
- `OutboxConsumer.DueEvents`, `Providers.ListProviders`, `Providers.MatchProviders` and `Conversations.Directory.ListUserConversations` sort with a stable sort, so rows whose sort keys are equal keep table order. PostgreSQL leaves their order unspecified, so "the k-th provider is the (skip + k)-th match" and the claimed batch hold only up to the order of such ties.
- The order of `findMany` without `orderBy` (`groupScheduledByZip`) is taken to be table order.
- `Bookings.GroupScheduledByZip`: the day window `[startOf('day'), endOf('day')]` is modelled as equality of the booking's New York calendar date. The server's own time zone, which `DateTime.fromISO(dateISO)` uses, is not modelled.
- `Bookings.GroupScheduledByZip` does not state that the total number of grouped codes equals the number of rows. It states the equivalent per-zip fact: each zip's list is exactly that zip's codes.
- Luxon time-zone conversion is not modelled. The New York clock is a (date, milliseconds since midnight) value.
- `Calendar.ParseISO`: Luxon's other ISO forms (week dates, ordinal dates, basic format, extended years, and the reduced forms `yyyy`, `yyyy-MM` and time-only `HH:mm`, which `toISODateNY` turns into a date while the model returns the text unchanged) and validation of the time part after `T` are not modelled.
- `AssignedDate.ToISODateNY`: the final `new Date(s)` fallback is treated as failing, so text no Luxon format reads comes back unchanged.
- JWT signing and verification, bcrypt, Stripe, SMTP, Twilio and Google Maps are left out. Token verification is an oracle parameter.
- Zod schemas and the rest of the environment loading (`process.exit` on a bad setting) are left out. Only the `ALLOWED_ZIPS` derivation is modelled.
- `Providers.SearchHits`: `mode: 'insensitive'` is modelled as ASCII case folding, not as the database's locale-aware folding.
- `Providers.ListProviders`: a caller-supplied `orderBy` and `include` are not modelled (the default `createdAt desc` is). A negative `take` (Prisma reads backwards from the end) is not modelled either: `take` and `skip` are natural numbers.
- `Providers.ProviderTable`: a nested `connect` or `set` naming a missing category or zip fails with one error. `disconnect` of such ids is accepted silently. `getProviderById`, `createProvider`, `updateProvider`, `deleteProvider` and the verification-document helpers are plain CRUD and are not modelled.
- `Conversations.Directory.CreateConversation`: the users named by `participantIds` and the `serviceId` are not checked to exist. Prisma's nested `connect` would fail for a missing row, but the model has no user or service table.
- `Conversations.Directory.CreateConversation`: it returns only the conversation record. The relations the source's `include` adds are not modelled: the participants with their `user {id, name}`, and `ConversationMeta`, which is null in the returned object because the meta upsert runs after the create.
- `Rooms.Connection.OnConnection`: the `try`/`catch` around the membership query is modelled by `None` for a failed query. The log line is not modelled.
- The redundant meta creation in `src/modules/conversations/routes.ts:16-18` and the `tempId` echo of the message acknowledgement are transport code and are not modelled.

## Findings

| source | as written | input that shows it | evidently intended | confidence | as-written member | corrected member |
|---|---|---|---|---|---|---|
| src/modules/conversations/socket.ts:51-54 | The handler reads `socket.rooms` in the `disconnect` event. Socket.IO has already removed the socket from every room by then, so `io.to([])` is an empty room list, and that broadcasts to every connected socket. | A user in conversation `c` closes the connection. Every connected client, including strangers, receives `presence {userId, status: 'offline'}`. | Offline presence goes only to the rooms the socket was in (for example, read in the `disconnecting` event). | not executed; follows Socket.IO v4's documented event order | Rooms.Connection.DisconnectAsWritten with Rooms.OfflineAsWritten (shown by Rooms.OfflineAsWrittenMissesRooms) | Rooms.Connection.Disconnect |
