# A verified model of jiffy-messaging

This project models the messaging service of jiffy-messaging, the two pairs of stores behind it (in memory and
Postgres), the limiter on WebSocket connection attempts, and live delivery over one or several instances. It proves
what the code promises about them. `dafny verify dfyconfig.toml` checks everything.

## How the model is built

- **Stores.** `InMemoryStores` and `PostgresStores` are the four adapters as classes. The Postgres ones work on an
  explicit `Database` of three tables with their keys; there is one method per SQL statement, and whatever order a
  statement leaves open stays open in that method's contract. Both pairs are proved against one specification of the
  ports, the relations in `Stores`.
- **Service.** `Messaging` is `MessagingService` as a class over either pair. `Service` is the same service cut at
  its awaits: what a call asks first, and what it does with each answer. Every method of the class is proved to be a
  run of the corresponding call.
- **Interleavings.** `Machine` lets any number of calls be in flight over one store. A step begins a call, lets the
  store execute one operation, lets a call continue with its answer, or advances the clock. The Postgres `softDelete`
  takes two operations, its UPDATE and its fallback SELECT; the preview queries of a `listConversations` are all sent
  at once and executed in any order. A call over the in-memory stores holds their own objects and sees their present
  fields whenever it continues; over Postgres it holds copies. `Concurrency` proves the invariant of all reachable
  states; `Safety`, `Cleared`, `Overlap`, `Listings`, `Browsing`, `ReadMarks`, `Purge` and `Router` prove properties
  of whole runs; `Served` says who is served and who is refused in them. `Sequential`, `Outcomes` and `ReadPaths` are
  about calls that run alone, `Outcomes` telling each call's whole outcome from the stored rows.
- **The two pairs of stores.** In memory an operation of a store executes when it is asked for; runs like that are
  `AtOnce`. A run over Postgres, where operations wait, is compared with such a run: in memory a deletion executes
  when it is asked for, ahead of the database, and everything else is asked for when the database executes it. `Dated`
  is about deletions that wait, `Simulation` about what counts as the same, `Agreement` about a call that continues,
  `Coupling` says how the two runs keep step and when a step fits, `Steps` and `Paths` prove it of one step,
  `Refinement` of whole runs. `Apart` is about what callers can do for the stores to agree; `Disturbance` and
  `Snapshots` reach runs in which they do not.
- **Queries.** `Query`, `Paging` and `Rows` hold the two ways of listing messages, walking a history backward, and
  regrouping joined rows.
- **Limiter and delivery.** `RateLimiter`; `Bus`, the two message buses; `Delivery`, one WebSocket server; `FanOut`,
  several of them behind one channel; `Live`, those beside a run of the service that publishes to them and answers
  their lookups; `Unseen`, what they send without somebody's deletions; `Handover`, when a frame is built.

Ids, the clock, the host's answer at the gate, verified identities and timer events are inputs. Assumptions: fresh ids
are unused; there is one clock for processes and database and it does not run backward; instants are integers;
`ws.close` leaves the OPEN state at once; the answer of the gate is one boolean per call. A row of the messages table
is taken to be the message it is renamed to.

## What the proofs found

- **Overlapping deletions of one conversation can bring cleared history back.** `deleteConversation` reads its
  instant before its UPDATE runs. Over Postgres two overlapping deletions by one user may be applied in the opposite
  order, and then `clearedAt` moves backward, although src/core/messaging-service.ts:205-207 says that a second
  call moves the instant forward and the repository's README.md:221-225 that cleared history stays gone.
  `Overlap.OverlapReveals` shows it for every reachable state with two such deletions waiting and a message in
  between, `Overlap.OvertakenClearReveals` reaches one, and `Overlap.ReappearsExactlyByStaleClear` says exactly when a
  hidden message can come back. It cannot if the user's deletions of the conversation do not overlap
  (`Overlap.HiddenWithoutOverlap`), nor if each executes at the instant it read (`Cleared.HiddenStaysHidden`), as in
  memory, where `clear` runs when it is called (`AtOnce.HiddenInMemory`).
- **A message created in the very instant of a clear stays hidden,** because `after` is strict.
- **The stores disagree on limits.** Without a limit the in-memory store answers everything and Postgres fifty; above
  200 Postgres clamps; zero is everything in memory and one row in Postgres; a negative limit drops from the front in
  memory. `Query.QueryEquivalence` says exactly when the answers are equal. A duplicated participant is stored twice
  in memory and refused by the primary key in Postgres. `Router.RoutedCallsTheStoresDisagreeOn` shows
  each of the differences that the HTTP layer lets through.
- **Overlapping calls can tell the stores apart.** The in-memory store hands out its own objects: while a markRead
  overlaps, one and the same getConversation (`Disturbance.OverlappingReadShows`) or listConversations
  (`Disturbance.OverlappingListShows`) replies the new mark in memory and the old one over Postgres. Over Postgres a
  deletion may be overtaken (`Apart.OvertakenUnmatched`), and a listConversations may preview two moments of the log
  (`Snapshots.TornListShows`), which in memory it never does (`Snapshots.ListIsSnapshot`). `Refinement.MatchedExactly`
  says exactly when a run over Postgres keeps step with one in memory, and `Apart.ApartRunsAgree` which calls to keep
  apart for that. The in-process bus shares the object too: a message deleted between its publication and the lookup
  goes out as its tombstone, while Redis carries what was published (`Handover.LateFrameExactly`).
- **Messages tied with the oldest of a page, but outside it, are lost to backward paging,** and only those
  (`Paging.MissesExactlySqueezed`). Messages of one instant are never on two pages, so what exceeds a page is lost
  (`Paging.ExcessOfAnInstantIsLost`); for any two of them, paging one by one over either store loses the first
  (`Paging.TiedMessageIsLost`).
- **A limit below one acts as one,** because the attempt that opens a window is always admitted.
- **A deleted message does not come back from Redis as the same value:** `parseMessage` leaves `deletedAt` a string.
  The frame a client gets is the same all the same (`Bus.BusTransparency`).

## Model

| member | source | states |
|---|---|---|
| RateLimiter.ConnectionRateLimiter.Allow | src/websocket/connection-rate-limiter.ts:33-47 | verdict and new windows of an attempt: open a window, spend its budget, or refuse |
| RateLimiter.ConnectionRateLimiter.Sweep | src/websocket/connection-rate-limiter.ts:54-60 | the sweep leaves exactly the current windows, untouched |
| RateLimiter.SweepTransparency | src/websocket/connection-rate-limiter.ts:49-60 | over any run with non-decreasing times every answer equals that of the run without sweeps |
| RateLimiter.LateSweepChangesAnswer | src/websocket/connection-rate-limiter.ts:54-60 | a sweep ahead of the attempts' clock does change an answer, so the order of times is needed |
| RateLimiter.RateBound | src/websocket/connection-rate-limiter.ts:33-60 | at most (k+1)*L-1 attempts of a key are admitted in any half-open interval of k windows, sweeps anywhere |
| RateLimiter.RateBoundIsTight | src/websocket/connection-rate-limiter.ts:33-47 | for windows of at least two ticks, every k and every limit of at least one, some run with non-decreasing times reaches that bound |
| RateLimiter.RefusalJustified | src/websocket/connection-rate-limiter.ts:33-47 | a refusal at t is witnessed by L admitted attempts of the key in (t-W, t] |
| RateLimiter.SweepIsExact | src/websocket/connection-rate-limiter.ts:54-60 | after sweep(t) a key has an entry exactly when its last opened window started in (t-W, t] |
| Domain.TrimEmptyIffBlank | src/core/messaging-service.ts:103-105 | a body is refused as empty exactly when it is all white space |
| Query.FilterSort | src/adapters/in-memory/message-store.ts:37-49 | filtering commutes with the stable sort |
| Query.InMemoryIsPage | src/adapters/in-memory/message-store.ts:36-56 | the in-memory query answers the newest matching messages, oldest first, as many as the slice keeps |
| Query.PostgresIsPage | src/adapters/postgres/message-store.ts:68-104 | however ties are ordered, the SQL query answers the newest matching messages, oldest first, clamped |
| Query.PagesArePossible | src/adapters/postgres/message-store.ts:93-100 | conversely every such page is a possible answer of the SQL query |
| Query.PageUnique | src/adapters/postgres/message-store.ts:93-100 | with distinct instants the page is the end of the sorted history, and nothing else |
| Query.QueryEquivalence | src/adapters/postgres/message-store.ts:68-104 | with distinct instants both queries agree if and only if the two limits keep equally many, and always for limits 1 to 200 |
| Paging.NoRepeats | src/adapters/in-memory/message-store.ts:36-56 | a backward walk never returns a message twice, even when it is tombstoned or others are sent in between |
| Paging.OnlyHistory | src/core/messaging-service.ts:137-152 | it returns only messages of the history as of its first page |
| Paging.MissesExactlySqueezed | src/adapters/postgres/message-store.ts:72-100 | a finished walk misses exactly the messages tied with the oldest of some page but outside it |
| Paging.OneInstantOnePage | src/adapters/postgres/message-store.ts:72-100 | whatever a walk returns of one instant is on one page |
| Paging.ExcessOfAnInstantIsLost | src/adapters/postgres/message-store.ts:72-100 | of the messages of one instant a walk returns at most a page and loses the rest; a finished walk returns some |
| Paging.TiedMessageIsLost | src/adapters/postgres/message-store.ts:72-100 | two messages of one conversation and one instant, whatever they are, make a log that either store may page one by one to the end with the second returned and the first not |
| Paging.WalkReturnsHistory | src/adapters/postgres/message-store.ts:68-104 | with distinct instants a finished walk returns each message of the history exactly once |
| Paging.WalkTerminates | src/adapters/in-memory/message-store.ts:36-56 | a walk makes at most one request more than the history has messages |
| Paging.StoresAnswerPages | src/adapters/postgres/message-store.ts:93-100 | with a limit in 1 to 200 both stores answer the pages the walk is about |
| Browsing.BrowsingIsWalk | src/core/messaging-service.ts:137-152 | the replies to listings in flight in any run over either store, each asked for before the oldest of the last page, form such a walk, whatever other calls do between and during them, while the user's clear stays |
| Browsing.BrowsingSeesHistoryOnce | src/core/messaging-service.ts:137-152 | such a client sees each message visible at one moment of its first listing on exactly one page, and nothing later, when those have distinct instants |
| Browsing.VisitOf | src/core/messaging-service.ts:137-152 | each reply is a page of what its requester has not cleared, of the log as it was in some state while that listing ran |
| Listings.ListReplyIsBounded | src/core/messaging-service.ts:144-151 | whatever runs beside it and whatever options it is given, a listing replies nothing at or before a clear of its requester that was the latest at some moment while it ran |
| Listings.ListingHidesWhatWasCleared | src/core/messaging-service.ts:137-152 | if the requester's deletions of the conversation do not overlap, it replies nothing they had cleared before it began |
| Rows.RowsToConversations | src/adapters/postgres/rows.ts:51-68 | the grouping loop computes the groups of the rows in first-seen order |
| Rows.GroupingUndoesJoin | src/adapters/postgres/rows.ts:45-68 | grouping is a left inverse of joining conversations with distinct ids and participants |
| Rows.GroupingConservesRows | src/adapters/postgres/rows.ts:54-65 | joining the groups gives every row back as often as it came |
| Rows.FirstSeenDistinct | src/adapters/postgres/rows.ts:55-59 | each id is grouped once |
| Rows.GroupingAnyOrder | src/adapters/postgres/conversation-store.ts:7-11 | whatever order the join answers in, the groups are the conversations up to the order of participants |
| InMemoryStores.InMemoryConversationStore.Create | src/adapters/in-memory/conversation-store.ts:7-15 | the new conversation is added last, everything else unchanged |
| InMemoryStores.InMemoryConversationStore.FindById | src/adapters/in-memory/conversation-store.ts:17-19 | the conversation with that id, if there is one |
| InMemoryStores.InMemoryConversationStore.FindByParticipant | src/adapters/in-memory/conversation-store.ts:21-23 | exactly the user's conversations in creation order |
| InMemoryStores.InMemoryConversationStore.MarkRead | src/adapters/in-memory/conversation-store.ts:25-33 | only the first participant entry of that user in that conversation is stamped |
| InMemoryStores.InMemoryConversationStore.Clear | src/adapters/in-memory/conversation-store.ts:35-43 | the same for clearedAt |
| InMemoryStores.InMemoryMessageStore.Create | src/adapters/in-memory/message-store.ts:7-18 | the message is appended |
| InMemoryStores.InMemoryMessageStore.FindById | src/adapters/in-memory/message-store.ts:20-22 | the message with that id, if there is one |
| InMemoryStores.InMemoryMessageStore.SoftDelete | src/adapters/in-memory/message-store.ts:24-34 | an existing tombstone is left alone, a live message becomes one, an unknown id throws |
| InMemoryStores.InMemoryMessageStore.ListByConversation | src/adapters/in-memory/message-store.ts:36-56 | the successive filters compute the specified query |
| PostgresStores.PostgresConversationStore.Create | src/adapters/postgres/conversation-store.ts:16-53 | all rows or, on a duplicated participant, none; otherwise what the in-memory store does |
| PostgresStores.PostgresConversationStore.FindById | src/adapters/postgres/conversation-store.ts:55-60 | the stored conversation up to the order of participants; none if it has no participants |
| PostgresStores.PostgresConversationStore.FindByParticipant | src/adapters/postgres/conversation-store.ts:62-70 | exactly the user's conversations, each up to the order of participants, in order of creation instants |
| PostgresStores.PostgresConversationStore.MarkRead | src/adapters/postgres/conversation-store.ts:72-77 | the UPDATE means the in-memory stamp |
| PostgresStores.PostgresConversationStore.Clear | src/adapters/postgres/conversation-store.ts:79-84 | the same for cleared_at |
| PostgresStores.UpdateIsStamp | src/adapters/postgres/conversation-store.ts:72-84 | because of the primary key, updating all matching rows stamps the first participant with that user id |
| PostgresStores.KeyMeansNoDuplicates | src/adapters/postgres/schema.sql:15-20 | the primary key keeps participants of one conversation apart |
| PostgresStores.GroupsAscend | src/adapters/postgres/conversation-store.ts:62-70 | rows ordered by creation group into conversations ordered by creation |
| PostgresStores.Database.InsertParticipants | src/adapters/postgres/conversation-store.ts:32-38 | all rows are inserted, or none if a participant is named twice |
| PostgresStores.Database.SelectJoined | src/adapters/postgres/conversation-store.ts:7-11 | the rows of the join, for conversations that have participants, in any order |
| PostgresStores.Database.UpdateParticipants | src/adapters/postgres/conversation-store.ts:72-84 | every row of that user in that conversation is stamped, no other |
| PostgresStores.Database.UpdateDeleted | src/adapters/postgres/message-store.ts:54-62 | only a live row becomes a tombstone, and only then is a row returned |
| PostgresStores.Database.SelectNewest | src/adapters/postgres/message-store.ts:95-100 | the first rows of some newest-first arrangement of the matching ones |
| PostgresStores.PostgresMessageStore.Create | src/adapters/postgres/message-store.ts:26-34 | the row is appended, or refused for an unknown conversation |
| PostgresStores.PostgresMessageStore.FindById | src/adapters/postgres/message-store.ts:36-40 | the message with that id, if there is one |
| PostgresStores.PostgresMessageStore.SoftDelete | src/adapters/postgres/message-store.ts:53-66 | conditional UPDATE and fallback SELECT together do what the in-memory store does |
| PostgresStores.PostgresMessageStore.ListByConversation | src/adapters/postgres/message-store.ts:68-104 | the statement built step by step is the specified query |
| Stores.ExecKeeps | src/adapters/postgres/message-store.ts:26-66 | every operation of either store keeps its keys, every membership, and every logged message up to a first deletion |
| Messaging.MessagingService.CreateConversation | src/core/messaging-service.ts:57-63 | the method is a run of the call from the old store to the new one, and the accounts of posts and pushes stay balanced |
| Messaging.MessagingService.GetConversation | src/core/messaging-service.ts:65-67 | the same; nothing changes |
| Messaging.MessagingService.ListConversations | src/core/messaging-service.ts:80-100 | the same for the loop over previews; nothing changes |
| Messaging.MessagingService.SendMessage | src/core/messaging-service.ts:102-135 | the same, with what is handed to bus and notifier |
| Messaging.MessagingService.StoreAndAnnounce | src/core/messaging-service.ts:119-134 | the write, then one publication and one notification to everybody but the sender; nothing of it when the store throws |
| Messaging.MessagingService.Retract | src/core/messaging-service.ts:188-196 | the tombstone and its publication, without a notification |
| Messaging.MessagingService.ListMessages | src/core/messaging-service.ts:137-152 | the same; the requester's clearedAt replaces any caller-supplied after |
| Messaging.MessagingService.DeleteMessage | src/core/messaging-service.ts:168-197 | the same, with what is handed to the bus; a member's live own message is a tombstone afterwards, replied and published |
| Messaging.MessagingService.DeleteConversation | src/core/messaging-service.ts:209-212 | the same; nothing is published |
| Messaging.MessagingService.MarkRead | src/core/messaging-service.ts:214-217 | the same; nothing is published |
| Messaging.MessagingService.RequireParticipant | src/core/messaging-service.ts:219-230 | exactly a member goes on, with the stored conversation; a conversation the store cannot find and one the user is not in end the call, each with its own error and no effect |
| Outcomes.RefusedExactly | src/core/messaging-service.ts:102-113 | on either store, each refusal of a call on a conversation if and only if: blank body; no such conversation; one the requester is not in; a member's send the gate turns down |
| Outcomes.OutsiderRefused | src/core/messaging-service.ts:219-230 | whatever somebody who is no member asks for, nothing changes, nothing is handed over, and the error says which of the two it is |
| Outcomes.GetReplies | src/core/messaging-service.ts:65-67 | a member gets the stored conversation, over Postgres up to the order of participants |
| Outcomes.ListReplies | src/core/messaging-service.ts:137-152 | a member gets the newest of the messages before `before` and after their own row's clearedAt, or after `after` if they never cleared, as many as the store keeps |
| Outcomes.SendReplies | src/core/messaging-service.ts:102-135 | a member's send is one new message at the end of the log, its publication and one notification to all others, or, if the gate says no, nothing |
| Outcomes.DeleteReplies | src/core/messaging-service.ts:168-197 | what a member's deletion replies, writes and publishes for each message there may be: none, another's, a tombstone, a live one of their own |
| Outcomes.DeletionRefusedExactly | src/core/messaging-service.ts:171-184 | not found, not the author, and done, each if and only if the log says so |
| Outcomes.ClearReplies | src/core/messaging-service.ts:209-212 | the clearedAt of the requester's own row becomes the instant of the call; nothing else changes |
| Outcomes.ReadReplies | src/core/messaging-service.ts:214-217 | the same for lastReadAt and the instant given |
| Outcomes.CreateReplies | src/core/messaging-service.ts:57-63 | one new conversation with the participants named, unread and uncleared; refused by the gate, or over Postgres for a duplicate, nothing changes |
| Outcomes.ListConversationsReplies | src/core/messaging-service.ts:80-100 | on either store, ties or not: exactly the user's conversations never cleared or sent to since, each once, in order of creation, each with a newest message they have not cleared |
| Served.ServedByStanding | src/core/messaging-service.ts:65-230 | in any run over either store, a call that ended replied as its requester stood when it began: strangers refused, members served, own messages reported deleted, others' refused |
| Served.StrangersOnlyLook | src/core/messaging-service.ts:219-230 | a stranger's call never asks a store or the gate for anything but the lookup |
| Served.MissingExactly | src/core/messaging-service.ts:219-223 | as long as there is no such conversation every call on it that ends says so; once there is, none that begins does |
| Served.OwnMessageGoes | src/core/messaging-service.ts:174-189 | whatever runs beside it, a call that holds its requester's own message goes on to delete it at the clock, or replies the tombstone it holds |
| Served.ReportedMarksAreWritten | src/core/messaging-service.ts:209-217 | a markRead or deleteConversation that ended without error was executed meanwhile, on the requester's own row, with the instant given or one read in between |
| Served.ConversationsAreFounded | src/core/messaging-service.ts:57-63 | every conversation of a reachable state was made by one approved creation, with just the participants it named |
| Served.GateIsAskedAboutAll | src/core/messaging-service.ts:57-117 | the gate is asked about all participants of a new conversation, and again about all members on a send |
| Sequential.CallAccounting | src/core/messaging-service.ts:57-217 | one call alone, on either store: notifications equal stored messages, publications equal those plus first deletions, a refused call changes and emits nothing |
| Sequential.RunAccounting | src/core/messaging-service.ts:102-197 | the same totals over any sequence of calls |
| Sequential.ReadPathsAgree | src/core/messaging-service.ts:80-152 | in memory, the list shows a conversation iff the user is in it and never cleared it or has a non-empty thread, with the last element of listMessages or null |
| ReadPaths.ReadPathsAgreeInTables | src/core/messaging-service.ts:80-152 | the same over Postgres for distinct instants, strangers' conversations excluded, although the thread is cut at fifty and participants come in any order |
| Concurrency.RunInv | src/core/messaging-service.ts:57-230 | the invariant of every state reachable by any interleaving of calls over either store |
| Safety.RunAppends | src/adapters/in-memory/message-store.ts:7-34 | ids, senders, conversations, instants and order of the log never change, a message changes at most by one deletion, a tombstone never changes at all, membership never changes |
| Safety.OneTombstone | src/core/messaging-service.ts:168-197 | however deletions race, replies and publications about one message all carry one tombstone, the one in the log |
| Safety.DeletersAreTold | src/core/messaging-service.ts:168-197 | a call that reports a deletion reports its requester's own message as it stands in the log |
| Safety.OnlySendersDelete | src/core/messaging-service.ts:168-188 | a message becomes a tombstone only in a delete its sender asked for, as a member |
| Safety.NoStoreFailure | src/adapters/postgres/message-store.ts:53-66 | in every reachable state the row a deletion waits for is there, for its UPDATE and for its fallback SELECT, and at the latter it is a tombstone; the foreign key is never violated; the only store error a caller sees is a duplicated participant |
| Safety.RowStaysFound | src/adapters/postgres/message-store.ts:53-66 | whatever runs while a deletion waits for either statement, the row stays there, and a tombstone stays the same one |
| Safety.FirstDeletionIsPublished | src/core/messaging-service.ts:188-196 | every first deletion is published, once, with the logged tombstone, by the call that made it, unless that call has yet to continue |
| Safety.OnlyApprovedSends | src/core/messaging-service.ts:102-123 | a message enters the log only by a send the gate let through, of a member at that moment, with a body that is not blank |
| Safety.MessagesHaveAuthors | src/core/messaging-service.ts:102-123 | each message belongs to exactly one send, and its body is empty exactly when it is deleted |
| Safety.NotifiedEqualsSent | src/core/messaging-service.ts:119-134 | one notification per successful send, to everybody but the sender; one publication per send |
| Cleared.ClearedAtIsLatest | src/core/messaging-service.ts:209-212 | in every reachable state clearedAt is what the last executed deleteConversation wrote |
| ReadMarks.RowHoldsLatestMarks | src/adapters/postgres/conversation-store.ts:72-84 | in every reachable state a participant's row is what the last executed markRead and deleteConversation of that user wrote; nothing else touches it |
| Cleared.ListIsHistorySinceClear | src/core/messaging-service.ts:137-152 | in memory, listMessages without options is exactly the messages created after the latest clear, in send order, tombstones included |
| Cleared.NoOptionRevealsCleared | src/core/messaging-service.ts:144-151 | on either store no option a caller supplies reveals an older message |
| Cleared.HiddenStaysHidden | src/adapters/in-memory/conversation-store.ts:35-43 | when that user's clears of the conversation execute at the instant they read, what is hidden stays hidden |
| AtOnce.HiddenInMemory | src/adapters/in-memory/conversation-store.ts:35-43 | over the in-memory stores, whose operations execute when they are asked for, what is hidden stays hidden, however calls overlap |
| Overlap.ReappearsExactlyByStaleClear | src/adapters/postgres/conversation-store.ts:79-84 | after any run over either store, a hidden message is visible again in some continuation if and only if a deletion by that user waits with an instant before it |
| Overlap.HiddenWithoutOverlap | src/core/messaging-service.ts:199-212 | over either store and with any delays, what is hidden stays hidden as long as no deletion of that conversation by that user begins while another is unfinished |
| Overlap.OverlapReveals | src/core/messaging-service.ts:205-212 | in every reachable state in which two deletions wait and a message lies between their instants, executing the later and then the earlier one hides it and shows it again |
| Overlap.OvertakenClearReveals | src/core/messaging-service.ts:205-212 | such a state is reachable over Postgres |
| Agreement.TurnExactly | src/core/messaging-service.ts:65-197 | a call that ends, goes to the gate or asks for a deletion does the same with its copies as with the in-memory objects, if and only if what it uses of the copies is what is held by now |
| Dated.ClearExactly | src/adapters/postgres/conversation-store.ts:79-84 | of the clears that wait, one may execute without changing what will be held once all have, if and only if the clear of that row asked for last stays the last, or carries the same instant |
| Dated.DeletionExactly | src/adapters/postgres/message-store.ts:53-62 | of the deletions that wait, one may execute without changing that, if and only if the message is a tombstone already or the deletion of it asked for first carries the same instant |
| Refinement.StepExactly | src/core/messaging-service.ts:57-230 | two systems that keep step keep it over a step of the database, and the steps that go with it in memory, if and only if the step fits: a deletion executes in the order they were asked for, a query would be asked for the same now, a call that continues uses only what is still so |
| Refinement.PostgresRefinesInMemory | src/adapters/postgres/conversation-store.ts:16-84 | every Postgres run, however interleaved, with duplicate-free creations, explicit limits in 1 to 200 and distinct creation instants keeps step, in replies, errors, publications and notifications, with an in-memory run whose operations execute when they are asked for, up to the first step that does not fit |
| Refinement.MatchedExactly | src/adapters/in-memory/conversation-store.ts:17-43 | such a run keeps step to its end, with memory acting at the moments described above, if and only if every step fits |
| Apart.ApartRunsAgree | src/core/messaging-service.ts:80-217 | it does if no two calls that interfere are in flight together: a markRead or deleteConversation and a call that shows or is bounded by those marks, two deleteConversation calls of one user on one conversation, a deleteMessage and a send, list or deletion that may hold the message, any of these or a send and a listConversations |
| Apart.OvertakenUnmatched | src/core/messaging-service.ts:205-212 | it does not if, of two deletions of one conversation by one user that wait with different instants, the one asked for later executes first |
| Apart.ImmediateRunsAgree | src/adapters/postgres/message-store.ts:26-104 | it does if each call continues with an answer before anything else happens, each deletion executes as soon as it is asked for, and nothing is written that a listing in flight may hold or read in parts |
| Disturbance.OverlappingReadShows | src/adapters/in-memory/conversation-store.ts:17-33 | two runs with the same labels, every operation executed when it is asked for, in which one getConversation has replied differently over the two stores |
| Disturbance.OverlappingListShows | src/core/messaging-service.ts:80-100 | the same for a listConversations, whose preview is read as soon as it asks |
| Snapshots.ListIsSnapshot | src/core/messaging-service.ts:80-100 | in memory, whatever runs beside it, a listConversations previews what was last in each conversation at one and the same moment |
| Snapshots.TornListShows | src/core/messaging-service.ts:82-94 | a reachable Postgres state in which it has previewed what the log never looked like |
| Simulation.ExecSim | src/adapters/postgres/message-store.ts:26-104 | one operation: same content, same answer up to the order of participants |
| Purge.DeletingConversationsIsInvisible | src/core/messaging-service.ts:199-212 | taking all of u's deletions out of any run over either store changes no projected reply to anyone else, where the projection hides nothing but instants of clearing, nothing published and nothing notified |
| Purge.ProjectionShows | src/http/conversations-router.ts:31-36 | a client sees every participant in place, with user id and read mark |
| Purge.ProjectionHidesClearsOnly | src/http/conversations-router.ts:31-36 | two conversations look the same if and only if they differ at most in instants of clearing |
| Purge.ResponsesHideClearsOnly | src/http/conversations-router.ts:59-86 | the same for whole replies, whatever the call |
| Purge.ProjectedEqual | src/http/conversations-router.ts:31-36 | conversations that differ in when u cleared them look the same after the projection |
| Unseen.NoFrameChanges | src/websocket/websocket-server.ts:25-41 | whatever instances do beside a run, they can do beside that run without u's deletions, and every socket has the same frames |
| Router.RoutedButNotGood | src/http/conversations-router.ts:41-133 | of the calls the guards let through, the refinement leaves out exactly creations with a duplicated participant and listings without a limit or with one above 200; a routed listing never has an after |
| Router.RoutedCallsTheStoresDisagreeOn | src/http/conversations-router.ts:41-133 | for each of those calls there is a content, the same in both stores, on which the two replies differ |
| Router.CreationsRouted | src/http/conversations-router.ts:41-60 | a creation is a bad request iff the ids are no array of at most 50 strings, forbidden iff they leave out the requester, and otherwise just that call |
| Router.ListingsRouted | src/http/conversations-router.ts:108-133 | a listing is a bad request iff limit is given and no positive integer or before is no date; otherwise both reach the service as given |
| Router.FoundersAreMembers | src/http/conversations-router.ts:53-59 | in any routed run the creation that made a conversation was asked for by one of its members |
| Router.NothingLostInTheJoin | src/http/conversations-router.ts:41-57 | behind the router every conversation has 1 to 50 participants, so neither store ever loses one in its lookup |
| Bus.EventEmitter.Emit | src/adapters/in-process/message-bus.ts:26-28 | every listener is called once, in order of registration |
| Bus.EventEmitter.Off | src/adapters/in-process/message-bus.ts:30-33 | unsubscribing takes away the registration of that handler made last, if there is one |
| Bus.InProcessMessageBus.Publish | src/adapters/in-process/message-bus.ts:26-28 | every listener is handed the message itself, once |
| Bus.InProcessMessageBus.Unsubscribe | src/adapters/in-process/message-bus.ts:30-33 | exactly one registration of the handler is gone |
| Bus.RedisMessageBus.Publish | src/adapters/redis/message-bus.ts:40-42 | one PUBLISH of the JSON text; local listeners are not called |
| Bus.RedisMessageBus.Unsubscribe | src/adapters/redis/message-bus.ts:50-52 | exactly one registration is gone, and the process stays subscribed |
| Bus.RedisMessageBus.OnMessage | src/adapters/redis/message-bus.ts:44-52 | the first listener subscribes the process, later ones do not |
| Bus.RedisMessageBus.Receive | src/adapters/redis/message-bus.ts:35-38 | only messages of the channel reach the listeners, parsed |
| Bus.WireExactly | src/adapters/redis/message-bus.ts:10-12 | exactly which objects pass the wire with the same frame, and which with the same value |
| Bus.BusTransparency | src/adapters/redis/message-bus.ts:10-42 | every message passes with the same frame; with the same value exactly when it is not deleted |
| Bus.FrameShows | src/websocket/websocket-server.ts:33 | a frame holds each field of the message under its own name, once, and nothing else |
| Bus.FrameReadsBack | src/adapters/redis/message-bus.ts:10-42 | a reader by name gets the message back from its frame, over either bus |
| Bus.BusesAgree | src/adapters/in-process/message-bus.ts:26-33 | listeners that build their frames when they are handed a message send the same frames in the same order over either bus |
| Handover.LateFrameExactly | src/websocket/websocket-server.ts:30-33 | built after the lookup, from the object the in-process bus shares, the frame is that of the other bus exactly if the message was not deleted in between |
| Delivery.ConnectionRegistry.Add | src/websocket/connection-registry.ts:7-14 | the socket joins the user's set |
| Delivery.ConnectionRegistry.Remove | src/websocket/connection-registry.ts:16-24 | it leaves it, and an empty set leaves the map |
| Delivery.EventKeepsSound | src/websocket/websocket-server.ts:98-130 | every event keeps the registry equal to the open close handlers, the gauge equal to their number, and no empty set |
| Delivery.RegistryConservation | src/websocket/websocket-server.ts:98-130 | over any run the registry holds exactly the sockets opened and not yet closed, by user, and the gauge is the total of its sets |
| Delivery.OpenExactly | src/websocket/websocket-server.ts:98-130 | over any run a socket is OPEN iff it was opened and has neither left nor expired since |
| Delivery.TimersExactly | src/websocket/websocket-server.ts:112-129 | its expiry timer is set iff it was opened with a token that expires and has neither expired nor closed since |
| Delivery.ExpiringSocketsCanExpire | src/websocket/websocket-server.ts:112-122 | until it closes, such a socket can be expired or has been and is not OPEN; one whose token does not expire never is |
| Delivery.NoFrameAfterExpiry | src/websocket/websocket-server.ts:112-122 | no frame reaches a socket after its expiry timer fired |
| Delivery.ExactlyOnce | src/websocket/websocket-server.ts:25-41 | a message for duplicate-free participants reaches each of their open sockets once, and no other socket |
| Delivery.WebSocketServer.OnUpgrade | src/websocket/websocket-server.ts:66-86 | every attempt is charged before the token is looked at; who is refused, and how |
| Delivery.WebSocketServer.OnVerified | src/websocket/websocket-server.ts:88-122 | only a verified caller gets a socket, registered and counted, with a timer if the token expires |
| Delivery.WebSocketServer.OnExpiryTimer | src/websocket/websocket-server.ts:112-122 | the socket leaves OPEN; registry and gauge wait for the close event |
| Delivery.WebSocketServer.OnClose | src/websocket/websocket-server.ts:124-129 | the close event undoes exactly that |
| Delivery.WebSocketServer.DeliverToParticipants | src/websocket/websocket-server.ts:25-41 | the nested loops send each open socket one frame per listing of its user |
| FanOut.SubscribedExactly | src/adapters/redis/message-bus.ts:44-52 | an instance is subscribed iff it ever had a listener |
| FanOut.EachIsAnInstance | src/websocket/websocket-server.ts:61-139 | each of several instances runs as one alone would on its own events, so all that is proved of one holds for it |
| FanOut.HandledOnce | src/adapters/redis/message-bus.ts:33-52 | each instance subscribed at publication holds a message for lookup or has handled it, once; no other ever does |
| FanOut.SentIsOwed | src/websocket/websocket-server.ts:25-41 | at any moment a socket has exactly the frames the handlings so far owe it |
| FanOut.FramesOfTheHandling | src/websocket/websocket-server.ts:25-41 | once no lookup is outstanding, an instance subscribed at publication handled the message at one moment, and a socket has as many frames as that lookup listed its user, if it was open then; other instances send none |
| Live.LookupFindsMembers | src/websocket/websocket-server.ts:30-34 | at any time after a publication of a run, in either store, the lookup finds the conversation, with the members it had then and has for good |
| Live.FanOutExactlyOnce | src/websocket/websocket-server.ts:134-136 | once handled, a socket has exactly one frame of a post of the run if it was an open socket of a member when its instance handled it, else none, whenever the store answered the lookup |
| Live.ConnectedGetsExactlyOne | src/websocket/websocket-server.ts:25-41 | a member's socket there at publication and still open afterwards has exactly one frame, however late the lookup |

## Left out

- HTTP wiring, CORS, logging, metrics other than the connection gauge, health routes and the request limiter of Express: library wiring without state of their own.
- JWT verification, remote key sets, and the network clients for the gate and the notifier: their outcomes are inputs or logs.
- SQL text, the driver, pooling, UUID syntax and sub-millisecond timestamps; database and process clocks are one clock.
- Loss of messages between Redis and a subscriber: fan-out is proved for what a subscriber receives.
- Timers and their ranges: expiry is an event that may happen at any time. `firstRow` and `rowToMessage` appear only as the missing-row case and a renaming.
- The in-memory stores hand out their own objects. A call of `Machine` sees their present fields when it continues, in everything it still holds; what it has replied or handed to the notifier is a copy here, and so is what the class of the service returns.
- In-memory operations run when they are called. `Machine` also allows a delay there, so what is proved of all its runs holds for more than the in-memory store has; what is claimed to exist in memory, in `Refinement`, `Apart` and `Disturbance`, is a run without such a delay (`AtOnce`), in which only the gate and a call's own continuation take time.
- Refinement.PostgresRefinesInMemory: says nothing of a run after the first step that does not fit, because from there on the replies of the two stores can differ (Disturbance.OverlappingReadShows).
- Refinement.MatchedExactly: fixes the moments at which memory acts; that no other in-memory run gives the same replies either is proved only of examples (Snapshots.ListIsSnapshot against Snapshots.TornListShows, AtOnce.HiddenInMemory against Overlap.OvertakenClearReveals).
- Bus.BusesAgree: builds frames at hand-over; Handover.LateFrameExactly is about a frame built after the lookup, one message at a time.
- Live.FanOutExactlyOnce: for the in-memory store, which has no key on participants, it takes the members to be named once each; over Postgres the primary key sees to that.
- Messaging.MessagingService.ListConversations: reads the previews one after the other in list order; the original sends the queries together, which `Machine` lets execute in any order.
- Sequential.ReadPathsAgree: is about calls with nothing in between; while others run, a preview may be older than a later listing.
- Messaging.Adapters: pairs each conversation store with the message store of the same kind, as the composition root does.
- Delivery.WebSocketServer.DeliverToParticipants: visits a user's sockets in any order; a socket is an identity, and readyState and frames are recorded beside it.
- Environment parsing, schema application, deployment files: configuration.
