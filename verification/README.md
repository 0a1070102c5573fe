# Discurd, modelled and proved in Dafny

Discurd is a Discord-like chat system: a Go API and a Go gateway over ScyllaDB, Redis and NATS, and a React client.
This project models the parts of it that carry state across calls, clients and failures, and proves what they keep over
every input and every run. `dafny verify dfyconfig.toml` checks all of it.

| file | what it models |
|---|---|
| `TimeUuids.dfy`, `IdOrder.dfy` | message ids, their ten-day buckets, newest-first enumeration |
| `MessageLog.dfy` | the bucketed message table and the downward walk of `List`, against one flat log |
| `MessageEdits.dfy` | edits and deletes of a message that race |
| `ChatConversation.dfy`, `ChatRun.dfy`, `ChannelPaging.dfy`, `ChatOrder.dfy` | the client's message list of one channel: its reducers, all interleavings of sends, answers, deliveries and paging, the tie to the server's pages, and its order |
| `ChatChannels.dfy`, `ChatStore.dfy` | all channels of a client together, and the store whose methods are their steps |
| `Reactions.dfy` | reaction rows, the server's batch aggregation, the client's incremental fold, optimistic toggles |
| `UserReservations.dfy` | email and username reservation over three tables, statement by statement |
| `Presence.dfy`, `PresenceEdges.dfy` | the three Lua scripts against the history of each session, and their first/last answers over whole runs |
| `GatewaySession.dfy`, `HubLifecycle.dfy`, `GuildRouting.dfy` | one socket's output, registration and shutdown, and who receives a guild's events |
| `AuthorCache.dfy` | the TTL cache with an unlocked fetch between two locked regions |
| `RateLimiter.dfy` | the fixed-window counter with key expiry |
| `RefreshTokens.dfy` | single-use refresh tokens and the client's single-flight refresh |
| `ChannelNames.dfy` | channel-name sanitizing |

Code that changes state in place is a class or a method proved against a specification function. Concurrency is a state
machine: a datatype of states, a datatype of actions, `Enabled` and `Next`, an invariant that every step keeps, and
theorems about every run (any sequence of enabled actions, of any length).

## What the models assume

- One Scylla statement, one Redis script and one Redis command is one step. A statement that reports an error was not
  applied. Publishes to NATS may be lost, and reach a gateway in the order in which it takes them up.
- Random guild ids, user ids, refresh tokens and session ids are fresh.
- Scripts and commands that write one key see one clock that does not go back. A Redis key is gone once the clock is past
  its expiry.
- The client library's conversion of a timeuuid to a time rounds down to a millisecond (`TimeUuids.Millis`).
- A message's content does not change between the POST response and the socket's copy of it.

## What turned out

- Paging: `List` returns the first `limit` rows of the flat log for every `before` and every `limit` exactly when no row of
  the channel below `before` lies outside the buckets from the channel's creation to one past now
  (`MessageLog.PageIsFlatLogIff`). That is so whenever every row was written after the creation and by clocks at most ten
  days ahead (`TimelyPageIsFlatLog`).
- The schema and the design document define the bucket with a floor; the code truncates. They differ exactly on times
  before 1970 that are not bucket boundaries (`TimeUuids.BucketIsFloorIff`). Paging only needs buckets to be monotone in id
  order, and truncating buckets are.
- An edit and a delete that load the same message can leave a message without an author, which is then listed. That is so
  exactly when the last write to it is an edit although it had been deleted (`MessageEdits.AuthorlessIff`), and a deleted
  message can still come back exactly when an edit that loaded it is in flight (`DeletedCanReturnIff`).
- The initial load appends whatever was delivered while it ran. The guarantees of the list (unique ids, gap-free history,
  no stand-in of an answered send, deliveries listed) hold over every later run exactly when nothing delivered during the
  load is older than the fetched page (`ChannelPaging.LoadedStaysSoundIff`); otherwise paging down lists the old message a
  second time. The same holds for a delivery at any later moment (`ChannelPaging.DeliveryStaysSoundIff`).
- With deliveries in order (repeats allowed) the other users' entries are always exactly their part of the history, in
  order (`ChatOrder.OthersAreNeverDisturbed`). An answer that overtakes the stream leaves a gap exactly when its message is
  beyond the next undelivered one and its stand-in is still listed (`ChatOrder.AnswerLeavesNoGapIff`).
- The list need not be in history order, even when deliveries come in order
  (`ChatOrder.InOrderDeliveryCanBreakOrder`). An answer puts its message in the place of its stand-in; a delivery puts an
  own message in the place of the first stand-in of equal content and any other at the end. Over every run the list is
  always in order exactly when each message that is answered or delivered is already listed or fits where it goes:
  everything above is older and everything below newer (`ChatOrder.RunKeepsOrderIff`, with `AnswerKeepsOrderIff` and
  `DeliveryKeepsOrderIff` for the two steps).
- A reaction list that came from the server carries no users, so the client may not be able to tell a new reaction from a
  repeated one. From such a snapshot on, over any events, the count of an emoji is right after every event exactly when the
  client can count each of them (`Reactions.HydratedCountsIff`, with `HydratedAddIff` and `HydratedRemoveIff` for the two
  kinds of event). A removal can be lost altogether (`Reactions.SnapshotLosesRemoval`).
- Overlapping renames of one user can give two users one username (`UserReservations.OverlappingRenamesBreakUniqueness`);
  the unconditional delete is safe exactly when no row has the old name (`ReleaseIsSafeIff`).
- A comment calls a leaked reservation recoverable; in this code it is not. It stays for good (`LeakIsForever`), an email can
  become free again exactly when a registration in flight claims it (`EmailCanBeFreedIff`), a username exactly when it is
  not leaked (`NameCanBeFreedIff`), and between calls the index tables are exact exactly when no rollback or rename statement ever failed (`QuietTablesAreExactIff`).
- The design document describes presence as a counter that is incremented and decremented; the code keeps a sorted set, and
  the models follow the code. "First" and "last" are meant to say that nobody (else) was seen within 120 s. They say so
  exactly unless a session lingers: one unseen for over 120 s, in its score's last second, with the set kept alive by
  somebody's later touch (`Presence.FirstIsExactIff`, `LastIsExactIff`). The key-wide expiry drops a session that
  its own score would keep exactly when the set has lapsed, or had lapsed at an operation since
  (`Presence.ExpiryLosesMemberIff`), and then by less than a second (`ExpiryLossIsSubSecond`). A user is shown online
  exactly when some session connected or beat at most 70 s ago and no disconnect since left nobody live (`OnlineIff`).
- `Shutdown` can return while the connection gauge is 1. The gauge is sure to be 0 exactly when, as the shutdown begins, no
  session is between leaving the registry and counting itself out (`HubLifecycle.ShutdownDrainsGaugeIff`).
- An event can be queued ahead of READY, since a session is routed to as soon as it is identified: exactly when one already
  is, or READY is not queued yet and the dispatcher can still get an event in (`GatewaySession.EventCanLeadIff`).
- A join that fails between its two writes leaves half a membership for good: joining again finds the member and writes
  nothing (`GuildRouting.HalfCanBeCompletedIff`).
- An identify that reads the guild list before a join and commits after the join's GUILD_CREATE was dispatched never learns
  that guild (`GuildRouting.IdentifyCanMissGuild`, `MissedCanBeLearntIff`).
- `Invalidate` keeps an older value out of the cache, over every later run, exactly when no running call has already read
  another one (`AuthorCache.InvalidateIsCleanIff`).
- A logout ends its login for good exactly when no other token of it is live and no rotation of it is between its two
  statements (`RefreshTokens.RevokeEndsLoginIff`).
- A rotation whose second statement fails consumes the old token and signs the tab out at its next refresh, although the
  client treats that failure as transient (`RefreshTokens.FailedIssueSignsOut`).
- The comment on `SanitizeChannelName` speaks of whitespace runs; the code turns only spaces, tabs and dashes into a
  dash and drops every other white space inside the name. The model follows the code.

## Model

| member | source | states |
|---|---|---|
| TimeUuids.BucketMonotone | backend/internal/store/bucket.go:10-17 | a later id never has a lower bucket, on both sides of 1970, although the division truncates |
| TimeUuids.OrderIsStrictAndTotal | db/schema.cql:97 | ids are strictly and totally ordered: by time, then by the remaining bytes |
| TimeUuids.BucketIsFloorIff | backend/internal/store/bucket.go:10-12 | the code's bucket is the documented floor iff the time is not negative or is a bucket boundary |
| TimeUuids.BucketIsNotFloorBeforeEpoch | db/schema.cql:87 | a time for which the documented floor and the code differ |
| TimeUuids.BucketIsTenDays | backend/internal/store/bucket.go:5-17 | a bucket is ten days of Unix time counted from 1970, for every id written since then |
| TimeUuids.BucketFitsColumn | db/schema.cql:91 | the bucket of every 60-bit timestamp fits the 32-bit column |
| IdOrder.DescendingUnique | db/schema.cql:97 | any newest-first listing of a set of ids is the one the clustering order gives |
| IdOrder.DescendingUnion | db/schema.cql:97 | when all of one set is newer than all of another, their joint listing is the two listings in turn |
| MessageLog.PageIsFlatLogIff | backend/internal/store/messages.go:89-107 | for every limit the walk's page is the front of the flat log iff no row below `before` is outside the buckets the walk may visit |
| MessageLog.TimelyPageIsFlatLog | backend/internal/store/messages.go:89-107 | if every row of the channel was written after its creation and by clocks at most ten days ahead, the walk answers the first `limit` ids of the flat log, for every limit and every `before` |
| MessageLog.PageIdsAreStored | backend/internal/store/messages.go:93-143 | every listed id is a stored row of the channel below `before` |
| MessageLog.VisitsIff | backend/internal/store/messages.go:94-109 | a bucket is queried iff it lies between the channel's creation and `before` (or one past now) and fewer than `limit` rows below `before` are in the buckets above it |
| MessageLog.BucketBelow | backend/internal/store/messages.go:109-124 | going one bucket down appends that bucket's ids after everything above |
| MessageLog.NothingBelowBeforeIsSkipped | backend/internal/store/messages.go:100-106 | starting in the bucket of `before` skips no id below `before` |
| MessageLog.FilterOnlyMattersInFirstBucket | backend/internal/store/messages.go:112-123 | dropping the filter on `before` below the first bucket changes nothing |
| MessageLog.WalkStep | backend/internal/store/messages.go:109-141 | one partition query with the remaining limit extends the page by exactly the next ids |
| MessageLog.WalkMayStop | backend/internal/store/messages.go:109 | once the limit is filled the buckets further down add nothing |
| MessageLog.WalkEnds | backend/internal/store/messages.go:109 | when the loop ends, for either reason, the whole page was collected and no lower bucket was due |
| MessageLog.NothingIsLeftOut | backend/internal/store/messages.go:93-143 | a row below `before` that such a listing lacks is older than all it holds, and then the limit is filled |
| MessageLog.NewestIsListedFirst | backend/internal/store/messages.go:38-44 | read your write: a message written between the channel's creation and ten days from now, under an id newer than the channel's others, heads the next listing, ahead of exactly what was listed before |
| MessageLog.Messages.Post | backend/internal/httpapi/message_handlers.go:256-265 | the stored row is in the bucket of its fresh id, so the table stays well bucketed |
| MessageLog.Messages.Get | backend/internal/store/messages.go:47-70 | finds the message in the bucket of its id, and answers not-found iff no row is there |
| MessageLog.Messages.UpdateContent | backend/internal/store/messages.go:73-79 | sets content and edit time and nothing else; on a missing row it creates one without an author |
| MessageLog.Messages.Delete | backend/internal/store/messages.go:82-87 | removes exactly the named row |
| MessageEdits.AuthorlessIff | backend/internal/httpapi/message_handlers.go:300-375 | over every interleaving of posts, edits and deletes, a message is stored without author iff its last write is an edit and it had been deleted |
| MessageEdits.EditRacesDelete | backend/internal/httpapi/message_handlers.go:300-327 | an interleaving in which that happens |
| MessageEdits.DeletedCanReturnIff | backend/internal/store/messages.go:72-79 | a deleted message can come back, without its author, iff an edit that loaded it is still to be written |
| MessageEdits.OnlyAuthorsEdit | backend/internal/httpapi/message_handlers.go:309-358 | over every run, races included, an edit about to be written is the poster's, a delete the poster's or the guild owner's, and a shown author is the poster |
| MessageEdits.WriteBackIsLocal | backend/internal/store/messages.go:72-87 | an edit replaces text and edit time of its message and nothing else, a delete removes its message, neither touches another |
| MessageLog.Messages.AppendRows | backend/internal/store/messages.go:126-137 | the scan loop appends the found rows in order, each with its own columns |
| MessageLog.Messages.List | backend/internal/store/messages.go:93-143 | lists stored rows of the channel with their columns, below `before`, newest first, at most `limit`; on rows written in time any other such row is older than all of them and the limit is filled; it fails iff the query of a bucket that it has to visit fails |
| ChatConversation.BufferHolds | web/src/store/chatStore.js:424-438 | while the first page loads, the buffer holds each delivered creation once |
| ChatConversation.UnseenHolds | web/src/store/chatStore.js:124-127 | the merge keeps exactly the buffered creations that the page lacks |
| ChatConversation.LoadLosesNothing | web/src/store/chatStore.js:109-132 | the loaded list has unique ids, starts with the page oldest first, and holds every creation delivered since the load began |
| ChatConversation.CreationIsPlaced | web/src/store/chatStore.js:439-456 | a creation replaces a known message where it is; an own one takes the place of its first stand-in that has not failed; any other goes to the end |
| ChatConversation.AnswerIsPlaced | web/src/store/chatStore.js:208-215 | the answer to a send takes the place of its stand-in, which just goes if the message is listed already; nothing else moves |
| ChatConversation.RejectionIsFlagged | web/src/store/chatStore.js:195-201 | a rejected send flags its stand-in where it is and changes nothing else |
| ChatRun.EchoKeepsInv | web/src/store/chatStore.js:439-458 | a delivered creation only touches the part of the list after the fetched pages, and keeps ids unique |
| ChatRun.RespondKeepsInv | web/src/store/chatStore.js:208-215 | a POST response removes its stand-in and keeps the invariant, whether or not the socket was faster |
| ChatRun.PageKeepsInv | web/src/store/chatStore.js:150-157 | a page prepended below the list extends the unbroken stretch of history, whatever was appended meanwhile |
| ChatRun.StepKeepsInv | web/src/store/chatStore.js:143-215 | every action of the channel keeps the invariant |
| ChatRun.RunKeepsInv | web/src/store/chatStore.js:143-215 | so does every run |
| ChatRun.SendsConverge | web/src/store/chatStore.js:186-215 | ids are unique, an answered send has no stand-in left, and every delivered message is listed, for any interleaving and any equal contents |
| ChatRun.QuietListIsHistory | web/src/store/chatStore.js:424-458 | once every send is answered and everything delivered, the list holds each message of the history once and nothing else |
| ChatRun.PagedHistoryIsContiguous | web/src/store/chatStore.js:143-162 | the list starts with a gap-free ordered stretch of the history; `hasMore` is false only when that stretch starts at the first message; the next page is asked below its first message, iff there may be more and no page is on its way |
| ChatRun.ShortPageEndsPaging | web/src/store/chatStore.js:150-157 | an arriving page puts the 50 messages before the list in front of it, or all there are; more is offered iff it was full |
| ChannelPaging.PostExtendsHistory | backend/internal/httpapi/message_handlers.go:256-265 | posting a newer message, by a clock at most ten days ahead, extends the stored history by it |
| ChannelPaging.ServerPageIsPageBelow | backend/internal/store/messages.go:93-143 | the server's page of 50 over the buckets is the newest page of the history below `before` that the client machine pages on |
| ChannelPaging.LoadedItems | web/src/store/chatStore.js:118-131 | a load leaves the page of 50 and then exactly the delivered messages that the page lacks, and offers more iff the page was full |
| ChannelPaging.PagingListsItTwice | web/src/store/chatStore.js:143-157 | a message listed behind pages that are newer than it is listed twice once paging reaches it |
| ChannelPaging.LoadedStaysSoundIff | web/src/store/chatStore.js:109-132 | after a load the guarantees hold over every run iff no creation delivered during the load is older than the page |
| ChannelPaging.DeliveryStaysSoundIff | web/src/store/chatStore.js:442-458 | after a delivery at any later moment they hold over every run iff the message is not older than everything fetched |
| ChannelPaging.EveryRunStaysSound | web/src/store/chatStore.js:109-215 | from such a load on, every run keeps ids unique, history gap-free, answered sends without stand-ins, deliveries listed |
| ChatOrder.LoadedIsInOrder | web/src/store/chatStore.js:118-131 | a load whose deliveries come in order, repeats included, leaves the history from the page on, up to where page or stream got |
| ChatOrder.LoadedListIsSuffix | web/src/store/chatStore.js:109-162 | from the load on, without own sends, every run of in-order deliveries and paging shows exactly the history from the oldest fetched message to the last delivered one |
| ChatOrder.OthersAreNeverDisturbed | web/src/store/chatStore.js:109-215 | own sends and their races included, the other users' entries are exactly their part of that stretch, in order, no gap, no repeat |
| ChatOrder.SuffixIsUnbroken | web/src/store/chatStore.js:143-162 | such a list has no gap |
| ChatOrder.AnswerLeavesNoGapIff | web/src/store/chatStore.js:208-215 | an answer keeps a gap-free list gap-free iff its message is not beyond the next undelivered one or its stand-in is gone |
| ChatOrder.DeliveryLeavesNoGapIff | web/src/store/chatStore.js:442-458 | a delivery keeps it gap-free iff it skips no message |
| ChatOrder.AnswerKeepsOrderIff | web/src/store/chatStore.js:208-215 | answering a send keeps history order iff the message is already listed or fits between what is above and below its stand-in |
| ChatOrder.DeliveryKeepsOrderIff | web/src/store/chatStore.js:442-458 | delivering a message keeps history order iff it is already listed or fits at the first stand-in of equal content (own) or at the end |
| ChatOrder.StepKeepsOrderIff | web/src/store/chatStore.js:143-215 | any step keeps history order iff its message fits; sends, failures and pages always do |
| ChatOrder.RunKeepsOrderIff | web/src/store/chatStore.js:424-458 | over every run the list is always in history order iff each answered or delivered message fits where it goes |
| ChatOrder.AnswerCanGetAhead | web/src/store/chatStore.js:186-215 | a loaded channel can reach a state in which an own message is listed ahead of an undelivered older one |
| ChatOrder.InOrderDeliveryCanBreakOrder | web/src/store/chatStore.js:446-458 | delivering that older one, in stream order, breaks the order |
| ChatChannels.ChannelsAreIndependent | web/src/store/chatStore.js:21-25 | over any interleaving on any channels each open channel evolves as a run of its own actions alone |
| ChatChannels.TempIdsAreUnique | web/src/store/chatStore.js:166-168 | no two sends, on whatever channels, ever share a temporary id |
| ChatChannels.EveryChannelIsSound | web/src/store/chatStore.js:109-215 | with loads and traffic of all channels interleaved, every open channel keeps the guarantees if the loads were clean |
| ChatStore.Store.BeginLoad | web/src/store/chatStore.js:109-117 | a load starts iff the client the store shows neither has the channel nor is loading it, and is then that client's step; otherwise nothing changes, so what was buffered stays |
| ChatChannels.MayLoadIff | web/src/store/chatStore.js:110-111 | the two flags that `loadMessages` looks at say exactly whether the channel is loading or open |
| ChatStore.Store.FinishInitialLoad | web/src/store/chatStore.js:118-131 | the loop over the buffer computes the merge of page and buffer, and is the step that opens the channel |
| ChatStore.Store.FailInitialLoad | web/src/store/chatStore.js:133-139 | simulates a failed load of the client: that channel is forgotten, every other goes on |
| ChatStore.Store.BeginOlder | web/src/store/chatStore.js:143-148 | pages below the oldest message fetched, iff the channel is open, there may be more and no page is on its way; simulates the ask of its channel |
| ChatStore.Store.FinishOlder | web/src/store/chatStore.js:150-157 | simulates the arrival of the page its channel waits for, and no other channel changes |
| ChatStore.Store.FailOlder | web/src/store/chatStore.js:158-161 | simulates a failed page of its channel, and no other channel changes |
| ChatStore.Store.BeginSend | web/src/store/chatStore.js:166-185 | appends a stand-in under a temporary id free on every channel; simulates the send of its channel |
| ChatStore.Store.ResolveOptimistic | web/src/store/chatStore.js:208-215 | simulates the answer to the channel's own send, and no other channel changes |
| ChatStore.Store.FailSend | web/src/store/chatStore.js:195-203 | simulates the rejection of the channel's own send, and no other channel changes |
| ChatStore.Store.ApplyMessageCreate | web/src/store/chatStore.js:424-468 | simulates a delivery: on an open channel it is listed, on a loading one buffered, and no other channel changes |
| Reactions.AggregateReactions | backend/internal/httpapi/message_handlers.go:99-115 | the aggregation loop computes one entry per emoji in first-seen order, with its row count and the requester's flag |
| Reactions.BatchStep | backend/internal/httpapi/message_handlers.go:102-113 | one more row bumps its emoji's entry, or opens one |
| Reactions.AggregationIsSummary | backend/internal/httpapi/message_handlers.go:97-115 | whatever order the scan uses, the answer maps each emoji to its number of distinct users and the requester's flag |
| Reactions.ReactionTable.Add | backend/internal/store/reactions.go:28-34 | idempotent insert of the row |
| Reactions.ReactionTable.Remove | backend/internal/store/reactions.go:38-43 | delete that is a no-op on a missing row |
| Reactions.ReactionTable.ForMessage | backend/internal/store/reactions.go:47-58 | the scan returns every stored row once |
| Reactions.AddKeepsAgreement | web/src/store/chatStore.js:280-305 | an add event, repeated or not, keeps emojis unique, count = number of distinct users >= 1, and the own flag |
| Reactions.RemoveKeepsAgreement | web/src/store/chatStore.js:307-334 | so does a remove event, spurious ones included; an entry without users disappears |
| Reactions.FoldAgrees | web/src/store/chatStore.js:280-334 | after any events the client's list agrees with the row set |
| Reactions.EventKeepsPlaces | web/src/store/chatStore.js:280-334 | entries keep their places: a new emoji goes to the end, one whose last user leaves closes up, other emojis stay as they are |
| Reactions.ClientMatchesServer | backend/internal/httpapi/message_handlers.go:410-460 | after any operations the client's emoji-to-(count, me) map is the server's aggregation of the rows |
| Reactions.RevertUndoesToggle | web/src/store/chatStore.js:257-278 | reverting a failed toggle restores the agreement, whatever other users did meanwhile |
| Reactions.EchoOfToggleIsAbsorbed | web/src/store/chatStore.js:254-256 | the echo of a toggle already applied is not counted twice |
| Reactions.AnswerIsHydrated | backend/internal/httpapi/message_handlers.go:97-115 | what the client takes over from the server's answer is a list with right counts and flags and no users |
| Reactions.HydratedAddIff | web/src/store/chatStore.js:292-300 | while only some users are known by name, an add is counted right iff it is the reader's own, new, or of a known user; the emoji then stays so |
| Reactions.HydratedRemoveIff | web/src/store/chatStore.js:317-331 | and a removal iff it is the reader's own, of a known user, of one who is there while nobody is known, or of one who is not there while somebody is |
| Reactions.HydratedCountsIff | web/src/store/chatStore.js:280-334 | from a snapshot on, over any events, an emoji's count is right after each event iff the client can count each event on it |
| Reactions.SnapshotLosesRemoval | web/src/store/chatStore.js:320-321 | two real events after which the count is wrong: a removal is taken for a repeat |
| UserReservations.OthersUnmoved | backend/internal/store/users.go:60-100 | a statement never takes away what another user holds |
| UserReservations.OwnStepOk | backend/internal/store/users.go:60-100 | each statement leaves its own call consistent with the tables, failed or not |
| UserReservations.StepKeepsInv | backend/internal/store/users.go:150-167 | every step of every interleaving keeps every row's email and username held by its user |
| UserReservations.RunKeepsInv | backend/internal/store/users.go:60-167 | so does every run |
| UserReservations.IdentitiesAreUnique | backend/internal/store/users.go:58-60 | no two user rows ever share an email or a username, with any statement failing |
| UserReservations.LoginIsExact | backend/internal/store/users.go:116-127 | lookup by email answers an account iff that account's row carries the address, at every moment |
| UserReservations.QuietTablesAreExactIff | backend/internal/store/users.go:76-97 | between calls the index tables are exactly the inverse of the user table iff no rollback or rename statement ever failed |
| UserReservations.LeakIsForever | backend/internal/store/users.go:91-97 | a reservation that no row and no running call accounts for stays over every run |
| UserReservations.EmailCanBeFreedIff | backend/internal/store/users.go:76-97 | a reserved email can become free again iff a registration in flight claims it |
| UserReservations.NameCanBeFreedIff | backend/internal/store/users.go:150-167 | a reserved username can become free again iff it is not leaked |
| UserReservations.StatementAccounts | backend/internal/store/users.go:76-97 | a statement leaves no reservation that neither a row nor the call accounts for |
| UserReservations.ReleaseIsSafeIff | backend/internal/store/users.go:165-166 | deleting the old name is safe iff no row has it, the renaming user's own included |
| UserReservations.OverlappingRenamesBreakUniqueness | backend/internal/httpapi/user_handlers.go:65-76 | two overlapping renames of one user let two others share a username |
| UserReservations.Users.Create | backend/internal/store/users.go:60-100 | for every pattern of failures: answers Success iff the fresh user's row is there with this name and email, that is iff both were free and no statement failed; Conflict iff the email, or then the name, was reserved and the statement that found it did not fail; otherwise Unavailable, and no row changes |
| UserReservations.CreateCompletes | backend/internal/store/users.go:60-100 | what a registration leaves in the three tables, and answers, for each statement that fails; an undisturbed rollback leaves them as they were |
| UserReservations.RegistrationAnswersTruly | backend/internal/store/users.go:58-100 | over every run and every failure an answered registration has its row iff the answer was Success, under its email, and under its name until a rename begins; Conflict only if the email or the name was reserved when it came to it |
| UserReservations.Users.UpdateUsername | backend/internal/store/users.go:150-167 | for every pattern of failures: Success means that the row carries the new name, which is reserved, and the old one is free; Conflict iff the new name was reserved and the first statement did not fail, and then nothing changes |
| UserReservations.RenameAnswersTruly | backend/internal/store/users.go:149-167 | over every run, until the user's next rename: after Success the row carries the new name and the old one is given up; after Conflict it carries the old one, and the new one was reserved |
| UserReservations.Users.LookUpByEmail | backend/internal/store/users.go:116-127 | answers the row that the index entry leads to, and not-found iff either is missing |
| Presence.Tracker.Connect | backend/internal/presence/presence.go:41-49 | prunes, adds the session and refreshes both keys; first iff no session was live |
| Presence.Tracker.Heartbeat | backend/internal/presence/presence.go:52-59 | prunes, refreshes the session and both keys |
| Presence.Tracker.Disconnect | backend/internal/presence/presence.go:65-76 | removes the session; last iff no other is live, and then both keys are gone; an unknown session is harmless |
| Presence.Tracker.Statuses | backend/internal/presence/presence.go:126-147 | online iff the presence key stands, for each user asked for; `OnlineIff` says when that is |
| Presence.ReplayTracks | backend/internal/presence/presence.go:41-76 | after any operations the keys track the history of when each session was last seen |
| Presence.LiveRefinesHistory | backend/internal/presence/presence.go:5-11 | a session seen within 120 s is live; one unseen for 121 s, or gone, is not |
| Presence.LiveIsExactOnWholeSeconds | backend/internal/presence/presence.go:86-88 | on whole seconds live is exactly "seen within 120 s and not gone" |
| Presence.LiveIsExactly | backend/internal/presence/presence.go:41-76 | a session is live iff it was seen within the score window, no lapse has swept it away, and the set still stands: a function of the history alone |
| Presence.FirstIsExactIff | backend/internal/presence/presence.go:90-101 | "first" iff nobody was seen within 120 s and nobody lingers |
| Presence.LastIsExactIff | backend/internal/presence/presence.go:111-122 | the same for "last" and everybody else |
| Presence.FirstIsExactAfterTouch | backend/internal/presence/presence.go:90-101 | after a connect or heartbeat "first" is exact to the millisecond |
| Presence.FirstIsLateAfterLeave | backend/internal/presence/presence.go:65-76 | an instance: after a disconnect a session unseen for 120.4 s still counts |
| Presence.LastIsLateAfterTouch | backend/internal/presence/presence.go:65-76 | an instance for "last", right after a connect |
| Presence.ExpiryLosesMemberIff | backend/internal/presence/presence.go:46 | against the same scripts without key expiry: a member is lost iff it is in its score window while the set has lapsed, now or at an operation since it was seen |
| Presence.ExpiryLossIsSubSecond | backend/internal/presence/presence.go:46 | a lost member was last seen more than 120 s and less than 121 s ago |
| Presence.ExpiryLossHappens | backend/internal/presence/presence.go:46 | a concrete case |
| Presence.OnlineMeansSessions | backend/internal/presence/presence.go:47 | the presence key stands only over a non-empty session set |
| Presence.OnlineIff | backend/internal/presence/presence.go:41-76 | after any operations a user is shown online iff some session connected or beat at most 70 s ago and no disconnect since left nobody live |
| Presence.SeenMeansOnline | backend/internal/presence/presence.go:22-23 | a user is shown online for 70 s after any of its sessions was seen, whatever its others do |
| PresenceEdges.LiveIsActive | backend/internal/ws/session.go:275-309 | with the 90 s read deadline the scripts count exactly the identified sessions that have not cleaned up |
| PresenceEdges.StepKeepsInv | backend/internal/ws/session.go:256-261 | every connect, heartbeat and cleanup keeps the alternation |
| PresenceEdges.EdgesAlternate | backend/internal/ws/session.go:290-309 | the scripts' answers alternate first, last, ...; the latest is first iff some identified session has not cleaned up |
| PresenceEdges.SilenceIsBounded | backend/internal/ws/session.go:26-34 | how long a session may be silent: 100 s from its identify, 90 s after a heartbeat, 10 s more until its cleanup has run |
| PresenceEdges.SilentSessionBreaksAlternation | backend/internal/ws/session.go:29-30 | without the deadline they need not |
| AuthorCache.LookupSplits | backend/internal/store/usercache.go:42-55 | hits and misses split the requested ids, and the batch has no repeats |
| AuthorCache.UserCache.Lookup | backend/internal/store/usercache.go:42-55 | the first locked region: every live entry is a hit with its record, every other requested id is in the batch once |
| AuthorCache.UserCache.Fill | backend/internal/store/usercache.go:64-71 | the second: fetched records expire one ttl after the call's start |
| AuthorCache.UserCache.GetByIDs | backend/internal/store/usercache.go:37-72 | a whole call: live entries from the cache, the rest from the table and then held for one ttl, unknown ids absent; an error iff some id is not live and the table cannot be read |
| AuthorCache.InvalidatedIsFetched | backend/internal/store/usercache.go:75-79 | after an invalidation the next request for the id reads the table, and no other hit is lost |
| AuthorCache.StepKeepsInv | backend/internal/store/usercache.go:37-79 | every interleaved step keeps every held record recent |
| AuthorCache.ResultsAreRecent | backend/internal/store/usercache.go:37-72 | every returned record was asked for and was the store's value later than the call's start minus the ttl |
| AuthorCache.ResultsAreComplete | backend/internal/store/usercache.go:37-72 | a requested id that an answer lacks was missing in the table at some moment since the call began, over every interleaving |
| AuthorCache.InvalidateIsCleanIff | backend/internal/store/usercache.go:74-79 | over every run after an invalidation nothing older is held iff no running call has read another value |
| AuthorCache.FetchCanFinish | backend/internal/store/usercache.go:60-71 | a call in flight can store what it has read, and does not read it again |
| AuthorCache.NeverOlderAfterClean | backend/internal/store/usercache.go:74-79 | once nothing older is held or being fetched, nothing older is ever held |
| AuthorCache.RacingFetchOutlivesInvalidate | backend/internal/store/usercache.go:60-70 | otherwise the racing fetch's value is served for up to a ttl |
| RateLimiter.Limiter.Allow | backend/internal/ratelimit/ratelimit.go:24-35 | one undisturbed call: allowed iff the counter after its increment is within the limit, and the counter then stands for one window length; open on a Redis error |
| RateLimiter.CounterIsHits | backend/internal/ratelimit/ratelimit.go:25-30 | inside its own window the key never expires: it counts the hits of the window |
| RateLimiter.WindowAdmitsExactlyLimit | backend/internal/ratelimit/ratelimit.go:24-35 | of the calls in every aligned stretch of `secs` seconds min(calls, limit) pass, however the two commands interleave |
| RateLimiter.AnyIntervalAdmitsAtMostTwice | backend/internal/ratelimit/ratelimit.go:24-35 | any stretch of one window length admits at most twice the limit |
| RefreshTokens.RefreshStore.Issue | backend/internal/auth/refresh.go:30-40 | stores the fresh token, or nothing |
| RefreshTokens.RefreshStore.Rotate | backend/internal/auth/refresh.go:43-53 | consumes the old token and issues a new one for its user; each of the four outcomes with its tables |
| RefreshTokens.RevokeEndsLoginIff | backend/internal/auth/refresh.go:55-58 | a logout ends its login over every run iff no other token of it is live and no rotation of it is between its statements |
| RefreshTokens.StepKeepsInv | backend/internal/auth/refresh.go:30-58 | logins, consumes, issues, revokes and expiries keep one live token or one running rotation per login |
| RefreshTokens.OneLiveTokenPerLogin | backend/internal/auth/refresh.go:43-53 | at most one live token per login, for the user who logged in |
| RefreshTokens.ConsumedStaysDead | backend/internal/auth/refresh.go:44-47 | a consumed token is never accepted again |
| RefreshTokens.Client.RefreshSession | web/src/lib/api.js:18-29 | a refresh is sent iff none is in flight and a token is held; simulates the tab that needs a refresh |
| RefreshTokens.Client.RefreshDone | web/src/lib/api.js:35-48 | only 401 and 403 end the session; simulates the tab whose answer arrives |
| RefreshTokens.Client.RefreshThrows | web/src/lib/api.js:20-22 | a lost request or response keeps the session and lets the next refresh start |
| RefreshTokens.TabStepIsServerStep | web/src/lib/api.js:27-49 | every step of a tab is one server step on one of its logins, or none |
| RefreshTokens.ForeignStepLeavesTab | backend/internal/auth/refresh.go:30-58 | server steps on other logins never disturb the tab |
| RefreshTokens.RefusedIffSuccessorLost | web/src/lib/api.js:16-49 | the next refresh is refused iff a consumed token's successor was lost since the last login |
| RefreshTokens.SingleFlightNeverPresentsDeadToken | web/src/lib/api.js:14-25 | with nothing lost, any number of concurrent 401s never presents a dead token |
| RefreshTokens.FailedIssueSignsOut | backend/internal/auth/refresh.go:51-52 | a failed second statement signs the tab out at its next refresh |
| ChannelNames.SanitizeChannelName | backend/internal/httpapi/validate.go:64-89 | the builder loop computes the words of the trimmed, lower-cased input joined by single dashes |
| ChannelNames.SeparatorSplits | backend/internal/httpapi/validate.go:77-82 | a space, a tab or a dash separates words |
| ChannelNames.OthersAreDropped | backend/internal/httpapi/validate.go:73-83 | any character but these and [a-z0-9_] is as if it were not there |
| ChannelNames.RunIsOneWord | backend/internal/httpapi/validate.go:74-76 | characters of [a-z0-9_] in a row are one word |
| ChannelNames.JoinedWords | backend/internal/httpapi/validate.go:77-84 | between each two words is one dash, in front and behind none |
| ChannelNames.TrimmedIs | backend/internal/httpapi/validate.go:65 | trimming takes the white space off both ends, all of it, and nothing else |
| ChannelNames.NamesAreNormal | backend/internal/httpapi/validate.go:61-63 | every accepted name is 1 to 100 characters of [a-z0-9_-] without leading, trailing or doubled dash |
| ChannelNames.RefusedIff | backend/internal/httpapi/validate.go:64-68 | refused iff the trimmed input has a bad length or no word character |
| ChannelNames.FixedPointIff | backend/internal/httpapi/validate.go:64-89 | a string is unchanged iff it is in normal form |
| ChannelNames.SanitizingIsIdempotent | backend/internal/httpapi/validate.go:64-89 | sanitizing twice is sanitizing once |
| ChannelNames.DashIsDueIff | backend/internal/httpapi/validate.go:78-82 | the loop writes a dash exactly when a word was just read, across dropped characters |
| GatewaySession.Session.CloseOnce | backend/internal/ws/session.go:151-157 | only the first close sets the code |
| GatewaySession.Session.SendFrame | backend/internal/ws/session.go:117-130 | enqueues iff open and below 256 frames; otherwise the session is closed afterwards, with 1008 if the full queue closed it, and the queue is as before |
| GatewaySession.Session.BecomeIdentified | backend/internal/ws/session.go:240-247 | the locked part of identify replaces user and guild set |
| GatewaySession.Session.HandleIdentify | backend/internal/ws/session.go:205-273 | identified, connected and READY iff token, account and memberships are good; otherwise closed, with 4001 for a bad token or an unknown user and 1011 for a failed lookup; a second identify is ignored |
| GatewaySession.Session.HandleHeartbeat | backend/internal/ws/session.go:275-288 | always acknowledged; reaches presence iff identified |
| GatewaySession.Session.AddGuild | backend/internal/ws/session.go:342-348 | adds to an identified session's set only |
| GatewaySession.Hub.Register | backend/internal/ws/hub.go:58-66 | registers iff the hub is not closing |
| GuildRouting.LeavingEndsDelivery | backend/internal/ws/hub.go:68-72 | a session out of the registry is offered nothing more, but possibly the one event it was already chosen for |
| GatewaySession.Hub.DispatchToGuild | backend/internal/ws/hub.go:100-119 | exactly the registered sessions in the guild are sent the frame; nothing else changes |
| GatewaySession.Hub.DispatchToUser | backend/internal/ws/hub.go:121-149 | exactly the user's sessions are sent the frame, after a GUILD_CREATE's guild was added to their sets |
| GatewaySession.Hub.DropAllSessions | backend/internal/ws/hub.go:175-185 | every registered session is closed; later ones are still accepted |
| GatewaySession.StepOnlyAppends | backend/internal/ws/session.go:117-157 | frames are only appended, and the first close code stays |
| GatewaySession.StepKeepsInv | backend/internal/ws/session.go:99-157 | every step of reader, writer, dispatcher and closer keeps the output in order |
| GatewaySession.OutputIsOrdered | backend/internal/ws/session.go:99-148 | at most 256 frames wait, the written frames are a prefix of the accepted ones, hello is first, READY comes at most once, no event precedes identification |
| GatewaySession.EventCanLeadIff | backend/internal/ws/session.go:240-270 | an identified session gets an event ahead of READY in some continuation iff one is already ahead, or READY is not queued and an event can still be |
| GatewaySession.NothingAcceptedIsLost | backend/internal/ws/session.go:117-148 | accepted = written, in hand, waiting, in that order |
| GatewaySession.WriterStopsForGood | backend/internal/ws/session.go:132-148 | nothing is written after a failed write or after the close frame, over every run |
| GatewaySession.RefusedOnlyWithClose | backend/internal/ws/session.go:117-130 | a frame is refused only by a closed session or together with its close with 1008 |
| GatewaySession.OpenSessionMissesNothing | backend/internal/ws/session.go:117-130 | while a session is open the accepted frames are exactly those whose enqueueing was tried, in order; its events exactly those dispatched to it, its other frames exactly those its own thread started to send |
| HubLifecycle.StepKeepsInv | backend/internal/ws/session.go:83-102 | every step of accepting, serving, cleaning up and shutting down keeps the lifecycle invariant |
| HubLifecycle.StepIsSafe | backend/internal/ws/hub.go:58-72 | nothing registers once the hub is closing, and a session's first close code stays: 1000 when its read loop ends, 1001 when the shutdown gets to it |
| HubLifecycle.LifecycleIsSafe | backend/internal/ws/session.go:290-309 | both channels of every session are closed at most once, and the gauge is the number of sessions between counting in and out |
| HubLifecycle.ShutdownDrains | backend/internal/ws/hub.go:188-207 | at the return the registry is empty and every session found has finished; what the gauge then counts |
| HubLifecycle.ShutdownDrainsGaugeIff | backend/internal/ws/hub.go:188-207 | the gauge is sure to be 0 at the return iff no session is between unregister and the decrement when the shutdown begins |
| HubLifecycle.SessionCanLeaveFirst | backend/internal/ws/session.go:290-293 | a session can have left the registry while it is still counted |
| HubLifecycle.ShutdownMayReturnBeforeGaugeDrops | backend/internal/ws/hub.go:188-207 | a shutdown that begins then returns with the gauge at 1 |
| HubLifecycle.SessionCanFinish | backend/internal/ws/session.go:132-148 | every session a shutdown waits for can be brought to its end, moving no other |
| HubLifecycle.ShutdownCanFinish | backend/internal/ws/hub.go:197-206 | a shutdown is never stuck |
| GuildRouting.Guilds.AddMember | backend/internal/store/guilds.go:70-81 | two writes; a failure of the second leaves the first |
| GuildRouting.Guilds.Join | backend/internal/httpapi/guild_handlers.go:288-302 | whoever is found a member is answered and nothing is written, however incomplete the membership |
| GuildRouting.JoinStores | backend/internal/httpapi/guild_handlers.go:288-308 | a join whose statements go well stores both rows, and then its member event is due |
| GuildRouting.JoinPublishes | backend/internal/httpapi/guild_handlers.go:324-334 | it publishes the member event to the guild and then GUILD_CREATE to the user; a publish that fails stops nothing |
| GuildRouting.FailureEndsRequest | backend/internal/httpapi/guild_handlers.go:298-308 | a statement that fails ends its request; what was written stays and nothing is published |
| GuildRouting.CreateStoresAndPublishes | backend/internal/httpapi/guild_handlers.go:55-81 | creating a guild stores both rows and tells only its owner |
| GuildRouting.JoinAnnouncesMember | backend/internal/httpapi/guild_handlers.go:324-334 | over every run no join comes to its GUILD_CREATE without having come to its member event |
| GuildRouting.Guilds.UserGuildIDs | backend/internal/store/guilds.go:110-120 | lists every guild of the second table, once |
| GuildRouting.StepKeepsInv | backend/internal/httpapi/guild_handlers.go:298-334 | every write, publish, loss, identify and dispatch step keeps the routing invariant |
| GuildRouting.RoutingIsSafe | backend/internal/ws/hub.go:100-149 | `user_guilds` is within `guild_members`, a GUILD_CREATE in flight means stored membership, a guild's frames are only offered to its members |
| GuildRouting.GuildSetsGrowWithinMembership | backend/internal/ws/session.go:240-247 | an identified session keeps its user, and its guild set only grows and stays within the stored memberships |
| GuildRouting.KnowsGuildIff | backend/internal/ws/session.go:328-348 | a session knows a guild iff READY listed it or its GUILD_CREATE was delivered |
| GuildRouting.ReadyIsWhatWasStored | backend/internal/ws/session.go:233-270 | READY lists exactly the guilds stored for the user when the identify read them, whatever happens before the commit |
| GuildRouting.StepOffersWhatItTakes | backend/internal/ws/hub.go:100-119 | one step offers or owes a session exactly what the dispatcher took up of its guild |
| GuildRouting.EveryLaterEventIsOffered | backend/internal/ws/hub.go:100-149 | a registered session that knows a guild is offered every later event of it, each once, in order |
| GuildRouting.PublishedIsDispatched | backend/internal/ws/hub.go:100-149 | as long as the bus loses nothing, every published event is taken up once, in order, or is still on the bus |
| GuildRouting.GuildCreateOpensRoute | backend/internal/ws/hub.go:134-145 | handling GUILD_CREATE puts the guild in the set |
| GuildRouting.HalfIsForever | backend/internal/store/guilds.go:70-81 | a half membership that no request is still writing stays half over every run |
| GuildRouting.HalfCanBeCompletedIff | backend/internal/httpapi/guild_handlers.go:288-302 | it can become whole iff a request for it is at its writes; joining again does not help |
| GuildRouting.MissedForever | backend/internal/ws/session.go:233-247 | a missed guild that nothing announces any more stays missed |
| GuildRouting.MissedCanBeLearntIff | backend/internal/ws/hub.go:121-149 | a registered session can still learn a missed guild iff it is still being announced |
| GuildRouting.IdentifyReadsFirst | backend/internal/ws/session.go:233-238 | an identify can be between its read and its commit |
| GuildRouting.AnnouncementCanComeTooEarly | backend/internal/httpapi/guild_handlers.go:55-81 | a guild can be created and announced meanwhile |
| GuildRouting.IdentifyCanMissGuild | backend/internal/ws/session.go:233-247 | dispatching that announcement before the commit leaves the session without the guild |

## Left out

- Real I/O of Scylla, Redis, NATS, MinIO and WebSockets, network timeouts that apply a statement but report an error, context cancellation, and several NATS subscriptions: a statement or script is one step and one gateway dispatches one stream.
- JWT, password hashing, LiveKit, GIF search, uploads, CORS, configuration, logging and metrics other than the connection gauge.
- The limit clamp of the message listing, the invite-code retry loop, and the length, enum and pattern validators: single branches.
- Ids are pairs of a tick count and a tiebreak; how the tiebreak bytes compare is not modelled further.
- Message rows of one partition come back in clustering order by definition of the query; the scan of a reaction partition may come in any order, which is more than the code needs.
- Reactions are modelled for one message; MESSAGE_UPDATE and a repeated MESSAGE_CREATE, which replace a message together with its reactions, are not part of the reaction theorem, and neither is an echo that arrives after the reader toggled back.
- Deletes, edits and `resync` racing a load or a page request, `dismissLocal`, and typing indicators: nothing in the client reconciles them with a request in flight.
- ChatRun.StepKeepsInv: a run delivers only messages not older than everything fetched; `DeliveryStaysSoundIff` says what any other delivery does.
- ChatChannels.EveryChannelIsSound: a send on a channel whose first page is still loading is not a step of the client, because the load then replaces the list with its stand-in.
- UserReservations.StepKeepsInv: assumes at most one rename in flight per user, because overlapping renames break the property; the overlap has its own lemmas.
- UserReservations.ReleaseIsSafeIff: is about the one statement; which runs from a state with overlapping renames go wrong also depends on whether the old name is leaked and the new one taken, and is not stated.
- UserReservations.Users.Create: the columns beside username and email (password hash, profile) are written with the row and not modelled.
- PresenceEdges.EdgesAlternate: orders the scripts' answers, not the publishes that follow them, which gateways may reorder; assumes no Redis errors and no gateway crash, and that a handler ends within its 10 s context; crashed sessions are covered by the history lemmas of `Presence`.
- AuthorCache.UserCache.Lookup: the fetch between the two regions is a step of the interleaving model, which reads the table id by id.
- RateLimiter.WindowAdmitsExactlyLimit: calls that meet a Redis error are let through and not counted.
- RefreshTokens.SingleFlightNeverPresentsDeadToken: one tab, no expiry of the stored token and no logout while a refresh is in flight; several tabs sharing one stored token are not modelled.
- GatewaySession.Hub.DispatchToUser: the loops of the class are undisturbed; the interleaved dispatcher is the one of `GuildRouting`, the interleaved output the one of `Wire`.
- GuildRouting.EveryLaterEventIsOffered: "offered" means that `send` was called; whether a closed or full session takes the frame is the matter of `GatewaySession`.
- ChannelNames.FixedPointIff: the Unicode lower-casing table is a parameter that acts rune by rune and leaves [a-z0-9_-] alone.
- `web/src/store/voiceStore.js`, `web/src/lib/gateway.js` and the React components.
