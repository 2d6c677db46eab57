# VibeChat, modelled and verified in Dafny

This project models the stateful parts of VibeChat, a chat server in Go, and proves what they
promise over whole runs: the caching repositories and the TTL cache under them, group membership
and ownership, the message history with its cursor, the rate limiter, the WebSocket hub, and
user credentials. `dafny verify dfyconfig.toml` checks all of it. Paths below are those of the
VibeChat repository; nothing here was executed.

## How the model is laid out

| files | model |
|---|---|
| `Uuids`, `Lexicographic`, `Ordering` | 128-bit ids, their text form, `ORDER BY` as the one ascending list of a set |
| `Domain`, `ChatTables`, `ChatUseCases` | chat entities, SQL statements as functions on tables, the chat use cases with any repository call failing |
| `ChatOutcomes` | what each chat use case answers and leaves, row by row, and why it refuses |
| `Ownership`, `SingleOwner`, `GroupCreation`, `Permissions` | what every run of the chat use cases keeps |
| `CacheKeys`, `SharedCaching`, `CachedChats`, `ChatService` | the one cache behind string keys, the caching chat repository and the chat use cases as classes, proved against the functions above |
| `MessageTables`, `MessageUseCases`, `History`, `Reactions`, `Previews`, `MessageService` | messages: statements, use cases, page walks, batched reactions, chat previews, and the service as a class |
| `MessageOutcomes` | what each message use case answers and leaves, field by field, the page and its reactions included |
| `Application` | chat, message and user use cases over one database and one cache: whole runs equal the origin alone |
| `Staleness`, `Freshness` | the repositories step by step, in any interleaving, with failing cache operations: how old a hit may be, and exactly when none is old |
| `TtlCache`, `RateLimiting` | the in-memory cache and the limiter as classes, and histories of their calls |
| `SendQueue`, `HubRooms`, `Hub` | a client's channel, the hub's own loops, and the hub as a protocol |
| `Validation`, `Accounts`, `UserService` | input checks, users, credentials under any interleaving, and the user services as classes |

A mutable object of the source is a class whose fields its methods reassign; each method is
proved equal to a function of the old state, and the results are lemmas about those functions.
Where goroutines meet, the model is a state machine: steps with a guard (`Enabled`), their
effect (`Apply`), and lemmas over every sequence of enabled steps (`Legal`).

Assumptions, stated once:

- Time is an integer and, where a lock orders the readings, never runs backwards. A clock read
  before a lock may be as old as it likes. Times and new ids are parameters of the calls.
- A cache lifetime is positive in `Staleness`; the delay bound is from an origin access to the
  clock reading of the Sets that follow it. In `Application` the Dels and the write-path Sets
  succeed, while Gets may miss and read-path Sets may fail at any time.
- JSON is a round trip that drops the password hash. A joined user is carried as a flag only.
- A caller is an authenticated user, whose id is not the nil id.
- Users of chats are not deleted, so the join of members with live users drops nobody.
- `GetDirectChat` has `LIMIT 1` and no `ORDER BY`; the model takes the smallest id, and
  `Ownership.OneDirectChatPerPair` shows there is never a choice to make.

Where the code and its own comments or documents part ways, the model follows the code:

- internal/infrastructure/storage/cached/chat.go:156-157 says that invalidating before the write
  keeps readers from caching the old value. It does not by itself: `Staleness.StaleAfterUpdate`
  gives the run in which one does, for every chat and every update that changes it.
  `Freshness.FreshIff` says exactly when no hit is old, for every key: when no unexpired entry,
  and no Set still due that would outlive the moment, says other than the origin. After an update
  that nothing interrupts, what is left is the reader that had read before it
  (`Freshness.FreshAfterUpdateIff`). The same holds of members and users, which are invalidated
  or overwritten after the write (`Freshness.FreshAfterCallIff`): a removed member can be taken for
  one until the entry expires (`Freshness.RemovedMemberTakenForMember`).
- With a limit below one the limiter still lets one request per window through; the bounds are
  stated with `PerWindow`, which is the limit or one.
- The MySQL connection string asks for changed rows, not matched ones
  (internal/infrastructure/storage/mysql/config.go:74-82), so a role update to the same role is
  reported as "not a chat member". `ChatTables.RoleUpdateDialects` says exactly when the dialects
  differ. For an owner who tries to leave again after an interrupted hand-over it means that
  leaving fails, on MySQL, whenever the scan picks somebody who is an owner already
  (`SingleOwner.RetryAfterInterruption`). Nor does trying again put things right in general: if
  somebody else is admin, or joined before the heir, that one becomes a further owner on either
  dialect (`SingleOwner.RetryPutsRightIff`).
- Leaving a group is two writes. `SingleOwner.ExecSingleIff` says that of all failures of all use
  cases only an interruption between these two leaves two owners; none leaves a group without one (`Ownership.OwnedAtEveryBoundary`).

## Model

| member | source | states |
|---|---|---|
| Uuids.TextOrdersAsBytes | internal/infrastructure/storage/mysql/message.go:65-91 | ids compare alike as 16 bytes and as 36 lowercase characters, under any collation that orders the hexadecimal digits by value (section 4 of RFC 9562) |
| Uuids.TextInjective | internal/infrastructure/storage/cached/chat.go:30-38 | two ids with the same text are the same id |
| CacheKeys.KeysInjective | internal/infrastructure/storage/cached/chat.go:30-38 | keys of users, chats, members and membership flags never coincide, within a kind or across kinds |
| Ordering.AscendingUnique | internal/infrastructure/storage/postgres/chat.go:136-160 | an `ORDER BY` on a total order has one possible answer |
| RateLimiting.RateLimiter.constructor | internal/delivery/http/middleware/ratelimit.go:13-27 | the limiter starts with no clients; the sweeper's ticker needs a positive window |
| RateLimiting.RateLimiter.Handle | internal/delivery/http/middleware/ratelimit.go:46-60 | one request changes its own IP's entry as the fixed window says, and is answered accordingly |
| RateLimiting.RateLimiter.Purge | internal/delivery/http/middleware/ratelimit.go:32-40 | a sweep keeps exactly the entries not expired at its clock reading, unchanged |
| RateLimiting.SweepsAndOthersInvisible | internal/delivery/http/middleware/ratelimit.go:25-60 | over every history, an IP is answered as by a limiter of its own that never sweeps, however old the sweeps' clock readings |
| RateLimiting.RateBound | internal/delivery/http/middleware/ratelimit.go:46-60 | in any closed interval of length D at most one less than limit·(⌊D/(window+1)⌋ + 2) requests of an IP pass; fewer than limit·(⌈D/window⌉ + 1) for D > 0, and fewer than twice the limit per window length |
| RateLimiting.RateBoundReached | internal/delivery/http/middleware/ratelimit.go:46-60 | twice the limit less one is reached in one window length, for every limit and window |
| RateLimiting.RejectedOnlyWhenFull | internal/delivery/http/middleware/ratelimit.go:49-60 | over every history and sweep schedule, a request at t is rejected only if a full allowance of that IP's earlier requests was let through in [t - window, t] |
| RateLimiting.IntervalBound | internal/delivery/http/middleware/ratelimit.go:46-60 | from any entry, what passes in an interval is a full allowance per window opened in it, and one short of one for the window before |
| TtlCache.Cache.constructor | internal/infrastructure/cache/mock/mock.go:23-25 | a new cache is empty |
| TtlCache.Cache.Get | internal/infrastructure/cache/mock/mock.go:59-72 | returns the unexpired value, and removes an expired entry |
| TtlCache.Cache.Set | internal/infrastructure/cache/mock/mock.go:74-83 | replaces one entry, expiring at clock + ttl for a positive ttl and never otherwise |
| TtlCache.Cache.Del | internal/infrastructure/cache/mock/mock.go:85-90 | removes one entry |
| TtlCache.Cache.DeleteExpired | internal/infrastructure/cache/mock/mock.go:48-57 | removes exactly the entries expired at the sweep's clock reading |
| TtlCache.AlwaysAgrees | internal/infrastructure/cache/mock/mock.go:48-90 | an absent key was never set, was deleted, or had expired by a reading that evicted it |
| TtlCache.GetReturnsLastUnexpired | internal/infrastructure/cache/mock/mock.go:48-90 | for every schedule of calls and sweeps, Get returns the last value set and not deleted since, unless expired; eviction cannot be observed |
| SendQueue.OfferAllExtends | internal/delivery/ws/hub.go:54-61 | whatever is sent, the channel only grows at its end and never beyond 256 |
| SendQueue.Channel.TrySend | internal/delivery/ws/hub.go:54-61 | appends if there is room, else leaves the channel as it is |
| SendQueue.Channel.Interference | internal/delivery/ws/hub.go:49-63 | any number of sends between two steps of the pump keep what is queued in front |
| SendQueue.Channel.Drain | internal/delivery/ws/client.go:119-124 | with broadcasters sending throughout, each of the n receives finds an element, and what is written is the n queued messages in order, up to the first failed write |
| HubRooms.Hub.Subscribe | internal/delivery/ws/hub.go:22-26 | the client is in every listed room, nothing else changes |
| HubRooms.Hub.Unsubscribe | internal/delivery/ws/hub.go:28-34 | the client leaves the listed rooms, no room is made or dropped |
| HubRooms.Hub.BroadcastToChat | internal/delivery/ws/hub.go:37-64 | every client of the room but the excluded user's is offered the event once |
| Hub.InvStep | internal/delivery/ws/hub.go:22-64 | every step of every participant keeps the protocol's invariant |
| Hub.Delivery | internal/delivery/ws/hub.go:37-79 | in every interleaving, what a client gets from one source is a subsequence of what it sent, in order, without repetition, from subscribed chats, never its own user's |
| Hub.Conservation | internal/delivery/ws/hub.go:49-63 | attempted = received + queued + dropped, as multisets |
| Hub.DropsOnlyWhenFull | internal/delivery/ws/hub.go:54-61 | an event is dropped only by a send that finds 256 queued, and the queue stays as it was |
| Hub.FinishedReachedAll | internal/delivery/ws/hub.go:49-63 | a finished broadcast has tried every client that stayed in the room throughout, except the sender's |
| Hub.BroadcastReaches | internal/delivery/ws/hub.go:37-64 | over every run: whoever joined the chat before a broadcast started and has not left it when it finishes has been tried with it, unless of the sender's own user |
| Hub.BroadcastPassesOver | internal/delivery/ws/hub.go:28-64 | over every run: whoever left the chat before a broadcast started and has not come back is not tried with it |
| Hub.JoinerMayBeVisited | internal/delivery/ws/hub.go:49-63 | whoever joins while a broadcast is going round may still be reached by it |
| Hub.PumpTakesAll | internal/delivery/ws/client.go:105-124 | on waking, the pump takes all that is queued, in order, and goes back to waiting |
| Hub.FailedPumpStops | internal/delivery/ws/client.go:105-124 | after a failed write nothing more is taken for the client |
| Hub.DrainNeverBlocks | internal/delivery/ws/client.go:105-124 | whenever the pump has receives left, the next one finds an element |
| Hub.BroadcasterNeverWaits | internal/delivery/ws/hub.go:54-61 | a broadcaster in the middle of a room can always go on, full queues or not |
| ChatTables.GetDirectChat | internal/infrastructure/storage/postgres/chat.go:271-288 | answers a live direct chat of the two users, or that there is none |
| ChatTables.InsertMembersAdds | internal/infrastructure/storage/postgres/chat.go:41-48 | a committed transaction added exactly the listed rows, all new, for known users |
| ChatTables.RoleUpdateDialects | internal/infrastructure/storage/mysql/chat.go:170-184 | the dialects differ on a role update exactly when it would change nothing |
| ChatTables.AddMemberDialects | internal/infrastructure/storage/mysql/chat.go:93-110 | additions succeed alike, and the dialects differ exactly in the error for a chat or user that is not there |
| Ownership.MembersListed | internal/infrastructure/storage/postgres/chat.go:136-160 | the members list holds every member once, by join time, then id |
| Ownership.NextOwnerIsSuccessor | internal/usecase/chat/chat.go:361-376 | the scan finds the first other admin, else the first other member, and nobody exactly when the leaver is alone |
| Ownership.ExecKeeps | internal/usecase/chat/chat.go:23-348 | after each repository call of any chat use case, whatever fails, groups are owned, direct chats are pairs, and no pair has two |
| Ownership.OwnedAtEveryBoundary | internal/usecase/chat/chat.go:309-348 | over every run with any failures, every live group has an owner after every repository call |
| Ownership.DirectChatsNeverChange | internal/usecase/chat/chat.go:186-348 | a direct chat is never deleted and keeps its two members, both plain, through every run with any failures |
| Ownership.OneDirectChatPerPair | internal/usecase/chat/chat.go:34-55 | no two users ever have two direct chats |
| Ownership.CreateDirectIdempotentSymmetric | internal/usecase/chat/chat.go:23-64 | creating a direct chat again, from either side, finds the one created and writes nothing |
| Ownership.DeletedOnlyWhenAlone | internal/usecase/chat/chat.go:323-332 | a group is deleted only by its owner leaving it as its only member |
| SingleOwner.ExactlyOneOwner | internal/usecase/chat/chat.go:66-348 | in every state reached without failures a live group has exactly one owner |
| SingleOwner.OwnershipPasses | internal/usecase/chat/chat.go:309-348 | a departing owner's successor becomes the only owner, the leaver is gone, all others are as they were |
| SingleOwner.ExecSingleIff | internal/usecase/chat/chat.go:23-348 | from one owner per live group, whatever use case comes and whatever calls fail, one owner per live group is lost exactly by an owner's departure interrupted between its two writes |
| SingleOwner.RunSingle | internal/usecase/chat/chat.go:23-348 | over every run with any failures but those, live groups keep exactly one owner |
| SingleOwner.LeaveKeepsOneOwnerIff | internal/usecase/chat/chat.go:323-340 | leaving keeps one owner if and only if the hand-over is not interrupted between its two writes |
| SingleOwner.HandOverOneOwnerIff | internal/usecase/chat/chat.go:333-340 | the two writes leave one owner exactly when the first did nothing or both took effect and the first was acknowledged |
| SingleOwner.RetryAfterInterruption | internal/usecase/chat/chat.go:309-348 | an owner leaves beside another owner: if the scan picks one who is an owner already, MySQL answers "not a chat member" and nothing changes, and Postgres removes the leaver; otherwise both make the one picked an owner too and remove the leaver |
| SingleOwner.RetryPicksHeirIff | internal/usecase/chat/chat.go:361-376 | beside another owner, the scan picks that one exactly when nobody else is admin and that one joined before all others |
| SingleOwner.RetryPutsRightIff | internal/infrastructure/storage/mysql/chat.go:170-184 | with the leaver and an heir the only owners, leaving again leaves one owner exactly on Postgres, with no admin and the heir the first of the others to have joined; that owner is then the heir |
| GroupCreation.FreshLists | internal/usecase/chat/chat.go:90-109 | removing duplicates keeps exactly the ids not seen, each once |
| GroupCreation.CreateGroupSucceedsIff | internal/usecase/chat/chat.go:66-123 | a group is created exactly when the input is valid, everybody is a user and the id is new, whatever the duplicates |
| GroupCreation.CreatedGroupMembers | internal/usecase/chat/chat.go:81-113 | the new group has the caller as owner and everybody listed as plain member, and no other chat changes |
| Permissions.MembershipsChangeByRight | internal/usecase/chat/chat.go:186-348 | after each repository call of any use case, whatever fails, a membership is as it was or was changed by somebody with the right to |
| Permissions.ChatsChangeByRight | internal/usecase/chat/chat.go:143-184 | after each repository call of any use case, a chat's description is as it was or had just the given fields set by an owner or admin of a live group |
| Permissions.ReadsByRight | internal/usecase/chat/chat.go:125-141 | over every run with any failures, whoever is shown a chat, its members or its history was let in by its creation or by an owner or admin, and has been a member ever since |
| Permissions.ChangeRoleSucceedsIff | internal/usecase/chat/chat.go:275-307 | a role is changed exactly by an owner, on another member, to admin or member; on MySQL only if it differs; then that row has the new role and its join time, and otherwise nothing changes |
| Permissions.MessageOpsSucceedIff | internal/usecase/message/message.go:22-128 | exactly when sending, editing and deleting succeed; what is sent is stored under its id and answered |
| Permissions.UnreadAfterReading | internal/infrastructure/storage/postgres/message.go:131-158 | after marking a chat read, exactly what others sent since is unread, and nothing changes for other users or chats |
| Permissions.RemoveMemberSucceedsIff | internal/usecase/chat/chat.go:235-273 | a member is removed exactly when the caller may: plain members by owners and admins, admins by owners, owners by nobody; then that row goes, and otherwise nothing |
| Permissions.AddMemberSucceedsIff | internal/usecase/chat/chat.go:186-233 | a user is added exactly when an owner or admin of a live group adds a known user not in it; then that row comes, and otherwise nothing |
| Permissions.MessagesChangeByRight | internal/usecase/message/message.go:22-128 | a message is as it was, or its author, a member, edited its content while it was live or deleted it, each setting just its fields; a new one is what a member sent, replying within its chat |
| Permissions.ReactionsChangeByRight | internal/usecase/message/message.go:179-238 | a reaction comes only by its own user's adding it and goes only by the same user's taking it back, as a member, on a live message, and is never rewritten |
| ChatOutcomes.CreateDirectOutcome | internal/usecase/chat/chat.go:23-64 | a direct chat that is there is answered as not created; otherwise it is made, of two plain members, when the other is a user; the refusals |
| ChatOutcomes.CreateGroupOutcome | internal/usecase/chat/chat.go:66-123 | when a group is made, its description, its rows and the answer; the refusals |
| ChatOutcomes.GetChatOutcome | internal/usecase/chat/chat.go:125-130 | a member is shown the live chat as it is |
| ChatOutcomes.ListMembersOutcome | internal/usecase/chat/chat.go:136-141 | a member is shown everybody in the chat, once each, by join time, then id |
| ChatOutcomes.UpdateGroupOutcome | internal/usecase/chat/chat.go:143-184 | an owner or admin sets just the given fields of a live group and the time; the refusals, and what MySQL does not find |
| ChatOutcomes.AddMemberOutcome | internal/usecase/chat/chat.go:186-233 | the row that an addition adds; the refusals |
| ChatOutcomes.RemoveMemberOutcome | internal/usecase/chat/chat.go:235-273 | the row that a removal takes away; the refusals |
| ChatOutcomes.ChangeRoleOutcome | internal/usecase/chat/chat.go:275-307 | the row that a role change sets; the refusals |
| ChatOutcomes.PlainLeaveOutcome | internal/usecase/chat/chat.go:309-348 | somebody who is not the owner just goes |
| ChatOutcomes.SuccessorIsHeir | internal/usecase/chat/chat.go:361-376 | whom the scan finds is, of the other admins the first to have joined, or else of all others |
| ChatOutcomes.OwnerLeaveOutcome | internal/usecase/chat/chat.go:309-348 | an owner goes and the heir becomes owner, or on MySQL nothing happens if the heir is one already; one who is alone takes the group along |
| MessageOutcomes.SendOutcome | internal/usecase/message/message.go:22-64 | every field of the message that sending stores and answers; the refusals |
| MessageOutcomes.EditOutcome | internal/usecase/message/message.go:66-100 | the fields that editing sets and those it leaves; the refusals |
| MessageOutcomes.DeleteOutcome | internal/usecase/message/message.go:102-128 | the fields that deleting sets and those it leaves; the refusals |
| MessageOutcomes.ReadOutcome | internal/usecase/message/message.go:130-145 | a member's marking a chat read sets that one receipt |
| MessageOutcomes.UnreadMeans | internal/infrastructure/storage/postgres/message.go:141-158 | unread are the live messages of others since the receipt, or since the epoch |
| MessageOutcomes.ReactOutcome | internal/usecase/message/message.go:179-210 | afterwards the reaction is there, from now or from when it was; the refusals |
| MessageOutcomes.UnreactOutcome | internal/usecase/message/message.go:212-238 | afterwards the reaction is not there, and all others are; the refusals |
| MessageOutcomes.HistoryOutcome | internal/usecase/message/message.go:147-177 | members are shown the newest live messages below the cursor, newest first, as many as asked for or as there are, each with exactly its own reactions, and the cursor to go on from |
| CachedChats.ChatRepo.GetByID | internal/infrastructure/storage/cached/chat.go:40-62 | answers as the origin whether or not the cache does, and stays coherent |
| CachedChats.ChatRepo.IsMember | internal/infrastructure/storage/cached/chat.go:64-94 | answers as the origin, negative answers cached too |
| CachedChats.ChatRepo.GetMember | internal/infrastructure/storage/cached/chat.go:96-127 | answers the origin's membership, the joined user aside |
| SharedCaching.SetHolds | internal/infrastructure/storage/cached/chat.go:30-38 | a Set under one key's string makes the in-memory cache say nothing false of another key |
| SharedCaching.SharedCache.Get | internal/infrastructure/cache/mock/mock.go:59-72 | the in-memory cache, at any clock reading and after any sweep, answers what was last set under the key, or misses |
| SharedCaching.SharedCache.Set | internal/infrastructure/cache/mock/mock.go:74-83 | sets the entry of this key and of no other |
| SharedCaching.SharedCache.Del | internal/infrastructure/cache/mock/mock.go:85-90 | removes the entry of this key and of no other |
| CachedChats.ChatRepo.CreateWithMembers | internal/infrastructure/storage/cached/chat.go:141-153 | writes as the origin; for members of the new chat the seeding loop leaves the cache coherent even over a negative answer cached earlier |
| CachedChats.ChatRepo.Update | internal/infrastructure/storage/cached/chat.go:155-160 | writes as the origin and leaves no old chat behind |
| CachedChats.ChatRepo.Delete | internal/infrastructure/storage/cached/chat.go:162-173 | soft-deletes as the origin and leaves the cache coherent |
| CachedChats.ChatRepo.AddMember | internal/infrastructure/storage/cached/chat.go:175-184 | writes as the origin and overwrites what was cached of the member |
| CachedChats.ChatRepo.RemoveMember | internal/infrastructure/storage/cached/chat.go:186-193 | writes as the origin and leaves the cache coherent |
| CachedChats.ChatRepo.UpdateMemberRole | internal/infrastructure/storage/cached/chat.go:195-202 | writes as the origin and leaves no old role behind |
| CachedChats.CreationCoherent | internal/infrastructure/storage/cached/chat.go:141-153 | right after a creation only negative answers about the new members can be wrong |
| ChatService.NextOwner | internal/usecase/chat/chat.go:361-376 | the loop over a changing fallback computes the specified successor |
| ChatService.Service.CreateDirect | internal/usecase/chat/chat.go:23-64 | over the cache, answers and writes as over the tables alone |
| ChatService.Service.CreateGroup | internal/usecase/chat/chat.go:66-123 | the user checks and the dedup loop build the specified members; answers and writes as over the tables alone |
| ChatService.Service.GetChat | internal/usecase/chat/chat.go:125-130 | answers as over the tables alone |
| ChatService.Service.GetMembers | internal/usecase/chat/chat.go:136-141 | answers as over the tables alone |
| ChatService.Service.UpdateGroup | internal/usecase/chat/chat.go:143-184 | answers and writes as over the tables alone |
| ChatService.Service.AddMember | internal/usecase/chat/chat.go:186-233 | answers and writes as over the tables alone |
| ChatService.Service.RemoveMember | internal/usecase/chat/chat.go:235-273 | answers and writes as over the tables alone |
| ChatService.Service.ChangeMemberRole | internal/usecase/chat/chat.go:275-307 | answers and writes as over the tables alone |
| ChatService.Service.LeaveChat | internal/usecase/chat/chat.go:309-348 | answers and writes as over the tables alone |
| MessageService.Service.Send | internal/usecase/message/message.go:22-64 | answers and writes as over the tables alone |
| MessageService.Service.Edit | internal/usecase/message/message.go:66-100 | answers and writes as over the tables alone |
| MessageService.Service.Delete | internal/usecase/message/message.go:102-128 | answers and writes as over the tables alone |
| MessageService.Service.MarkRead | internal/usecase/message/message.go:130-145 | answers and writes as over the tables alone |
| MessageService.Service.GetHistory | internal/usecase/message/message.go:147-177 | the page with its reactions and next cursor is the one specified with one reaction query per message |
| MessageService.Service.Attach | internal/usecase/message/message.go:157-169 | collecting ids, one batch and the attaching loop give each message its own reactions |
| MessageService.Service.AddReaction | internal/usecase/message/message.go:179-210 | answers and writes as over the tables alone |
| MessageService.Service.RemoveReaction | internal/usecase/message/message.go:212-238 | answers and writes as over the tables alone |
| Application.App.Replay | cmd/app/main.go:161-164 | for any sequence of chat, message and user use cases over the one shared cache, the answers and the final database are those of the origin alone |
| Application.ApplicationKeeps | cmd/app/main.go:161-164 | so every run of the application from an empty database keeps one owner per group, direct chats as unique pairs, and replies as a forest |
| Application.FinalIsRun | cmd/app/main.go:161-164 | the application's runs are the runs that the other results are about, a registration bringing a user |
| Application.NewUserCoherent | internal/infrastructure/storage/postgres/chat.go:117-134 | a new user makes no cached entry false |
| Staleness.BoundedStaleness | internal/infrastructure/storage/cached/chat.go:40-202 | in every interleaving, with any cache operation failing, a hit at time t returns what the origin answered at some instant of [t - lifetime - delay, t], with the lifetime of users, chats or members |
| Staleness.InvStep | internal/infrastructure/storage/cached/user.go:35-102 | every step of reader, writer or cache keeps every entry, and every Set still due, true of a known instant |
| Staleness.DueSound | internal/infrastructure/storage/cached/chat.go:141-184 | what creations and additions put in the cache is what the origin answers at the instant of the write |
| Staleness.StaleAfterUpdate | internal/infrastructure/storage/cached/chat.go:155-160 | a run without failures in which hits after a finished update return the chat from before it, for every chat and every update that changes it |
| Freshness.FreshIff | internal/infrastructure/storage/cached/chat.go:40-202 | for every key and state: however the run goes on until the rows behind the key are written again, no hit differs from the origin, if and only if no unexpired entry and no Set still due in time does |
| Freshness.FreshAtWriteIff | internal/infrastructure/storage/cached/chat.go:155-202 | at the instant of any write, that is the case exactly when nothing cached or due before it says other than it |
| Freshness.FreshAfterUpdateIff | internal/infrastructure/storage/cached/chat.go:155-160 | after an update that nothing interrupts, exactly when no reader that read another chat before it has its Set still to come |
| Freshness.FreshAfterDeleteIff | internal/infrastructure/storage/cached/chat.go:162-173 | after a deletion, nobody is served the deleted chat exactly when no reader still has to cache it |
| Freshness.DueCovers | internal/infrastructure/storage/cached/chat.go:141-202 | every write sets or deletes every key whose answer it changes and of which an old answer may be cached |
| Freshness.FreshAfterCallIff | internal/infrastructure/storage/cached/chat.go:175-202 | after a creation, addition, removal, role change or user write that nothing interrupts: of each key whose answer it changed, or that it set or deleted, exactly when no reader's Set still to come says other than it |
| Freshness.NothingOldAfterCall | internal/infrastructure/storage/cached/chat.go:141-202 | with nobody else at work, nothing old is served of any key after such a call |
| Freshness.DeleteDropsMembers | internal/infrastructure/storage/cached/chat.go:162-173 | a deletion goes on to drop the chat and both keys of every member there was |
| Freshness.SaysIsTrue | internal/infrastructure/storage/cached/chat.go:40-127 | for chats, members and flags, to say what the origin answers is what the repository called in sequence keeps true |
| Freshness.ReaderPutsBack | internal/infrastructure/storage/cached/chat.go:64-127 | for every such write and every key whose answer it changes there is a run without failures after which hits return the old answer |
| Freshness.RemovedMemberTakenForMember | internal/infrastructure/storage/cached/chat.go:186-193 | for every member: a run after which the removed member is answered to be one |
| History.RestOfListing | internal/infrastructure/storage/postgres/message.go:77-84 | the rows older than a page's last key are the rest of the history |
| History.WalkYieldsAll | internal/usecase/message/dto.go:59-72 | on a fixed store a walk takes ⌊n/limit⌋ + 1 requests and yields the n live messages once each, in descending order |
| History.CollectDescends | internal/infrastructure/storage/postgres/message.go:50-101 | whatever store each request finds, the collected keys descend strictly below the cursor |
| History.CollectComplete | internal/usecase/message/dto.go:59-65 | a key present at every request of a completed walk was collected |
| MessageUseCases.PageWalkUnderChange | internal/usecase/message/message.go:147-177 | with any sends, edits, deletions and chat operations between the requests, the output descends strictly, shows no message twice, and a completed walk shows every message live throughout |
| MessageUseCases.ExecLater | internal/infrastructure/storage/postgres/message.go:103-129 | no message use case removes a message or changes its chat, author, sort key or reply target, or undeletes it |
| MessageUseCases.RepliesFormForest | internal/usecase/message/message.go:30-52 | over every run, replies stay in one chat, go strictly back in insertion order, and end at a message that replies to none |
| Reactions.BatchIsSingle | internal/infrastructure/storage/postgres/message.go:176-240 | the batch query gives each listed message exactly the ordered reactions of its own query, and nothing to others |
| Reactions.GroupRows | internal/infrastructure/storage/postgres/message.go:226-238 | the row loop's map holds for every message its rows in order |
| Reactions.GetReactionsBatch | internal/infrastructure/storage/mysql/message.go:226-272 | for every list of ids, duplicates and the empty list included, the map agrees with single queries |
| Previews.PagesAgree | internal/infrastructure/storage/mysql/message.go:54-108 | the history query over text ids serves the same pages as over bytes |
| Previews.LastRowsAgree | internal/infrastructure/storage/mysql/chat.go:195-204 | DISTINCT ON and ROW_NUMBER = 1 keep the same rows: the newest of each chat |
| Previews.GroupedCountAgrees | internal/infrastructure/storage/postgres/chat.go:189-201 | the grouped count of unread messages equals the single-chat count |
| Previews.PreviewsAgree | internal/infrastructure/storage/postgres/chat.go:174-209 | for every store and either dialect a preview shows the first message of the chat's history and its unread count |
| Previews.ChatListsAgree | internal/infrastructure/storage/mysql/chat.go:217-225 | lists of chats as either dialect may order them, latest activity first and ties in any order, have the same previews and, place by place, the same activity |
| Previews.ChatListMeans | internal/infrastructure/storage/postgres/chat.go:174-209 | the list has exactly the live chats the user is in, once each, the one with the latest message, or creation, first |
| Accounts.LoginChecksRegisteredHash | internal/usecase/user/user.go:87-169 | after any interleaving of profile updates through the lossy cache, status changes and evictions, logging in checks the hash stored at registration |
| Accounts.RegisterSucceedsIff | internal/usecase/user/user.go:35-85 | registration succeeds exactly when the input is valid, email and name are free, the id new, and hashing and tokens work; it adds that user alone |
| Accounts.LoginSucceedsIff | internal/usecase/user/user.go:87-115 | logging in answers the live user with that email whose hash the password matches, and is determined by that; an unknown email and a wrong password are answered alike |
| Accounts.InputsMean | internal/usecase/user/dto.go:5-57 | the bounds and forms of the input to registration, login and profile updates |
| Accounts.UpdateProfileSucceedsIff | internal/usecase/user/user.go:140-178 | a profile update succeeds exactly for valid input and a live user whose new name no other live user has, and sets the given fields alone |
| Accounts.RegisterRefused | internal/usecase/user/user.go:35-85 | why a registration is refused |
| Accounts.UpdateProfileRefused | internal/usecase/user/user.go:140-178 | why a profile update is refused |
| Accounts.StatusOutcome | internal/usecase/user/user.go:187-195 | coming online or going offline sets the status and the times of a live user and nothing else |
| Accounts.ShownFields | internal/infrastructure/storage/cached/user.go:33-58 | what is shown and cached of a user is every field but the hash, and reading it back gives the user without it |
| Validation.EmailIsPattern | utils/validate/validate.go:15 | the check on addresses is the regular expression |
| Validation.UrlIsPattern | utils/validate/validate.go:16 | the check on URLs is the regular expression |
| Validation.AlphanumericIsPattern | utils/validate/validate.go:17-38 | the check on names is the regular expression |
| Accounts.HashNotWritten | internal/usecase/user/user.go:145-178 | whether the copy read back from the cache has its hash makes no difference to the answer or to what is written |
| Accounts.ProfileKeeps | internal/infrastructure/storage/postgres/user.go:80-94 | writing back a copy that may be old and lack its hash changes no email and no hash |
| Accounts.StepKeeps | internal/infrastructure/storage/cached/user.go:35-102 | every step keeps emails and names unique and every copy's email right |
| UserService.UserRepo.GetByID | internal/infrastructure/storage/cached/user.go:35-58 | answers as the origin, a cached user without the hash |
| UserService.UserRepo.Update | internal/infrastructure/storage/cached/user.go:72-80 | writes as the origin and leaves no old user behind |
| UserService.UserRepo.UpdateStatus | internal/infrastructure/storage/cached/user.go:82-90 | writes as the origin and leaves no old user behind |
| UserService.UserRepo.Delete | internal/infrastructure/storage/cached/user.go:96-102 | soft-deletes as the origin and leaves no user behind |
| UserService.Service.Register | internal/usecase/user/user.go:35-85 | answers and writes as over the tables alone; a user without tokens is taken back |
| UserService.Service.Login | internal/usecase/user/user.go:87-115 | succeeds exactly for the live user with that email whose hash the password matches, if tokens work; hides which of email and password was wrong |
| UserService.Service.UpdateProfile | internal/usecase/user/user.go:140-178 | the read-modify-write over the lossy cache answers and writes as over the tables alone |
| UserService.Service.SetStatus | internal/usecase/user/user.go:187-195 | writes as the origin |
| UserService.ChatsStayCoherent | internal/infrastructure/storage/cached/user.go:33-58 | a change of user entries alone, which is all any call of the user repository makes in the shared cache, leaves the entries of the chat repository true |
| UserService.UsersStayTrue | internal/infrastructure/storage/cached/chat.go:30-38 | a change of chat and member entries alone, which is all any call of the chat repository makes, leaves the cached users true |

## Left out

- HTTP handlers, routing, middleware other than the limiter, configuration, logging, health checks, migrations: thin wrappers.
- `clientIP`: the limiter's key is a parameter; how it is read from headers is not modelled.
- User search and token refresh: they would only add easy members.
- Password hashing, tokens, WebSocket framing, the Redis client, SQL drivers: library boundaries, present as parameters or outcomes.
- Whether a dropped or failed WebSocket connection is noticed: the pump may stop at any time, nothing more is said.
- Text collation of emojis, names and emails in MySQL; emojis are ordered by code point, and any total order would do.
- The changed-rows count of MySQL for updates of messages and users: those follow Postgres; only chats and roles have both dialects.
- Rounding of times by the database, and clock skew between it and the server.
- Interleaved use cases on one group: ownership is stated for use cases one after another, with failures, since a role read before a promotion may be acted on after it.
- Counter overflow in the limiter: `count` is unbounded here, a 64-bit integer there.
- HubRooms.Hub.BroadcastToChat: rooms and channels stand still during the loop here; that they do not is what `Hub` models, step by step.
- CachedChats.ChatRepo.CreateWithMembers: promises a coherent cache only for members that name the new chat, as both use cases build them; the repository caches under that chat's keys whatever the members say.
- SharedCaching.SharedCache.Del: Dels and write-path Sets succeed here; what a lost one costs is in `Staleness` and `Freshness`.
- History.NextCursor: requires a page size of at least one, which the handler's clamp guarantees; a smaller one would read past an empty page.
