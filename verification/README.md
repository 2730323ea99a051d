# Verified model of the team chat backend

The chat backend keeps its state in two stores, Mongo documents and Redis keys with expiry times, and
its services are state machines over them. This project models those services and proves what every
run of them keeps.

How the model is built:

- Stores are maps. Redis keys carry their expiry instant, and a key can be read strictly before it.
  The clock is a parameter that never goes back.
- A service that updates stored state is a class. Its methods issue the same commands in the same
  order as the service, and each is proved equal to a step function; the theorems are about runs of
  those step functions (`Run`, `Possible`, or a `log` that is a history variable no operation reads).
  For rooms, `RoomService.Serve` ties the two together: requests served through their gates are a run.
- A service call is one step, except where its commands interleave: the two updates of a reaction
  toggle (`Reactions`), finding or creating a direct message (`DirectMessages`), filling the room
  cache (`RoomCache`), connecting and disconnecting (`Presence`), the SCAN loop over refresh tokens
  (`RefreshTokens`), refreshing (`RefreshRaces`) and the login guard (`LockoutRaces`); the last two are
  modelled both ways.

| Module | Covers |
|---|---|
| `Rooms`, `RoomServices` | rooms, roles, invites, cache, unread counters, receipts, and the two route gates |
| `RoomEffects` | when each room request is granted, what it changes and what it leaves alone |
| `RoomLaws` | ownership, member order, cache agreement and unread conservation over all runs |
| `RoomHistory` | who was let into a private room, who may kick, and where roles come from |
| `RoomCache` | when invalidation works and how old a cached answer can be when nothing is atomic |
| `DirectMessages` | the key of a pair of users, and the creation race |
| `Messages`, `Reactions`, `Pagination` | messages, reaction toggles, cursor pages |
| `MessageHandlers` | sending a message: validation, limiter, store and unread fan-out together |
| `SlidingWindow`, `FixedWindow`, `Lockout` | the three limiters |
| `LockoutRaces`, `RefreshRaces` | the login guard and token rotation when nothing is atomic |
| `AuthService` | login: the guard and the token together |
| `Presence` | sockets, online users, room presence, eviction |
| `RefreshTokens` | rotation, logout, password reset, revocation |
| `Common` | options, results, TTLs, counting, a little arithmetic |

## Where the code and its promises part

In each case the model follows the code, a lemma gives a run that shows the difference, and another
states for all inputs what holds instead or exactly when the promise does.

- Pages are cut at a strict `createdAt` bound with no tie-break, so a walk over the history misses
  messages when two neighbours across a page boundary share a creation time
  (`Pagination.TieLosesAMessage`). `Pagination.HistoryWalk`: the walk is complete exactly when creation
  times drop at every multiple of the page size.
- Two tabs of one user toggling the same reaction at once can end in a state no order of two toggles
  gives (`Reactions.TwoTabsAreNotLinearizable`). `Reactions.SomeOrderIff`: some sequential order of whole
  operations explains a run exactly when every second update finds the user listed or the message out
  of reach; with one toggle in flight per user, message and emoji it always does.
- The online score is written on connect only, so a user whose socket has been open for more than five
  minutes is no longer listed (`Presence.LongSessionIsNotListed`). A socket that goes away before its
  disconnect handler is registered stays tracked (`Presence.EarlyDropLeavesAGhost`).
  `Presence.ListedIff`: for every run, which sockets are tracked and who is listed.
- Eviction removes a score equal to the cutoff that readers still accept, which shows in the
  millisecond of the eviction (`Presence.EvictionShowsForAMillisecond`) and at no other time
  (`Presence.EvictionIsInvisible`).
- Invalidating the room cache does not stop a fill that is under way from putting the old value back
  (`RoomCache.StaleAfterInvalidation`). `RoomCache.SafeIffSound`: whatever has happened before,
  invalidation is sure to work until the next write exactly when it works now and every fill between
  its read and its SET has read what is stored. `RoomCache.AlwaysSafeIff`: a run is safe throughout
  exactly when it starts so and every write puts in what all such fills have read, which for a write
  that changes the cached fields means that there are none (`RoomCache.ChangingWriteIsSafeIff`). In any
  run at all, `RoomCache.AnswersWereCurrent` bounds the age of every answer.
- Two refreshes of one token whose commands interleave can both succeed
  (`RefreshRaces.TwoRefreshesBothSucceed`). `RefreshRaces.LineagesAreSafeIff`: a lineage keeps to one usable token in exactly those interleavings in which no call validates a token
  between another's validation of it and that call's DEL.
- Revoking all of a user's tokens can miss keys set while the SCAN loop runs
  (`RefreshTokens.TokenSetDuringIsLeft`). `RefreshTokens.MaySurviveIff` says exactly which may be left.
- docs/team-chat-api-prd.md:362 lists the auth limit under "sliding window"; the code has a fixed one.
  In any window of its length it passes up to `2 * max - 1` requests, and that many do pass in some run
  (`FixedWindow.OneWindowBound`, `FixedWindow.WindowBoundIsAttained`).
- The lockout lets five wrong passwords lock the account, but a window of 15 minutes can hold eight,
  and four more for every success (`Lockout.LockoutBound`, `Lockout.LockoutBoundIsAttained`); with up to `n`
  logins under way at a time, `7 + n` (`LockoutRaces.RaceBound`, `LockoutRaces.RaceBoundIsAttained`).

## Model

| member | source | states |
|---|---|---|
| `RoomServices.RoomService.CreateRoom` | src/services/roomService.js:14-24 | the creator is the one member and owner; a name in use is refused by the unique index |
| `RoomServices.RoomService.GetRoomById` | src/services/roomService.js:48-60 | a live entry answers; otherwise the stored room, cached for five minutes, or not found |
| `RoomServices.RoomService.JoinRoom` | src/services/roomService.js:62-87 | public join: a plain member at the end of the list, cache entry gone; idempotent for members; a private or missing room is refused |
| `RoomServices.RoomService.LeaveRoom` | src/services/roomService.js:89-121 | ownership passes to the heir, or the room goes with its cache entry, counter and receipt |
| `RoomServices.RoomService.CreateInvite` | src/services/roomService.js:146-170 | only members issue invites, for 48 hours |
| `RoomServices.RoomService.JoinViaInvite` | src/services/roomService.js:172-201 | the token is consumed whatever happens; an expired or unknown one lets nobody in |
| `RoomServices.RoomService.KickMember` | src/services/roomService.js:203-229 | the four refusals in their order, else the target, counter and cache entry are gone |
| `RoomServices.RoomService.SetMemberRole` | src/services/roomService.js:231-257 | the refusals in their order, else exactly the target's role changes and the cache stays |
| `RoomServices.RoomService.DeleteRoom` | src/services/roomService.js:259-276 | the owner alone deletes, with every member's counter and receipt |
| `RoomServices.RoomService.IncrementUnread` | src/services/unreadService.js:9-26 | every member but the sender gains one, nobody else's counter changes |
| `RoomServices.RoomService.GetUnreadCounts` | src/services/unreadService.js:32-54 | exactly the user's rooms with a nonzero counter, each with its value |
| `RoomServices.RoomService.ClearUnread` | src/services/unreadService.js:57-59 | removes one user's counter for one room and nothing else |
| `RoomServices.RoomService.GetRoomReceipts` | src/services/readReceiptService.js:14-35 | the stored receipts of exactly the current members |
| `RoomServices.RoomService.ClearAllReceipts` | src/services/readReceiptService.js:43-51 | removes the members' receipts for the room and nothing else |
| `RoomServices.RoomService.FetchHistory` | src/controllers/messageController.js:14-38 | fetching resets the reader's counter and stamps the receipt, unless the room is missing or the cursor is no date |
| `RoomServices.RoomService.SendMessage` | src/socket/messageHandlers.js:54-56 | the unread fan-out of a message a member sent; nothing for anybody else |
| `RoomServices.RoomService.CreateDm` | src/services/dmService.js:42-52 | two plain members and no owner, under the pair's key as name, refused when the name is taken |
| `RoomServices.RoomService.RequireMember` | src/middleware/requireMember.js:5-46 | stops exactly the non-members of a private room |
| `RoomServices.RoomService.RequireRoomRole` | src/middleware/requireRoomRole.js:18-46 | stops non-members, and members below the role |
| `RoomServices.RoomService.Handle` | src/routes/rooms.js:269-313 | a request through its gates in their order is one step, and keeps every invariant of the rooms |
| `RoomServices.RoomService.Serve` | src/services/roomService.js:14-276 | requests one after another are the run the laws are about, reply by reply; from an empty store all invariants hold after any of them |
| `RoomEffects.CreateEffect` | src/services/roomService.js:14-24 | granted exactly when no room has the name; the new room as asked for, its creator the one member and owner; nothing else changes |
| `RoomEffects.GetEffect` | src/services/roomService.js:48-60 | granted for existing rooms, private ones to members only; the room as stored, and in the cache for at most five minutes more |
| `RoomEffects.JoinEffect` | src/services/roomService.js:62-87 | granted exactly for public rooms; the user is a member afterwards, last in the list and plain if new; nothing else changes but the cache entry |
| `RoomEffects.JoinInviteEffect` | src/services/roomService.js:172-201 | each refusal exactly; granted exactly when the invite is on offer, live and its room exists; then the user is a member, last in the list and plain if new; the token is gone whatever happens; nothing else changes |
| `RoomEffects.LeaveEffect` | src/services/roomService.js:89-121 | granted exactly to members; the counter, receipt and cache entry go, and no other room changes |
| `RoomEffects.MemberLeaveEffect` | src/services/roomService.js:114-120 | a member who is not the owner drops out of the list and nobody else moves |
| `RoomEffects.OwnerLeaveEffect` | src/services/roomService.js:96-112 | the room goes when the owner was alone; otherwise the heir is crowned and the owner drops out |
| `RoomEffects.InviteEffect` | src/services/roomService.js:146-170 | granted exactly to members; the invite is on offer for 48 hours; nothing else changes |
| `RoomEffects.KickEffect` | src/services/roomService.js:223-228 | a granted kick takes the target, the counter and the cache entry and nothing else; a refused one changes nothing |
| `RoomEffects.KickRefusals` | src/services/roomService.js:203-221 | through the gates: which refusal, in which order |
| `RoomEffects.SetRoleEffect` | src/services/roomService.js:253-256 | a granted change gives the target the role and touches nothing else at all; a refused one changes nothing |
| `RoomEffects.SetRoleRefusals` | src/services/roomService.js:231-251 | through the gates: which refusal, in which order |
| `RoomEffects.DeleteEffect` | src/services/roomService.js:267-275 | a granted deletion takes the room, its cache entry, every counter of it and its members' receipts and nothing else |
| `RoomEffects.DeleteRefusals` | src/services/roomService.js:259-265 | through the gates: which refusal, in which order |
| `RoomEffects.SendEffect` | src/services/unreadService.js:9-26 | granted exactly to members; every other member has one more unread message and no other counter changes |
| `RoomEffects.FetchEffect` | src/controllers/messageController.js:14-38 | granted for existing rooms, private ones to members only, with a good cursor; the reader's counter is gone and the receipt stamped |
| `RoomEffects.CreateDmEffect` | src/services/dmService.js:42-52 | refused exactly when the name is taken; otherwise one new private room of the two users, both plain |
| `RoomEffects.DmIsForBoth` | src/services/dmService.js:48-51 | exactly the two users are in it, and may send and read |
| `Rooms.Find` | src/services/roomService.js:93 | finds an entry of the user exactly when there is one |
| `Rooms.Without` | src/services/roomService.js:114 | keeps all entries but the user's |
| `Rooms.WithRole` | src/services/roomService.js:103 | changes the role of one user's entries, in place |
| `RoomLaws.HeirIsLongestTenured` | src/services/roomService.js:97-100 | on an ordered list the first match is the longest-tenured admin, or longest-tenured other member when there is no admin; none exactly when the user is alone |
| `RoomLaws.OwnerLeaves` | src/services/roomService.js:96-114 | the room is deleted exactly when the owner was alone; otherwise the heir is the sole owner and everyone else keeps role and place |
| `RoomLaws.StepKeepsInv` | src/services/roomService.js:14-276 | every operation keeps: distinct members in joining order, one owner in a nonempty group room, plain members in a direct message, unique names, cache agreement, exact counters |
| `RoomLaws.ReachableIsOk` | src/services/roomService.js:14-276 | all of these in every reachable world |
| `RoomLaws.UnreadIsConserved` | src/services/unreadService.js:9-59 | in every run a member's counter is the number of messages others posted since the later of the member's last join and last fetch; nobody else has a counter |
| `RoomLaws.CacheIsInvisible` | src/services/roomService.js:48-60 | with atomic calls, every answer is the one an empty cache would give, though a role change never invalidates |
| `RoomLaws.StepKeepsDm` | src/services/dmService.js:42-52 | nothing deletes or renames a direct-message room |
| `RoomLaws.BumpedAt` | src/services/unreadService.js:20-23 | the fan-out adds one for each listed member and leaves every other counter |
| `RoomLaws.FoundersLog` | src/services/roomService.js:20 | after a founding the log has exactly the founders in the room, with nothing unread |
| `RoomHistory.PrivateJoinsAreInvited` | src/services/roomService.js:146-201 | every join into a private room ever made was a founder's or on an unexpired invite for that room, issued by a then-member and used once |
| `RoomHistory.PrivateMembersWereLetIn` | src/middleware/requireMember.js:12-43 | whoever is in a private room has such a join on record and has not been out since |
| `RoomHistory.KickSucceedsIff` | src/middleware/requireRoomRole.js:18-46 | through the gates a kick succeeds exactly when both are members and the actor ranks strictly higher |
| `RoomHistory.SetRoleSucceedsIff` | src/services/roomService.js:231-257 | through the gates a role change succeeds exactly for the owner, or an admin who demotes, on a member who is not the owner |
| `RoomHistory.DeleteSucceedsIff` | src/services/roomService.js:259-276 | through the gates a deletion succeeds exactly for the sole owner of a group room |
| `RoomHistory.RisesComeFromTheOwner` | src/services/roomService.js:231-257 | every new admin was made by the owner; every new owner of an existing room inherits from an owner who leaves |
| `RoomHistory.RoleWasGranted` | src/services/roomService.js:89-257 | over whole runs: whoever comes to be admin was made so by the then-owner in some step; whoever comes to be owner created the room or inherited it from a leaving owner |
| `RoomHistory.RunKeepsHistory` | src/services/roomService.js:172-201 | every run keeps: invites on offer are as recorded and unused, and all joins are justified |
| `RoomCache.AnswersWereCurrent` | src/services/roomService.js:48-60 | in every interleaving each answer was the stored value at an earlier moment, at most 300 s plus the longest fill ago |
| `RoomCache.StaleAfterInvalidation` | src/services/roomService.js:53-57 | a write and its invalidation inside a fill leave the old value in the cache |
| `RoomCache.InvalidationWorks` | src/services/roomService.js:83-84 | from any safe state, in every interleaving whose writes are harmless: while no changing write is newer than the last invalidation an entry is the stored value, and so was every answer given at such a moment |
| `RoomCache.WriteIsSafeIff` | src/services/roomService.js:53-57 | after a write, whatever the history, invalidation is sure to work if and only if each fill between its read and its SET has read the value written, and, when the write changes nothing, it worked before |
| `RoomCache.SafeIffSound` | src/services/roomService.js:48-60 | in every state: sure to work until the next write if and only if it works now and each fill between its read and its SET holds the stored value |
| `RoomCache.ChangingWriteIsSafeIff` | src/services/roomService.js:53-57 | in a safe state a write that changes the value stays safe if and only if no fill is between its read and its SET |
| `RoomCache.AlwaysSafeIff` | src/services/roomService.js:48-60 | every run from every state is safe throughout if and only if it starts so and all its writes are harmless |
| `RoomCache.UndisturbedIffHarmless` | src/services/roomService.js:83-84 | from a safe state that is: no changing write falls between a fill's read and its SET |
| `RoomCache.DelHealsIff` | src/services/roomService.js:84 | a DEL makes any state safe if and only if no fill in flight holds another value than the stored one |
| `RoomCache.SetIsCurrentIff` | src/services/roomService.js:56-57 | a SET leaves the entry equal to the database exactly when what was read is still stored |
| `RoomCache.RoleChangesNothingCached` | src/services/roomService.js:253-256 | a role change changes no cached field of any room, so needs no invalidation |
| `RoomCache.SerialIsAtomic` | src/services/roomService.js:48-60 | with nothing in between, GET, read and SET come to the atomic call |
| `DirectMessages.DmKeySymmetric` | src/services/dmService.js:6-11 | the key does not depend on who asks |
| `DirectMessages.DmKeyInjective` | src/services/dmService.js:6-11 | colon-free ids are recovered from the key up to order |
| `DirectMessages.ColonsCollide` | src/services/dmService.js:10 | with a colon in an id two pairs may share a key |
| `DirectMessages.OneRoomPerPair` | src/services/dmService.js:32-63 | in every interleaving, one room per pair, and all calls for the pair that return name it for the rest of the run |
| `DirectMessages.ThrowsOnlyOnGroupName` | src/services/dmService.js:55-63 | a call on valid users throws only when a group room held the name at its insert |
| `DirectMessages.AnswersStay` | src/services/dmService.js:38-53 | the answer of a returned call never changes |
| `DirectMessages.FindOrCreateDm` | src/services/dmService.js:23-64 | a lone call: refused for oneself or an unknown user; the existing room; else a new private room of requester and target, both plain, unless a group room has the name |
| `DirectMessages.InsertEffect` | src/services/dmService.js:41-58 | the insert opens the room of both users exactly when no room holds the key; otherwise it changes no room and the call looks again |
| `DirectMessages.LookEffect` | src/services/dmService.js:36-62 | either look answers with the pair's room exactly when there is one |
| `Messages.MessageService.CreateMessage` | src/services/messageService.js:40-57 | members only; a content that trims to nothing is refused by the schema; else the trimmed message is appended to the collection |
| `Messages.MessageService.EditMessage` | src/services/messageService.js:59-80 | the sender, within 15 minutes inclusive, while not deleted; the new content is trimmed |
| `Messages.TrimIsTheCore` | src/services/messageService.js:52 | trimming removes all of the blank ends and nothing else; exactly blank texts trim to nothing |
| `Messages.MessageService.DeleteMessage` | src/services/messageService.js:82-96 | the sender, once; only the deletion time changes; the answer is id and room |
| `Messages.MessageService.ToggleReaction` | src/services/messageService.js:114-153 | one to four code points, then the two updates |
| `Messages.Without` | src/services/messageService.js:144 | a pull removes the user and nobody else |
| `Reactions.Linearizable` | src/services/messageService.js:126-151 | with one toggle in flight per user, message and emoji, every interleaving with other writes gives the state and every reply, to toggles and other writes alike, of a sequential order of whole operations |
| `Reactions.LinearizableIff` | src/services/messageService.js:126-151 | for every run whatever: state and all replies are those of the one order that places each toggle at the step that answered it, if and only if each second update finds the user listed or the message out of reach |
| `Reactions.NoOrder` | src/services/messageService.js:106-113 | a run with a second update that does not find what it expects has no order of whole operations with the same messages and the same replies, in whatever order the replies come |
| `Reactions.SomeOrderIff` | src/services/messageService.js:126-151 | for every possible run: some sequential order explains it if and only if each second update finds the user listed or the message out of reach |
| `Reactions.PullIsToggle` | src/services/messageService.js:142-149 | the second update acts as a whole toggle exactly when the user is listed or the message out of reach |
| `Reactions.TwoTabsAreNotLinearizable` | src/services/messageService.js:106-113 | without the limit: a run with a result no order of the two toggles has |
| `Reactions.ToggleFlips` | src/services/messageService.js:114-153 | a toggle flips its own membership and no other, and is refused exactly on a missing or deleted message |
| `Reactions.TwoTogglesRestore` | src/services/messageService.js:114-153 | two toggles restore every reactor set and nothing else changes, except that an emptied list stays as a key |
| `Reactions.StepTouchesOwnMembership` | src/services/messageService.js:126-146 | in any interleaving an update touches only its own user's membership under its emoji |
| `Reactions.RunKeepsLists` | src/services/messageService.js:130-132 | reactor lists stay duplicate-free in every interleaving |
| `Reactions.DeletedIsFrozen` | src/services/messageService.js:82-96 | once deleted, nothing stored of a message changes again and it shows as deleted |
| `Reactions.OnlyTheSenderWrites` | src/services/messageService.js:62-86 | only its sender changes a message's content or deletes it; sender, room and creation time never change |
| `Reactions.EditsAreTimely` | src/services/messageService.js:60-71 | in every run no message is edited later than 15 minutes after its creation |
| `Reactions.CreateEffect` | src/services/messageService.js:40-57 | granted exactly to members with a content that is not blank; one more message, the latest, and no other change |
| `Reactions.EditEffect` | src/services/messageService.js:59-80 | granted exactly to the sender of an undeleted message of the last 15 minutes; the trimmed content and the edit time, and no other change |
| `Reactions.DeleteEffect` | src/services/messageService.js:82-96 | granted exactly to the sender of an undeleted message; the deletion time, shown as deleted, and no other change |
| `Reactions.ToggleEffect` | src/services/messageService.js:114-153 | the answer is the message as then stored; nothing but its reactions changes |
| `Pagination.PageSize` | src/services/messageService.js:10 | between 1 and 100 whatever is asked for |
| `Pagination.HistoryPage` | src/services/messageService.js:9-38 | the two errors exactly; otherwise the newest messages of the room before the cursor, newest first, at most a page of them, and a cursor, the last one's time, exactly when some are left |
| `Pagination.HistoryWalk` | src/services/messageService.js:9-38 | following nextCursor never repeats a message, takes at most max(1, ceil(N/n)) requests, and shows the whole history in order exactly when no tie spans a page boundary |
| `Pagination.TieLosesAMessage` | src/services/messageService.js:21 | two messages of one millisecond: a walk in pages of one shows one of them and ends |
| `Pagination.WalkNeverRepeats` | src/services/messageService.js:21 | no message is shown twice, ties or not |
| `Pagination.WalkItems` | src/services/messageService.js:30-31 | what is shown is complete exactly when no tie spans a page boundary |
| `Pagination.WalkRequests` | src/services/messageService.js:25-36 | how many requests a walk takes |
| `Pagination.WalkIsStable` | src/services/messageService.js:15-37 | creations, edits, deletions and reactions between the pages change neither ids nor order of the pages to come |
| `MessageHandlers.ChatServer.MessageSend` | src/socket/messageHandlers.js:30-57 | which check refuses what, what a refusal leaves alone, and the joint effect of a message let through |
| `MessageHandlers.StoredMessagesAreLimited` | src/socket/messageHandlers.js:38-47 | of the messages in the store, at most 30 that one user sent were let through in any half-open minute |
| `MessageHandlers.OtherWritesKeepBacking` | src/socket/messageHandlers.js:60-104 | edits, deletions and reactions keep each message paired with its admission |
| `SlidingWindow.MessageLimiter.CheckMessageRateLimit` | src/socket/rateLimiter.js:19-37 | the pruned, expiring set refines the full log: allowed exactly when all attempts of the last 60 s, refused ones included, number at most 30 |
| `SlidingWindow.KeptScores` | src/socket/rateLimiter.js:22-32 | pruning and expiry lose no entry that still counts |
| `SlidingWindow.AtMostThirtyAMinute` | src/socket/rateLimiter.js:35-36 | at most 30 messages of a user pass in any half-open minute of any run |
| `FixedWindow.RateLimiter.Limit` | src/middleware/rateLimiter.js:24-40 | passes exactly when the counter, restarted on expiry, is at most max |
| `FixedWindow.FixedWindowBound` | src/middleware/rateLimiter.js:11-40 | in any window of length L at most max * (ceil(L / W) + 1) - 1 pass |
| `FixedWindow.OneWindowBound` | src/services/authService.js:74-94 | in any window of the configured length at most 2 * max - 1 pass; the hourly limits on resending and on resets are instances |
| `FixedWindow.WindowBoundIsAttained` | src/middleware/rateLimiter.js:11-15 | for every window and limit some run passes 2 * max - 1, so the bound is exact |
| `FixedWindow.RefusedOnlyWhenFull` | src/middleware/rateLimiter.js:29-37 | a refused request finds max requests of its key passed within the window length up to it |
| `Lockout.LoginGuard.Login` | src/services/authService.js:118-148 | refused exactly when a try less than 15 minutes before locked the account, even with the correct password; otherwise accepted exactly with the correct one; counter and lock as the reference on the log says |
| `Lockout.RefusedIffLocked` | src/services/authService.js:115-130 | in every run, with the log alone: refused exactly when an earlier try of the account, less than 15 minutes before, locked it; otherwise accepted exactly when the password is correct |
| `Lockout.GuardsStayOk` | src/services/authService.js:130-148 | in every run the counter is at most 5, is 5 only under a lock, and expires no later than the lock |
| `Lockout.LockoutBound` | src/services/authService.js:105-148 | in any half-open 15 minutes at most 8 + 4 * s wrong passwords are compared, s being the successful logins |
| `Lockout.LockoutBoundIsAttained` | src/services/authService.js:115-148 | for every s some run compares 8 + 4 * s wrong passwords in a window with s successes, so the bound is exact |
| `LockoutRaces.RaceBound` | src/services/authService.js:118-148 | with check, comparison, INCR and SET as separate steps: at most 7 + n + 4 * s wrong passwords compared in any half-open 15 minutes, n bounding the logins under way and s the successes |
| `LockoutRaces.RaceBoundIsAttained` | src/services/authService.js:118-148 | from any quiet state without a counter, for every n of at least one and every s, some interleaving attains it |
| `LockoutRaces.SerialIsAtomic` | src/services/authService.js:118-148 | with nothing in between, the steps of a login come to the atomic login |
| `AuthService.AuthService.Login` | src/services/authService.js:105-154 | the guard's answer, and a usable refresh token exactly when it accepts |
| `Presence.PresenceServer.OnConnection` | src/socket/index.js:42-48 | the socket is tracked and the user's score set |
| `Presence.PresenceServer.JoinRoomPresence` | src/services/presenceService.js:19-21 | scores the user in the one room |
| `Presence.PresenceServer.JoinRooms` | src/socket/index.js:51-55 | the loop scores the user in exactly the given rooms |
| `Presence.PresenceServer.OnDisconnect` | src/socket/index.js:72-92 | only the last socket takes the user offline, in the rooms the socket still lists |
| `Presence.PresenceServer.TakeOffline` | src/services/presenceService.js:10-17 | removes the user from the online set and the given rooms, and nothing else |
| `Presence.DisconnectEffect` | src/socket/index.js:75-91 | the one socket is forgotten; the last one takes the user out of the online set and of the given rooms; nobody else is touched |
| `Presence.PresenceServer.EvictStaleUsers` | src/services/presenceService.js:42-45 | removes scores up to the cutoff and counts them |
| `Presence.PresenceServer.GetRoomPresence` | src/services/presenceService.js:23-39 | exactly the room's users with a fresh online score, in the order of the sorted set |
| `Presence.ListedConnectedRecently` | src/services/presenceService.js:23-39 | in any run, no empty socket set, and anyone listed connected within five minutes |
| `Presence.ListedIff` | src/socket/index.js:38-97 | in every run: tracked sockets are the live ones and those that went away before their handler was registered, hence the live ones exactly when there are none such; a room lists exactly who is in its set, has a tracked socket and connected within five minutes, less those an eviction in that millisecond caught on the cutoff |
| `Presence.DisciplinedIffNoneLost` | src/socket/index.js:72 | no socket goes away before its handler is registered exactly when none is lost in this way |
| `Presence.ListedIffConnected` | src/socket/index.js:72-92 | in such runs tracked sockets are the live ones and anyone listed has a live socket |
| `Presence.LongSessionIsNotListed` | src/services/presenceService.js:6-8 | five minutes after connecting a user with an open socket is no longer listed |
| `Presence.EarlyDropLeavesAGhost` | src/socket/index.js:72 | a socket gone before its handler is registered stays tracked and its user listed |
| `Presence.EvictionIsInvisible` | src/jobs/presenceEvictionJob.js:9-27 | readers see what they would with no evictions, but for the exact cutoff in the millisecond of one |
| `Presence.EvictionShowsForAMillisecond` | src/services/presenceService.js:33-44 | that case occurs: in the millisecond of an eviction a user on the cutoff is not listed whom the room would list without it |
| `RefreshTokens.TokenStore.RefreshSession` | src/services/authService.js:156-170 | validate, revoke, then issue; a user gone in between leaves the token revoked |
| `RefreshTokens.RefreshEffect` | src/services/authService.js:156-170 | accepted exactly for a live refresh token, and completed exactly when the user exists; then a token of the same user and the fresh id, usable for exactly seven days, replaces the old one; every other key is as before |
| `RefreshTokens.TokenStore.ValidateRefreshToken` | src/utils/tokens.js:31-47 | a verified refresh token whose key is there |
| `RefreshTokens.TokenStore.EndSession` | src/services/authService.js:172-177 | revokes a valid token; anything else changes nothing |
| `RefreshTokens.LogoutEffect` | src/services/authService.js:172-177 | afterwards the token is not accepted; no other key changes |
| `RefreshTokens.TokenStore.InvalidateAllRefreshTokens` | src/services/authService.js:206-225 | one DEL of everything the SCAN replies reported, whatever others did between the calls |
| `RefreshTokens.TokenStore.ResetPassword` | src/services/authService.js:227-249 | the refusals in order, the reset token consumed, the password changed, and the loop's revocation |
| `RefreshTokens.ResetEffect` | src/services/authService.js:227-248 | each refusal exactly; the token is spent by any well-formed request; a granted one changes the one user's password and takes exactly that user's keys |
| `RefreshTokens.LoopRevokesTheUser` | src/services/authService.js:206-225 | under SCAN's guarantee no key of the user that was there throughout survives, no other user's is touched, and undisturbed exactly the user's keys go |
| `RefreshTokens.SurvivorsWereSetDuring` | src/services/authService.js:211-224 | what of the user's is left was set while the loop ran and is in no reply |
| `RefreshTokens.MaySurviveIff` | src/services/authService.js:211-224 | within SCAN's guarantee a key of the user may be left if and only if it is there at the end and was not throughout |
| `RefreshTokens.TokenSetDuringIsLeft` | src/services/authService.js:211-224 | a loop within SCAN's guarantee that leaves a token refreshed between two of its calls |
| `RefreshTokens.KeyMatches` | src/services/authService.js:216 | the key pattern matches exactly the user's tokens |
| `RefreshTokens.KeyInjective` | src/utils/tokens.js:22 | different tokens have different keys |
| `RefreshTokens.OneUsableTokenPerLogin` | src/services/authService.js:156-170 | in every run at most one token descending from a login or registration is usable |
| `RefreshRaces.LineagesAreSafeIff` | src/services/authService.js:156-170 | with EXISTS, DEL and SET as separate steps: one usable token per login, sure to stay the only one, in exactly the interleavings with no second validation between a validation and its DEL |
| `RefreshRaces.SafeIffOneCarrier` | src/utils/tokens.js:20-51 | in every state: the promise is sure to be kept until the next validation if and only if each lineage has at most one call under way or usable token that none is about to delete |
| `RefreshRaces.SecondValidationIsUnsafe` | src/utils/tokens.js:41-43 | a second validation leads to two usable tokens if the calls run to their ends |
| `RefreshRaces.TwoRefreshesBothSucceed` | src/services/authService.js:157-167 | an interleaving of two refreshes of one token that ends with two usable tokens of one login |
| `RefreshRaces.SerialIsAtomic` | src/services/authService.js:156-170 | with nothing in between, EXISTS, DEL and SET come to the atomic refresh |
| `RefreshTokens.UsableIff` | src/utils/tokens.js:20-51 | refresh accepts a token exactly when issued less than seven days ago, not accepted before, not logged out and not reset; none is accepted twice |
| `RefreshTokens.ResetTokensAreSingleUse` | src/services/authService.js:234-238 | a reset token is honoured at most once |
| `RefreshTokens.ResetEndsAllSessions` | src/services/authService.js:242-248 | after a reset none of the user's earlier tokens is ever usable again, and no one else's is affected |
| `RefreshTokens.PasswordsStayWithoutReset` | src/services/authService.js:234-242 | in every run, while no reset token is honoured every user keeps the password chosen on registering |

## Left out

- RoomServices.RoomService.SendMessage: storing the message is `MessageHandlers.ChatServer.MessageSend`, which joins the two.
- Lockout.LoginGuard.Login: the token a successful login issues is in `AuthService.AuthService.Login`.
- RefreshRaces.LineagesAreSafeIff: token ids are numbers there, and a key's user is left out, since no step compares either.
- RefreshTokens.RefreshEffect: user ids hold no colon, as the ids the database makes do not.
- RefreshTokens.TokenStore.ResetPassword: a password stands for its bcrypt hash.
- RoomCache.AnswersWereCurrent: bounds the time from a fill's read to its SET by a parameter, since the code sets no limit on it.
- RefreshTokens.TokenStore.InvalidateAllRefreshTokens: what SCAN promises is an assumption on its replies, as that is Redis's own.
- DirectMessages.FindOrCreateDm: the room's key and its name are one field, as the code sets both to the same value and never changes either.
- Presence.PresenceServer.GetRoomPresence: what ZRANGE promises, all members by score and then by name, is an assumption on its reply.
- Presence.PresenceServer.OnDisconnect: the rooms a socket still lists at that moment are a parameter, since Socket.io decides them.
- Reactions.Linearizable: nobody toggles on a message id before the message exists; ids cannot be guessed.
- Pagination.HistoryWalk: messages with one creation time are listed by insertion, which Mongo leaves open.
- Conflicts between concurrent `save()` calls on one room: decided inside Mongoose, so membership operations are single steps.
- Express routing, response envelopes, Swagger, logging, health checks: plumbing.
- Socket.io transport, the Redis adapter, broadcasts and multi-instance delivery: library behaviour; one instance is modelled.
- JWT signatures and their own expiry, bcrypt, random ids: unforgeable tokens, a comparison oracle, fresh ids.
- Email verification, the mail queue and its worker.
- listRooms, listMembers, listDms, message search and user profiles: queries with no state of their own.
- Typing indicators: a key nobody reads back.
- Freedom from orphaned read receipts: a kick leaves them and non-members of public rooms can write them.
- Trimming of room names, the message `type` field, emoji holding '.' or '$', clock skew between Node and Redis, collisions of the limiter's random suffixes.
- Ids that are not valid ObjectIds, which pass the gates and fail in the handler.
