# Verified models of CollabPulse

CollabPulse is a workspace chat and calling application whose server keeps most of its state in
memory and changes it in request handlers. This project models the parts of it that carry state,
time and arithmetic, and proves what they keep over every run. It is written for Dafny 4.11
(`dafny verify dfyconfig.toml` checks all of it).

A handler that runs without `await` is one step; a handler with an `await` is two or more steps
between which everything else may run. The one exception are the statements on the hosts of a group
call, which take each of its handlers but `create` as one step; its capacity is proved for the
separate steps. Where the source updates objects in place there is a class whose methods are proved
against functions on values (the `...Object` and `...Objects` files, and the classes inside the
smaller modules); the theorems about those functions then hold of the classes.

| part | files |
|---|---|
| Realtime hub: connections, device index, presence, broadcast cascades, order of arrival | RealtimeHub, RealtimeHubProofs, RealtimeHubRuns, RealtimeFarewell, RealtimeArrival, RealtimeHubObject |
| Typing indicators | TypingTimers |
| Refresh tokens: grace store, rotation with its `await`, the ApiClient | GraceStore, RefreshRotation, RefreshRotationProofs, RefreshClient, RefreshObjects |
| Account lockout | Lockout, LockoutRegistry, Identifiers |
| Rate limiter | RateLimiter |
| Access tokens | Base64Url, Jwt |
| Group calls: capacity under interleaving, hosts and ending | GroupCallRows, GroupCallCapacity, GroupCallRoom, GroupCallObject |
| One-to-one calls: tab claims, the 30 s timeout, late writes of the state | CallClaims, CallClaimsObject, CallCopies |
| Messages: threads, counters, repeated requests, paginated history | MessageThreads, MessageThreadsProofs, MessageLogObject, CursorPagination, MessageHistory |
| Names: channel names, workspace slugs | Hyphenation, ChannelNames, Slugs |
| Outbox | Outbox |

Conventions. Time is an integer number of milliseconds that does not run backwards. Generated ids
and tokens are new. Failing writes, random tokens, the outcome of handlers and the row that a
`SELECT` without `ORDER BY` returns first are parameters or oracles, so a statement about all runs
is a statement about all of them. SHA-256 is taken to be injective, which lets tables keyed by the
hash of a token be keyed by the token. HMAC, JSON text, lower-casing, white space and the tag
filter are function parameters with the assumptions stated in `Lossless` and `Plausible`.

## What turned out differently than one might expect

- A presence event can arrive late. Announcements alternate when they are made, but a write that
  fails inside a broadcast starts another broadcast in the middle of it, so a third client can hear
  "Offline" before "Online" about a user who is gone (`HubArrival.ArrivalOrderCanLag`).
  `HubArrival.RunInOrderIff`, `OvertakenIff` and `HubFarewell.HeardIff` say exactly, by the outcomes of
  writes, when events arrive in order.
- A user who is added while already connected goes unannounced and breaks the presence bookkeeping;
  nothing else does (`ConsistentIff`).
- While a rotation waits for the database, a replay of its old refresh token is refused; the same
  replay is granted once the grace record is registered (`ReplayInTheGapIsRefused`).
- The fixed window admits up to 2·max − 1 requests in a closed interval as long as the window, one
  fewer than twice the maximum, and exactly that many can occur (`SlidingBound`, `SlidingBoundIsExact`).
- A failure that is recorded after a lock ran out, with no check since, is counted as a sixth. The
  counter stays at most five exactly if that never happens (`FiveIff`); with check and record in one
  step it cannot (`LoginsCountToFive`).
- Waiting the reported seconds does not always unlock: the report is rounded up, and between the end
  of the lock and the end of the wait a failure can lock again (`WaitingUnlocksIff`, `WaitingCanRelock`).
- `/end` of a group call looks the call up by call id or room id but uses the id it was given in every
  statement. Named by its room, a call is not ended: the updates match nothing, and the event that comes
  last refers to no call, which the database refuses (server/bootstrap.ts:236), so the answer is an error
  (`EndIsAllOrNothing`).
- `create` inserts a call and its creator in two steps, and the second checks nothing. Others who join
  by a room id of their own choice in between can fill the call, so that the creator is one too many
  (`LateCreatorOverfills`), or leave it again and end it, so that the creator comes in joined to an ended
  call (`LateCreatorIsStranded`).
- A join that has found a call active goes through after its end (`EndedRoomIsFilled`, and how many in
  `EndedRoomHolds`).
- The media server's webhooks leave active calls without a host and ended calls with joined rows
  (`WebhooksBreakHosting`, and exactly when in `AlwaysHosted`).
- Two joined hosts are possible, because a row that has left keeps its host role: the host may rejoin,
  or leave a second time and hand over once more (`OneHostIff`, `RejoiningHostDoubles`, `LeavingTwiceDoubles`).
- A call that is claimed between its first appearance in the list and the registration of its
  timeout is ended by the timeout although it is claimed (`ClaimedCallTimedOut`). The comment in
  server/routes/calls.ts promises an atomic claim; the claim is atomic, the registration does not look at it.
- An acceptance that reaches the server before the call is listed is answered, and the call rings on
  and is timed out (`AnsweredTooEarly`).
- An ended one-to-one call can come back as held, because a slower handler's write lists
  the object it was given (`EndedCallComesBack`, and exactly when in `StatesAgreeIff`). It never rings
  again, and the timeout and the claims are not affected (`NeverRingsAgain`, `RunAlike`).
- An account locks per identifier, and a login takes the email or the user name: a user has twice the
  attempts (`BruteForceBoundPerUser`, `BruteForceBoundPerUserIsExact`).
- A token whose `exp` is the current second is accepted, and an `exp` of zero never expires
  (`DiffersFromStandardIff`, against section 4.1.4 of RFC 7519).
- Two overlapping posts with one clientMessageId make two messages (`OverlappingRepeatsDuplicate`);
  only overlapping ones do (`RepeatsAreAbsorbedIff`).
- When the cursor's message is deleted between two pages, the walk starts over at the latest page
  (`SecondPageIsNewIff`). Conversations list deleted messages too, so there it cannot happen
  (`ConversationHistoryIsComplete`).
- The thread view of a reply lists its direct replies only (`ThreadOfReplyIsShallow`).
- Trimming and dropping leading hash signs have no effect on a channel name (`NameIsJoinedWords`).
- An outbox handler that returns a promise counts as successful at once (`PromisesCountAsDelivered`).
- A channel and a conversation with one id share a typing timer; a call for the second leaves the first
  on its start (`GroupLeftOnStartIff`, `SharedKeyLosesAStop`). The route takes either id from the
  request without looking it up (server/routes/messages.ts:730-742), so one id can name both.

## Model

| member | source | states |
|---|---|---|
| HubSpec.Find | server/realtime.ts:116-117 | The live connection with an id, or that there is none |
| HubSpec.Unregister | server/realtime.ts:115-141 | The mutual recursion with broadcasting ends: the table never gains a live entry, for any pattern of failing writes |
| HubSpec.Broadcast | server/realtime.ts:166-184 | The same for a broadcast |
| HubSpec.BroadcastFrom | server/realtime.ts:167-179 | The same for the rest of a running loop |
| HubProofs.RegroupDecidesDelivery | server/realtime.ts:144-180 | After joinGroup the next broadcast to the group reaches every match still registered exactly once, after leaveGroup none of them; everybody else hears it as before |
| HubProofs.RegroupLeavesOthers | server/realtime.ts:144-164 | Who listens to any other group does not change |
| HubProofs.UnregisterKeeps | server/realtime.ts:115-141 | The hub stays consistent through an unregistration and everything it sets off |
| HubProofs.BroadcastKeeps | server/realtime.ts:166-184 | The hub stays consistent through a broadcast |
| HubProofs.BroadcastFromKeeps | server/realtime.ts:167-179 | The hub is consistent at every nested call inside the loop |
| HubProofs.BroadcastFromCascades | server/realtime.ts:115-184 | A cascade only removes clients, and its deliveries belong to the loop's broadcast or to later ones |
| HubProofs.BroadcastDeliversExactly | server/realtime.ts:166-180 | Every group member still registered afterwards got the event exactly once, a dropped one at most once, nobody else at all, and every copy is that event |
| HubProofs.ServeExactly | server/realtime.ts:168-178 | An event arrives unless its write throws; a write or a flush that throws unregisters the connection |
| HubProofs.KeepaliveReachesAll | server/realtime.ts:23-34 | A keepalive reaches every client that is still registered after it exactly once, a dropped one at most once, and what is delivered in that loop is the keepalive |
| HubProofs.KeepaliveReachesNoOther | server/realtime.ts:23-34 | And nobody else |
| HubProofs.RegisterKeeps | server/realtime.ts:37-113 | Registration keeps the hub consistent, whatever fails during its announcements and its first write |
| HubProofs.RegisterEnters | server/realtime.ts:37-113 | A new connection enters with its user and tenant and in the groups of both and those given; any but the first device of a known user changes nothing but its own stream |
| HubProofs.RegisterGreets | server/realtime.ts:95-108 | Every registration ends with one write, of Connected to the new client; if it gets through it is the last delivery, under the last number, and the only Connected |
| HubProofs.FirstConnectionIsTold | server/realtime.ts:70-113 | After the first connection of a known user every client of the tenant still registered, the new one included, has been told Online exactly once |
| HubProofs.LastConnectionIsTold | server/realtime.ts:115-141 | After the last one is gone every client of the tenant still registered has been told Offline exactly once; any other connection goes without a write |
| HubProofs.RegroupKeeps | server/realtime.ts:144-164 | Joining and leaving groups keep the hub consistent |
| HubProofs.RegroupExactly | server/realtime.ts:144-164 | joinGroup and leaveGroup change the group sets of the connection or user meant by this group, and nothing else |
| HubRuns.ConsistentIff | server/realtime.ts:37-184 | Over every run, new users included, the hub is consistent at every moment exactly if no user is added to the database while a connection is registered under its id |
| HubRuns.PresenceAlternates | server/realtime.ts:70-141 | Over every such run: the device index is the table grouped by user with no empty set, a user in the database is online exactly with a connection, and announcements per user strictly alternate starting with Online |
| HubArrival.BroadcastInOrderIff | server/realtime.ts:115-180 | What one broadcast and its cascades deliver arrives in the order in which the broadcasts started exactly if no loop of the cascade delivers after a nested broadcast that somebody heard |
| HubArrival.RunInOrderIff | server/realtime.ts:37-184 | The same over every run, for all events or for the presence events only |
| HubFarewell.HeardIff | server/realtime.ts:115-180 | A farewell is heard, by somebody in its own broadcast or in a nested one, exactly if one of the writes gets through that the cascade makes as long as all of them throw |
| HubArrival.OvertakenIff | server/realtime.ts:115-180 | In any broadcast, whoever has joined the group: an event is overtaken exactly if it gets through after a write of the loop threw on the last connection of a known user, and the farewell to that user was heard |
| HubArrival.LossOvertakes | server/realtime.ts:166-184 | The farewell is heard whenever the later listener is itself in the lost user's tenant group |
| HubArrival.ForeignLossIsSilent | server.ts:127-134 | A connection of another tenant that has joined the group is lost without anybody hearing of it, and nothing is overtaken |
| HubArrival.SteadyRunInOrder | server/realtime.ts:37-184 | Presence events arrive in order over every run in which no write of a presence broadcast throws, whatever happens to other writes |
| HubArrival.ArrivalOrderCanLag | server/realtime.ts:115-141 | A cascade after which a remaining client has heard Offline before Online about a user without connections |
| RealtimeHubObject.RealtimeHub.Unregister | server/realtime.ts:115-141 | The method does what the function does and starts and ends consistent |
| RealtimeHubObject.RealtimeHub.BroadcastTo | server/realtime.ts:23-34 | The keepalive and broadcast loop over the live table, with unregistrations inside it |
| RealtimeHubObject.RealtimeHub.ServeClient | server/realtime.ts:168-178 | The guarded write of the loop, and the unregistration when it throws |
| RealtimeHubObject.RealtimeHub.Register | server/realtime.ts:37-113 | Entering the table and the index, the first announcement, the unguarded first write |
| RealtimeHubObject.RealtimeHub.AddUser | server/routes/auth.ts:142 | A user comes in from the database; the hub stays consistent exactly if that user is there already or has no connection |
| RealtimeHubObject.RealtimeHub.RegroupClients | server/realtime.ts:144-164 | The loops of joinGroup and leaveGroup and their result |
| TypingTimers.OneTimerPerKey | server/realtime.ts:219-245 | At most one running timer for a key, and its handle is the one in the registry: a timer whose handle was dropped does not run |
| TypingTimers.EmitsExactly | server/realtime.ts:215-254 | Every call emits one event to its own group, and a timer that elapses one stop to the group of its start |
| TypingTimers.TimersExactly | server/realtime.ts:219-246 | A call stops the timer of its key, a start sets one for 3.5 s later, and other keys keep theirs |
| TypingTimers.TimersFollowTheLog | server/realtime.ts:215-254 | Over every run: a key has a timer exactly while its last emitted event is a start, due 3.5 s after that start and for its group |
| TypingTimers.NoIndicatorLingers | server/realtime.ts:235-246 | With timers on time, every key is stopped 3.5 s after its last start |
| TypingTimers.GroupLeftOnStartIff | server/realtime.ts:216-246 | With timers on time, a group still shows a start after 3.5 s exactly if the next call for that key, a start or a stop, was for another group and none has come back since |
| TypingTimers.GroupSeesTheStop | server/realtime.ts:216-246 | So a group that owns its key sees the end of every start in time |
| TypingTimers.SharedKeyLosesAStop | server/realtime.ts:216-217 | Such a run: two groups under one key, and the first is left on its start |
| TypingTimers.TypingIndicators.HandleTyping | server/realtime.ts:215-254 | The method's effect on timers and events |
| TypingTimers.TypingIndicators.TimeOut | server/realtime.ts:236-244 | The timer's callback |
| GraceStore.CleanupInvisible | server/security.ts:435-459 | Neither clean-up ever changes what a lookup answers |
| GraceStore.CleanupExactly | server/security.ts:435-459 | A lookup drops the record it looked up only when it has run out; a clean-up drops exactly those that have, and comes when more than 200 records stand |
| GraceStore.RegisteredLookup | server/security.ts:435-449 | A registration is seen through exactly its grace period and disturbs no other token, at any size of the store |
| GraceStore.TokenGraceStore.Register | server/security.ts:435-449 | The registration with the clean-up loop |
| GraceStore.TokenGraceStore.RemoveExpired | server/security.ts:442-448 | The loop leaves exactly the records that have not run out |
| GraceStore.TokenGraceStore.Get | server/security.ts:451-459 | The lookup, which drops a record that has run out |
| RefreshRotationProofs.StepKeeps | server/routes/auth.ts:842-929 | Every step keeps the chain of each session unforked, the grace store tied to registered rotations, and grace periods in order |
| RefreshRotationProofs.RunKeeps | server/routes/auth.ts:842-929 | The same over every interleaving from an empty server |
| RefreshRotationProofs.LinksStay | server/routes/auth.ts:900-903 | What a token was replaced by never changes |
| RefreshRotationProofs.OneSuccessorForever | server/routes/auth.ts:852-929 | A token is answered with one token and one access token only, however often and whenever, and no token answers two |
| RefreshRotationProofs.AnswerExactly | server/routes/auth.ts:852-910 | Exactly when a request is granted the replacement, starts a rotation, or is refused |
| RefreshRotationProofs.RefusalExactly | server/routes/auth.ts:866-898 | Exactly when a request is refused for which reason, and that only an expired session is removed |
| RefreshRotationProofs.RotationRenews | server/routes/auth.ts:900-903 | A rotation renews the session of its token for fifteen days and no other, and sends nothing yet |
| RefreshRotationProofs.RotationIsRegistered | server/routes/auth.ts:910-929 | The registration leaves sessions and other tokens alone; for thirty seconds, to the millisecond, the old token is looked up with the new one and the access token of this rotation |
| RefreshRotationProofs.ReplayIsAnsweredIff | server/routes/auth.ts:852-929 | Over every run: once its rotation is registered, a token is granted the new token and that access token up to thirty seconds after, and nothing later, whatever happens in between |
| RefreshRotationProofs.LoginExactly | server/routes/auth.ts:276-300 | A login opens a session of fifteen days with a new token |
| RefreshRotationProofs.ReplayInTheGapIsRefused | server/routes/auth.ts:905-920 | A replay during the `await` is refused, the same replay after it granted |
| RefreshRotationProofs.LaterGraceLivesOn | server/security.ts:435-459 | With all rotations registered, a live grace record of an old token implies one of the next |
| RefreshRotationProofs.ChaseReachesCurrent | server/routes/auth.ts:852-863 | Then repeated refreshes reach the current token of the session |
| RefreshObjects.SessionTable.FindSession | server/routes/auth.ts:866-874 | The search through the sessions |
| RefreshObjects.SessionTable.BeginRefresh | server/routes/auth.ts:852-903 | A request up to its answer or its `await` |
| RefreshObjects.SessionTable.FinishRefresh | server/routes/auth.ts:910-929 | The rest: grace record and answer |
| RefreshClient.MoveKeeps | src/services/api.ts:157-191 | Every step of client, network or server keeps the joint invariant |
| RefreshClient.UnauthorizedExactly | src/services/api.ts:157-165 | A 401 starts a call with the stored token if none is outstanding and otherwise waits for that one |
| RefreshClient.DeliverExactly | src/services/api.ts:159-165 | When a call settles, exactly the requests that waited for it are woken, with what it returned |
| RefreshClient.ReachExactly | server/routes/auth.ts:852-929 | A call returns what the server answered it, or stays in the `await` |
| RefreshClient.ResumeExactly | src/services/api.ts:166-184 | A renewal is stored and the request sent once more; a failure, and a second sending that fails, end the request and clear the session |
| RefreshClient.ClearedIff | src/services/api.ts:166-184 | After a step nothing is stored exactly if it was such a failure, or nothing was stored and it was no renewal |
| RefreshClient.NoCallWithoutToken | src/services/api.ts:157 | So over every run no refresh call starts from a cleared session until a renewal arrives |
| RefreshClient.ClientStaysNear | src/services/api.ts:157-191 | At most one refresh call is outstanding, every waiting request waits for it, no request is sent more than twice, and the stored token is the newest of its session or the one it replaced |
| RefreshClient.TimelyRefreshIsNotInvalid | server/routes/auth.ts:852-874 | A refresh served after the previous rotation was registered and within its grace is never refused as invalid |
| RefreshObjects.ApiClient.Unauthorized | src/services/api.ts:157-165 | The first 401 starts the one refresh call, later ones join it |
| RefreshObjects.ApiClient.Deliver | src/services/api.ts:159-165 | The call settles: the promise is cleared and everybody waiting is woken |
| RefreshObjects.ApiClient.Resume | src/services/api.ts:166-184 | A woken request stores the tokens and is sent once more, or clears the session |
| RefreshObjects.ApiClient.Abort | src/services/api.ts:174-184 | A second sending that fails clears the session |
| Lockout.BruteForceBound | server/security.ts:337-386 | With no success and no unlock, the n-th counted failure comes no earlier after the first than lockouts of 5, 10, 15, 20, 25, 30, 30, ... minutes, one for every five failures before it, in any interleaving |
| Lockout.BruteForceBoundIsExact | server/security.ts:337-386 | No better bound holds, for any n |
| Lockout.FailureLocks | server/security.ts:337-386 | Under a lock a failure changes nothing; otherwise it counts one more, and the fifth or a later one locks for 5 min × min(k, 6), the k-th time, and reports that many seconds |
| Lockout.LockedForSum | server/security.ts:371-373 | k lockouts last 5 × k(k + 1)/2 minutes for k up to six, and 30 minutes more for each further one |
| Lockout.CheckLifts | server/security.ts:313-331 | A check lifts a lock that has run out, and with it the count but not the number of lockouts, and changes nothing else |
| Lockout.ReportedSecondsAreLeast | server/security.ts:319-322 | The reported seconds are the fewest that outlast the lock |
| Lockout.WaitingUnlocksIff | server/security.ts:313-386 | Whatever is tried up to the end of that wait, the account is locked then exactly if, after the lock ran out, a failure was recorded before any check, or five of them |
| Lockout.WaitingUnlocks | server/security.ts:313-331 | So nothing tried while the lock stands extends it |
| Lockout.WaitingCanRelock | server/security.ts:337-386 | One failure in the last millisecond of a reported wait of 300 s locks the account again |
| Lockout.FailureReportAgrees | server/security.ts:360-386 | The report of a failure says what the next check will say |
| Lockout.RemainingAttemptsAreExact | server/security.ts:366-386 | A failure that does not lock reports exactly how many more failures it takes |
| Lockout.LoginsCountToFive | server/routes/auth.ts:91-171 | With check and record in one step, failedAttempts stays at most five |
| Lockout.FifthLoginLocks | server/routes/auth.ts:91-171 | So of the failed logins within five minutes after the fifth none counts |
| Lockout.FiveIff | server/routes/auth.ts:91-171 | Over every run of checks, failures and successes the counter stays at most five exactly if no failure is recorded after a lock ran out with no check in between |
| Lockout.InterleavedLoginsCountSix | server/routes/auth.ts:91-171 | Such a failure occurs: a run in order that counts six |
| LockoutRegistry.AccountLockouts.IsAccountLocked | server/security.ts:313-331 | The check on the registry, and its reset of a lock that ran out |
| LockoutRegistry.AccountLockouts.RecordFailedLogin | server/security.ts:337-386 | The record of a failure on the registry |
| LockoutRegistry.AccountLockouts.Unlock | server/security.ts:391-409 | Clearing an account |
| LockoutRegistry.AccountsAreIndependent | server/security.ts:313-386 | Every identifier of a mixed run sees its own operations only |
| LockoutRegistry.BruteForceBoundPerIdentifier | server/security.ts:313-386 | The bound, with the same minutes, for each normalized identifier of a mixed run |
| LockoutRegistry.BruteForceBoundPerUser | server/routes/auth.ts:102-107 | For a user with an email and a user name: the n-th counted failure over both comes no earlier after the first than those minutes for (n − 1) / 10 lockouts, in any interleaving |
| LockoutRegistry.BruteForceBoundPerUserIsExact | server/routes/auth.ts:102-107 | No better bound holds, for any n |
| Identifiers.NormalizeIdempotent | server/security.ts:52-69 | Normalizing twice is normalizing once, so login and lockout meet at one key |
| Identifiers.NormalizedExactly | server/security.ts:52-69 | The key is the trimmed and lower-cased text; if it has no at sign, every character but small letters, digits, underscores and dots becomes an underscore |
| Identifiers.TrimExactly | server/security.ts:52-69 | Trimming cuts white space off both ends, all of it and nothing else |
| Identifiers.NormalizeKeepsContent | server/security.ts:52-69 | An identifier that is not blank keeps a key that is not blank |
| RateLimiter.RunKeeps | server/security.ts:253-291 | Windows open more than their length apart, every allowed request lies in its window, and none holds more than its maximum |
| RateLimiter.HitExactly | server/security.ts:253-291 | What a call does and is told: it opens a window, is denied by a full one without any change, or counts |
| RateLimiter.SlidingBound | server/security.ts:253-291 | Any closed interval as long as the window holds at most twice the maximum less one allowed requests, and each window at most the maximum |
| RateLimiter.SlidingBoundIsExact | server/security.ts:253-291 | For every maximum and window some run reaches that bound |
| RateLimiter.FullUntilReset | server/security.ts:261-282 | A full window stays as it is whatever calls come, and denies exactly up to and including the instant of its reset; the next millisecond opens a new one |
| RateLimiter.RetryAfterReachesReset | server/security.ts:272-281 | The seconds a denied caller is told reach the reset and no more |
| RateLimiter.RemainingIsExact | server/security.ts:261-290 | An allowed caller is told exactly how many more calls the window lets through |
| RateLimiter.KeysAreIndependent | server/security.ts:253-295 | A key sees its own requests only |
| RateLimiter.SlidingBoundPerKey | server/security.ts:253-295 | The bound for each such key of a mixed run |
| RateLimiter.Limiter.Check | server/security.ts:253-291 | The method's result and its effect on the registry |
| RateLimiter.Limiter.Clear | server/security.ts:293-295 | Clearing a key |
| Base64Url.Base64UrlDecode | server/security.ts:117-123 | The padding loop fills up to a multiple of four |
| Base64Url.DecodeEncode | server/security.ts:109-123 | Decoding undoes encoding on every byte string |
| Base64Url.EncodedGroup | server/security.ts:109-115 | Three bytes as one number make four digits to the base 64 (section 5 of RFC 4648) |
| Base64Url.EncodedByte | server/security.ts:109-115 | A single byte left over makes two digits, the missing bits zero |
| Base64Url.EncodedPair | server/security.ts:109-115 | Two bytes left over make three |
| Base64Url.UrlCharIs | server/security.ts:109-115 | The digits are A-Z, a-z, 0-9, - and _ in this order |
| Base64Url.PaddingFills | server/security.ts:117-123 | The padding consists of equals signs and fills up to the next multiple of four |
| Base64Url.EncodedText | server/security.ts:109-115 | Encoding yields letters, digits, '-' and '_' only, in the length of section 5 of RFC 4648 without padding |
| Base64Url.EncodeDecodeIff | server/security.ts:109-123 | A text is the code of what it decodes to exactly if it is canonical |
| Jwt.JoinSplit | server/security.ts:163-166 | The parts of a token join to the token |
| Jwt.VerifySigned | server/security.ts:125-194 | A token signed at t for ttl seconds is valid at t' exactly if t/1000 + ttl is zero or t'/1000 is not past it, in whole seconds; it yields the signed claims with iat = t/1000 and exp = t/1000 + ttl |
| Jwt.VerdictExactly | server/security.ts:158-194 | What a token of three plain parts is answered, by its signature, its payload and the second of the check |
| Jwt.BadFormatIff | server/security.ts:160-166 | A non-empty token is refused for its format exactly if it is not three parts between two dots |
| Jwt.DiffersFromStandardIff | server/security.ts:183-190 | Exactly where this differs from section 4.1.4 of RFC 7519 |
| Jwt.OtherKeyIff | server/security.ts:170-180 | A check under another key fails unless that key hashes the text alike |
| Jwt.SignatureCheckIff | server/security.ts:158-180 | The texts that pass the signature check are exactly two plain parts with the code of their hash |
| Jwt.AnotherSpellingIff | server/security.ts:170-180 | Exchanging the payload text under a signature fails unless the texts hash alike |
| GroupCallRows.CountJoined | server/routes/groupCalls.ts:248-252 | The count of joined rows |
| GroupCallRows.AllLeftEmpties | server/routes/groupCalls.ts:493-498 | After the update that ends everybody's participation nobody is joined, and roles, users and other rows are unchanged |
| GroupCallRows.UserLeftCounts | server/routes/groupCalls.ts:936-944 | The webhook's update takes exactly the user's joined rows out of the count |
| GroupCallCapacity.Limit | server/routes/groupCalls.ts:13-37 | The participant limit: what was asked for, but at least two, and never above the configured one |
| GroupCallCapacity.JoinActionsExactly | server/routes/groupCalls.ts:248-290 | The separate steps of a join up to its write: it counts the joined rows, reads a row of its user, and goes on if that row is joined already or the count was below the limit |
| GroupCallCapacity.WriteExactly | server/routes/groupCalls.ts:262-290 | Its write makes the row it has read a joined one or adds one, for the creator as host |
| GroupCallCapacity.RowActionsExactly | server/routes/groupCalls.ts:186-430 | The single-row statements of leave, hand-over and invite change one field or add one row |
| GroupCallCapacity.BulkActionsExactly | server/routes/groupCalls.ts:493-944 | The updates of `/end` and of the webhook change the joined rows, or those of the user, and no other |
| GroupCallCapacity.SlotsBound | server/routes/groupCalls.ts:248-290 | Joined rows and joins in flight never claim more places than counted |
| GroupCallCapacity.StepKeeps | server/routes/groupCalls.ts:186-290 | Every step of every handler and webhook keeps taken and claimed places below the limit plus the joins in flight |
| GroupCallCapacity.CapacityHolds | server/routes/groupCalls.ts:39-290 | From the first insert of `create` on, with at most p joins between check and write, the creator's own insert counted among them: joined rows never exceed the limit − 1 + p; p = 1 gives the exact limit even with several rows a user |
| GroupCallCapacity.CapacityBoundIsReached | server/routes/groupCalls.ts:248-290 | For every limit and p some run reaches that number |
| GroupCallCapacity.EndedRoomHolds | server/routes/groupCalls.ts:244-290 | Over every interleaving an ended call has never more joined rows than joins were in flight when it ended and have counted since, having found it active |
| GroupCallCapacity.EndedRoomIsFilled | server/routes/groupCalls.ts:244-290 | For every limit and n some call ends with n joins in flight that all go through |
| GroupCallCapacity.LateCreatorOverfills | server/routes/groupCalls.ts:39-52 | For every limit: joins strictly one after the other before the creator's insert, and then that insert, make the limit + 1 |
| GroupCallRoom.StepKeepsHost | server/routes/groupCalls.ts:230-498 | Join, leave, end and invite keep a joined host in an active call and nobody joined in an ended one |
| GroupCallRoom.CreateExactly | server/routes/groupCalls.ts:13-52 | `create` makes an active call without rows and then the creator its joined host |
| GroupCallRoom.JoinExactly | server/routes/groupCalls.ts:230-290 | Exactly when a join is refused, for an unknown or foreign call, an ended one or a full one, and that nothing changes then; otherwise the row found is joined with its role or one is added |
| GroupCallRoom.LeaveExactly | server/routes/groupCalls.ts:357-430 | Exactly when a leave is refused; otherwise the row found has left, the call ends if nobody else is joined, and a host hands over |
| GroupCallRoom.PossibleExactly | server/routes/groupCalls.ts:262-430 | The row a handler works on is any row of the user, and the heir any other joined row |
| GroupCallRoom.InviteExactly | server/routes/groupCalls.ts:138-224 | Exactly when an invitation is refused; otherwise the rows of the invited come behind the others |
| GroupCallRoom.InvitedExactly | server/routes/groupCalls.ts:180-192 | Every user of the tenant gets one invited row for each time he is named, and nobody else any |
| GroupCallRoom.WebhooksExactly | server/routes/groupCalls.ts:934-953 | The webhooks change the user's rows, or whether the call goes on, and nothing else |
| GroupCallRoom.StepHostedIff | server/routes/groupCalls.ts:934-953 | One step breaks that exactly if it is a webhook that takes the last joined host, or finishes the room, while the call is active, or the insert of the creator of an ended call |
| GroupCallRoom.EntryHosts | server/routes/groupCalls.ts:47-52 | The creator's insert makes a call hosted exactly if it is still active |
| GroupCallRoom.AlwaysHosted | server/routes/groupCalls.ts:375-430 | Over every run, webhooks included and whichever rows the database picks: from any moment at which it holds, it holds throughout exactly if no such step comes |
| GroupCallRoom.EntryFirst | server/routes/groupCalls.ts:39-52 | So a call whose creator comes in before anybody else is hosted throughout exactly if no such step comes |
| GroupCallRoom.LateCreatorIsStranded | server/routes/groupCalls.ts:39-52 | A guest who joins by the room id and leaves before the creator's insert leaves an ended call with a joined creator |
| GroupCallRoom.JoinCounts | server/routes/groupCalls.ts:248-290 | After a join the user is joined, the count rises by one unless already joined, and reaches at most the limit |
| GroupCallRoom.LeaveCounts | server/routes/groupCalls.ts:375-430 | After a leave the row has left and no other status changed, the call goes on exactly if somebody is joined, and a leaving host hands over |
| GroupCallRoom.EndedStaysEnded | server/routes/groupCalls.ts:401-416 | An ended call stays ended, webhooks included |
| GroupCallRoom.WebhooksBreakHosting | server/routes/groupCalls.ts:934-953 | Both kinds of harmful webhook occur |
| GroupCallRoom.OneHostStepIff | server/routes/groupCalls.ts:262-430 | From at most one joined host a step leads to two exactly if, while a joined host stands, a join brings back a row with the host role or inserts one for the creator, or a leave picks a row that has the role without being joined and hands over to somebody else |
| GroupCallRoom.OneHostIff | server/routes/groupCalls.ts:262-430 | Over every run at most one host is joined throughout exactly if no such step comes |
| GroupCallRoom.RejoiningHostDoubles | server/routes/groupCalls.ts:262-290 | A host who leaves and rejoins is such a step, in every call with a second participant and room |
| GroupCallRoom.LeavingTwiceDoubles | server/routes/groupCalls.ts:375-430 | So is a host who leaves twice, with two heirs left |
| GroupCallRoom.EndIsAllOrNothing | server/routes/groupCalls.ts:453-517 | `/end`, three statements without a transaction, takes effect as a whole and says so, exactly if a host of the tenant names the call by its own id; otherwise it changes nothing and answers an error, each exactly when, and named by the room that of the refused event |
| GroupCallRoom.EndEmptiesForGood | server/routes/groupCalls.ts:453-517 | Over every run nobody is joined again after a successful `/end`, unless the creator's insert is still to come |
| GroupCallRoom.CreationIsTwoSteps | server/routes/groupCalls.ts:39-52 | Creation without interruption is its two interleaved steps run in a row |
| GroupCallRoom.JoinIsThreeSteps | server/routes/groupCalls.ts:230-290 | The atomic join is the three interleaved steps run in a row |
| GroupCallObject.GroupCall.constructor | server/routes/groupCalls.ts:37-45 | The first insert of `create`: an active call without rows |
| GroupCallObject.GroupCall.EnterCreatorRow | server/routes/groupCalls.ts:47-52 | The second one: the creator as joined host, whatever has happened in between |
| GroupCallObject.GroupCall.JoinCall | server/routes/groupCalls.ts:230-290 | The join handler |
| GroupCallObject.GroupCall.LeaveTheCall | server/routes/groupCalls.ts:357-430 | The leave handler with hand-over or end |
| GroupCallObject.GroupCall.EndTheCall | server/routes/groupCalls.ts:453-517 | The end handler statement by statement; success ends the call with nobody joined, any other answer leaves it as it was |
| GroupCallObject.GroupCall.InviteUsers | server/routes/groupCalls.ts:138-224 | The loop over the invited users |
| CallClaims.OneTabBetweenEnds | server/routes/calls.ts:331-410 | Between two ends of a call all granted claims and tagged acceptances name one tab |
| CallClaims.StatesExactly | server/routes/calls.ts:264-545 | The state each step gives a listed call: an acceptance connects, a refusal, a cancellation, an end or the timeout of a ringing call ends it, a claim leaves it |
| CallClaims.ClaimsExactly | server/routes/calls.ts:331-531 | The first tab that claims or accepts has the claim, and nothing but an end takes it away |
| CallClaims.TimeoutsExactly | server/routes/calls.ts:264-531 | Which steps take the timeout out of the registry and stop it |
| CallClaims.EntryAgrees | server/routes/calls.ts:264-304 | Over every run the registry of timeouts holds the handle of every timer that may still fire, and none of a timer that is over |
| CallClaims.TimedIsUnclaimed | server/routes/calls.ts:264-360 | If no claim precedes the registration of the timeout, a call with a registered timeout is unclaimed |
| CallClaims.TimeoutSparesClaimed | server/routes/calls.ts:264-360 | Then no timeout is left to end a claimed call |
| CallClaims.TimedOutClaimIff | server/routes/calls.ts:264-304 | Whenever the timeout fires on a ringing call it ends it, and that call is claimed exactly if it was when the timeout was registered, by the same tab |
| CallClaims.ClaimedCallTimedOut | server/routes/calls.ts:264-360 | Such a run |
| CallClaims.TimeoutEndsIff | server/routes/calls.ts:264-420 | The timeout that fires ends the call exactly if nothing has settled it since it was listed |
| CallClaims.TimeoutSparesAnswered | server/routes/calls.ts:264-420 | So it never ends a call that was accepted once it was listed, however the steps interleave |
| CallClaims.AnsweredTooEarly | server/routes/calls.ts:381-424 | An acceptance that comes before the listing is answered and the call is still timed out |
| CallClaims.EndedIff | server/routes/calls.ts:264-545 | With every write of the state taking effect at once: a call has ended exactly if the last step that wrote its state was a cancellation, an end, a declining response or the timeout of a ringing call |
| CallCopies.NeverRingsAgain | server/db.ts:1237-1279 | With the objects that `persistCall` lists in place of one another: a listed call that has stopped ringing never rings again |
| CallCopies.MovedExactly | server/db.ts:1270-1275 | A write that the database takes lists a new object with the state of the one it was given; the invite handler waits for two of them before it sets the timeout |
| CallCopies.RunAlike | server/db.ts:1237-1279 | Over every run, late writes included: claims, timeouts and whether the call rings are those of the same steps with every write at once |
| CallCopies.TimeoutSparesAnsweredCopies | server/routes/calls.ts:264-424 | So the timeout leaves a call alone that was accepted once it was listed, whatever writes are late |
| CallCopies.StatesAgreeIff | server/db.ts:1270-1273 | The whole state is that of the steps at every moment exactly if no late write is stored over a listed object in another state |
| CallCopies.EndedIffTimely | server/db.ts:1270-1273 | Then a call has ended exactly if the last step that wrote its state ended it |
| CallCopies.AcceptedAndHeld | server/db.ts:1270-1273 | Any listed call that no handler writes can come to wait for the write of an object that is no longer listed |
| CallCopies.EndedCallComesBack | server/db.ts:1270-1273 | Then an end is undone: the call comes back as held |
| CallClaims.FiresOnce | server/routes/calls.ts:264-304 | The timeout of a call fires at most once |
| CallClaimsObject.CallRegistry.ClaimCall | server/routes/calls.ts:323-370 | The claim handler, its answer, and that no other call changes |
| CallClaimsObject.CallRegistry.RespondToCall | server/routes/calls.ts:381-424 | The response handler |
| CallClaimsObject.CallRegistry.CancelCall | server/routes/calls.ts:460-483 | The cancel handler, which leaves the claim |
| CallClaimsObject.CallRegistry.EndCall | server/routes/calls.ts:517-545 | The end handler, which drops the claim |
| CallClaimsObject.CallRegistry.FireTimeout | server/routes/calls.ts:264-273 | The timeout callback up to its first `await` |
| CallClaimsObject.CallRegistry.SettleTimeout | server/routes/calls.ts:299-301 | Its `finally` |
| MessageThreads.Find | server/routes/messages.ts:354 | The first message that satisfies a condition, or that none does |
| MessageThreads.PostKeeps | server/routes/messages.ts:350-386 | A post keeps parents earlier, roots inherited and counters in balance |
| MessageThreads.FinishKeeps | server/routes/messages.ts:389-401 | The rest of a post after its `await` keeps them too, in any order |
| MessageThreads.DeleteKeeps | server/routes/messages.ts:531-550 | A soft deletion keeps them |
| MessageThreads.RunKeeps | server/routes/messages.ts:241-550 | And every run |
| MessageThreadsProofs.IndexIsReachability | server/routes/messages.ts:350-359 | threadRootMessageId names r exactly if top-level r is reached along parents |
| MessageThreadsProofs.PostAnswers | server/routes/messages.ts:319-386 | Exactly when a post is a duplicate, a reply to something gone, or a new message, whose root is the top of what it replies to |
| MessageThreadsProofs.PostExactly | server/routes/messages.ts:319-386 | In any log: a duplicate and a reply to something gone change nothing, a new message takes its fields from the request and its root from its parent and comes last, and its write waits |
| MessageThreadsProofs.FinishExactly | server/routes/messages.ts:389-401 | Then its clientMessageId is remembered with the time, and its thread root, and nothing else, counts one reply more |
| MessageThreadsProofs.DeleteExactly | server/routes/messages.ts:531-550 | A deletion marks the message with that id and tenant and changes nothing else |
| MessageThreadsProofs.SweepExactly | server/routes/messages.ts:14-20 | A sweep forgets exactly the ids remembered for more than thirty minutes |
| MessageThreadsProofs.ChronologicalSorts | server/routes/messages.ts:219-221 | The sort gives the same messages in order of time |
| MessageThreadsProofs.ThreadIsLiveDescendants | server/routes/messages.ts:219-221 | The thread of a top-level message lists its live transitive descendants, oldest first |
| MessageThreadsProofs.ThreadOfReplyIsShallow | server/routes/messages.ts:219-221 | The thread of a reply lists its own live replies only |
| MessageThreadsProofs.ReachableThreads | server/routes/messages.ts:205-231 | All three over every run |
| MessageThreadsProofs.RepliesCountIsDescendants | server/routes/messages.ts:393-401 | repliesCount plus the posts still waiting is the number of descendants, live and deleted |
| MessageThreadsProofs.CounterAgainstThread | server/routes/messages.ts:219-230 | It exceeds the thread view by exactly the deleted descendants |
| MessageThreadsProofs.RepeatsAreAbsorbedIff | server/routes/messages.ts:319-325 | One clientMessageId yields at most p messages exactly if never more than p of its posts wait at once; p = 1 is the client that waits for each answer |
| MessageThreadsProofs.OverlappingRepeatsDuplicate | server/routes/messages.ts:319-391 | Two overlapping ones do yield two |
| MessageLogObject.MessageLog.FindMessage | server/routes/messages.ts:354 | The search loop |
| MessageLogObject.MessageLog.Post | server/routes/messages.ts:319-386 | The post handler up to its `await` |
| MessageLogObject.MessageLog.Finish | server/routes/messages.ts:389-401 | The rest of it |
| MessageLogObject.MessageLog.Delete | server/routes/messages.ts:531-550 | The delete handler |
| CursorPagination.PageSize | server/routes/messages.ts:89 | A page size lies between 1 and 100, is the limit if that does, 50 for a missing limit, a zero or what is no number, 100 for a larger one and 1 for a negative one |
| CursorPagination.FindIndex | server/routes/messages.ts:94 | The first position of the cursor |
| CursorPagination.FetchBlock | server/routes/messages.ts:88-119 | A page is an ordered block ending at the cursor; whatever else lies below it is below the block, and then there is more |
| CursorPagination.BeforePage | server/routes/messages.ts:100-104 | A backward page holds no more than asked for; hasMore exactly if a listed message before the cursor is missing, and then the page is full |
| CursorPagination.AfterPage | server/routes/messages.ts:96-99 | A forward page holds the next messages after the cursor; hasMore exactly if a later one is missing, and then the page is full |
| CursorPagination.ShownOnceInOrder | server/routes/messages.ts:88-128 | However the list changes, while cursors stay listed: what is shown is strictly ordered, so nothing twice |
| CursorPagination.FinishedWalkIsComplete | server/routes/messages.ts:88-128 | A finished walk has shown every message listed throughout |
| CursorPagination.WalkEnds | server/routes/messages.ts:88-128 | The walk ends: fetches that report more ask for fewer messages than the first list held |
| CursorPagination.AfterUndoesBefore | server/routes/messages.ts:96-104 | Going forward from a page's first message returns the rest of it and the cursor |
| CursorPagination.BeforeUndoesAfter | server/routes/messages.ts:96-104 | And the other way round |
| CursorPagination.SecondPageIsNewIff | server/routes/messages.ts:105-114 | After one deletion the second page is all new exactly unless the cursor was deleted and the first page held more |
| MessageHistory.ListingSorted | server/routes/messages.ts:65-86 | Every listing follows the order of the log |
| MessageHistory.ListedExactly | server/routes/messages.ts:65-86 | What a channel, a thread and a conversation list |
| MessageHistory.DeletedIsGone | server/routes/messages.ts:65-86 | A deleted message is in no thread and on no list but a conversation's, and a reply to it is refused |
| MessageHistory.DeletionIsForGood | server/routes/messages.ts:531-550 | Over every run a deletion by the tenant of a message makes it so for good |
| MessageHistory.ListingGrows | server/routes/messages.ts:65-86 | What a later listing adds was posted after everything in the earlier log |
| MessageHistory.HistoryIsComplete | server/routes/messages.ts:57-128 | Over every run of posts and deletions around the fetches, with no cursor deleted: no repetition, in order, ends, and complete |
| MessageHistory.ConversationHistoryIsComplete | server/routes/conversations.ts:393-422 | For conversations the same without any condition |
| Hyphenation.NormalStaysIff | server/routes/channels.ts:11-19 | The replacements leave a text alone exactly if it is a normal form |
| Hyphenation.HyphenateIsJoinedWords | server/routes/channels.ts:16-18 | They give the words of the text joined by single hyphens |
| Hyphenation.KeptIff | server/routes/channels.ts:16 | The characters of words are small letters, digits and, in channel names, the underscore |
| Hyphenation.SlugReplacements | server/routes/workspaces.ts:40-41 | The slug's two replacements do the same |
| ChannelNames.NormalizedIsNormal | server/routes/channels.ts:11-19 | Every channel name is over [a-z0-9_-], without "--" and without a hyphen at either end |
| ChannelNames.NormalizeIdempotent | server/routes/channels.ts:11-19 | Normalizing twice is normalizing once |
| ChannelNames.ImageIff | server/routes/channels.ts:11-19 | The names that occur are exactly the normal forms |
| ChannelNames.NameIsJoinedWords | server/routes/channels.ts:11-19 | A name is the words of the cleaned text; trimming and hash signs do not matter |
| ChannelNames.FindChannel | server/routes/channels.ts:246 | The first channel with the id in the workspace |
| ChannelNames.LiveNamesAreUnique | server/routes/channels.ts:97-136 | Over every run no two live channels of a workspace share a name |
| ChannelNames.CreateAnswers | server/routes/channels.ts:93-110 | Exactly when a creation is refused as invalid or as existing |
| ChannelNames.CreateExactly | server/routes/channels.ts:112-136 | A creation that is not refused adds one live channel with that name behind the others; a refused one changes nothing |
| ChannelNames.DeleteExactly | server/routes/channels.ts:244-250 | A deletion marks the first channel with the id in the workspace and changes nothing else |
| ChannelNames.DeletionFreesTheName | server/routes/channels.ts:103-250 | A name is taken while its channel lives and free once it is deleted |
| ChannelNames.ChannelDirectory.CreateChannel | server/routes/channels.ts:93-136 | The create handler |
| ChannelNames.ChannelDirectory.DeleteChannel | server/routes/channels.ts:244-250 | The delete handler |
| Slugs.UniqueSlug | server/routes/workspaces.ts:44-49 | The loop ends after at most as many collisions as there are different slugs, at the first free candidate |
| Slugs.CandidatesDiffer | server/routes/workspaces.ts:48 | The candidates are all different |
| Slugs.CandidateExactly | server/routes/workspaces.ts:44-49 | The first candidate is the base, the k-th after it ends in the numeral of k |
| Slugs.BaseIsJoinedWords | server/routes/workspaces.ts:40-42 | The base is the words of the name joined by hyphens, or a time stamp if there are none |
| Slugs.SlugIsNormal | server/routes/workspaces.ts:40-49 | Every slug that comes out is a normal form |
| Slugs.WorkspaceList.CreateWorkspace | server/routes/workspaces.ts:40-66 | Creation keeps slugs distinct |
| Outbox.AttemptsAreConserved | server/db.ts:741-757 | Handler invocations of an event equal its retries plus one if processed, at most five, and at most one succeeds; its error is that of its last failure |
| Outbox.MarkedExactly | server/db.ts:741-757 | An event is due while it is not processed and has failed less than five times; true and a promise make it processed, anything else counts a failure with its message |
| Outbox.DeliverExactly | server/db.ts:743-755 | An attempt changes its event only; what the handler enqueues comes behind the others |
| Outbox.PassExactly | server/db.ts:741-757 | A pass hands the handler exactly the events due, in order, and logs what it answered |
| Outbox.FailuresBlockNothing | server/db.ts:741-757 | A pass attempts exactly the pending events, once each and in order, however the others fare |
| Outbox.FivePassesSettle | server/db.ts:741-757 | Five passes settle every event enqueued before them |
| Outbox.SettledStays | server/db.ts:741-757 | A processed or given-up event never changes again and is never attempted again, however the run goes on |
| Outbox.PromisesCountAsDelivered | server/db.ts:745-748 | Over every run, an event whose handler once returned a promise is processed, and no later attempt is made on it |
| Outbox.OutboxQueue.Enqueue | server/db.ts:729-739 | The new event at the end |
| Outbox.OutboxQueue.Handle | server/db.ts:743-755 | One round of the loop |
| Outbox.OutboxQueue.Process | server/db.ts:741-757 | The loop |

## Left out

- Presence writes outside the hub (status changes, user switching, heartbeats): the presence statements count the hub's own writes.
- Which channels and conversations a connecting user is subscribed to: the set of groups is a parameter of registration.
- RefreshClient.ClientStaysNear: assumes that nobody else presents tokens of this session and that login and logout do not happen during the run, because a second client or tab with the same stored token is a different protocol.
- Several sessions of one user, the list of sessions and its revocation routes, beyond one revocation step.
- The IP addresses and the time of the last attempt in lockout records, which nothing reads for a decision.
- Base64Url.Decode: skips every character outside both alphabets wherever it stands, because nothing here decodes such a text; what Buffer does with a '=' in the middle is not modelled.
- Jwt.Verify: takes `exp` as an integer or absent, because the server signs no other; coercion of other JSON values is not modelled.
- Strings are sequences of Dafny characters, not UTF-16 units; the texts compared here are ASCII after cleaning.
- GroupCallRoom.Step: works on one call. A room id is unique, but a custom one can equal the id of another call, and which of the two such an id then finds is up to the order of unordered rows.
- Media server tokens, muting, video and notifications of group calls; of the event table only the reference that refuses an event of `/end`.
- GroupCallRoom.AlwaysHosted: takes join, leave, end and invite as one step each; interleaved, a join that found the call active writes after its end, as many as GroupCallCapacity.EndedRoomHolds says.
- CallClaims.EndedIff: has every write of the state take effect at once; CallCopies says exactly when that is so. Fields of a call other than its state are not modelled.
- CallClaimsObject.CallRegistry.HoldCall: does not model the refusal of a call of another tenant.
- Access checks of messages (channel membership, archived channels, inactive organizations before a post, authorship before a deletion, server/routes/messages.ts:541-545): they refuse a request without any effect.
- The content of messages, their edits, reactions and attachments.
- The reload from PostgreSQL and the POST of messages under /conversations, which both set the thread root to the direct parent: the thread statements are about POST /messages.
- MessageThreadsProofs.RepeatsAreAbsorbedIff: holds while no sweep forgets the clientMessageId, which the server keeps for thirty minutes.
- CursorPagination.PageSize: takes integers and non-numbers, because fractional limits only come from hand-made requests.
- ChannelNames.LiveNamesAreUnique: starts without channels and covers creation and deletion by the channel routes; default channels of new workspaces and organizations are pushed elsewhere.
- Slugs.WorkspaceList.CreateWorkspace: covers workspaces created by this route; the organization routes push their own.
- Outbox: a handler that calls processOutbox itself. The text of the failure of a handler that returns false is a constructor, not the string.
- GroupCallCapacity.Limit: takes the configured limit as an integer; a configuration that is not a number is not modelled.
- React state, Express routing, server-sent event sockets, PostgreSQL, LiveKit, Firebase and uploads: outcomes are oracles or parameters.
- Tasks, calendar, meetings, notifications, files and administration: plain create, read, update and delete.
