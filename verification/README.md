# Chat services: a verified model

A Dafny model of the four stateful cores of the chat repository, and proofs of what they promise
over whole runs. `dafny verify dfyconfig.toml` checks everything.

## What is modelled

**Realtime delivery** (`HubCore`, `HubProcess`, `PubSub`, `Delivery`, `DeliveryGuarantees`, `Overtaking`,
`Progress`).
`HubProcess` has the Hub and its clients as objects updated in place, with the select loop as a
loop that picks any ready case; every method is proved against a step of `HubCore`. `Delivery`
puts any number of replicas behind one published log and lets publishers, subscribers, Hubs,
WebSocket handlers and write loops step in any interleaving; the handler registers and unregisters
each client once, and the two requests travel in separate queues, so an unregister may overtake its
register. A publish is the moment an event enters the log; with the in-process pub/sub, the log is
what got into its channel. `DeliveryGuarantees` speaks of every run.

**Message history** (`MessageStore`, `Pagination`, `WalkArrivals`, `WalkCharacterization`, with
`Sorting` and `Strings`). Instants are integers of nanoseconds; `UnixNano` wraps as an int64 does. The sort is
unstable, so a page is described by *some* sorting of the matching messages. The cursor string is
empty, garbage, or carries a time and an id; encoding a time outside the years 0 to 9999 yields the
empty string, because the service drops that error. A walk is any sequence of calls that follows
the cursor, with any limits, while messages are inserted in between.

**Refresh tokens and users** (`UserStore`, `UserService`, `Rotation`, `RotationGuarantees`,
`AccountGuarantees`, `ConcurrentRefresh`). In `Rotation` each call is one atomic step; in `ConcurrentRefresh` the lookup, the
revocation and the issue of a refresh are separate steps that interleave with those of others. Ids, token values and clock readings are step inputs: drawn values are
new (a new token's hash differs from the stored hashes), and the clock does not go back. Hashing,
password comparison and lower-casing are arbitrary functions. Signing and the random source may fail,
also after the old token has been revoked.

**Rooms, membership and the message gate** (`RoomStore`, `RoomService`, `Gate`, `Provenance`,
`Enrichment`). `Provenance` interleaves single calls on the repositories; the membership check of
SendMessage and the insert are two steps.

**JWKS exponent** (`Jwks`): the octets of Base64urlUInt, section 2 of RFC 7518, for the `e` parameter
of section 6.3.1.2.

## What came out

- An unregister that overtakes its register is a no-op, and the register that follows leaves the
  client in its room for good: whatever happens next, it stays a subscriber and its channel stays open
  (`OvertakenStaysForGood`). docs/phase/phase-2.md:143 says that unregistering closes the channel; the
  code does so exactly if the register was handled first (`StaysRegisteredIffOvertaken`), and a handler
  about to call Unregister can be sure of it exactly if the Hub has handled the register by then
  (`SureToCloseIffJoined`).
- Following the cursor is complete exactly for rooms in which the sort and the cursor agree
  (`EveryWalkCompleteIffSafe`). For messages with ids and with times of the years 0 to 9999 that means
  distinct keys, and no two times that the wrap of UnixNano turns around
  (`EveryWalkCompleteIffClocksAgree`). Late times alone do no harm: if all times lie on one side of the
  wrap, distinct keys are enough (`EveryWalkCompleteIffKeysDistinct`); but a room with a message from
  before the wrap of the year 2262 and one from after it, less than some 584 years apart, has walks
  that are not (`WrapBreaksWalks`, `WrapTurnsAround`). Neither case arises from `Send` as long as it
  draws fresh ids and the clock is in the range of UnixNano (`FreshIdsMakeCompleteWalks`).
- Of the messages that arrive during a walk over a safe room, the client has been shown, once the walk
  is over, exactly those that lie below the cursor of the call after their arrival
  (`ArrivalIsShownIff`).
- services/user-service/internal/user/service.go:107 has a refresh token used once only. That holds for
  atomic calls (`RedeemedAtMostOnce`). When the repository calls of refreshes interleave, a second one
  passes its checks exactly if it looks the token up before the expiry and before anybody has revoked it
  (`SecondPassesIff`), and two that both look before either revokes can both succeed, with any token that
  can be redeemed at all (`RaceRedeemsTwice`). If each refresh revokes in the step after its lookup, a
  token is redeemed at most once (`SingleUseIfRevokedAtOnce`).
- An authenticated message call on a room that does not exist is answered with PermissionDenied in
  every run, and NotFound is never answered (`GateFollowsHistory`, and the contracts of
  `Gate.Adapter`): the membership check comes first and knows no rooms. docs/architecture/api-design.md has a row for either answer,
  403 for non-members (line 150) and 404 for a missing room (line 151); the code follows the first.
- The membership check is not repeated at the insert. The sender of a message is a member when it is
  stored exactly unless it is out of the room since the check, that is, left and did not come back
  (`StoredByMemberIff`); the other case does happen (`LeaverCanStillSend`).

## Model

| member | source | states |
|---|---|---|
| HubCore.HandlingKeepsHubOk | services/realtime-service/internal/hub/hub.go:60-92 | No iteration of the loop, whichever case is picked, sends on or closes a closed channel; room sets stay non-empty and hold only open clients of their room, the register queue only open clients that are in no room set; one queued item is used up |
| HubCore.RegisteringTwicePanics | services/realtime-service/internal/hub/hub.go:50-87 | Why registering once is needed: register, unregister, register, broadcast of one client sends on a closed channel |
| HubCore.RegisteringKeepsHubOkIff | services/realtime-service/internal/hub/hub.go:48-50 | Exactly which clients may be handed to Register without endangering the loop |
| HubCore.DrainTakesQueueLength | services/realtime-service/internal/hub/hub.go:60-92 | Without producers the queues are empty after exactly as many iterations as items were queued, in whatever order the cases are picked |
| HubCore.BroadcastOrderIrrelevant | services/realtime-service/internal/hub/hub.go:78-87 | Every order in which the range loop visits the subscribers leaves every channel the same: clients with space get the payload, full ones and all others are untouched |
| HubProcess.Client.constructor | services/realtime-service/internal/hub/client.go:16-25 | An empty, open channel with as many places as asked for, or 32 if that is not a positive number |
| HubProcess.Client.TrySend | services/realtime-service/internal/hub/hub.go:83-86 | Needs an open channel; never blocks; appends unless the channel is full, in which case nothing changes |
| HubProcess.Client.Receive | services/realtime-service/internal/ws/handler.go:94-97 | The write loop gets buffered payloads in order, then the close |
| HubProcess.Hub.Register | services/realtime-service/internal/hub/hub.go:48-50 | Queues any client unless 16 are waiting; the Hub's invariant survives exactly if the client is open, not yet queued and in no room set, as one registered for the first time is |
| HubProcess.Hub.Unregister | services/realtime-service/internal/hub/hub.go:52-53 | Queues the request of any client, registered or not, unless 16 are waiting; the channel is not touched here |
| HubProcess.Hub.LocalBroadcast | services/realtime-service/internal/hub/hub.go:55-57 | Queues the event behind those waiting, unless 256 are |
| HubProcess.Hub.TakeOneRegister | services/realtime-service/internal/hub/hub.go:63-67 | Performs the register step in place and keeps the Hub's invariant |
| HubProcess.Hub.TakeOneUnregister | services/realtime-service/internal/hub/hub.go:68-77 | Performs the unregister step in place: a member is removed, its channel closed once, an emptied room deleted; anyone else is left alone |
| HubProcess.Hub.TakeOneBroadcast | services/realtime-service/internal/hub/hub.go:78-87 | The loop over the subscribers, in any order, performs the broadcast step |
| HubProcess.Hub.Run | services/realtime-service/internal/hub/hub.go:60-92 | The loop only ever takes steps of the model, returns only after a stop, and otherwise comes to rest with empty queues after exactly as many iterations as items were queued |
| PubSub.InMem.Offer | services/realtime-service/internal/pubsub/inmem.go:34-37 | A publisher past the closed check gets its event in, is released by a close, or stays blocked on a full channel of 64; what was sent is what was received plus what is buffered |
| PubSub.InMem.Publish | services/realtime-service/internal/pubsub/inmem.go:27-39 | After a close nothing is sent; an event gets into a closed channel only if the close falls between the check and the select |
| PubSub.InMem.Take | services/realtime-service/internal/pubsub/inmem.go:43-53 | The select of one turn: each receive yields the next event in the order of publication, a close or the end of the context may be picked as soon as it is there |
| PubSub.InMem.Subscribe | services/realtime-service/internal/pubsub/inmem.go:41-55 | While publishers, a close and the end of the context step in between, the subscriber is handed exactly what was sent, once and in order, up to what is still in the channel; without a close or an end every published event |
| Delivery.RunKeepsSystemOk | services/realtime-service/internal/hub/hub.go:60-92 | Every interleaving of publishing, subscribing, registering, unregistering, handling and consuming keeps the invariant of every replica and client |
| DeliveryGuarantees.NoRunTouchesClosedChannel | services/realtime-service/internal/hub/hub.go:63-87 | No run crashes on a closed channel, even when an unregister overtakes; a closed client is in no room set and not in the register queue |
| DeliveryGuarantees.LogIsConserved | services/realtime-service/cmd/server/main.go:72-81 | Events broadcast, then queued, then in the subscriber's hand, then unread are exactly the published log from where the replica subscribed |
| DeliveryGuarantees.MailIsInOrder | services/realtime-service/internal/hub/hub.go:78-87 | What a client consumed plus what is in its channel is an in-order, at-most-once selection of the log: events of its room, broadcast while it was registered |
| DeliveryGuarantees.LossIsAccountedFor | services/realtime-service/internal/hub/hub.go:78-87 | Delivered plus dropped is the number of broadcasts to the client's room while it was registered; nothing is dropped before a whole channel's worth was taken up; the channel never exceeds its capacity |
| DeliveryGuarantees.LossNeedsFullChannel | services/realtime-service/internal/hub/hub.go:80-86 | Only a broadcast that finds the client's channel full adds to what it lost, and only that one event |
| DeliveryGuarantees.ReplicasAgree | services/realtime-service/internal/pubsub/pubsub.go:1-7 | Two clients of any replicas see the events both got in the same order and with the same payload |
| DeliveryGuarantees.WellServedClientsGetTheSame | services/realtime-service/internal/hub/hub.go:78-87 | Two clients of one room, on any replicas, got exactly the same events of any stretch of the log through which both were registered and lost nothing, namely all events of the room |
| DeliveryGuarantees.StaysRegisteredIffOvertaken | services/realtime-service/internal/hub/hub.go:63-77 | Once both requests are handled, the client is still in its room with an open channel exactly if the unregister was handled first; otherwise it is out and closed |
| Overtaking.RunContinues | services/realtime-service/internal/hub/hub.go:60-92 | Whatever happens next, a client stays in its room's books: no request of its is handled twice, and the order in which its two requests were handled is never revised |
| Overtaking.OvertakenStaysForGood | services/realtime-service/internal/hub/hub.go:63-77 | A client whose unregister was handled first stays in its room with an open channel in every continuation |
| Overtaking.SureToCloseIffJoined | services/realtime-service/internal/hub/hub.go:60-77 | At any point before a running Hub has handled the unregister, in particular before the handler calls Unregister: every continuation that handles both requests closes the channel if and only if the register has already been handled |
| DeliveryGuarantees.OvertakingHappens | services/realtime-service/internal/ws/handler.go:63-65 | A run in which the unregister overtakes and the client stays |
| DeliveryGuarantees.RoomSetsAreTight | services/realtime-service/internal/hub/hub.go:63-77 | In every reachable state each stored room set is non-empty and holds clients of that room |
| Progress.BootIsFresh | services/realtime-service/cmd/server/main.go:72-81 | A replica starts running and subscribed at the end of the log, with nothing queued and nobody in |
| Progress.PublishLinesUp | services/realtime-service/internal/pubsub/inmem.go:27-39 | A publish enters the log last, and lines up behind everything else in every replica whose subscription stands |
| Progress.EveryEventCanBeBroadcast | services/realtime-service/cmd/server/main.go:72-81 | From every reachable state with a running Hub and a standing subscription, some continuation without a publish broadcasts the whole log from where the replica subscribed |
| Progress.EveryEventCanBeConsumed | services/realtime-service/internal/ws/handler.go:88-105 | From every such state, for every client in its room, some such continuation ends with the write loop having taken out what was in the channel and then the payload of every event of the room not yet broadcast, in order, none of them lost |
| Progress.NothingAfterStop | services/realtime-service/internal/hub/hub.go:88-97 | After Stop the Hub broadcasts nothing, and lets nobody in or out, in every continuation |
| Progress.NothingAfterEndOfSubscription | services/realtime-service/internal/pubsub/inmem.go:41-55 | After Subscribe has returned the replica takes nothing more from the log, in every continuation |
| Progress.StepsBlockExactly | services/realtime-service/internal/hub/hub.go:38-57 | A step waits exactly for room among 16, 16 or 256, for something to receive, or for the Hub to run |
| MessageStore.NewerReversesBelow | services/chat-service/internal/message/repository_inmem.go:43-61 | In the range of UnixNano the sort comparison is the exact reverse of the cursor comparison, and only equal keys tie |
| MessageStore.NewerIsStrictWeakOrder | services/chat-service/internal/message/repository_inmem.go:43-48 | The comparator is fit for sorting |
| MessageStore.InMemRepository.Insert | services/chat-service/internal/message/repository_inmem.go:20-25 | Appends and changes nothing else |
| MessageStore.InMemRepository.ListByRoom | services/chat-service/internal/message/repository_inmem.go:27-53 | The result is a cut of some sorting of exactly the room's messages strictly below a non-zero cursor |
| MessageStore.MatchingCounts | services/chat-service/internal/message/repository_inmem.go:30-42 | The filter keeps every matching message as often as it is stored, and no other |
| Strings.TrimSpaceCut | services/chat-service/internal/message/service.go:48-51 | Trimming cuts white space only, at both ends, and leaves none there |
| Strings.LexLessIff | services/chat-service/internal/message/repository_inmem.go:43-61 | The order of ids: a proper prefix comes first, otherwise the smaller character at the first difference |
| Strings.SpacesAre | services/chat-service/internal/message/service.go:48-51 | White space is exactly the 25 characters listed |
| Sorting.SortingUnique | services/chat-service/internal/message/repository_inmem.go:43-48 | Without ties every sorted permutation is the same, so the unstable sort does not matter |
| Pagination.EffectiveLimit | services/chat-service/internal/message/service.go:91-99 | Always between 1 and 200; limits in that range are kept, 50 for none, 200 for more |
| Pagination.CursorComesBackIff | services/chat-service/internal/message/service.go:101-140 | The cursor string gives the cursor back exactly if it is the zero cursor, or has an id and a time of the years 0 to 9999 |
| Pagination.Service.Send | services/chat-service/internal/message/service.go:44-63 | Stores the trimmed message under the given id and time, or nothing if room, sender or trimmed content is empty |
| Pagination.Service.GetMessages | services/chat-service/internal/message/service.go:67-89 | Refused exactly for an empty room, a cursor that does not decode, or one without an id, each with its error; otherwise messages of the room below the cursor, newest first, at most 50 if no limit is given and 200 in any case; a page that is not full leaves none out and has no cursor, a full one leaves out none newer than it shows, and a cursor is that of the last message shown |
| Pagination.DistinctIdsAreWalkSafe | services/chat-service/internal/message/service.go:52-58 | Distinct non-empty ids and clock readings in the range of UnixNano make every room safe to walk |
| Pagination.SafeSorting | services/chat-service/internal/message/repository_inmem.go:43-48 | In a safe room whatever sorting the library picks is strictly ordered, for the sort and for the cursor |
| Pagination.SuffixAfterCursor | services/chat-service/internal/message/repository_inmem.go:35-48 | The query with a cursor is the part of the full sorted listing strictly after the cursor |
| Pagination.FixedWalkPrefix | services/chat-service/internal/message/service.go:67-89 | On a store that does not change, after any calls with any limits the client has seen exactly the newest messages it asked for, in order, and holds the cursor of the last one, or none at the end |
| Pagination.WalkOverWhenAllAsked | services/chat-service/internal/message/service.go:76-88 | The walk ends exactly when the limits add up to the room's size; no cursor is refused |
| Pagination.WalkShowsWholeRoom | services/chat-service/internal/message/service.go:67-89 | By then the client has been shown each message of the room as often as it is stored, and nothing else, newest first |
| Pagination.FixedLimitCallCount | services/chat-service/internal/message/service.go:76-88 | With one effective limit L a complete walk over n messages takes max(1, ceil(n/L)) calls |
| Pagination.InterleavedWalk | services/chat-service/internal/message/service.go:76-88 | Whatever is inserted between calls: the output is strictly decreasing, without duplicates, from the room only, and holds every message that was there at the start once the walk ends |
| WalkArrivals.WalkSince | services/chat-service/internal/message/service.go:67-89 | Since a call with cursor c, all that was shown lies below c, and each message stored by then and below c was shown or is below the present cursor |
| WalkArrivals.ArrivalIsShownIff | services/chat-service/internal/message/service.go:67-89 | A message that came in between two calls is shown by the end of the walk if and only if it lies below the cursor of the later call |
| Pagination.RemainingShrinks | services/chat-service/internal/message/service.go:76-88 | While inserts land above the cursor, each call takes exactly its page off what remains |
| Pagination.CursorMeansMore | services/chat-service/internal/message/service.go:80-87 | A cursor is handed out only if the next page will not be empty |
| Pagination.UndisturbedWalkIsBounded | services/chat-service/internal/message/service.go:76-88 | While inserts land above the cursor, a walk takes at most as many calls as there were messages at the start (one if none) |
| WalkCharacterization.EveryWalkCompleteIffSafe | services/chat-service/internal/message/service.go:67-89 | Every walk over a room is complete if and only if, of any two of its messages, sort and cursor agree which comes first and that one's key survives the cursor string |
| WalkCharacterization.EveryWalkCompleteIffClocksAgree | services/chat-service/internal/message/service.go:67-89 | With ids and times of the years 0 to 9999: if and only if no two messages of the room share time and id and UnixNano turns no two of its times around |
| WalkCharacterization.EveryWalkCompleteIffKeysDistinct | services/chat-service/internal/message/service.go:67-89 | With ids and with times in one stretch between two wraps of UnixNano: if and only if no two messages of the room share time and id |
| WalkCharacterization.EveryWalkCompleteInNanoRange | services/chat-service/internal/message/service.go:67-89 | With ids and times in the range of UnixNano: if and only if no two messages of the room share time and id |
| WalkCharacterization.SharedKeyBreaksWalks | services/chat-service/internal/message/repository_inmem.go:35-48 | Any room with two messages of one key: some walk is not complete |
| WalkCharacterization.WrapBreaksWalks | services/chat-service/internal/message/repository_inmem.go:37-39 | Any room with two messages whose order UnixNano turns around: some walk is not complete |
| WalkCharacterization.WrapTurnsAround | services/chat-service/internal/message/repository_inmem.go:37-39 | Exactly which two times the wrap turns around |
| WalkCharacterization.FreshIdsMakeCompleteWalks | services/chat-service/internal/message/service.go:52-58 | What Send stores under fresh ids with the clock in range is always walked completely |
| UserStore.LookupsAreFunctions | services/user-service/internal/user/repository_inmem.go:60-69 | Lookups by email and by token hash have one answer, whatever the map order |
| UserStore.InMemRepository.CreateUser | services/user-service/internal/user/repository_inmem.go:26-36 | Refuses exactly if some user has the email or the username |
| UserStore.InMemRepository.GetUsersByIds | services/user-service/internal/user/repository_inmem.go:48-58 | One answer per known id; the answer to an id stands behind those to the known ids before it |
| UserStore.InMemRepository.GetUserByEmail | services/user-service/internal/user/repository_inmem.go:60-69 | The linear scan finds the user with that email, or reports that there is none |
| UserStore.InMemRepository.UpdateUser | services/user-service/internal/user/repository_inmem.go:71-84 | Overwrites the profile fields of a known user and nothing else |
| UserStore.InMemRepository.GetRefreshTokenByHash | services/user-service/internal/user/repository_inmem.go:93-103 | The linear scan finds the token with that hash, or reports that there is none |
| UserStore.InMemRepository.RevokeRefreshToken | services/user-service/internal/user/repository_inmem.go:105-115 | Sets the revocation time of a known token and nothing else |
| UserService.Service.Register | services/user-service/internal/user/service.go:50-78 | Which inputs succeed and which error the others get; on success the user stored and returned has the trimmed and lower-cased email, the trimmed names, the hash and the time; a refusal changes nothing |
| UserService.Service.Login | services/user-service/internal/user/service.go:86-99 | InvalidCreds exactly if no user has the normalised email with a hash that matches; otherwise a pair for that user if signing and the random source work |
| UserService.Service.Refresh | services/user-service/internal/user/service.go:109-134 | TokenInvalid exactly if no unrevoked, unexpired token has the value; otherwise that token is revoked now, and its owner gets a pair if signing and the random source work |
| UserService.Service.UpdateMe | services/user-service/internal/user/service.go:148-171 | Each given profile field is set and each other one kept, with the update time; InvalidCreds without a requester, NotFound for an unknown one |
| UserService.Service.IssueTokenPair | services/user-service/internal/user/service.go:202-223 | Stores one live token for 30 days, in nanoseconds, under the hash of the value handed out, or nothing |
| Rotation.RunKeepsWorldOk | services/user-service/internal/user/service.go:86-134 | Every run keeps the store's uniqueness, each token's times, and the shape of its family |
| RotationGuarantees.IdentityIsStable | services/user-service/internal/user/repository_inmem.go:26-84 | Emails and usernames stay pairwise distinct; id, email, username, password hash and creation time never change; lookup by email finds exactly that user |
| RotationGuarantees.TokensFormForest | services/user-service/internal/user/service.go:120-133 | Every token descends from a login, has at most one successor, and is revoked if it has one |
| RotationGuarantees.TokenTimes | services/user-service/internal/user/service.go:120-133 | Creation, revocation and expiry are in order, expiry is creation plus 30 days, and a successor is not created before its predecessor is revoked |
| RotationGuarantees.RevocationIsFinal | services/user-service/internal/user/repository_inmem.go:105-115 | Tokens never vanish, revocation is written once and never undone, nothing else of a token changes |
| RotationGuarantees.OneLiveTokenPerLogin | services/user-service/internal/user/service.go:125-128 | In every run a successful login has left at most one unrevoked token, and it is its user's |
| RotationGuarantees.LiveTokensBoundedByLogins | services/user-service/internal/user/service.go:101-134 | A user's unrevoked tokens never outnumber that user's successful logins |
| RotationGuarantees.RefreshSucceedsIff | services/user-service/internal/user/service.go:109-134 | A refresh is refused exactly if no stored, unrevoked, unexpired token has the presented value; past that it succeeds exactly if signing and the random source do, and never fails for want of the owner |
| RotationGuarantees.RedeemedAtMostOnce | services/user-service/internal/user/service.go:101-108 | Once a refresh got past the checks, every later one with that value is refused |
| RotationGuarantees.IssuedTokenIsRedeemable | services/user-service/internal/user/service.go:202-223 | The value handed out can be redeemed by the next call for 30 days, and yields the same user |
| RotationGuarantees.RefreshNamesLoginUser | services/user-service/internal/user/service.go:129-133 | Through any number of refreshes the access token carries the claims handed out by the login at the root |
| AccountGuarantees.EveryCallIsAnswered | services/user-service/internal/user/service.go:50-171 | Every call of every run is answered and changes the store as the contracts of Register, Login, Refresh and UpdateMe say |
| AccountGuarantees.LoginSucceedsIff | services/user-service/internal/user/service.go:86-99 | In every run a login is refused exactly if no stored user has the normalised email with a matching hash; otherwise it succeeds exactly if signing and the random source work, and names that user |
| AccountGuarantees.RegisteredCanLogIn | services/user-service/internal/user/service.go:50-99 | After a successful registration every later login with an email that normalises the same and a password that matches the hash succeeds, and names the user who registered |
| ConcurrentRefresh.SecondPassesIff | services/user-service/internal/user/service.go:109-124 | After a refresh passed its checks, another with the same value passes too if and only if it looks before the expiry and no refresh has revoked the token in between |
| ConcurrentRefresh.SingleUseIfRevokedAtOnce | services/user-service/internal/user/service.go:101-128 | If every refresh revokes in the step after its lookup, a token is redeemed at most once |
| ConcurrentRefresh.IssueSucceedsIff | services/user-service/internal/user/service.go:125-134 | Once past checks and revocation a refresh succeeds exactly if signing and the random source do, whoever else refreshes |
| ConcurrentRefresh.IssueNeedsRevoke | services/user-service/internal/user/service.go:123-134 | Whoever issues a successor has revoked the old token before, however the calls interleave |
| ConcurrentRefresh.LoginIsAtomic | services/user-service/internal/user/service.go:86-99 | A login in the midst of refreshes is answered as ever and does not touch what they hold |
| ConcurrentRefresh.ThreeCallsAreRefreshing | services/user-service/internal/user/service.go:109-134 | With nothing in between, the three steps have the effect and the answer of the atomic refresh |
| ConcurrentRefresh.RaceRedeemsTwice | services/user-service/internal/user/service.go:109-134 | For any token that can be redeemed, two refreshes that both look before either revokes both succeed |
| RoomStore.InMemRepository.CreateRoom | services/chat-service/internal/room/repository_inmem.go:31-37 | Adds the room with no members |
| RoomStore.InMemRepository.AddMember | services/chat-service/internal/room/repository_inmem.go:78-89 | Refuses unknown rooms and members, otherwise records the joining time |
| RoomStore.InMemRepository.RemoveMember | services/chat-service/internal/room/repository_inmem.go:91-102 | Refuses unknown rooms and non-members, otherwise removes just that membership |
| RoomStore.InMemRepository.ListMembers | services/chat-service/internal/room/repository_inmem.go:104-117 | Each member of the room exactly once with its joining time, earliest first |
| RoomStore.InMemRepository.IsMember | services/chat-service/internal/room/repository_inmem.go:119-128 | True exactly for members, false for unknown rooms |
| RoomStore.InMemRepository.ListRoomsByMember | services/chat-service/internal/room/repository_inmem.go:49-60 | The first rooms, as many as the limit allows, of a listing of exactly the user's rooms, each once, newest first |
| RoomService.Service.CreateRoom | services/chat-service/internal/room/service.go:38-60 | A new room under the trimmed name, with the given id and time, whose only member is its creator, or no change |
| RoomService.Service.JoinRoom | services/chat-service/internal/room/service.go:102-115 | The requester is a member afterwards; a repeated join succeeds and changes nothing |
| RoomService.Service.LeaveRoom | services/chat-service/internal/room/service.go:119-125 | Succeeds exactly for members and removes only the requester |
| RoomService.Service.EnsureMember | services/chat-service/internal/room/service.go:136-145 | Passes exactly for members |
| RoomService.Service.GetRoom | services/chat-service/internal/room/service.go:64-74 | The room and the number of its members |
| RoomService.Service.ListRoomMembers | services/chat-service/internal/room/service.go:78-83 | The member listing of a known room |
| RoomService.Service.ListMyRooms | services/chat-service/internal/room/service.go:87-93 | The newest of the requester's own rooms: 50 if no limit is given, at most 200, otherwise as many as asked for |
| Gate.Adapter.SendMessage | services/chat-service/internal/message/grpc.go:31-49 | The checks in order; on refusal nothing is stored, otherwise exactly what Send stores under the requester's own id; an unknown room is PermissionDenied, and NotFound is never answered |
| Gate.Adapter.GetMessages | services/chat-service/internal/message/grpc.go:51-68 | Only members see messages, and see the service's page unchanged; a member is refused exactly for a bad room or cursor; an unknown room is PermissionDenied, and NotFound is never answered |
| Provenance.MembershipAgreesWithHistory | services/chat-service/internal/room/repository_inmem.go:31-128 | Over any run rooms and members have the same keys; a user is in a room exactly if the last create, join or leave for the pair put it in, and its joining time is when that stay began |
| Provenance.AnswersFollowHistory | services/chat-service/internal/room/repository_inmem.go:78-102 | Joining and leaving answer as the history says, and a refused call changes nothing |
| Provenance.RoomIsAsCreated | services/chat-service/internal/room/repository_inmem.go:31-47 | Over any run a stored room is the one last created under its id: name, creator and creation time stay |
| Provenance.GateFollowsHistory | services/chat-service/internal/message/grpc.go:31-44 | The gate's answer at any point of any run: admitted exactly if authenticated, not under another name, and a member by history; a room never created is PermissionDenied |
| Provenance.ViewsAgree | services/chat-service/internal/room/repository_inmem.go:49-134 | Member listing, room listing and count report one and the same relation: exactly the users, and as many, as the history puts in the room |
| Provenance.EveryMessageIsWellSent | services/chat-service/internal/message/grpc.go:31-49 | However calls interleave: each stored message is in an existing room, trimmed and not blank, sent by the authenticated requester under its own id, who was a member when checked |
| Provenance.StillMemberIff | services/chat-service/internal/room/repository_inmem.go:78-102 | A member at one point of a run is a member later exactly unless it was taken out since and not put back |
| Provenance.PendingIsAdmitted | services/chat-service/internal/message/grpc.go:31-45 | Each send waiting to be stored was admitted at one step, and carries that request's user, room and content |
| Provenance.StoredByMemberIff | services/chat-service/internal/message/grpc.go:41-45 | At the moment a message is stored its sender is a member if and only if it is not out of the room since the check |
| Provenance.AdmittedIsStored | services/chat-service/internal/message/grpc.go:31-49 | Whatever was admitted is stored when it comes to the insert, trimmed and under the given id and time, unless it is blank |
| Provenance.LeaverCanStillSend | services/chat-service/internal/message/grpc.go:41-44 | A run in which a leaver's message is stored after it left |
| Enrichment.EnrichMembers | services/chat-service/internal/room/grpc.go:108-125 | One fetch, none without members; the map answers every lookup as the fetched profiles do |
| Enrichment.ListRoomMembers | services/chat-service/internal/room/grpc.go:89-104 | Keeps order and length; each member stands beside its own profile, or empty strings |
| Enrichment.FindIsTheProfile | services/chat-service/internal/room/grpc.go:120-123 | With distinct profile ids a lookup finds the one profile with the id, and nothing exactly if there is none |
| Enrichment.AnswerOrderIsIrrelevant | services/chat-service/internal/room/grpc.go:120-123 | Two answers with the same profiles, in whatever order, join alike |
| Enrichment.BatchEqualsLookups | services/chat-service/internal/room/grpc.go:106-147 | Across both services one batch gives each member what looking it up alone would |
| Jwks.EncodeExponent | pkg/auth/jwks.go:60-71 | Minimal octets of the low 32 bits of e; they give e back exactly if e fits in 32 bits |
| Jwks.MinimalIsShortestAndUnique | pkg/auth/jwks.go:58-71 | The minimal octets are the only ones of their kind, and no non-empty encoding is shorter |

## Left out

- Postgres and Redis: foreign engines. That Redis hands every replica one log in one order, and that nothing is lost before the callback, are assumptions of `Delivery`; the client library's buffer behind `ps.Channel()` (services/realtime-service/internal/pubsub/redis.go:43) may drop messages while it stays full, which the model does not represent; agreement between in-memory and SQL stores is not claimed.
- WebSocket, gRPC and HTTP input and output, contexts and timeouts, JSON and base64, signing, bcrypt, SHA-256, random values and clocks: they enter as parameters, step inputs or given functions.
- What happens between HandleMessage and the publish: it starts a goroutine per event, so order begins at the publish. Delivered and stored messages are independent and are not compared.
- `ConcurrentRefresh` starts from any consistent store and interleaves refreshes and logins; registrations and profile changes do not step in between.
- The Hub after Stop: no further steps are taken; producers may block, and shutdown is not shown to finish.
- Room search, and the cursor of room listings, which the repositories ignore.
- The requester check of ServeHTTP before a client is made; a connection without a room is refused in the model, a connection without a user is not represented.
- HubProcess.Hub.Register: a full queue is answered with `false` where the source blocks; the caller is then simply still waiting. The same goes for Unregister, LocalBroadcast and InMem.Offer.
- HubProcess.Hub.Run: no producer enqueues and no stop arrives while the loop on the object runs; both step between its iterations in `Delivery`, whose Handle step is the same `HubCore.After`.
- PubSub.InMem.Subscribe: the publishers that step in between offer their events one after the other in a given order; which of several blocked publishers goes first is that order.
- The mutexes of the repositories: each method is one atomic step.
- Strings.TrimSpaceCut: strings are sequences of characters; invalid UTF-8 is not represented.
