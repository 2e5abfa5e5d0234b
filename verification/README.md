# Verification of the RemNote agent bridge

This project models the core of the bridge between a companion server and the RemNote plugin, and proves what
that core is for. It has four parts.

**The bridge protocol.** Two state machines talk over a sequence of first-in first-out sockets: challenge, hello,
pairing or reconnect proof, then requests and responses correlated by `id` and `operationId`, with timers, an audit
trail, a bounded response cache and a reconnect loop. `ServerModel` and `ClientModel` give each end as a function
from state and event to state; `WebSocketServer`, `WebSocketClient` and `AuthStore` are the same ends as objects
whose methods update fields, each proved to do what the function says. `BridgeSystem` joins both ends and all
messages in flight, with strangers on the same port. What each event does is stated a second time, message by message
and without those functions: `Settling` for the book of requests, `ServerAnswers` and `PairingReset` for the handshake,
`BridgeAnswers` for the bridge's replies and `ReconnectAttempts` for its reconnects. `ServerSafety`, `ReconnectSafety`,
`Nonces`, `Strangers`, `Correlation`, `OnceOnly`, `Replay` and `GateAgreement` hold over every run; `ServerIsolation` says
who can influence the server; `Reachability` shows that the runs they speak about exist. The gates of both ends agree
after a reconnect proof; after a pairing code they may not, and `PairingAgreement`, `PairingBoundary`, `CarefulPairing`
and `SecondCode` give the exact condition, a discipline that always meets it, and a run that does not.

**The Rem tree.** `Rems` is a map from ids to Rems with a parent link and an ordered child list. On it: length-limited
rendering, memoised ancestor checks, moving a note with an exact preview, Markdown insertion through a temporary root,
replacing content children, title search, tag grouping and cycle-safe rich text. The edits use the contract of the
plugin SDK that the repository's own test double implements. Rendering computes the lines of `RenderSpec`; `ChildPaths`
and `RenderOrder` say which lines those are, by paths of child positions in preorder.

**Search cursors.** Cursor text, the two snapshot maps with expiry and least-recently-used eviction, and `Paging`:
whole sessions of lookups that follow the cursors while others search in between.

**Audit text and daemon start.** `StableStringify` is the canonical printer behind payload fingerprints; `JsonText` reads
its text by the grammar of RFC 8259. `DaemonStart` interleaves any number of start commands around the lock file.

## How to read it

A specification is a function or a predicate on values. A method that works step by step in the source is a method
here, and its `ensures` ties its result or the new state to that specification. Runs are sequences of states and
events; theorems about runs quantify over all of them.

Fields named as history (`issued`, `settled`, `via`, `codes`, a socket's `nonce` and the client's `history`) record what
happened. Nothing the program decides depends on them. Strings whose length or code units matter are sequences of UTF-16
code units.

Both socket classes have a `Valid()`: the invariant of `ServerSafety`, the one of `ReconnectSafety`. Each handler that
the runtime or the transport calls keeps it.

## Assumptions

- UUIDs, nonces, connection ids and timers are fresh. HMAC (RFC 2104) is an injective function of secret and message.
  That the signed text itself is unambiguous for newline-free fields is proved in `CanonicalAuth`.
- A socket that has left OPEN never returns to it, and closes once. Messages reach the client only in OPEN.
- Each client socket delivers its close event before its successor is opened, as the test double does
  (packages/bridge/test/helpers/mocks.ts:89). The close handler never checks which socket fired;
  `ReconnectSafety.CloseHandlerSafeIff` gives the exact condition, `LateCloseBreaksReconnect` the failure, and
  `LateCloses.NeverStranded` what survives without the assumption.
- `connect` is reached only from start, timer, nudge, wake and reconnect (packages/bridge/src/bridge/runtime.ts:160-261).
- Making a reconnect proof is atomic with sending the hello.
- Storing the pairing on disk succeeds. Version checks are an arbitrary predicate on versions.
- In `BridgeSystem` any number of strangers may connect and send anything but the pairing code now shown or a proof of
  their own making under the paired secret; they may send again every proof the bridge ever made. `ServerSafety` needs no
  such assumption: there any number of sockets send anything.
- `Replay` assumes that requests carry non-empty operation ids, as the server's always do.
- Identifiers of new Rems are new, and differ from the parent id that was asked for. Each awaited read of the knowledge
  base is immediate.
- `Number` reads a decimal numeral back as the number it was printed from; otherwise it is arbitrary.
- For daemon start: no stop command, no crash of a start command, file operations succeed. Daemons may exit at any time,
  unrelated processes may start, and process ids may be reused.

## Model

| member | source | states |
|---|---|---|
| `AuthState.EnsureChallenge` | packages/server/src/auth-store.ts:72-89 | a valid challenge for the same installation is reused as it is; otherwise a new one is made, valid for ten minutes; the stored pairing is untouched |
| `AuthState.CompletePairing` | packages/server/src/auth-store.ts:111-146 | a confirmed code stores a pairing for that installation with the new secret and all scopes and drops the challenge; any other attempt leaves the pairing as it was, a wrong code keeps the challenge, an expired one drops it |
| `AuthStore.AuthStore.EnsurePairingChallenge` | packages/server/src/auth-store.ts:72-89 | the fields end as `EnsureChallenge` says, and the id returned is the one stored |
| `AuthStore.AuthStore.CompletePairing` | packages/server/src/auth-store.ts:111-146 | the fields end as `CompletePairing` says; the caller gets the new pairing exactly when the code was confirmed |
| `AuthStore.AuthStore.VerifyBridgeProof` | packages/server/src/auth-store.ts:148-156 | true exactly for the paired installation and a proof made with the paired secret over this message |
| `AuthStore.AuthStore.ResetPairing` | packages/server/src/auth-store.ts:158-162 | no pairing and no challenge remain |
| `WebSocketServer.WebSocketServer.OnConnection` | packages/server/src/websocket-server.ts:279-320 | keeps `Valid`; an open client keeps its place and the newcomer is closed; otherwise the newcomer becomes the unauthenticated client, with a hello timer, and is greeted and challenged |
| `WebSocketServer.WebSocketServer.OnMessage` | packages/server/src/websocket-server.ts:322-363 | any message from any socket keeps `Valid`: pairing, handshake and book agree; the fields end as the transition function says, and messages of other sockets change nothing |
| `WebSocketServer.WebSocketServer.OnClientHello` | packages/server/src/websocket-server.ts:365-417 | keeps `Valid`; wrong version or shape closes; an unpaired server asks for a code; a paired one accepts a valid proof and rejects anything else |
| `WebSocketServer.WebSocketServer.OnPairingConfirm` | packages/server/src/websocket-server.ts:419-445 | keeps `Valid`; the confirmation must match the latest hello; a confirmed code pairs, sends the secret and accepts |
| `WebSocketServer.WebSocketServer.Accept` | packages/server/src/websocket-server.ts:447-465 | scopes are granted before the acceptance is sent |
| `WebSocketServer.WebSocketServer.OnResponse` | packages/server/src/websocket-server.ts:467-492 | keeps `Valid`; a response settles exactly the pending request with its id, as `Settling.ResponseSettles` spells out; an unknown id is ignored |
| `WebSocketServer.WebSocketServer.SettlePending` | packages/server/src/websocket-server.ts:191-208 | one pending request leaves the book together with its timer, and one audit entry is appended |
| `WebSocketServer.WebSocketServer.OnClose` | packages/server/src/websocket-server.ts:494-509 | keeps `Valid`; only the current socket's close clears the client and rejects every pending request, in order |
| `WebSocketServer.WebSocketServer.DropPending` | packages/server/src/websocket-server.ts:501-508 | the loop over the pending requests settles them all |
| `WebSocketServer.WebSocketServer.SendRequest` | packages/server/src/websocket-server.ts:116-226 | keeps `Valid`, for fresh ids; the checks run in order; a request that passes is booked and written, or settled at once when writing throws |
| `WebSocketServer.WebSocketServer.OnHelloTimer` | packages/server/src/websocket-server.ts:291-295 | keeps `Valid`; only a current, open client that has not said hello is rejected |
| `WebSocketServer.WebSocketServer.OnRequestTimer` | packages/server/src/websocket-server.ts:176-181 | keeps `Valid`; a request that is still pending when its timer fires is settled as timed out |
| `WebSocketServer.WebSocketServer.ResetPairing` | packages/server/src/websocket-server.ts:263-269 | keeps `Valid`; no pairing, no challenge and no client remain, and the client's socket is closed |
| `WebSocketServer.WebSocketServer.StopServer` | packages/server/src/websocket-server.ts:96-114 | keeps `Valid`; a connected client is closed and forgotten |
| `Settling.EveryEventSettles` | packages/server/src/websocket-server.ts:116-226 | in every run every event has exactly this effect on the book: a response read from the accepted current socket settles exactly the pending request with its id, as an identity mismatch for another operation, else as the bridge's error code or the value; a request timer settles its id as timed out, the current socket's close everything pending as lost, a throwing send its own request; each with its one audit word; a permitted request is booked and written; nothing else touches the book |
| `Settling.EveryOutcomeIsCaused` | packages/server/src/websocket-server.ts:146-226 | conversely, in every run each settlement has its one cause: a timeout that id's timer, a lost connection the current socket's close, a failed send a throwing send, anything else a response for that id on the accepted current socket |
| `Settling.AdvertisedIff` | packages/server/src/websocket-server.ts:139-144 | the capability that counts is the first one advertised under the action's name |
| `PairingReset.ResetRevokes` | packages/server/src/websocket-server.ts:263-269 | right after a reset no pairing and no challenge is stored, the client is closed and forgotten, and nothing else changes |
| `PairingReset.RevokedUntilConfirmed` | packages/server/src/websocket-server.ts:365-445 | in every run, from a reset until a pairing code is confirmed: the stored pairing stays empty, the server is not connected, and no socket becomes accepted by a proof |
| `PairingReset.ConfirmedIsNew` | packages/server/src/auth-store.ts:111-146 | a pairing that appears is the one the confirmed code made, under the secret drawn then |
| `ServerAnswers.HelloAnswered` | packages/server/src/websocket-server.ts:365-417 | an acceptable hello is recorded and answered by a request for a code, by the acceptance of a proof signed with the stored secret over both nonces, or by a rejection that asks for a reset exactly when a proof was wrong; any other closes the socket without a word |
| `ServerAnswers.CodeAnswered` | packages/server/src/websocket-server.ts:419-445 | a confirmation for another installation or version rejects and closes; a confirmed code stores the new pairing, sends the secret and accepts with all scopes; any other code is rejected and the socket stays open |
| `ServerAnswers.OthersAnswered` | packages/server/src/websocket-server.ts:322-363 | a ping is answered; before authentication anything but a hello, a code, a ping or a pong closes the socket; afterwards only responses reach the book |
| `ServerAnswers.NewcomerAnswered` | packages/server/src/websocket-server.ts:279-320 | a newcomer is turned away while the client is open; otherwise it becomes the unauthenticated client and gets the companion information and a challenge with its nonce that says whether pairing is required |
| `ServerAnswers.SilenceAnswered` | packages/server/src/websocket-server.ts:291-295 | the hello timer closes exactly the current, open client that has not said hello |
| `ServerAnswers.StopForgets` | packages/server/src/websocket-server.ts:96-114 | stopping closes the client, forgets all about it and keeps the pairing and the book |
| `ServerAnswers.ConnectedIsCompatible` | packages/server/src/websocket-server.ts:365-385 | in every run a connected bridge has said a hello of protocol version 2 in a version the companion can work with |
| `ServerAnswers.HelloStopsTimer` | packages/server/src/websocket-server.ts:541-546 | in every run the hello timer of a client that has said hello is not running |
| `RequestLedger.AcceptKeepsValid` | packages/server/src/websocket-server.ts:176-210 | booking a fresh request keeps the book valid: each request is pending with one live timer, or settled once and audited once; accepted = pending + audited |
| `RequestLedger.SettleKeepsValid` | packages/server/src/websocket-server.ts:478-491 | settling any id with any outcome keeps the book valid |
| `RequestLedger.SettleAllKeepsValid` | packages/server/src/websocket-server.ts:501-508 | settling everything at once keeps the book valid |
| `ServerFrames.StepIsQuiet` | packages/server/src/websocket-server.ts:322-465 | no event other than sending, a response, a request timer or a close touches the book or puts a request on a socket |
| `ServerSafety.MessageKeepsHandshake` | packages/server/src/websocket-server.ts:322-465 | any message from any socket keeps the handshake invariant |
| `ServerSafety.StepKeepsHandshake` | packages/server/src/websocket-server.ts:263-546 | every event keeps it: pairing and challenge never coexist, and while connected the hello, the announced installation, the capabilities and the granted scopes are those of the stored pairing |
| `ServerSafety.StepKeepsLedger` | packages/server/src/websocket-server.ts:116-226 | every event keeps the book valid |
| `ServerSafety.RunsAreSafe` | packages/server/src/websocket-server.ts:116-546 | both invariants hold in every state of every run, whoever connects and whatever they send |
| `ServerIsolation.StrangersChangeNothing` | packages/server/src/websocket-server.ts:279-363 | no event of another socket changes an open client, its authentication or the book |
| `ServerIsolation.SettlesOnlyByItsResponse` | packages/server/src/websocket-server.ts:467-492 | a promise resolves, or fails with the bridge's error or for a foreign operation, only at a response on the accepted current socket that carries its id, and with the outcome that response gives |
| `WebSocketClient.WebSocketClient.Connect` | packages/bridge/src/bridge/websocket-client.ts:137-181 | from no socket and no timer it ends `Valid`; an open or connecting socket is kept; otherwise a new one is opened, or the next attempt is scheduled when the constructor throws |
| `WebSocketClient.WebSocketClient.OnClose` | packages/bridge/src/bridge/websocket-client.ts:162-173 | for the socket that just closed it ends `Valid`; authentication is forgotten and, unless shutting down, a reconnect is scheduled |
| `WebSocketClient.WebSocketClient.Disconnect` | packages/bridge/src/bridge/websocket-client.ts:211-227 | ends `Valid` and shut down; timer cancelled, socket closed and dropped, no reconnect scheduled |
| `WebSocketClient.WebSocketClient.Reconnect` | packages/bridge/src/bridge/websocket-client.ts:229-233 | keeps `Valid`; attempts start over, then disconnect and connect |
| `WebSocketClient.WebSocketClient.WakeReconnect` | packages/bridge/src/bridge/websocket-client.ts:235-246 | keeps `Valid`; only a disconnected client that is not shut down reconnects, in burst phase |
| `WebSocketClient.WebSocketClient.NudgeReconnect` | packages/bridge/src/bridge/websocket-client.ts:248-257 | keeps `Valid`; as waking, without resetting attempts |
| `WebSocketClient.WebSocketClient.OnReconnectTimer` | packages/bridge/src/bridge/websocket-client.ts:481-484 | keeps `Valid`; the timer field is cleared before connecting |
| `WebSocketClient.WebSocketClient.Schedule` | packages/bridge/src/bridge/websocket-client.ts:459-485 | burst attempts are counted up to the maximum, then standby |
| `WebSocketClient.WebSocketClient.OnMessage` | packages/bridge/src/bridge/websocket-client.ts:287-320 | every message kind keeps `Valid`: shut down, on a socket, or waiting for one timer; the fields end as the transition function says, and a ping is answered with a pong |
| `WebSocketClient.WebSocketClient.OnServerChallenge` | packages/bridge/src/bridge/websocket-client.ts:322-351 | a challenge of the right version is answered with a hello, proved when a secret is stored |
| `WebSocketClient.WebSocketClient.OnRequest` | packages/bridge/src/bridge/websocket-client.ts:390-420 | a remembered operation is replayed; a refused one is answered; any other starts its handler |
| `WebSocketClient.WebSocketClient.OnHandlerDone` | packages/bridge/src/bridge/websocket-client.ts:421-449 | keeps `Valid`; the result or error is cached, and sent only on the socket that asked and only while it is current and open |
| `WebSocketClient.WebSocketClient.CacheResponse` | packages/bridge/src/bridge/websocket-client.ts:451-457 | the map evicts its oldest key past 256 entries |
| `WebSocketClient.WebSocketClient.ConfirmPairing` | packages/bridge/src/bridge/websocket-client.ts:183-205 | keeps `Valid`; a six-digit code is sent only for an active pairing request on an open socket |
| `BridgeAnswers.RequestDecided` | packages/bridge/src/bridge/websocket-client.ts:390-420 | a request of a remembered operation gets the remembered response; one that may not run gets the error of the first check it fails; only one that is authenticated, listed under its policy's scope, granted, advertised and has a handler starts |
| `BridgeAnswers.StartsOnlyWhatMayRun` | packages/bridge/src/bridge/websocket-client.ts:401-420 | in every run no other request ever starts a handler |
| `BridgeAnswers.ReplySent` | packages/bridge/src/bridge/websocket-client.ts:421-449 | the handler's reply is cached under its operation, and sent exactly when the socket it was asked on is still the current open one |
| `BridgeAnswers.MessageHeard` | packages/bridge/src/bridge/websocket-client.ts:287-320 | what each message of the handshake changes, and that it changes nothing else |
| `BridgeAnswers.ChallengeAnswered` | packages/bridge/src/bridge/websocket-client.ts:322-351 | a challenge of version 2 is answered with a hello, signed over this challenge if a secret is stored; any other is ignored |
| `BridgeAnswers.CodeSent` | packages/bridge/src/bridge/websocket-client.ts:183-205 | a code below one million is sent for the active pairing request on an open socket; otherwise nothing happens |
| `ReconnectAttempts.WakingTries` | packages/bridge/src/bridge/websocket-client.ts:235-246 | waking a waiting client tries at once, with the count begun anew; in any other state it does nothing |
| `ReconnectAttempts.NudgingTries` | packages/bridge/src/bridge/websocket-client.ts:248-257 | a nudge tries at once, too, but keeps the count |
| `ReconnectAttempts.TimerTries` | packages/bridge/src/bridge/websocket-client.ts:481-484 | so does the timer |
| `ReconnectAttempts.ReconnectingTries` | packages/bridge/src/bridge/websocket-client.ts:229-233 | a manual reconnect begins the count anew from every state |
| `ReconnectAttempts.OpeningEndsCount` | packages/bridge/src/bridge/websocket-client.ts:149-156 | a socket that opens ends the count |
| `ReconnectAttempts.ClosingIsCounted` | packages/bridge/src/bridge/websocket-client.ts:162-173 | a close forgets the authentication and counts one attempt, unless the client shuts down |
| `ReconnectAttempts.FailuresAreCounted` | packages/bridge/src/bridge/websocket-client.ts:459-485 | after n failed attempts in a row the count is the smaller of n and the maximum, and the client stands by exactly when more than the maximum failed |
| `ReconnectSafety.StepKeepsInv` | packages/bridge/src/bridge/websocket-client.ts:137-181 | every event keeps: exactly one of shut down, live or closing socket, one live timer; attempts within the maximum; standby only with attempts used up |
| `ReconnectSafety.NeverStuck` | packages/bridge/src/bridge/websocket-client.ts:137-257 | that invariant holds in every state of every run |
| `ReconnectSafety.WaitingMakesProgress` | packages/bridge/src/bridge/websocket-client.ts:481-484 | when the timer of a waiting client fires it is on a new socket, or waits on exactly one new timer |
| `ReconnectSafety.DisconnectShutsDown` | packages/bridge/src/bridge/websocket-client.ts:211-227 | from every state that keeps the invariant, disconnecting leaves neither socket nor timer |
| `ReconnectSafety.CloseHandlerSafeIff` | packages/bridge/src/bridge/websocket-client.ts:162-173 | the close handler, which does not look at which socket closed, run late for some other socket keeps the invariant if and only if the client is shut down |
| `ReconnectSafety.LateCloseBreaksReconnect` | packages/bridge/src/bridge/websocket-client.ts:229-233 | a close event that arrives after `reconnect` opened a successor always leaves a live socket and a live timer together |
| `LateCloses.NeverStranded` | packages/bridge/src/bridge/websocket-client.ts:162-173 | even when close events of replaced sockets arrive at any time: in every run the client is shut down without a socket, or has a socket that has not closed or a live timer |
| `ResponseCache.CacheIsFifo` | packages/bridge/src/bridge/websocket-client.ts:451-457 | on every log of cached responses with non-empty operation ids, repeated or not, the map holds exactly the last 256 operations newly inserted, oldest first, each with its latest response |
| `ResponseCache.NewOperationsAreFifo` | packages/bridge/src/bridge/websocket-client.ts:451-457 | on a log that never caches a held operation again the map is exactly the last 256 entries |
| `ResponseCache.RetainedUntil256Newer` | packages/bridge/src/bridge/websocket-client.ts:391-399 | on every such log an operation is answered from memory, with its latest response, exactly until 256 newer operations were inserted |
| `ResponseCache.RememberAgain` | packages/bridge/src/bridge/websocket-client.ts:451-457 | caching a held operation again replaces its response and keeps all others |
| `ResponseCache.BoundKeptIff` | packages/bridge/src/bridge/websocket-client.ts:453-456 | the bound of 256 survives one more response if and only if there was room, the key was held, or the oldest key is not the empty string |
| `Replay.ReplayedIdentically` | packages/bridge/src/bridge/websocket-client.ts:390-400 | in every run of the client, for any messages: once an operation is cached and has no handler in progress, and while fewer than 256 operations are newer, every delivery of it puts exactly that response on the wire, starts no handler and changes nothing else |
| `Replay.StaysSettled` | packages/bridge/src/bridge/websocket-client.ts:390-457 | in between, whatever happens, the entry keeps its response and no handler for the operation starts |
| `Replay.DeliveredTwiceRunsTwice` | packages/bridge/src/bridge/websocket-client.ts:390-457 | an operation delivered again before its handler is done runs twice, and the second result replaces the first |
| `Replay.HeldResponseChangesIff` | packages/bridge/src/bridge/websocket-client.ts:421-457 | some event can replace a held response by a different one if and only if a handler for that operation is in progress |
| `SystemSafety.RunIsSafe` | packages/server/src/websocket-server.ts:116-546 | in every run of both ends and the channels between them, each end keeps its own invariants |
| `Correlation.RunKeepsInv` | packages/bridge/src/bridge/websocket-client.ts:390-449 | requests in flight, tasks, cached and travelling responses and every settlement that a response brings are backed by an issued request with that id and operation and by the reply given to it |
| `Nonces.RunKeepsInv` | packages/server/src/websocket-server.ts:279-320 | in every run every connection is challenged with a nonce of its own, proofs are checked against the current connection's nonce, and every proof the bridge made is for a nonce of one of its own connections |
| `Nonces.ReplayIsRefused` | packages/server/src/websocket-server.ts:404-416 | so a proof that the bridge made, sent again by someone else, is never for the nonce it is checked against |
| `Strangers.StrangersStayOut` | packages/server/src/websocket-server.ts:279-465 | with any number of sockets that send anything but the code now shown or a proof of their own making under the paired secret, replayed proofs included: in every run none of them is authenticated or accepted |
| `Correlation.ResolvesOnlyWithHandlersValue` | packages/server/src/websocket-server.ts:146-224 | if a request resolved with a value, the bridge handler ran on exactly that request (id, operation, action, scope, payload) and returned that value, over any number of connections, strangers, timeouts and reconnects |
| `Correlation.FailsOnlyWithBridgesReply` | packages/server/src/websocket-server.ts:481-487 | if a request failed with an error of the bridge, that error is what the handler or the bridge itself replied to exactly that request |
| `Correlation.NeverSettledByAnotherOperation` | packages/server/src/websocket-server.ts:478-483 | in every run no request is settled by a response for another operation: the identity check never has anything to reject |
| `OnceOnly.HandlerRunsAtMostOnce` | packages/bridge/src/bridge/websocket-client.ts:390-449 | in every run a handler is started at most once for any operation, whether it then returns, throws or times out |
| `OnceOnly.HandlerRepliesAtMostOnce` | packages/bridge/src/bridge/websocket-client.ts:421-449 | and it gives at most one reply |
| `OnceOnly.CacheHoldsLast256` | packages/bridge/src/bridge/websocket-client.ts:443-457 | the response cache holds exactly the last 256 responses, oldest first, in every run |
| `GateAgreement.GatesAgree` | packages/bridge/src/bridge/websocket-client.ts:401-420 | a request delivered on a connection authenticated by proof is neither refused by the bridge's checks nor answered from memory |
| `PairingAgreement.StepKeepsPair` | packages/server/src/websocket-server.ts:419-465 | on every connection every step keeps: codes sent are codes read or under way, the queue after an acceptance holds only permitted requests, rejections and pongs, and a rejection is in it or was heard exactly when a further code was read |
| `PairingBoundary.PairingGatesAgree` | packages/bridge/src/bridge/websocket-client.ts:401-420 | in every run, on a connection authenticated by a pairing code on which no code was sent after the accepted one, every delivered request passes the bridge's checks and is not answered from memory |
| `PairingBoundary.AgreeFromIff` | packages/bridge/src/bridge/websocket-client.ts:183-205 | in every run, once the bridge has heard the acceptance: both gates agree on every request delivered on the connection in every continuation, if and only if no code was sent after the accepted one |
| `PairingBoundary.FurtherCodeRefuses` | packages/bridge/src/bridge/websocket-client.ts:401-420 | if one was sent, every permitted action can be asked so that the bridge refuses it as not authenticated |
| `CarefulPairing.CarefulBridgesAgree` | packages/bridge/src/bridge/websocket-client.ts:183-205 | in every run in which no code is submitted while the bridge waits for the answer to one (its status is Authenticating), the gates agree on every request ever delivered, by pairing or by proof |
| `SecondCode.TwoCodesDisagree` | packages/bridge/src/bridge/websocket-client.ts:183-205 | a run from an unpaired start with two codes: the server accepts the first, grants and sends any advertised action, and the bridge answers NOT_AUTHENTICATED |
| `Reachability.Authenticates` | packages/server/src/websocket-server.ts:404-416 | a paired, compatible bridge can reach an authenticated connection by reconnect proof |
| `Reachability.PermittedRequestCanResolve` | packages/server/src/websocket-server.ts:116-226 | for every permitted action, payload and result some run resolves the request with that result |
| `CanonicalAuth.DeterminedIffNewlineFree` | packages/protocol/src/index.ts:177-194 | the signed text determines all signed fields if and only if none of them contains a newline |
| `CanonicalAuth.NewlineConfuses` | packages/protocol/src/index.ts:177-194 | for every message with a newline in a field there is a different message with the same signed text |
| `CanonicalAuth.TextIs` | packages/protocol/src/index.ts:177-194 | the signed text is the label and the six fields in this order, one a line |
| `JsonText.PrintIsText` | packages/server/src/audit-log.ts:67-77 | the text is the value's JSON text by the grammar of RFC 8259: the words for null and the booleans, numbers as printed, strings that unescape to the string, arrays in order, and objects with their members in ascending order of code units |
| `JsonText.UnescapeUndoes` | packages/server/src/audit-log.ts:72-73 | unescaping a quoted string by the rules of section 7 of RFC 8259 gives the string back |
| `JsonText.EscapeIsShortest` | packages/server/src/audit-log.ts:72-73 | a unit is escaped in two characters where JSON has such an escape, stands as it is where it may, and takes six characters otherwise |
| `JsonText.PlainTextIsKept` | packages/server/src/audit-log.ts:72-73 | a text that needs no escape, whole surrogate pairs included, is printed as it is |
| `StableStringify.EqualTextIffSame` | packages/server/src/audit-log.ts:67-77 | two values print to the same text exactly when they are equal up to the order of object keys, at every depth |
| `StableStringify.Decodes` | packages/server/src/audit-log.ts:67-77 | the text of a value followed by a delimiter determines both the value, up to key order, and what follows |
| `StableStringify.QuoteDecodes` | packages/server/src/audit-log.ts:72-73 | quoted strings (section 7 of RFC 8259) can be read back unambiguously |
| `StableStringify.SamePrintsEqual` | packages/server/src/audit-log.ts:70-74 | key order does not show in the text |
| `StableStringify.SortedKeys` | packages/server/src/audit-log.ts:71-71 | sorting by UTF-16 code units keeps the keys and makes their order unique |
| `RenderContent.RenderContentMarkdown` | packages/bridge/src/api/rem-adapter.ts:1209-1270 | the result is what was there before, then the lines of as many renderable child paths, in preorder, as fit, with their count and a flag set exactly when a line is missing; all is stated on paths and positions |
| `RenderOrder.RenderingShowsPaths` | packages/bridge/src/api/rem-adapter.ts:1209-1270 | what is shown are the lines of the first so many child paths of at most the asked length, in preorder, whose every step is a renderable child: known, not a power-up part, within the limit, not in the trailing run of empty text leaves; a line is two spaces for each level, a dash, the headline and a line break; one more line would not fit, unless all are shown |
| `RenderOrder.ShownListsRenderable` | packages/bridge/src/api/rem-adapter.ts:1411-1430 | the children shown are the renderable ones in order |
| `RenderOrder.DescendantsCountPaths` | packages/bridge/src/api/rem-adapter.ts:1327-1342 | the number of descendants is the number of child paths of at most that length |
| `ChildPaths.PathsList` | packages/bridge/src/api/rem-adapter.ts:1219-1267 | visiting the positions that count, depth first, lists every path over them exactly once and in preorder |
| `RenderSpec.FitIsLongest` | packages/bridge/src/api/rem-adapter.ts:1239-1243 | the number of entries taken is the greatest whose total length fits |
| `RenderContent.GetRenderableChildren` | packages/bridge/src/api/rem-adapter.ts:1411-1430 | the result lists exactly the children at the renderable positions, in order: power-up parts are skipped, the limit applied, then trailing empty text leaves dropped |
| `RenderContent.CountChildren` | packages/bridge/src/api/rem-adapter.ts:1327-1342 | the count is the number of child paths within the depth, capped at 2000 |
| `RenderContent.EntriesAreDescendants` | packages/bridge/src/api/rem-adapter.ts:1209-1270 | rendering never lists more Rems than there are descendants |
| `RenderContent.BuildContentProperties` | packages/bridge/src/api/rem-adapter.ts:1348-1362 | nothing missing: the total is what was rendered; otherwise the capped true count, never less than what was rendered |
| `Ancestry.IsDescendant` | packages/bridge/src/api/rem-adapter.ts:1276-1322 | on any parent map, cyclic or not: an answer equals the parent-chain relation, the cache stays truthful, whenever the uncached walk answers so does the cached one, and uncached it throws exactly when no answer lies within 100 levels; after an answer every Rem on the way is remembered and nothing is forgotten |
| `Ancestry.WalkShares` | packages/bridge/src/api/rem-adapter.ts:1313-1319 | all Rems on the walk have the answer of the Rem it stopped at |
| `Ancestry.ClosedWalkMisses` | packages/bridge/src/api/rem-adapter.ts:1295-1296 | a walk that ends or returns to itself never reaches the ancestor |
| `RemEdits.Store.SetRemParent` | packages/bridge/test/helpers/mocks.ts:316-334 | leave the old parent, then enter the new list at the index |
| `RemEdits.Store.RemoveRem` | packages/bridge/test/helpers/mocks.ts:354-364 | leave the parent and keep no children |
| `RemEdits.Store.CreateTree` | packages/bridge/test/helpers/mocks.ts:416-467 | new Rems, their root last under the parent |
| `RemEdits.SetParentRelinks` | packages/bridge/test/helpers/mocks.ts:316-334 | after a move the Rem is in its new parent's list and no other, and nothing else changed |
| `RemEdits.SetParentKeepsForest` | packages/bridge/src/api/rem-adapter.ts:2810-2825 | moving a Rem anywhere but below itself keeps parent links and child lists consistent and acyclic |
| `MoveNote.AssertNotMovingUnderDescendant` | packages/bridge/src/api/rem-adapter.ts:2810-2825 | on every knowledge base on which the walk stops: refuses exactly the Rem itself and its descendants |
| `MoveNote.WalkStopsIff` | packages/bridge/src/api/rem-adapter.ts:2810-2825 | the walk up stops if and only if it meets the moved Rem or the end of the chain within as many steps as there are Rems |
| `MoveNote.TwoRemsLoop` | packages/bridge/src/api/rem-adapter.ts:2810-2825 | it never stops on two Rems that are each other's parents when neither is the moved one |
| `MoveNote.GetAncestors` | packages/bridge/src/api/rem-adapter.ts:1156-1176 | up to the asked depth of ancestors, nearest first, and whether more follow |
| `MoveNote.AncestorsListAbove` | packages/bridge/src/api/rem-adapter.ts:1156-1176 | the list holds the Rems that many parent links above, with their titles and types; it is cut at the depth exactly when another ancestor follows |
| `MoveNote.RefusedIff` | packages/bridge/src/api/rem-adapter.ts:3293-3371 | a move is refused if and only if writing is off, the depth is out of range, a Rem is missing, the new parent is the Rem or below it, the old parent is not the expected one, or the place does not exist; the error is the first of the ten that applies |
| `MoveNote.PositionPlaces` | packages/bridge/src/api/rem-adapter.ts:2778-2809 | inserting at the computed index puts the Rem first, last, or next to the sibling on the asked side |
| `MoveNote.MoveNote` | packages/bridge/src/api/rem-adapter.ts:3293-3371 | performs the move if and only if `MayMove` holds, reports the first error that applies otherwise and then changes nothing; a dry run changes nothing; a move gives the specified forest; both report the ancestors after the move |
| `MoveNote.MoveEffect` | packages/bridge/src/api/rem-adapter.ts:3336-3342 | a move conserves the Rems, puts the moved one at the requested place, and keeps the order of all other siblings |
| `MoveNote.PreviewIsExact` | packages/bridge/src/api/rem-adapter.ts:3344-3368 | for every depth the dry run's ancestors and truncation flag equal those of the real move |
| `MarkdownInsert.CreateRemsFromPreparedMarkdown` | packages/bridge/src/api/rem-adapter.ts:2628-2742 | after insertion at p the parent's list is old[..p] + new top-level Rems + old[p..], the temporary root is detached and empty, new subtrees and all other Rems are intact; blank text changes nothing |
| `MarkdownInsert.TrimmedAwayIff` | packages/bridge/src/api/rem-adapter.ts:2628-2640 | trimming leaves nothing of a text exactly when it is white space all through |
| `MarkdownInsert.Promote` | packages/bridge/src/api/rem-adapter.ts:2702-2717 | the loop moves the temporary root's children, in order, to consecutive places |
| `MarkdownInsert.SplicedIsForest` | packages/bridge/src/api/rem-adapter.ts:2628-2742 | inserting a tree into a forest leaves a forest |
| `ChildEdits.InsertChildren` | packages/bridge/src/api/rem-adapter.ts:3540-3647 | refuses for the first reason that applies and only then; otherwise the new block stands first, last, or directly beside the sibling, and the result is a forest |
| `ChildEdits.InsertPlacesBlock` | packages/bridge/src/api/rem-adapter.ts:2744-2776 | splicing at the computed position places the whole block where it was asked for |
| `ChildEdits.ClearDirectContentChildren` | packages/bridge/src/api/rem-adapter.ts:2831-2844 | metadata children stay in order, content children are detached and emptied, nothing else changes; the result is a forest if and only if no content child has children of its own |
| `ChildEdits.ReplaceChildren` | packages/bridge/src/api/rem-adapter.ts:3649-3686 | the parent keeps exactly its metadata children, in order, followed by the new top-level Rems; the result is a forest if and only if no replaced child has children of its own |
| `ChildEdits.ClearedIsForestIff` | packages/bridge/test/helpers/mocks.ts:354-364 | the children of a removed content child keep pointing to it: clearing a forest leaves a forest if and only if there are none |
| `ChildEdits.ReplacedIsForestIff` | packages/bridge/src/api/rem-adapter.ts:3649-3686 | the same condition decides it after the new Rems are in place |
| `Strings.SplitUndoesJoinIff` | packages/bridge/src/api/rem-adapter.ts:1552-1569 | splitting undoes joining exactly when no part contains the separator |
| `SearchCursor.CursorTextIs` | packages/bridge/src/api/rem-adapter.ts:1535-1550 | a cursor is the kind of search, the version, the id, the offset and the hash, with colons between |
| `Strings.NumeralIsWorth` | packages/bridge/src/api/rem-adapter.ts:1535-1550 | a numeral is worth the number it was made of |
| `Strings.Utf16OfOne` | packages/bridge/src/api/rem-adapter.ts:1527-1533 | characters beyond the basic plane are surrogate pairs of ten bits each |
| `SearchCursor.CursorReadIff` | packages/bridge/src/api/rem-adapter.ts:1552-1589 | for every text: it is read as a cursor exactly when it is a kind, a version, an id, an offset and a hash without colons in them, and then as those; it is invalid exactly when it is no such text, and its offset is bad exactly when `Number` gives no integer or a negative one |
| `SearchCursor.Hash` | packages/bridge/src/api/rem-adapter.ts:1527-1533 | the loop over the code units computes the 32-bit FNV-1a hash, in hexadecimal |
| `SearchCursor.HashIsPlain` | packages/bridge/src/api/rem-adapter.ts:1527-1533 | the hash of a query never has a colon |
| `SearchCursor.HashIsFnv1a` | packages/bridge/src/api/rem-adapter.ts:1527-1533 | two published values of FNV-1a |
| `SearchCursor.CursorRoundTripsIff` | packages/bridge/src/api/rem-adapter.ts:1535-1568 | for every hash without a colon: a cursor is read back as the id, offset and hash it was made of if the snapshot id has no colon, and is invalid otherwise |
| `SearchCursor.KindsDoNotMix` | packages/bridge/src/api/rem-adapter.ts:1552-1574 | a cursor of one kind of search is refused by the other |
| `Paging.RenderPage` | packages/bridge/src/api/rem-adapter.ts:1741-1769 | an item is a result exactly when it is the snapshot's Rem at a position of the page and still exists, in increasing positions; a cursor to the next position exactly when positions remain; the truncation of the snapshot |
| `Paging.PageShows` | packages/bridge/src/api/rem-adapter.ts:1751-1757 | the same of the page as a value, for every offset and limit |
| `SnapshotStore.SnapshotMaps.PruneExpired` | packages/bridge/src/api/rem-adapter.ts:1588-1600 | both maps lose exactly what `Pruned` drops |
| `SnapshotStore.SnapshotMaps.FindOldest` | packages/bridge/src/api/rem-adapter.ts:1609-1617 | the first of the entries accessed longest ago |
| `SnapshotStore.SnapshotMaps.EnforceLimit` | packages/bridge/src/api/rem-adapter.ts:1607-1622 | evicts until twenty are left |
| `SnapshotStore.SnapshotMaps.Create` | packages/bridge/src/api/rem-adapter.ts:1682-1739 | prune, store, enforce the limit |
| `SnapshotStore.SnapshotMaps.FromCursor` | packages/bridge/src/api/rem-adapter.ts:1624-1650 | finds the snapshot for a matching cursor and refreshes it; any failure only prunes |
| `SnapshotSurvival.PrunedExactly` | packages/bridge/src/api/rem-adapter.ts:1588-1600 | pruning drops exactly the entries idle for more than fifteen minutes |
| `SnapshotSurvival.CursorRefused` | packages/bridge/src/api/rem-adapter.ts:1624-1650 | a cursor whose snapshot has been idle too long is not found; one that does not match the query, parent, tag or mode is refused |
| `SnapshotSurvival.EnforcedKeepsNewest` | packages/bridge/src/api/rem-adapter.ts:1607-1622 | min(n, 20) entries are kept, none of them older than one that was dropped |
| `SnapshotSurvival.AtMostTwenty` | packages/bridge/src/api/rem-adapter.ts:1602-1605 | at most twenty snapshots of each kind are retained, in every run |
| `SnapshotSurvival.Survives` | packages/bridge/src/api/rem-adapter.ts:1583-1650 | a snapshot is kept unchanged while fewer than twenty others of its kind were used since its last use and no operation came more than fifteen minutes after it |
| `SnapshotSurvival.CursorStillWorks` | packages/bridge/src/api/rem-adapter.ts:1624-1650 | while it survives, its cursor leads to it and to the offset the cursor was made for |
| `Paging.PagesCoverSnapshot` | packages/bridge/src/api/rem-adapter.ts:1624-1769 | in every run, for any positive page sizes and anything searched in between: while the snapshot survives, every lookup of the cursor on the page before answers, each page shows exactly the existing Rems at its positions, the cursor ends exactly when nothing is left, and then the pages together are the whole snapshot; there are never more pages than positions, unless it is the one page of an empty snapshot, so following the cursors ends |
| `Paging.CompleteSessionShowsEachOnce` | packages/bridge/src/api/rem-adapter.ts:1741-1769 | when such a session is over, the results of all pages one after the other are the existing Rems of the snapshot at their positions, each exactly once, in order, and nothing else |
| `TitleSearch.CollectExactTitleCandidates` | packages/bridge/src/api/rem-adapter.ts:2087-2114 | collects exactly the Rems reached through Rems with the title and not collected before, each once; ends on cyclic child graphs |
| `TitleSearch.CollectFromResults` | packages/bridge/src/api/rem-adapter.ts:2138-2145 | over all results with one shared set: every Rem reached from some result, once |
| `TitleSearch.ResolveTableByTitle` | packages/bridge/src/api/rem-adapter.ts:2130-2171 | succeeds exactly when one match is a table; the three errors tell no match, no table and several tables apart |
| `RichText.RenderRichText` | packages/bridge/src/api/rem-adapter.ts:548-686 | terminates on any reference graph and restores the visited set; the text is the pieces of the elements in order, the references are theirs in order |
| `RichText.RenderOne` | packages/bridge/src/api/rem-adapter.ts:568-679 | the same for one element of every kind |
| `RichText.RenderJoins` | packages/bridge/src/api/rem-adapter.ts:681-685 | the text of a + b is the text of a followed by the text of b, and so with the references |
| `RichText.RenderingReads` | packages/bridge/src/api/rem-adapter.ts:548-686 | for every rich text: each element contributes its own piece, and the text is those pieces in order; a plain string is shown unchanged, a resolved reference as its text in double brackets together with one inline reference that has that text |
| `RichText.PlainTextsAreJoined` | packages/bridge/src/api/rem-adapter.ts:555-559 | plain strings are shown as they are, one after the other |
| `RichText.OneRefPerReference` | packages/bridge/src/api/rem-adapter.ts:604-614 | one inline reference per resolved outer reference, in order, with the text shown for it |
| `RichText.OnlyReachableMatters` | packages/bridge/src/api/rem-adapter.ts:597-631 | the visited set matters only on the Rems that can be reached from the text |
| `RichText.ReferenceShowsItsRem` | packages/bridge/src/api/rem-adapter.ts:604-614 | a reference shows what its Rem renders on its own unless mentions lead back to a Rem around it |
| `TagGrouping.WalkEndsIff` | packages/bridge/src/api/rem-adapter.ts:2035-2068 | the walk up ends if and only if it meets a document or the end of the chain within as many steps as there are Rems |
| `TagGrouping.TwoRemsLoop` | packages/bridge/src/api/rem-adapter.ts:2035-2068 | it never ends on two Rems that are each other's parents when neither is a document |
| `TagGrouping.ResolveSearchByTagContext` | packages/bridge/src/api/rem-adapter.ts:2035-2068 | on every knowledge base on which the walk ends, cyclic or not: the target is the nearest document from the Rem upwards, else its parent, else itself; the reason says which |
| `TagGrouping.SnapshotByContext` | packages/bridge/src/api/rem-adapter.ts:1771-1847 | the first min(n, 1000) tagged Rems are grouped by distinct targets with their matches in order; entries are ordered by type priority, then by first occurrence; truncated exactly when n > 1000; the break on the entry count is never taken |
| `TagGrouping.SnapshotTagged` | packages/bridge/src/api/rem-adapter.ts:1811-1821 | every scanned Rem once with its target as context, in the same order |
| `TagGrouping.OrderedIsInTypeOrder` | packages/bridge/src/api/rem-adapter.ts:1823-1828 | documents and concepts come first, then daily documents, portals, descriptors and plain text, and within a type first occurrences |
| `TagGrouping.MatchesConserved` | packages/bridge/src/api/rem-adapter.ts:1792-1809 | the matches of all entries together are the scanned Rems, each occurrence exactly once |
| `TagGrouping.SortedFacts` | packages/bridge/src/api/rem-adapter.ts:1823-1828 | sorting keeps the entries and orders them strictly |
| `DaemonStart.StepKeepsInv` | packages/server/src/daemon.ts:318-400 | every file or process operation of every interleaved start command keeps the exclusion invariant and what the files tell |
| `DaemonStart.OneCommandPastLock` | packages/server/src/daemon.ts:734-757 | at most one start command is past the lock, over every interleaving |
| `DaemonStart.FreeLockMeansRecorded` | packages/server/src/daemon.ts:318-400 | whenever the lock is free, a live daemon not signalled by the startup-failure path is the recorded process |
| `DaemonStart.NeverTwoDaemons` | packages/server/src/daemon.ts:318-400 | even while a command is at work there are never two such daemons |
| `DaemonStart.FilesTellOutcome` | packages/server/src/daemon.ts:318-400 | in every run: when a start is about to report success both files record its process, and when it is about to report failure neither file is left |
| `DaemonStart.OutcomesAreEarned` | packages/server/src/daemon.ts:318-400 | in every run: a command that reports a daemon started spawned that process, then saw it alive, and after that both ports taken; one that reports a daemon running found the recorded process alive; a refused one found the lock taken; a failed one gave up or stopped its process |

## Left out

- Transport and platform: Express, MCP, `ws` and browser socket internals, process spawning, launchd, logging, the command
  line and the widgets.
- Cryptography: HMAC, SHA-256, random tokens and timing-safe comparison are the assumptions above.
- Status callbacks, connect and disconnect callbacks, companion information and disconnect reasons: nothing reads them back.
- The table of actions and the list of white space characters are data: no law says them again.
- Reconnect delays and jitter, and wall-clock values: a timer may fire at any time after it is set.
- Failures while writing the pairing file or the audit file, and the audit entry's payload fields other than the request,
  operation, action, policy and outcome.
- Action names inherited from `Object.prototype`, for which the policy lookup returns a function.
- The shape of messages beyond what the handlers test: a hello is well typed or not, other messages carry typed fields.
- Exceptions inside bridge message handlers while pairing secrets are stored; the bridge stores them at once.
- `MarkdownInsert.CreateRemsFromPreparedMarkdown`: parsing Markdown is the SDK's, so the new tree is a parameter; id
  reference placeholders are not patched in afterwards. Without a parent the new Rems are left under the detached root, as
  the test double does, and no forest is claimed.
- `SnapshotStore.SnapshotMaps.Create`: the search that fills a snapshot is its parameter, so other operations do not
  interleave with it; their clock readings may differ.
- `RichText.RenderRichText`: errors thrown by the SDK during a lookup, after which the visited set is restored by `finally`.
- `StableStringify.EqualTextIffSame`: values with `toJSON` and sparse arrays do not occur in parsed JSON and are not
  modelled; a number is its printed text.
- `TagGrouping.ResolveSearchByTagContext`: requires that the walk up ends, which `TagGrouping.WalkEndsIff` makes checkable;
  otherwise the source loops for ever, as on the two Rems of `TagGrouping.TwoRemsLoop`.
- `MoveNote.AssertNotMovingUnderDescendant`: requires that the walk up stops, which `MoveNote.WalkStopsIff` makes checkable;
  otherwise the source loops for ever, as on the two Rems of `MoveNote.TwoRemsLoop`.
- `RemEdits.Store.RemoveRem`: aliases are not modelled, so the list of an alias's owner is not updated.
- `DaemonStart.StepKeepsInv`: `stop` takes no lock and is not covered.
- Selecting tables by id, reading tables, structured rendering, aliases, media, flashcard and tag writing, note creation and
  journal operations: they add easy members.
- The `[[id:...]]` placeholder round trip: placeholder names are substituted one after another and are not prefix-free.
- Deduplicating and sorting the results of a text search: the same shape as tag grouping.
- `list_children` cursors: the same text format without snapshots.
