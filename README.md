# Halibut core, modelled in Dafny

Halibut is a secure RPC transport for .NET. A caller invokes methods on a remote service either
directly over TLS ("https" endpoints) or through a polling topology ("poll" endpoints). In the
polling topology, the service dials out and collects queued requests. This project models four
parts of that system and proves properties of each:

- **The pending request queue** (`ServiceModel`, with the pure state machine `RequestLifecycle`).
  - The queue is a FIFO backlog of requests waiting for the polling endpoint, plus the table of
    requests whose callers still wait, keyed by request id.
  - Each request carries two flags, `transferBegun` and `completed`. Each flag is set under the
    request's lock, by the dequeuer's claim or by the caller giving up.
  - Every blocking wait is cut at its suspension points, and each way a wait can end is a method.
    An interleaving of callers, dequeuers and responders is therefore a sequence of method calls.
  - Each method is proved against one step of `RequestLifecycle`. The lemmas there cover every
    interleaving of those steps: a request is never both claimed and abandoned, a claim is final,
    an abandonment is final, the ending is decided once, and the timeouts bound every wait.
- **The runtime facade** (`Runtime`).
  - It holds the per-destination queues and the trust set. It disconnects revoked thumbprints from
    the TLS listeners.
  - It routes an outgoing call by the endpoint's scheme, with a response cache in front.
  - It holds the route table and the friendly HTML page settings. It decides unauthorized first
    contacts through the optional callback.
- **The WebSocket listener** (`Transport`).
  - It decides which incoming HTTP requests reach the message-exchange protocol.
  - A browser gets a friendly HTML page instead.
  - After each session the `finally` block decides what happens to the stream and the response.
- **The test proxy's CONNECT handling** (`TestProxy`).
  - `TryParseLines` splits the read buffer into complete lines.
  - The request pattern `CONNECT host:port HTTP/d.d` is recognised as a leftmost match. `int.Parse`
    overflow is an error.
  - The proxy replies with a 400, 502 or 200 status line. The reply is proved to read back.

`Text` holds the byte, ASCII, decimal and UTF-16/UTF-8 length helpers that these parts share.
`Messages` holds the request and response messages. `Wrappers` holds `Option` and `Result`.

Two scenario methods, `ServiceModel.CancelAfterClaimScenario` and
`ServiceModel.QueueTimeoutScenario`, drive a queue through a whole exchange and assert the outcome.
`Runtime.SameQueueScenario` does the same for `GetQueue`. These three have no postcondition and
carry no row below.

Three behaviours of the code are worth knowing when reading the model:

- **`TrustOnly` disconnects after the fact.** `TrustOnly` replaces the trust set first and
  disconnects the revoked thumbprints afterwards, so every one of its disconnects is made while
  the thumbprint is no longer trusted. `RemoveTrust` disconnects first and removes the thumbprint
  afterwards. `Runtime.RevocationOrder` states both behaviours.
- **An anonymous WebSocket client is admitted.** The WebSocket listener's `Authorize` admits a
  client that presents no certificate at all (`Transport.AnonymousClientReachesProtocol`).
- **The listener constructor takes fewer arguments than the runtime passes.** The runtime
  constructs `SecureWebSocketListener` with nine arguments: friendly page headers and the
  unauthorized-client callback among them. The listener file only has six-argument constructors.
  The model follows the listener file: no custom page headers and no callback in `Authorize`.

## Model

| member | source | states |
|---|---|---|
| `Messages.TimeoutResponse` | source/Halibut/ServiceModel/PendingRequestQueue.cs:244-250 | the timeout response is an error correlated with the request's id, names which wait expired, and carries the timeout of that wait |
| `RequestLifecycle.BeginTransfer` | source/Halibut/ServiceModel/PendingRequestQueue.cs:254-266 | the claim succeeds exactly when the request is not completed, and only a successful claim sets `transferBegun` |
| `RequestLifecycle.OnCancelled` | source/Halibut/ServiceModel/PendingRequestQueue.cs:193-211 | a cancellation before the claim completes the request and rethrows; after the claim it is swallowed and the caller moves to the second wait with nothing else changed |
| `RequestLifecycle.OnQueueTimeout` | source/Halibut/ServiceModel/PendingRequestQueue.cs:213-250 | an expired first wait on an unclaimed request completes it with the "not collected" timeout response; on a claimed request the caller moves to the second wait unchanged |
| `RequestLifecycle.OnProcessingTimeout` | source/Halibut/ServiceModel/PendingRequestQueue.cs:228-245 | an expired second wait returns the "collected but did not respond" timeout response |
| `RequestLifecycle.InitialInv` | source/Halibut/ServiceModel/PendingRequestQueue.cs:159-173 | a new request satisfies the lifecycle invariant |
| `RequestLifecycle.StepKeepsInv` | source/Halibut/ServiceModel/PendingRequestQueue.cs:177-274 | every step of the caller, the dequeuer or the responder preserves the invariant: the two flags are never both set, the waiter event is set exactly when a response is stored, the stored response carries the request's id, and the caller's stage agrees with the flags |
| `RequestLifecycle.RunKeepsInv` | source/Halibut/ServiceModel/PendingRequestQueue.cs:177-274 | every interleaving of the three parties keeps the invariant; in particular `transferBegun` and `completed` are never both true |
| `RequestLifecycle.ClaimIsFinal` | source/Halibut/ServiceModel/PendingRequestQueue.cs:193-224 | once claimed, a request is never completed, its caller never throws and never gets the "not collected" timeout, whatever happens later |
| `RequestLifecycle.AbandonIsFinal` | source/Halibut/ServiceModel/PendingRequestQueue.cs:254-266 | once the caller has given up on an unclaimed request, every later claim fails and the transfer never begins |
| `RequestLifecycle.EndingIsFinal` | source/Halibut/ServiceModel/PendingRequestQueue.cs:177-252 | once the caller's wait has ended, how it ended never changes |
| `RequestLifecycle.LateCancelKeepsWaiting` | source/Halibut/ServiceModel/PendingRequestQueue.cs:196-210 | a cancellation after the claim leaves the request claimed, uncompleted and with its response untouched |
| `RequestLifecycle.ClaimRacesCancel` | source/Halibut/ServiceModel/PendingRequestQueue.cs:198-264 | on a fresh request, claim-then-cancel leaves the caller waiting for the transfer, while cancel-then-claim makes the caller throw and the claim fail |
| `RequestLifecycle.TimeoutsBoundTheWait` | source/Halibut/ServiceModel/PendingRequestQueue.cs:184-251 | from any waiting stage the timeouts alone end the wait, and it ends with a response correlated with the request |
| `ServiceModel.PendingRequest.constructor` | source/Halibut/ServiceModel/PendingRequestQueue.cs:168-173 | a new pending request is unclaimed, uncompleted, unanswered, with its event unset |
| `ServiceModel.PendingRequest.BeginTransfer` | source/Halibut/ServiceModel/PendingRequestQueue.cs:254-266 | returns true exactly when the request was not completed, and changes the state as the lifecycle's claim step |
| `ServiceModel.PendingRequest.SetResponse` | source/Halibut/ServiceModel/PendingRequestQueue.cs:270-274 | stores the response and sets the waiter event |
| `ServiceModel.PendingRequest.WaitSignalled` | source/Halibut/ServiceModel/PendingRequestQueue.cs:186-241 | a wait that returned true ends `WaitUntilComplete` as answered |
| `ServiceModel.PendingRequest.WaitCancelled` | source/Halibut/ServiceModel/PendingRequestQueue.cs:193-211 | the cancellation is rethrown exactly when the request was unclaimed, and the state changes as the lifecycle's cancel step |
| `ServiceModel.PendingRequest.QueueWaitExpired` | source/Halibut/ServiceModel/PendingRequestQueue.cs:213-250 | the state changes as the lifecycle's queue-timeout step |
| `ServiceModel.PendingRequest.ProcessingWaitExpired` | source/Halibut/ServiceModel/PendingRequestQueue.cs:228-245 | the state changes as the lifecycle's processing-timeout step |
| `ServiceModel.PendingRequestQueue.constructor` | source/Halibut/ServiceModel/PendingRequestQueue.cs:14-32 | a new queue has an empty backlog, no registered requests and its signal unset |
| `ServiceModel.PendingRequestQueue.QueueAndWait` | source/Halibut/ServiceModel/PendingRequestQueue.cs:41-52 | the new request is appended to the back of the backlog in every case; a new id is registered and the signal set; a duplicate id fails after the append, leaving the registrations and the signal as they were; the queue invariant is kept |
| `ServiceModel.PendingRequestQueue.Enqueue` | source/Halibut/ServiceModel/PendingRequestQueue.cs:45-47 | the request is appended to the backlog and nothing else changes |
| `ServiceModel.PendingRequestQueue.Register` | source/Halibut/ServiceModel/PendingRequestQueue.cs:48-49 | the request is registered under its id, its caller becomes a waiter and the signal is set |
| `ServiceModel.PendingRequestQueue.WaitSignalled` | source/Halibut/ServiceModel/PendingRequestQueue.cs:52 | the caller's wait ends as answered and the queue invariant is kept |
| `ServiceModel.PendingRequestQueue.WaitCancelled` | source/Halibut/ServiceModel/PendingRequestQueue.cs:193-207 | the cancellation is rethrown exactly when the request was unclaimed; a rethrowing caller leaves its id registered; nothing else changes and the invariant is kept |
| `ServiceModel.PendingRequestQueue.QueueWaitExpired` | source/Halibut/ServiceModel/PendingRequestQueue.cs:213-250 | the expired first wait changes the request as the lifecycle's queue-timeout step and keeps the invariant |
| `ServiceModel.PendingRequestQueue.ProcessingWaitExpired` | source/Halibut/ServiceModel/PendingRequestQueue.cs:228-245 | the expired second wait changes the request as the lifecycle's processing-timeout step and keeps the invariant |
| `ServiceModel.PendingRequestQueue.Collect` | source/Halibut/ServiceModel/PendingRequestQueue.cs:54-59 | after the wait, the id is unregistered and the stored response, which carries the request's id, is returned |
| `ServiceModel.PendingRequestQueue.IsEmpty` | source/Halibut/ServiceModel/PendingRequestQueue.cs:78-87 | true exactly when the backlog, abandoned entries included, is empty |
| `ServiceModel.PendingRequestQueue.Count` | source/Halibut/ServiceModel/PendingRequestQueue.cs:89-98 | the number of backlog entries, abandoned entries included |
| `ServiceModel.PendingRequestQueue.TakeFirst` | source/Halibut/ServiceModel/PendingRequestQueue.cs:126-139 | removes and returns the oldest entry, or null on an empty backlog, and nothing else changes |
| `ServiceModel.PendingRequestQueue.HandOut` | source/Halibut/ServiceModel/PendingRequestQueue.cs:103-104 | an entry whose caller gave up yields nothing; any other is claimed and its request returned |
| `ServiceModel.PendingRequestQueue.MarkHandedOut` | source/Halibut/ServiceModel/PendingRequestQueue.cs:104 | a claimed request that has left the backlog joins the handed-out requests, keeping the invariant that no backlog entry was handed out |
| `ServiceModel.PendingRequestQueue.DequeueAsync` | source/Halibut/ServiceModel/PendingRequestQueue.cs:100-113 | the oldest entry is taken and claimed, and yields its request unless its caller gave up (later entries are not tried); an empty backlog makes the dequeuer wait; the claimed request is exactly that oldest entry when its caller had not given up, it joins the handed-out set, and it was not handed out before |
| `ServiceModel.PendingRequestQueue.ResumeDequeue` | source/Halibut/ServiceModel/PendingRequestQueue.cs:118-123 | after the wait, the signal is reset and the oldest entry, if any, is taken and claimed as in `DequeueAsync`, with the same record of which request was handed out |
| `ServiceModel.PendingRequestQueue.ApplyResponse` | source/Halibut/ServiceModel/PendingRequestQueue.cs:141-157 | a response reaches exactly the request registered under its id; a missing response or an unknown id changes no request |
| `Runtime.SelectTransport` | source/Halibut/HalibutRuntime.cs:251-259 | "https" and "poll", in any letter case, select their transport; every other scheme is unknown |
| `Runtime.DisconnectsReachSecureListenersOnly` | source/Halibut/HalibutRuntime.cs:318-327 | a disconnect reaches every TLS listener once, in list order, and no WebSocket listener |
| `Runtime.DisconnectsForAllCoversEach` | source/Halibut/HalibutRuntime.cs:310-316 | disconnecting several thumbprints disconnects each of them, and only them, on every TLS listener |
| `Runtime.ToDictionary` | source/Halibut/HalibutRuntime.cs:346 | the pairs become a dictionary exactly when their keys are distinct, each key mapping to its value; otherwise the error names a key of the pairs |
| `Runtime.HalibutRuntime.constructor` | source/Halibut/HalibutRuntime.cs:22-37 | a new runtime has no queues, no listeners, no routes, an empty cache, no page headers and the default friendly page |
| `Runtime.HalibutRuntime.GetQueue` | source/Halibut/HalibutRuntime.cs:91-94 | a destination's queue is created, empty, on first use and is the same queue ever after |
| `Runtime.HalibutRuntime.AddListener` | source/Halibut/HalibutRuntime.cs:115-135 | a started listener joins the end of the listener list |
| `Runtime.HalibutRuntime.SendOutgoingRequest` | source/Halibut/HalibutRuntime.cs:238-283 | a cached response is returned first; otherwise the lower-cased scheme picks the direct exchange or the destination's queue (created fresh and empty, with every other destination's queue kept, when the destination has none yet), an unknown scheme fails and caches nothing, and a cacheable response is cached under everything but the request id |
| `Runtime.HalibutRuntime.Trust` | source/Halibut/HalibutRuntime.cs:290-293 | the thumbprint joins the trust set and nothing else changes |
| `Runtime.HalibutRuntime.IsTrusted` | source/Halibut/HalibutRuntime.cs:329-332 | true exactly when the thumbprint is in the trust set |
| `Runtime.HalibutRuntime.DisconnectFromAllListeners` | source/Halibut/HalibutRuntime.cs:318-327 | one disconnect call per TLS listener, in list order, and nothing else changes |
| `Runtime.HalibutRuntime.RemoveTrust` | source/Halibut/HalibutRuntime.cs:295-299 | the thumbprint is disconnected everywhere while still trusted, and then leaves the trust set |
| `Runtime.HalibutRuntime.DisconnectEachFromAllListeners` | source/Halibut/HalibutRuntime.cs:310-316 | each thumbprint of the collection is disconnected on every TLS listener, once, one thumbprint after another |
| `Runtime.HalibutRuntime.TrustOnly` | source/Halibut/HalibutRuntime.cs:301-308 | the trust set becomes exactly the given thumbprints; then each revoked thumbprint, and no other, is disconnected on every TLS listener while no longer trusted |
| `Runtime.HalibutRuntime.Route` | source/Halibut/HalibutRuntime.cs:334-337 | a destination keeps its first route; later ones are ignored |
| `Runtime.HalibutRuntime.SetFriendlyHtmlPageContent` | source/Halibut/HalibutRuntime.cs:339-342 | a missing page restores the default page |
| `Runtime.HalibutRuntime.SetFriendlyHtmlPageHeaders` | source/Halibut/HalibutRuntime.cs:344-347 | missing headers become no headers; headers with distinct keys become the dictionary; a repeated key fails and keeps the previous headers |
| `Runtime.HalibutRuntime.HandleUnauthorizedClientConnect` | source/Halibut/HalibutRuntime.cs:368-376 | without a callback the client is blocked; otherwise the callback decides, and a client it trusts joins the trust set |
| `Runtime.RevocationOrder` | source/Halibut/HalibutRuntime.cs:295-308 | `TrustOnly`'s disconnects reach every revoked thumbprint on every TLS listener, all made after its trust is gone; `RemoveTrust`'s are all made while it is still trusted |
| `Transport.EnsureCertificateIsValidForListening` | source/Halibut/Transport/SecureWebSocketListener.cs:206-214 | a certificate is accepted exactly when there is one and it has a private key; a missing certificate gives its own error |
| `Transport.Authorize` | source/Halibut/Transport/SecureWebSocketListener.cs:175-196 | a client is authorized exactly when every thumbprint it presents is trusted, so a client without a certificate is authorized |
| `Transport.AuthorizeRefusesOnlyUntrusted` | source/Halibut/Transport/SecureWebSocketListener.cs:175-196 | authorization refuses exactly the clients that present a certificate whose thumbprint is not trusted |
| `Transport.AnonymousClientReachesProtocol` | source/Halibut/Transport/SecureWebSocketListener.cs:179-183 | an "MX" session without a client certificate reaches the protocol even when nothing is trusted |
| `Transport.Substring` | source/Halibut/Transport/SecureWebSocketListener.cs:125 | taking a prefix succeeds exactly when the text is long enough, and gives that prefix |
| `Transport.ExecuteRequest` | source/Halibut/Transport/SecureWebSocketListener.cs:103-153 | the protocol runs exactly for an upgraded, "MX"-prefixed, authorized session; the connection is kept exactly when the protocol handler also returns; otherwise the response is closed, and the stream is disposed if the upgrade opened one |
| `Transport.PageAnnouncesLength` | source/Halibut/Transport/SecureWebSocketListener.cs:164-169 | a client reading the page's headers reads back exactly the length the page announces |
| `Transport.FriendlyHtmlPageAnnouncesUtf16Length` | source/Halibut/Transport/SecureWebSocketListener.cs:156-173 | the page as written announces the UTF-16 length of the message |
| `Transport.FriendlyHtmlPageInBytesAnnouncesUtf8Length` | source/Halibut/Transport/SecureWebSocketListener.cs:162-166 | the corrected page announces the number of bytes the UTF-8 writer produces for the message |
| `Transport.AsciiPageIsExact` | source/Halibut/Transport/SecureWebSocketListener.cs:166 | for ASCII content, the default page included, the page as written and the corrected page are the same |
| `Transport.NonAsciiPageUndercounts` | source/Halibut/Transport/SecureWebSocketListener.cs:166 | for the content "é" the page as written announces a length of 1 while the UTF-8 encoding of the content has 2 bytes |
| `Transport.HandleOne` | source/Halibut/Transport/SecureWebSocketListener.cs:63-82 | one turn of the accept loop handles its context as `Handle` says |
| `Transport.Accept` | source/Halibut/Transport/SecureWebSocketListener.cs:55-85 | every context is handled, in order: a failed accept is logged, a browser gets the page as `SendFriendlyHtmlPage` writes it from the content current at that request (announcing the UTF-16 length), a WebSocket request goes through `ExecuteRequest` |
| `Transport.BrowsersNeverReachProtocol` | source/Halibut/Transport/SecureWebSocketListener.cs:71-76 | a non-WebSocket request never reaches the protocol; unless the page write fails, it gets the page and the response is closed; the page announces the UTF-16 length of the content current at that request, which is its byte length only for ASCII text |
| `Transport.OnlyCompletedSessionsStayOpen` | source/Halibut/Transport/SecureWebSocketListener.cs:131-152 | a session keeps its stream exactly when it was admitted and the protocol handler returned; every other session has its response closed |
| `TestProxy.IndexOf` | source/Halibut.TestProxy/HttpProxyService.cs:225 | the first position of the byte, or none when the buffer lacks it |
| `TestProxy.SplitLinesRoundTrip` | source/Halibut.TestProxy/HttpProxyService.cs:223-234 | the complete lines, each followed by '\n', then the leftover, give back the buffer |
| `TestProxy.SplitLinesSeparates` | source/Halibut.TestProxy/HttpProxyService.cs:223-234 | no line and no leftover holds '\n', and there is a complete line exactly when the buffer holds '\n' |
| `TestProxy.TryParseLines` | source/Halibut.TestProxy/HttpProxyService.cs:218-238 | the message is the ASCII-decoded complete lines, each followed by the platform line break; the buffer is left at the partial last line; the result is true exactly when the message is non-empty |
| `TestProxy.TryParseLinesFindsNewline` | source/Halibut.TestProxy/HttpProxyService.cs:227-237 | a message is found exactly when the buffer holds '\n'; without one, nothing is consumed |
| `TestProxy.MatchAtIsTheOnlyMatch` | source/Halibut.TestProxy/HttpProxyService.cs:177 | at a given start the pattern matches with at most one colon and space, the ones the greedy match picks |
| `TestProxy.FindConnect` | source/Halibut.TestProxy/HttpProxyService.cs:193 | the match found is the leftmost one, and none is found only when the pattern matches nowhere |
| `TestProxy.MatchSpellsRequestLine` | source/Halibut.TestProxy/HttpProxyService.cs:177 | a match spells `CONNECT host:port HTTP/version` in the message, with an all-digit port |
| `TestProxy.Interpret` | source/Halibut.TestProxy/HttpProxyService.cs:193-203 | a complete message is refused only as not a CONNECT request or for an overflowing port, never as an unfinished read; an accepted port is at most `int.MaxValue` and the version has three characters |
| `TestProxy.InterpretRefusesOnlyNonMatches` | source/Halibut.TestProxy/HttpProxyService.cs:193-203 | a complete message is refused as not a CONNECT request exactly when the pattern matches nowhere in it |
| `TestProxy.InterpretReadsRequestLine` | source/Halibut.TestProxy/HttpProxyService.cs:193-198 | an accepted request has a port of at most 2147483647 and a three-character version, read from a request line that occurs in the message |
| `TestProxy.InterpretMatchAtStart` | source/Halibut.TestProxy/HttpProxyService.cs:193-198 | a match at the start gives the hostname, port and version read from the slices, or a port overflow error |
| `TestProxy.InterpretRequestLine` | source/Halibut.TestProxy/HttpProxyService.cs:177-203 | a well-formed request line, followed by anything, reads back as its hostname, port and version |
| `TestProxy.FirstCompleteReadDecides` | source/Halibut.TestProxy/HttpProxyService.cs:179-203 | the first read that completes a line decides the request; later reads are never looked at |
| `TestProxy.ConnectRequestRoundTrip` | source/Halibut.TestProxy/HttpProxyService.cs:170-215 | a request line sent as one '\n'-terminated read parses back to the hostname, port and version it was built from |
| `TestProxy.ParseConnectionRequest` | source/Halibut.TestProxy/HttpProxyService.cs:170-216 | the parse loop gives the result `ParseFrom` defines: reads are accumulated until one completes a line, whose message is then interpreted; a cancelled read is the `ReadCanceled` error and running out of reads, the token's cancellation, is the `TokenCancelled` error |
| `TestProxy.TokenCancelledExactlyWithoutLine` | source/Halibut.TestProxy/HttpProxyService.cs:179-210 | parsing ends by the token's cancellation exactly when no read comes back cancelled and no '\n' ever arrives |
| `TestProxy.StatusTextReadsBack` | source/Halibut.TestProxy/HttpProxyService.cs:165 | the status text reads back as its version, code and reason |
| `TestProxy.ConnectResponse` | source/Halibut.TestProxy/HttpProxyService.cs:163-167 | the reply has one byte per character of the status text, and with an ASCII version and reason it decodes back to that text |
| `TestProxy.StatusTextIsAscii` | source/Halibut.TestProxy/HttpProxyService.cs:165-167 | with an ASCII version and reason the status text is ASCII |
| `TestProxy.StatusLineRoundTrip` | source/Halibut.TestProxy/HttpProxyService.cs:163-168 | the ASCII-encoded reply reads back as the status line it was built from |
| `TestProxy.ReplyFor` | source/Halibut.TestProxy/HttpProxyService.cs:115-145 | a parse failure gives 400 with version "1.0"; a failed connect gives 502; otherwise 200; the last two echo the request's version |
| `TestProxy.HandleProxyRequest` | source/Halibut.TestProxy/HttpProxyService.cs:96-155 | a handler cancelled before it starts sends nothing; a token cancelled while the request is read aborts with nothing sent, because the 400 reply is written with that same token; otherwise the reply is the ASCII status line chosen from the parse and the connect |
| `TestProxy.RepliesReadBack` | source/Halibut.TestProxy/HttpProxyService.cs:122-139 | each of the three replies reads back as the status line chosen |
| `Text.DecodeOfEncode` | source/Halibut.TestProxy/HttpProxyService.cs:167 | ASCII text survives encoding then decoding |
| `Text.EncodeOfDecode` | source/Halibut.TestProxy/HttpProxyService.cs:230 | bytes below 0x80 survive decoding then encoding |
| `Text.DecimalValueOfShowNat` | source/Halibut/Transport/SecureWebSocketListener.cs:166 | reading back the decimal text of a number gives the number |
| `Text.ShowNatOfDecimalValue` | source/Halibut.TestProxy/HttpProxyService.cs:197 | decimal text without a leading zero is the text of its value |
| `Text.ToLowerMatchesIgnoringCase` | source/Halibut/HalibutRuntime.cs:251 | lowering a scheme and comparing it with a lower-case word is comparing ignoring case |
| `Text.AsciiLengthsAgree` | source/Halibut/Transport/SecureWebSocketListener.cs:166 | in ASCII text, the UTF-16 length, the UTF-8 length and the number of characters agree |

## Left out

- Threads, locks and blocking waits are not modelled as such. Each lock-protected region is one
  atomic method, except that `DequeueAsync` and `ResumeDequeue` each take the oldest entry and
  claim it in one step, although the source takes it under the queue's lock and claims it under
  the request's lock. The two regions commute with every other party's steps: taking the entry
  touches only the backlog, and a caller's endings and a responder touch only their own request. Each way a wait can end is a method the environment calls, and a method's
  precondition says when that ending is possible.
- `ServiceModel.PendingRequest.QueueWaitExpired`: the lock that marks an unclaimed request
  completed and the `SetResponse` after it are one step. Between the two, only a responder that
  knows the id can act, and `SetResponse` overwrites whatever it stored.
- `ServiceModel.PendingRequestQueue.WaitCancelled`: the rethrown cancellation is the result
  `rethrown`. The id then stays registered, because `QueueAndWait` is left before its removal.
- `ServiceModel.PendingRequestQueue.QueueAndWait`: a duplicate id is the `DuplicateId` error.
  The source's `Dictionary.Add` throws after the request has already joined the backlog, and the
  model keeps that orphaned entry.
- `ServiceModel.PendingRequestQueue.ResumeDequeue`: why the dequeuer's wait ended (a signal, the
  polling timeout or the dequeuer's token) does not matter to the code after it. The wait itself
  and its cancellation sources are not modelled.
- Logging, `QueueAndWaitAsync`'s wrappers and the obsolete overloads are not modelled.
- `Runtime.HalibutRuntime.SendOutgoingRequest`: the response cache is reduced to a verdict
  `cacheable` and a map keyed by everything except the request id. The error-caching override and
  expiry are not modelled. The exchanged response is an input, because the TLS exchange and the
  polling wait are outside this model.
- `Runtime.HalibutRuntime.DisconnectEachFromAllListeners`: the thumbprints are taken in some order
  the proof chooses. The source uses the order of `Except`, which no contract depends on.
- `Runtime.HalibutRuntime.HandleUnauthorizedClientConnect`: the callback is its answer, an
  optional input.
- `Runtime.HalibutRuntime.AddListener`: models only the bookkeeping of `Listen` and
  `ListenWebSocket`. Creating and starting the listener (sockets, ports) is not modelled.
- The trust provider is an exact set of thumbprint strings.
- A `Uri` is its scheme and the rest as one string, so equality of destinations is structural.
- `Listen`, `Poll`, `Discover`, `CreateClient`, `Dispose`, `Disconnect(endpoint)` and the
  connection manager are not part of this model.
- `Transport.ExecuteRequest`: every exception is a flag of the session: a failed upgrade, a failed
  read or a failed protocol handler. The branch for a non-"MX" first message only logs that it
  sends the friendly page and in fact sends nothing, and the model sends nothing either. The "MX"
  check takes the first two characters as code points, where .NET takes UTF-16 code units.
- `Transport.Accept`: each context is handled in turn. The fire-and-forget `HandleClient` task that
  runs `ExecuteRequest` concurrently with later accepts is not modelled, and neither is the
  listener's start and stop. Each browser request carries the page content read for it; that this
  content is the runtime's `friendlyHtmlPageContent` at that moment is not a contract.
- `Transport.FriendlyHtmlPage`: the page is the text the writer sends into the response stream.
  `HttpListener` sends its own status line and headers, so the status and header lines of this
  text are part of the body and frame nothing. Its UTF-8 encoding is modelled only through
  `Utf8Length`.
- `TestProxy.ParseConnectionRequest`: the reads are a finite sequence, and running out of reads
  stands for the token's cancellation, whether it is seen by the loop's condition or by a pending
  `ReadAsync`. A read that reports the client's end of the stream (`IsCompleted`) is not
  distinguished from any other read. A cancelled read, or a loop that ends without a request,
  leaves `port` null, and the resulting exception is an error of the parse.
- The regular expression is modelled only for this one pattern (`MatchesAt`). Its `\S` and `\d`
  see ASCII text only, because the message was ASCII-decoded.
- `TestProxy.HandleProxyRequest`: a failure to send the 200 reply only logs, and the pipes' and the
  socket's completion are not modelled. The connect attempt's success is an input. The token is
  taken to stay live after parsing: a cancellation during the connect attempt, whose 502 reply
  would be refused in the same way as the 400, is not modelled. That a write with a cancelled
  token is refused is the behaviour of .NET's `PipeWriter`, which is not part of this model.

## Findings

| source | as written | input that shows it | evidently intended | confidence | as-written member | corrected member |
|---|---|---|---|---|---|---|
| source/Halibut/Transport/SecureWebSocketListener.cs:166 | `Content-Length` is `message.Length`, the number of UTF-16 code units, while the body is written as UTF-8 | for the page content "é" the text announces a length of 1, while the UTF-8 writer encodes the content as 2 bytes | announce the number of UTF-8 bytes of the message | not executed | `Transport.NonAsciiPageUndercounts` (with `Transport.FriendlyHtmlPage`) | `Transport.FriendlyHtmlPageInBytes` (with `Transport.FriendlyHtmlPageInBytesAnnouncesUtf8Length`), which announces the UTF-8 length; `Transport.Accept` serves the page as written |
