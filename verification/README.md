# Verified model of the realtime proxy's relay core

The proxy accepts Realtime HTTP requests and WebSockets, decides from path, query and headers which upstream
dialect, credential and target a request is for, and then relays. This project models the parts of it where a
mistake would be silent, and proves what they promise for all inputs, all runs and all interleavings.

**The relay pump** (`Frames`, `PumpMachine`, `PumpSafety`, `PumpTiming`, `PumpCauses`, `PumpRefinement`, `PumpLoops`). A
WebSocket relay is a state machine over what it is waiting for (connecting, flushing the pre-open queue,
waiting for a frame, sending one, ended). One event is one resolution of a wait, with its instant.
`PumpMachine.Next` is the step relation and `Run` the state after a sequence of events. `PumpLoops.Relay` is
the same relay as it is written, loops over mutable state, and every one of its methods is proved to reach the
state that `Run` gives. `PumpSafety` proves conservation, order, bounds and the close discipline of every run,
`PumpCauses` why and how every run ends, `PumpTiming` that the flush ends and what the idle deadline means,
`PumpRefinement` that keepalives leave no trace and that the queued private pump refines the direct one.

**The exchange lifecycle** (`Lifecycle`). Handlers, their drop guards and the spawned tasks of any number of
concurrent exchanges, interleaved action by action over a first-writer slot, a cancellation token and a
semaphore. A guard's drop is two actions. `Lifecycle.ExchangeLifecycle` is the slot with its methods.

**Bounded bodies** (`CappedBody`). The capped reading loop of requests and responses.

**Parsers and codecs** (`Text`, `Utf8`, `Percent`, `Query`, `CallId`, `Mime`, `MediaLanguage`, `Subprotocol`,
`OfferLanguage`, `Bearer`). Byte strings are sequences of characters, one a byte. Each parser is a loop proved
equal to a specification function, and the specification is proved to accept exactly a language given
separately: spellings of a decoded text, printed media types, well-formed offers, credentials.

**Classification, policy, URLs** (`Contract`, `RequestLanguage`, `Gate`, `Urls`). How a request is classified,
which profile may serve it, whose credential reaches the upstream, and that the URL sent upstream names the
target that was classified.

**The frame log's arithmetic** (`Calendar`, `Utf8`, `Unicode`). Day counts to civil dates against a direct
definition of the calendar, and the offset of the first fault in a payload.

`dafny verify dfyconfig.toml` checks the whole project.

## What the code does that its promises do not say

- A base URL whose host is literally `v1` (`http://v1`) is taken for one that ends in a version segment. All
  three URL builders then drop the version from the path: the private one, the sideband one and the official
  one. `Urls.PrivateUrlKeepsTarget`, `Urls.SidebandKeepsTarget` and `Urls.OfficialKeepsPath` prove, over the
  bases with a host and no path of their own, that the promised rewriting holds for exactly the others.
  `Urls.PrivateHostNamedV1`, `Urls.HostNamedV1` and `Urls.OfficialHostNamedV1` are concrete inputs that lose
  it.
- The idle deadline also runs while the pre-open queue is flushed, where a direct relay sending the same
  frame cannot observe it (`PumpRefinement.IdleCutsTheFlush`), and a direct relay counts a queued frame as
  read when it takes it off the queue. `PumpRefinement.PrivateRefinesDirect` says exactly when the direct
  relay can follow a run that ends by the idle deadline; it follows every other run.
- The guard of an exchange can win the terminal slot while the task still completes with a response
  (`Lifecycle.GuardCanWinOverOk`). `Lifecycle.RecordAgreesExactly` says when: what the slot says agrees with a
  decided result exactly while the guard is alive, or when the result is the cancellation.
- An upstream close without a code, or with code 0, reaches the client as 1000.
- A capped body's running total saturates, so a cap of the largest `usize` accepts everything
  (`CappedBody.AcceptedExactly`).

## Model

| member | source | states |
|---|---|---|
| Frames.ConversionFaithful | src/relay/ws_convert.rs:16-30 | converting towards the upstream keeps kind, text and bytes, drops exactly keepalives, and is undone by the conversion back |
| Frames.ConversionBackFaithful | src/relay/ws_convert.rs:32-61 | the same towards the client |
| PumpMachine.RunConcat | src/relay/pump.rs:293-442 | a run over two pieces of trace is the two runs in turn |
| PumpSafety.ShapeHolds | src/relay/pump.rs:110-135 | in every reachable running state: at most 32 queued frames, only data frames within the cap, and while connecting queued bytes equal the sum of the queued payloads, within the cap and the integer width |
| PumpSafety.Conservation | src/relay/pump.rs:306-441 | in every reachable state the data sent, in flight and queued on each leg is, in order and unchanged, the data read from the other; all of it is sent when the connected loop ends by a peer's close |
| PumpSafety.SentIsPrefix | src/relay/pump.rs:466-654 | whatever ends a run, each leg carries a prefix of what the other peer was read for |
| PumpSafety.CloseDiscipline | src/relay/pump.rs:223-257 | until the last step only data frames; the last step puts exactly the closing frames its outcome calls for, at most one a leg and last |
| PumpSafety.AbortsSayWhy | src/relay/pump.rs:239-257 | every closing frame of an aborted run carries the code and reason of the abort |
| PumpSafety.FarewellsMatch | src/relay/pump.rs:498-585 | an upstream close ends a run only when the upstream sent it, and reaches the client with the code and reason it sent, a missing or zero code as 1000; a client that leaves an open run is told nothing, and its farewell reaches the upstream: its own close when transparent, 1000 "client closed" when private |
| PumpSafety.OpenPhase | src/relay/pump.rs:302-390 | the pump is past connecting exactly when its upstream leg exists |
| PumpSafety.EveryFrameFits | src/relay/pump.rs:541-605 | no data frame above the cap is ever on either leg, in any phase |
| PumpCauses.OutcomeExactly | src/relay/pump.rs:306-653 | a run ends at an event, and with an outcome, exactly as the event, the frames read before the connect and the frame in flight call for, codes and reasons written out; while it goes on nothing read is lost |
| PumpCauses.AbortsExactly | src/relay/pump.rs:306-653 | the exact cause of each abort: "frame too large" iff an oversized frame is read, "too many pending frames" iff a 33rd is, "queued frames too large" iff the sum passes the cap or the integer width, and the same for connect failure, upstream error, each failed and each timed-out send, and the idle deadline |
| PumpCauses.ReadIsInFlight | src/relay/pump.rs:541-605 | a data frame within the cap that is read in the connected loop is on its way, unchanged, in the next state |
| PumpCauses.FarewellsExactly | src/relay/pump.rs:223-257 | what each outcome puts on each leg, frame by frame |
| PumpTiming.FlushTerminates | src/relay/pump.rs:392-439 | the flush takes at most 32 steps in any run |
| PumpTiming.IdleExact | src/relay/pump.rs:462-497 | the running deadline is always the last read, or the connect, plus the idle timeout; "idle timeout" ends a run only after that silence |
| PumpTiming.IdleReady | src/relay/pump.rs:392-412 | the idle branch can be taken exactly after that silence, while waiting or flushing |
| PumpRefinement.KeepalivesTransparent | src/relay/pump.rs:538-603 | with the idle timeout off, dropping all pings and pongs leaves frames, queue decisions and outcome as they are |
| PumpRefinement.KeepalivesInsertable | src/relay/pump.rs:538-603 | two inputs that differ in keepalives only are relayed alike |
| PumpRefinement.PrivateRefinesDirect | src/relay/pump.rs:293-460 | the direct pump fed the same frames can follow a private run, whenever it connects, exactly unless the run ends by an idle deadline during the flush or before the direct pump has been silent for as long; as far as it follows it is in the same place: same legs, same frame in flight, same outcome; only the farewell can differ, and only with the close policy |
| PumpRefinement.DirectFedTheSame | src/relay/pump.rs:446-460 | in every run, ended or not, that direct pump reads all the upstream's frames, and the client's but those still queued |
| PumpRefinement.IdleMatched | src/relay/pump.rs:392-412 | where the idle deadline ends a private run, the direct pump can take the same event exactly when nothing is being flushed and it has been silent as long, and then ends alike |
| PumpRefinement.IdleCutsTheFlush | src/relay/pump.rs:392-412 | a run where the idle deadline ends a flush that a direct pump could not end |
| PumpLoops.Relay.Private | src/relay/pump.rs:293-303 | a private relay starts connecting, with nothing queued or sent |
| PumpLoops.Relay.Direct | src/relay/pump.rs:446-460 | a direct relay starts in the connected loop with a fresh deadline |
| PumpLoops.Relay.TellUp | src/relay/pump.rs:223-229 | puts one closing frame on the upstream leg and nothing else |
| PumpLoops.Relay.TellDown | src/relay/pump.rs:231-237 | the same on the client's leg |
| PumpLoops.Relay.TellBoth | src/relay/pump.rs:239-257 | tells both legs and ends aborted |
| PumpLoops.Relay.OnEarlyRead | src/relay/pump.rs:325-386 | one client read while connecting is the machine's step |
| PumpLoops.Relay.AwaitConnect | src/relay/pump.rs:306-390 | the connecting loop reaches the state the machine gives for its trace |
| PumpLoops.Relay.Flush | src/relay/pump.rs:392-439 | so does the flush loop |
| PumpLoops.Relay.OnClientRead | src/relay/pump.rs:498-553 | one client read in the connected loop is the machine's step |
| PumpLoops.Relay.OnUpstreamRead | src/relay/pump.rs:581-653 | so is one upstream read |
| PumpLoops.Relay.OnUpstreamSend | src/relay/pump.rs:555-580 | so is the end of a send towards the upstream |
| PumpLoops.Relay.OnClientSend | src/relay/pump.rs:605-630 | so is the end of a send towards the client |
| PumpLoops.Relay.Turn | src/relay/pump.rs:480-653 | so is one turn of the connected loop |
| PumpLoops.Relay.RunConnectedFromDeadline | src/relay/pump.rs:466-654 | the connected loop reaches the state the machine gives for its trace |
| PumpLoops.Relay.RunPrivateWith | src/relay/pump.rs:293-442 | so does the whole private pump, through all three loops |
| Lifecycle.ExchangeLifecycle.Finish | src/relay/http.rs:44-58 | the slot is written only while in flight; the caller learns whether it won |
| Lifecycle.ExchangeLifecycle.DropGuard | src/relay/http.rs:74-80 | the guard cancels exactly when it wins the slot |
| Lifecycle.AlwaysCoherent | src/relay/http.rs:127-152 | the invariant of every exchange under every interleaving: slot, token, guard, task and reply fit together |
| Lifecycle.FirstWriterWins | src/relay/http.rs:44-58 | once recorded, a terminal never changes again |
| Lifecycle.InFlightWhileLive | src/realtime/http.rs:116-160 | with the guard alive and the task unfinished the slot is in flight and nothing is cancelled, unless the handler itself refused |
| Lifecycle.LiveHandlerSeesItsTerminal | src/realtime/http.rs:153-170 | a live handler finds the terminal of the result it receives, and never receives a cancellation |
| Lifecycle.RecordedAsReceived | src/relay/http.rs:141-147 | a live handler's result and the terminal: a response iff Completed, a timeout iff TimedOut, another failure iff Failed |
| Lifecycle.RecordedAsRefused | src/realtime/http.rs:189-199 | what is recorded for each error a handler refuses with |
| Lifecycle.RecordedAsDropped | src/relay/http.rs:74-80 | what is recorded when the client left: Canceled and cancelled, or what the task had recorded before |
| Lifecycle.CancelIsFinal | src/relay/http.rs:131-139 | a task that has yet to look at a cancelled token can only end with the cancellation |
| Lifecycle.CancelIsNoticed | src/relay/http.rs:131-139 | a task that finds its work pending when the token is cancelled ends with the cancellation at its next poll |
| Lifecycle.NoneStuck | src/realtime/http.rs:116-170 | until an exchange is over, its handler or its task can act |
| Lifecycle.GoneIsSettled | src/relay/http.rs:74-80 | no exchange stays in flight once its handler is gone |
| Lifecycle.RecordAgreesExactly | src/relay/http.rs:131-147 | at a decided result, what the slot will say agrees with it exactly when the guard is alive or the result is the cancellation |
| Lifecycle.GuardCanWinOverOk | src/relay/http.rs:131-151 | the run in which the guard wins and the task still returns Ok |
| Lifecycle.PermitsConserved | src/live/call_create.rs:75-106 | free permits and those held by handlers and tasks always add up to the limit |
| Lifecycle.PermitOnce | src/realtime/http.rs:116-152 | an exchange acquires at most once and releases at most once |
| Lifecycle.AllReleased | src/relay/http.rs:93-101 | when all exchanges are over every permit is free |
| Lifecycle.TaskReleasesAfterRecording | src/relay/http.rs:127-152 | a task releases its permit only after its exchange's terminal is recorded |
| Lifecycle.TurnedAwayOnlyWhenFull | src/realtime/http.rs:116-124 | a request is turned away exactly when all permits are held |
| CappedBody.ReadCapped | src/relay/body.rs:12-31 | the reading loop: the buffer fits after every chunk, and the result is that of the specification |
| CappedBody.Verdict | src/relay/body.rs:12-31 | from any buffer: too large, the first error, or the whole, decided by total and error alone |
| CappedBody.RefusedAt | src/relay/http.rs:176-180 | a refused body is refused at the first chunk that passes the cap, with the total so far |
| CappedBody.AcceptedExactly | src/relay/http.rs:166-187 | an error-free body is accepted exactly when its total is within the cap, and returned whole |
| CappedBody.ChunkingIndependent | src/relay/http.rs:166-187 | two chunkings of the same stream get the same verdict and bytes |
| Calendar.CivilCorrect | src/observability/frame_log.rs:284-295 | a valid date whose day number is the count; intermediate values in their ranges |
| Calendar.CivilInverse | src/observability/frame_log.rs:284-295 | the day number is the inverse of the algorithm |
| Calendar.CivilSuccessor | src/observability/frame_log.rs:284-295 | the next count is the calendar's next date |
| Calendar.CivilMonotone | src/observability/frame_log.rs:284-295 | counts and dates are in the same order |
| Calendar.DayNumberCounts | src/observability/frame_log.rs:283-295 | the reference numbering goes up by one a day |
| Calendar.Epoch | src/observability/frame_log.rs:284-295 | day 0 is 1970-01-01 |
| Calendar.MomentExact | src/observability/frame_log.rs:268-281 | the timestamp's fields are in range and lose nothing |
| Calendar.MomentsOrdered | src/observability/frame_log.rs:268-281 | timestamps are ordered as their instants |
| Utf8.ValidUpToIsLongest | src/observability/frame_log.rs:300-307 | the reported valid prefix is valid and no longer prefix is |
| Unicode.ValidExactly | src/observability/frame_log.rs:299-307 | a byte string is valid exactly when it is the encoding of scalar values |
| Unicode.ReplacementIsScalar | src/observability/frame_log.rs:201-203 | the bytes searched for are the encoding of U+FFFD |
| Utf8.ReplacementAligned | src/observability/frame_log.rs:304-306 | self-synchronization: within the valid prefix EF BF BD occurs only as a whole character |
| Utf8.FindIsByteSearch | src/observability/frame_log.rs:202-203 | character search for U+FFFD is byte search for EF BF BD |
| Utf8.FirstFaultIsLeast | src/observability/frame_log.rs:297-308 | the least offset of a U+FFFD or of the end of valid UTF-8; none exactly when there is neither |
| Utf8.RecordsAgreeOnText | src/observability/frame_log.rs:201-228 | text and binary records report the same offset on text |
| Percent.ScanEscapes | src/realtime/path.rs:92-107 | the escape scan accepts exactly strings whose every '%' starts an escape |
| Percent.DecodesWhatItSpells | src/realtime/path.rs:109-112 | a string decodes to a text, strictly, exactly when it spells it |
| Percent.EscapeRead | src/realtime/path.rs:94-112 | a '%' and two digits, each in either case, is the byte they write |
| Percent.LiteralRead | src/realtime/path.rs:94-112 | any character but '%' is itself |
| Percent.MalformedKeepsPercent | src/live/sideband.rs:43-48 | a malformed escape survives lenient decoding as a '%' |
| Query.DecodeComponent | src/realtime/query.rs:29-54 | the component decoder's loop and its two errors |
| Query.ComponentExactly | src/realtime/query.rs:29-54 | a component decodes to a value exactly when it spells it, plus for space, and the value is UTF-8 |
| Query.PairAsWritten | src/realtime/query.rs:20-26 | the first '=' separates key and value, without one the value is empty, the key's error comes first |
| Query.EmptyQueries | src/realtime/query.rs:16-19 | no query is no pair, an empty one a pair of empty texts |
| Query.EncodedAsWritten | src/realtime/websocket.rs:455-466 | letters, digits and "-._~" stand for themselves, any other byte for '%' and two upper-case digits |
| Query.EncodeQueryComponent | src/realtime/websocket.rs:455-466 | the encoding loop |
| Query.EncodedComponent | src/realtime/websocket.rs:455-466 | every UTF-8 text is the decoding of its encoding, which needs no further escaping |
| Query.QueryRoundTrip | src/realtime/query.rs:16-27 | decoding the encoding of any non-empty list of UTF-8 pairs gives it back, order, duplicates and empties kept |
| Query.QueryHomomorphism | src/realtime/query.rs:16-27 | decoding a&b is decoding a and then b; the first error wins |
| CallId.DecodeCallId | src/realtime/path.rs:92-113 | the strict decoder accepts exactly well-escaped UTF-8 |
| CallId.StrictAgreesWithLenient | src/live/sideband.rs:43-74 | the strict and the lenient call-id parser accept the same segments with the same id |
| CallId.ParsesItsSpellings | src/realtime/path.rs:78-113 | a segment parses to an id exactly when it is one of the id's literal or escaped spellings |
| CallId.CallPathExactly | src/realtime/path.rs:35-75 | a call path is accepted exactly when it is an action on a spelling of a valid id, and carries that id |
| CallId.RoutesExactly | src/realtime/path.rs:35-75 | every REST route, by its text, and the operation it stands for |
| CallId.PathErrors | src/realtime/path.rs:56-67 | when a path is refused for its id, and not as unknown |
| CallId.ValidCallIdText | src/realtime/path.rs:78-90 | an id is 1 to 128 letters, digits, underscores and hyphens |
| Mime.SplitMimeParts | src/realtime/contract.rs:411-439 | the one-pass splitter |
| Mime.ScanIsGrammar | src/realtime/contract.rs:411-439 | the two-flag automaton agrees with a recursive descent over quoted strings on every input |
| Mime.SplitsExactly | src/realtime/contract.rs:411-439 | the parts are the one list of closed pieces that joined with ';' is the input; failure when there is none |
| Mime.ValidParameterValue | src/realtime/contract.rs:465-487 | the parameter value loop |
| Mime.QuoteIsValid | src/realtime/contract.rs:465-487 | any non-empty printable text is a valid value when quoted and escaped |
| Mime.ValueIsClosed | src/realtime/contract.rs:465-487 | no semicolon inside a valid value can split it |
| Mime.ComputeMediaType | src/realtime/contract.rs:378-409 | the media type loop |
| Mime.ParamPrinted | src/realtime/contract.rs:388-400 | a printed parameter is closed and gives back its lower-cased name |
| MediaLanguage.ValueTextExactly | src/realtime/contract.rs:441-487 | the values accepted are exactly tokens, by their bytes, and non-empty quoted strings of shown bytes and quoted pairs |
| MediaLanguage.WrittenParses | src/realtime/contract.rs:378-409 | parsing a media type written by that grammar gives its base, but for a multipart form without boundary |
| MediaLanguage.ParsesExactlyWritten | src/realtime/contract.rs:378-409 | and nothing else is accepted |
| Mime.MediaTypeRoundTrip | src/realtime/contract.rs:378-409 | the round trip in the parser's own predicates |
| Mime.MediaTypeExactly | src/realtime/contract.rs:378-409 | the language accepted in the parser's own predicates |
| Subprotocol.OfferToken | src/realtime/subprotocol.rs:67-112 | one token against the flags kept so far: the same verdict as against the tokens themselves |
| Subprotocol.ComputeParse | src/realtime/subprotocol.rs:38-135 | the nested loops over fields and tokens |
| Subprotocol.MeasureCanonical | src/realtime/subprotocol.rs:115-122 | the length of the canonical header |
| Subprotocol.ParseExactly | src/realtime/subprotocol.rs:38-135 | which fields are accepted, as a condition on the whole offer, and what they yield |
| OfferLanguage.ParsedText | src/realtime/subprotocol.rs:38-135 | by the text on the wire: which fields are accepted, and the tokens, header, credential and flags they yield |
| OfferLanguage.SecretRefused | src/realtime/subprotocol.rs:75-88 | "openai-insecure-api-key." and the admission secret is never accepted among the tokens, and only it is blamed for that |
| OfferLanguage.SecretRefusesItself | src/realtime/subprotocol.rs:75-88 | that refusal is all the admission secret changes |
| OfferLanguage.PiecesAsWritten | src/realtime/subprotocol.rs:60-61 | however the tokens are padded, they are the pieces of the field |
| Subprotocol.SecretNeverForwarded | src/realtime/subprotocol.rs:84-86 | the same refusal in the parser's own predicates |
| Subprotocol.OfferIsSmall | src/realtime/subprotocol.rs:67-118 | at most four tokens, all different, one a class, "realtime" among them |
| Subprotocol.PiecesOfJoin | src/realtime/subprotocol.rs:127-129 | the canonical header splits into the offered tokens and is as long as was measured |
| Subprotocol.CanonicalIsFixed | src/realtime/subprotocol.rs:125-135 | parsing the canonical header again yields the same tokens, credential and flags |
| Subprotocol.NothingOfferedExactly | src/realtime/subprotocol.rs:125-126 | nothing is offered exactly when there is no field |
| Subprotocol.HeaderMap.CanonicalizeDownstreamProtocol | src/realtime/websocket.rs:358-363 | the downstream headers then parse to the same protocols, and the other headers stay |
| Subprotocol.SelectedExactly | src/realtime/subprotocol.rs:137-159 | the upstream may select nothing or one padded "realtime", the latter exactly when anything was offered |
| Bearer.ScanToken68 | src/realtime/headers.rs:386-400 | the two-flag scan accepts exactly a token68 |
| Bearer.IsValidBearer | src/realtime/headers.rs:370-401 | the credential check |
| Bearer.BearerExactly | src/realtime/headers.rs:370-401 | accepted exactly: the scheme in any case, white space, one token68, nothing else |
| Bearer.CredentialText | src/realtime/headers.rs:370-401 | the same by the text: the letters of the scheme, spaces and tabs, the characters of a token68 |
| Bearer.BuiltBearer | src/config.rs:51-57 | a value built from a token has the words "Bearer" and the token, is accepted exactly when the token is a token68, and tells tokens apart |
| Contract.TargetExactly | src/realtime/contract.rs:296-353 | which requests are accepted for a WebSocket target |
| Contract.NoiseIgnored | src/realtime/contract.rs:370-376 | a pair that is no selector changes nothing, wherever it stands |
| Contract.WebSocketCoherent | src/realtime/contract.rs:331-368 | the selection fits the target; no private translation is ever classified |
| Contract.RestCoherent | src/realtime/contract.rs:180-294 | private dialects only create calls, on managed credentials; ephemeral ones are for bare session descriptions |
| Contract.CallCreateExactly | src/realtime/contract.rs:204-247 | which requests create a call in which dialect |
| RequestLanguage.DialectText | src/realtime/contract.rs:489-495 | the negotiation header names a private dialect by exactly one of two words, white space around it |
| RequestLanguage.TypeText | src/realtime/contract.rs:223-227 | a content type is a form or a session description exactly when it is written as one, whatever its case and parameters |
| RequestLanguage.RestExactly | src/realtime/contract.rs:249-294 | which requests are accepted for each other operation, and its transport and session |
| RequestLanguage.RestRefusals | src/realtime/contract.rs:180-294 | the exact cause of every refusal of a REST request |
| RequestLanguage.SocketRefusals | src/realtime/contract.rs:296-353 | the exact cause of every refusal of a WebSocket |
| RequestLanguage.SocketKinds | src/realtime/contract.rs:305-353 | the session and transport of each WebSocket target |
| Unicode.BlankExactly | src/realtime/contract.rs:316-341 | a model is blank exactly when all its characters are Unicode white space |
| Gate.RefusalNamesTheSupporting | src/realtime/capability.rs:257-282 | the profiles a refusal names are exactly those that support the capability |
| Gate.ManagedHasToken | src/realtime/capability.rs:189-210 | a WebSocket let through is managed exactly under a profile with a token, client-authorized exactly under the client profile |
| Gate.ManagedRestHasToken | src/realtime/capability.rs:166-187 | the same for REST, ephemeral credentials included |
| Gate.PrivateRunsOnManaged | src/realtime/websocket.rs:63-146 | a private WebSocket reaches the upstream with "Bearer " and the profile's own token, and no subprotocol |
| Gate.OfficialHasOneCredential | src/realtime/headers.rs:133-200 | an official one with exactly one credential, the browser's or an Authorization, and never the admission secret as the former |
| Gate.AlphaAgrees | src/realtime/headers.rs:318-340 | once classified, the negotiation header is always accepted by the builder |
| Gate.LetThroughExactly | src/realtime/websocket.rs:63-131 | which classified requests are let through, as one condition on profile, headers and credential; and when a request is refused for its profile, before or after its headers are looked at |
| Gate.RefusalsExactly | src/realtime/websocket.rs:74-140 | the exact cause of each other refusal: request line, query, selectors, admission secret, authorization, credential |
| Gate.RoutedText | src/realtime/websocket.rs:63-83 | which requests are taken at all, by their text |
| Gate.SlashIsAlias | src/realtime/websocket.rs:68-89 | under a private dialect the path with a slash is the path without |
| Gate.OnceByName | src/realtime/headers.rs:231-251 | the headers that may stand once, by name |
| Gate.LegibleByName | src/realtime/headers.rs:253-272 | the headers that must be readable, by name |
| Gate.GetAsListed | src/realtime/headers.rs:350-353 | the value that counts of a header is its first |
| Gate.RestServes | src/realtime/capability.rs:257-282 | which profiles support a REST operation |
| Gate.PlainRequestServed | src/realtime/websocket.rs:63-131 | a plain upgrade is let through for every model, dialect and token under the managed profile, and carries "Bearer " and that token |
| Urls.PrivateUrlKeepsTarget | src/realtime/websocket.rs:424-453 | for every accepted private request, the upstream URL read on its own, path and query, names the same target exactly when the base keeps its version segment; no unreachable arm is hit |
| Urls.PrivateQueryKeepsTarget | src/realtime/websocket.rs:436-453 | on any configured base, the query of that URL decodes and classifies, under the request's own route, to the same request again |
| Urls.PrivateHostNamedV1 | src/realtime/websocket.rs:429-435 | a base on which the private URL loses its version segment |
| Urls.UrlQueryIs | src/realtime/websocket.rs:436-453 | the query of the URL built, scheme switch included |
| Urls.SidebandKeepsTarget | src/live/sideband.rs:86-123 | the URL built for a target parses to that target exactly when the base keeps its version segment |
| Urls.HostNamedV1 | src/live/sideband.rs:95-98 | a base that loses the target |
| Urls.ParsedIdIsValid | src/live/sideband.rs:52-84 | every parsed sideband target carries a valid id |
| Urls.SidebandPathsExactly | src/live/sideband.rs:52-84 | which paths are accepted for a call: spellings of its id below two routes, or the bare path with the id in the query, a trailing slash or not |
| Urls.PrivateTailText | src/realtime/websocket.rs:436-451 | the text of every private URL behind its root |
| Urls.SidebandTailText | src/live/sideband.rs:101-109 | the text of every sideband URL behind its root |
| Urls.RootText | src/live/sideband.rs:92-112 | the text of the root, scheme switch included |
| Urls.WsOf | src/realtime/websocket.rs:468-476 | the scheme switch on any URL with a scheme: https to wss, http to ws, others unchanged |
| Urls.OfficialKeepsPath | src/realtime/http.rs:173-187 | an inbound path reaches the upstream's origin unchanged exactly when the base keeps its version segment; which paths are refused |
| Urls.OfficialHostNamedV1 | src/realtime/http.rs:173-187 | a base that loses the version segment of an official path |

## Left out

- Sockets, TLS, the async runtime, and the internals of the HTTP and WebSocket libraries: reads, sends, connects, timeouts and polls are nondeterministic events or parameters.
- Close codes are taken unchanged through the two message types.
- The send timeout's duration: a bounded send ends in success, failure or timeout. A send cut off by a timeout or by the idle deadline counts as not sent, and a closing frame counts as on the leg whether or not its own bounded send succeeds.
- Task panics, join errors and poisoned mutexes: the lifecycle model has tasks that end normally.
- PumpLoops.Relay.TellUp: the frame is on the leg whether or not its bounded send succeeds, and the closing of the sink behind it is not modelled.
- PumpLoops.Relay.TellDown: the same as for PumpLoops.Relay.TellUp.
- PumpLoops.Relay.TellBoth: the two tells are one step; that they run concurrently, so that a stalled leg does not hold up the other, is not modelled.
- Urls.PrivateQueryKeepsTarget: the base has no '?' and no '#', which the configuration check (src/config.rs:241-278) guarantees.
- Urls.SidebandKeepsTarget: bases that carry a path of their own are left out, since their URLs are not paths of this proxy. So are bases without a host between their slashes, such as `http:///v1`: the configuration check lets it pass, its URL parser reading `v1` as the host, which as text it is not.
- Urls.PrivateUrlKeepsTarget: leaves out the same bases as Urls.SidebandKeepsTarget.
- Urls.OfficialKeepsPath: leaves out the same bases as Urls.SidebandKeepsTarget.
- Content types and the negotiation header are ASCII, as a header value read as text is; the white space trimmed from them is the ASCII part of Unicode's. The model name's white space is all of Unicode's.
- `usize` is 64 bits wide. The calendar works on unbounded integers; day counts of a clock stay far inside the source's 64 bits.
- Percent decoding, UTF-8 validation and the query extractor of the sideband route are library code: they have specification functions here.
- The REST handler after its gate: header copying, the private call body, response headers, the official request builder.
- Header allowlists other than the credential, negotiation and subprotocol headers; CORS, origin and admission checks.
- The multipart and JSON parsing of call creation, the session and wire adapters, location rewriting, configuration parsing.
- The error taxonomy's messages and statuses, the labels and the table of all capabilities.
- The frame log's writer thread, queue and files, and all tracing.
- How a body error is classified: it is one of the errors a stream can end in.
