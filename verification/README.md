# The Miniserver session layer of PyLoxone: a model and its properties

A Dafny 4.11 model of the parts of PyLoxone that keep a Loxone Miniserver session
alive and interpret what it sends, with proofs about whole frame streams, whole
command histories and whole sequences of sessions. `dafny verify dfyconfig.toml`
checks everything.

| file | models |
|---|---|
| `Wire.dfy` | bytes, little-endian words, Python slices, the uuid text form |
| `Message.dfy` | message headers, value-state and text-state tables |
| `Listener.dfy` | the receive loop: headers, estimates, fragmented bodies, malformed data |
| `SecuredCommands.dfy` | secured commands waiting for `getvisusalt` replies |
| `SaltChain.dfy` | the salt/nextSalt chain of encrypted commands |
| `TokenLifecycle.dfy` | the authentication replies and the token |
| `AuthReplies.dfy` | which replies are kept from the callback, and which branch handles them |
| `Supervisor.dfy` | the reconnect loop, `close()`, backoff, and the coordinator's flip filter |
| `Select.dfy` | option labels of a Radio block and the two lookup maps |
| `Brightness.dfy` | brightness scaling with half-even rounding |
| `Climate.dfy` | the set-point planner against the targets read back |
| `ControlUuids.dfy` | the uuid worklist against its recursive closure |
| `LightController.dfy` | on/off of a light controller and its turn-on command |

Code that updates state in place is a class or a method with a loop, proved against
a specification function; the properties of that function are lemmas. Asynchronous
code is modelled as atomic steps between two `await`s. What the network, the clock,
the random generator, JSON, hashing and Home Assistant decide enters as a parameter
or as an event. The Miniserver is a specification of its own: an encoder of frames,
a checker of salts, a server that answers requests in order, a controller that
stores what it is told.

## What the proofs found

The model follows the code. Where a claim of the documentation or a comment does not
hold of it, there is a lemma with the exact condition or a concrete run.

- An 8-byte frame in header position that starts with 3 and names an identifier
  above 7 raises ValueError outside the guard for malformed payloads and ends the
  session (`Listener.RaisesExactlyWhen`). A keepalive header behind an estimated
  header is dropped without reaching the callback (`Listener.HeaderBehindEstimates`).
- A secured command whose send raised "queue full" stays in the deque and is released
  by the next command's reply; the stale drain and a late reply shift the pairing as
  well. `SecuredCommands.StepKeepsPairing` has the exact condition for every step, told
  by whose request is whose: equal numbers of requests and commands are not enough
  (`SecuredCommands.EqualNumbersAreNotEnough`).
- A lost `nextSalt` frame is the only way the salt chain breaks
  (`SaltChain.StepKeepsChain`). No later send repairs it unless the random generator
  draws the awaited salt again; a new session does
  (`SaltChain.LostRotationBreaksTheChain`).
- Replies are recognised by a word anywhere in their text, but kept from the callback
  by the first three segments of their control. Every answer in clear to an
  authentication request is kept (`AuthReplies.EchoIsWithheld`). A control that is
  decrypted to `salt/<salt>/jdev/sys/<command>` or to a `nextSalt` form is not: the
  salts use up the segments, and no branch finds the encrypted command in the text
  (`AuthReplies.FormIsWithheldIff`, `AuthReplies.EncryptedAnswerIsMissed`). A reply that
  mentions "refresh" behind its third slash passes only the first test
  (`AuthReplies.MentionIsEnough`).
- A text reply whose control is a number, a list or an object, not empty, has no `find`:
  the AttributeError leaves the handler and ends the session for good
  (`AuthReplies.OddControlEndsTheSession`).
- A token reply without `validUntil`, or an unexpired empty token, makes the next
  login queue nothing at all (`TokenLifecycle.KeyReplyDecides`). A user name that
  contains "getkey" diverts visual-salt replies to the key
  (`TokenLifecycle.VisualSaltKeepsTheSession`,
  `TokenLifecycle.UserNameCanDivertTheReply`). After a token was rejected, the next
  answered login replaces it (`TokenLifecycle.StaleTokenRecovers`). The refresh-failure count survives the
  session it ends (`TokenLifecycle.ThirdFailureEscalates`).
- `attempt` is never reset, and a float base times 2**1024 overflows: the supervisor
  ends after 1025 recoverable passes (`Supervisor.ReconnectsAreBounded`).
- An external `close()` during the supervisor's own recovery close is absorbed, one
  during `open()` lets that pass continue (`Supervisor.Connection.RunPass`).
- Brightness writing and reading are no exact inverses: `Brightness.ReadsBackOffIff`
  says which levels are lost, for every range.
- The set-point planner silently drops a single target in a range-capable dual mode
  and a range request in manual mode (`Climate.SingleTargetDroppedIff`,
  `Climate.RangeRequestDroppedIff`).
- A non-numeric master position can leave a light shown as on
  (`LightController.StepKeepsSync`).

## Model

| member | source | states |
|---|---|---|
| Wire.UuidTextInjective | custom_components/loxone/pyloxone_api/message.py:205-207 | the mixed-endian uuid text is injective: two records share a key exactly when their 16 bytes agree |
| Wire.UuidTextReads | custom_components/loxone/pyloxone_api/message.py:204-207 | every character of an event key: three little-endian fields in hexadecimal, then eight bytes in order, dashes behind the 8th, 12th and 16th digit |
| Wire.U32IsLittleEndian | custom_components/loxone/pyloxone_api/message.py:245 | the first byte of a length field counts least |
| Wire.U32RoundTrip | custom_components/loxone/pyloxone_api/message.py:245 | every 32-bit length survives little-endian encoding and decoding |
| Message.HeaderReads | custom_components/loxone/pyloxone_api/message.py:99-126 | how every 8-byte frame reads as a header, byte by byte |
| Message.HeaderRoundTrip | custom_components/loxone/pyloxone_api/message.py:99-126 | an encoded header parses to the type of its wire identifier, its estimate bit and its length |
| Message.HeaderRoundTripBack | custom_components/loxone/pyloxone_api/message.py:99-126 | every 8-byte frame that parses to a known type is an encoded header |
| Message.ValueStatesDict | custom_components/loxone/pyloxone_api/message.py:186-213 | the table walk fills the dict with exactly the whole records of the frame, in order |
| Message.FillValues | custom_components/loxone/pyloxone_api/message.py:200-212 | the loop over the whole records fills the dict of the unpacked records under any rendering of the uuid |
| Message.ValueRoundTrip | custom_components/loxone/pyloxone_api/message.py:186-213 | parsing undoes encoding for every record list, whatever partial record follows |
| Message.ValueRoundTripBack | custom_components/loxone/pyloxone_api/message.py:190-201 | re-encoding the parsed records gives back the frame without its partial tail |
| Message.LastValueWins | custom_components/loxone/pyloxone_api/message.py:203-210 | under each uuid the dict holds the value of that uuid's last record |
| Message.DictMeaning | custom_components/loxone/pyloxone_api/message.py:187-210 | a dict filled record by record has one key per record key and the value of the last record with it |
| Message.StrideRoundsUp | custom_components/loxone/pyloxone_api/message.py:251 | the cursor step is 36 plus the text length rounded up to a multiple of 4 |
| Message.GetText | custom_components/loxone/pyloxone_api/message.py:230-253 | one record is unpacked at the cursor, or the walk ends in the ValueError or struct.error of a short field |
| Message.ReadFields | custom_components/loxone/pyloxone_api/message.py:230-249 | which slice is too short decides between the ValueError and the struct.error |
| Message.TextStatesDict | custom_components/loxone/pyloxone_api/message.py:226-259 | the 4-aligned cursor loop terminates and yields the dict of the unpacked records or the exception |
| Message.TextRoundTrip | custom_components/loxone/pyloxone_api/message.py:226-259 | parsing undoes serialisation for every table, the last padding complete or cut |
| Message.TextRoundTripBack | custom_components/loxone/pyloxone_api/message.py:226-259 | whatever parses without an exception is the serialisation of the records it yields |
| Message.TextParsesIffEncoded | custom_components/loxone/pyloxone_api/message.py:226-259 | the table parses exactly when it is the serialisation of some record list |
| Message.LastTextWins | custom_components/loxone/pyloxone_api/message.py:252 | under each uuid the dict of a serialised table holds the text of that uuid's last record |
| Listener.FrameListener.Receive | custom_components/loxone/pyloxone_api/connection.py:1608-1699 | one loop iteration: header, exact header, body or junk frame, and the exception it may raise |
| Listener.FrameListener.Dispatch | custom_components/loxone/pyloxone_api/connection.py:1664-1699 | a complete payload is parsed or skipped, handled, and forwarded unless it is an auth response |
| Listener.FrameListener.Listen | custom_components/loxone/pyloxone_api/connection.py:1590-1724 | the loop delivers what the run of the frame stream delivers and ends with its exception or the clean close |
| Listener.RunKeepsConsistent | custom_components/loxone/pyloxone_api/connection.py:1606-1663 | over any frames: no pending header means an empty buffer, a pending one an empty buffer or one shorter than the payload |
| Listener.StreamIsUnderstood | custom_components/loxone/pyloxone_api/connection.py:1606-1694 | every stream of messages, keepalives, junk frames, body-less and withdrawn headers is delivered item by item; malformed items are dropped and disturb no other |
| Listener.SentIsDelivered | custom_components/loxone/pyloxone_api/connection.py:1591-1605 | for every message list, any run of estimated headers and every cut of each body, exactly those messages are delivered in order |
| Listener.CutCompletes | custom_components/loxone/pyloxone_api/connection.py:1648-1663 | any cut of a payload into one or more fragments, empty and 8-byte ones included, completes it |
| Listener.HeaderBehindEstimates | custom_components/loxone/pyloxone_api/connection.py:1613-1639 | told by the bytes: what a header behind any run of estimates leads to; a keepalive there is not forwarded |
| Listener.BodyIsAwaitedIff | custom_components/loxone/pyloxone_api/connection.py:305-313 | a body is awaited behind exactly the identifiers 0, 2, 3, 4 and 7, of the announced length |
| Listener.MessageArrives | custom_components/loxone/pyloxone_api/connection.py:1664-1699 | by its wire identifier, what becomes of any message however announced and cut: dropped, handled, forwarded or the end of the session |
| Listener.TextArrives | custom_components/loxone/pyloxone_api/connection.py:1664-1699 | a readable text is handled and handed on unless it is an authentication response, an unreadable one is dropped |
| Listener.RaisesExactlyWhen | custom_components/loxone/pyloxone_api/connection.py:1610-1694 | the exact condition under which a frame ends the session |
| Listener.ValueTableArrives | custom_components/loxone/pyloxone_api/connection.py:1648-1699 | a packed value table, however announced and cut, reaches the callback as a payload that unpacks to the same records |
| Listener.TextTableArrives | custom_components/loxone/pyloxone_api/connection.py:1648-1699 | a serialised text table, however announced and cut, reaches the callback as a payload that unpacks to the same records |
| AuthReplies.WithheldIff | custom_components/loxone/pyloxone_api/connection.py:179-187 | a reply is kept from the callback exactly when its control holds the whole name of an authentication command, between slashes or ends, behind at most two slashes |
| AuthReplies.EchoIsWithheld | custom_components/loxone/pyloxone_api/connection.py:157-187 | every answer in clear to an authentication request, with or without the leading path and whatever its arguments, is kept from the callback |
| AuthReplies.OwnRequestIsWithheld | custom_components/loxone/pyloxone_api/connection.py:162-175 | the answers to all ten requests with tokens, keys or salts are kept from the callback |
| AuthReplies.CommandAnswerIsForwarded | custom_components/loxone/pyloxone_api/connection.py:179-187 | the answer to a command of a control is not |
| AuthReplies.FormIsWithheldIff | custom_components/loxone/pyloxone_api/connection.py:728-730 | of the controls decrypted to a salt form, exactly those with a bare command behind `salt/` are kept from the callback |
| AuthReplies.EncryptedAnswerIsMissed | custom_components/loxone/pyloxone_api/connection.py:2163-2168 | an answer with an encrypted control in a text that spells no command leaves the session alone and, but for the bare command behind `salt/`, is not kept from the callback |
| AuthReplies.OddControlEndsTheSession | custom_components/loxone/pyloxone_api/connection.py:2164-2164 | a text whose control is a number, a list or an object ends the session |
| AuthReplies.WithheldIsHandled | custom_components/loxone/pyloxone_api/connection.py:2169-2362 | a reply kept from the callback whose text quotes its control in clear is taken by some branch, the killtoken answer excepted |
| AuthReplies.ChangeIsForwardedIff | custom_components/loxone/pyloxone_api/connection.py:1695-1699 | a reply that changes the token or the key is handled without an exception and then forwarded exactly when its control names no command |
| AuthReplies.MentionIsEnough | custom_components/loxone/pyloxone_api/connection.py:2347-2384 | a JSON reply with any token and expiry whose control mentions refresh behind its third slash installs the token and is forwarded |
| AuthReplies.AnswersStayInside | custom_components/loxone/pyloxone_api/connection.py:1695-1699 | over any frames, no answer in clear to an authentication request is handed on to the callback |
| AuthReplies.FirstNameDecides | custom_components/loxone/pyloxone_api/connection.py:2170-2364 | a text is taken by the branch of the first name it has, in the order of the tests, or by none |
| AuthReplies.GetKey2IsNotGetKey | custom_components/loxone/pyloxone_api/connection.py:2182-2232 | a getkey2 reply also spells getkey and is yet taken as what it is |
| AuthReplies.ReplyRaisesIff | custom_components/loxone/pyloxone_api/connection.py:632-652 | handling a reply raises exactly on a 401 or 4003 to getkey2, getkey, getvisusalt or a token request |
| AuthReplies.LoginByTexts | custom_components/loxone/pyloxone_api/connection.py:2171-2345 | a login told by the texts of its answers queues exactly its three commands and ends authenticated |
| SecuredCommands.SecuredSender.PopSecured | custom_components/loxone/pyloxone_api/connection.py:886-904 | drops the expired entries at the head and returns the first fresh one, if any |
| SecuredCommands.SecuredSender.SendSecured | custom_components/loxone/pyloxone_api/connection.py:2086-2116 | the parameters are queued even when the salt request does not fit and the call raises |
| SecuredCommands.SecuredSender.SendCommand | custom_components/loxone/pyloxone_api/connection.py:2056-2084 | a plain command is queued by its text, or the call raises and nothing is queued |
| SecuredCommands.SecuredSender.OnVisuSaltReply | custom_components/loxone/pyloxone_api/connection.py:2248-2287 | every reply consumes one entry and releases it only with a usable salt |
| SecuredCommands.SecuredSender.DrainStale | custom_components/loxone/pyloxone_api/connection.py:1231-1237 | the drain empties the message queue and leaves the secured deque |
| SecuredCommands.SecuredSender.CloseQueues | custom_components/loxone/pyloxone_api/connection.py:2000-2002 | a close empties the secured deque |
| SecuredCommands.QueueIsFifo | custom_components/loxone/pyloxone_api/connection.py:2073-2110 | within a session the message queue loses, invents and swaps nothing: what is taken off and what waits is what waited and what was due |
| SecuredCommands.EveryRunReleasesASelection | custom_components/loxone/pyloxone_api/connection.py:886-910 | in every run the secured commands put on the message queue are an order-preserving, duplicate-free selection of those sent, at most one per reply, each at most 30 s old |
| SecuredCommands.RunReleases | custom_components/loxone/pyloxone_api/connection.py:2248-2287 | from any state, what a run releases are the commands its usable replies consumed, none of them consumed before |
| SecuredCommands.NothingSurvivesClose | custom_components/loxone/pyloxone_api/connection.py:2000-2002 | whatever is released after a close was sent after it |
| SecuredCommands.StepKeepsPairing | custom_components/loxone/pyloxone_api/connection.py:2249-2254 | for every event, the exact condition under which the requests under way remain those of the waiting commands, one each and in order |
| SecuredCommands.ReplyReleasesItsOwn | custom_components/loxone/pyloxone_api/connection.py:2248-2287 | then a reply answers the oldest command's request, consumes that command exactly when it is fresh and releases it exactly when the salt is usable too |
| SecuredCommands.StepIsSafeIff | custom_components/loxone/pyloxone_api/connection.py:886-910 | for every event, the exact condition under which a reply takes its own command or none and the requests stay in order, a close and reconnect included |
| SecuredCommands.NoReplyTakesAnother | custom_components/loxone/pyloxone_api/connection.py:2249-2254 | over runs of such steps, with any number of closes and new sessions, no reply touches a command other than its request's |
| SecuredCommands.ReconnectRealigns | custom_components/loxone/pyloxone_api/connection.py:1231-1237 | after a close, anything but a send, and a new session, requests and commands are aligned, whatever went wrong before |
| SecuredCommands.EqualNumbersAreNotEnough | custom_components/loxone/pyloxone_api/connection.py:894-904 | a run after which one request and one command are left, and the reply releases a command that is not the request's |
| SecuredCommands.SessionIsPaired | custom_components/loxone/pyloxone_api/connection.py:2249-2287 | in an undisturbed session the i-th reply answers the i-th request and releases the i-th command if its salt is usable and drops it otherwise; nothing else is released |
| SecuredCommands.ReleasedIffUsable | custom_components/loxone/pyloxone_api/connection.py:2255-2287 | a handled reply queues the oldest fresh command exactly when the salt is usable, otherwise the command is gone |
| SecuredCommands.RejectedCommandIsReleased | custom_components/loxone/pyloxone_api/connection.py:2108-2113 | a run in which a command whose send raised is released by another command's reply |
| SecuredCommands.DrainedRequestShiftsTheRelease | custom_components/loxone/pyloxone_api/connection.py:1231-1237 | a run in which the stale drain makes a reply release the wrong command |
| SecuredCommands.LateReplyReleasesTheNext | custom_components/loxone/pyloxone_api/connection.py:894-904 | a reply later than the timeout releases the next command |
| SaltChain.SaltedSender.SendTextCommand | custom_components/loxone/pyloxone_api/connection.py:693-747 | the salt check, rotation and frame of one send; a send on a closed socket touches nothing |
| SaltChain.SaltedSender.NewSaltNeeded | custom_components/loxone/pyloxone_api/connection.py:777-788 | counts the use and asks for a new salt after 100 uses or 3600 s |
| SaltChain.StepKeepsChain | custom_components/loxone/pyloxone_api/connection.py:718-747 | client and Miniserver fall out of step exactly when the transport loses a rotation |
| SaltChain.ChainStaysInStep | custom_components/loxone/pyloxone_api/connection.py:716-730 | over every run without a failed send the Miniserver accepts every frame and expects the client's salt |
| SaltChain.EveryCommandIsSent | custom_components/loxone/pyloxone_api/connection.py:718-741 | over every run the frames carry the commands of the calls, each once and in order, encrypted exactly where asked |
| SaltChain.RotatesExactlyWhen | custom_components/loxone/pyloxone_api/connection.py:777-788 | after any run without a failed send the next encrypted command rotates the salt exactly when that served 100 commands or is older than 3600 s |
| SaltChain.BrokenChainStaysBroken | custom_components/loxone/pyloxone_api/connection.py:718-747 | while the awaited salt is not drawn again, no sequence of sends repairs a broken chain, and the frames stay accepted exactly while no encrypted one reaches the Miniserver |
| SaltChain.LostRotationBreaksTheChain | custom_components/loxone/pyloxone_api/connection.py:721-727 | after a lost rotation the rest of the session is out of step; a new session is in step again |
| SaltChain.EveryRunIsBounded | custom_components/loxone/pyloxone_api/connection.py:767-788 | in every run each salt serves at most 100 salt commands, none sent later than 3600 s after the salt was generated, and nextSalt links consecutive salts |
| SaltChain.FirstSessionOnwards | custom_components/loxone/pyloxone_api/connection.py:716-788 | from the first opened session on both hold: the salt bounds over whatever happens, and acceptance without a failed send |
| TokenLifecycle.TokenSession.OnText | custom_components/loxone/pyloxone_api/connection.py:2171-2402 | the branch order, the state change and the exception of each authentication reply |
| TokenLifecycle.TokenSession.OnGetKey2Reply | custom_components/loxone/pyloxone_api/connection.py:2187-2229 | key, salt and algorithm are stored before the checks that decide what is queued |
| TokenLifecycle.TokenSession.OnTokenReply | custom_components/loxone/pyloxone_api/connection.py:2295-2323 | the token fields are overwritten even by an empty token, whose error is swallowed |
| TokenLifecycle.TokenSession.OnRefreshReply | custom_components/loxone/pyloxone_api/connection.py:2362-2397 | a refresh installs a token only when token and expiry are present |
| TokenLifecycle.TokenSession.ResetToken | custom_components/loxone/pyloxone_api/connection.py:584-590 | the token becomes the empty token with expiry -1 and the session is no longer authenticated |
| TokenLifecycle.TokenSession.constructor | custom_components/loxone/pyloxone_api/loxone_token.py:42-48 | an incomplete stored token is replaced by the empty token |
| TokenLifecycle.TokenSession.NoteRefreshFailure | custom_components/loxone/pyloxone_api/connection.py:614-630 | counts a failed refresh and raises from the third in a row |
| TokenLifecycle.KeyIsTheLastReplied | custom_components/loxone/pyloxone_api/connection.py:2192-2239 | after any run the key is the one of the last accepted getkey or getkey2 reply |
| TokenLifecycle.TokenIsTheLastInstalled | custom_components/loxone/pyloxone_api/connection.py:2290-2383 | after any run the token and the authenticated flag are those of the last reply or session that decided them |
| TokenLifecycle.NoTokenNoAuth | custom_components/loxone/pyloxone_api/connection.py:2204-2210 | without a token, no run queues authwithtoken before a reply installs one |
| TokenLifecycle.RejectedTokenIsDropped | custom_components/loxone/pyloxone_api/connection.py:2326-2359 | a 401 or 4003 on authwithtoken or refresh resets the token, requests a reconnect and stops authwithtoken |
| TokenLifecycle.KeyReplyDecides | custom_components/loxone/pyloxone_api/connection.py:2199-2222 | a valid getkey2 reply logs in, requests a token or queues nothing, each under its exact condition |
| TokenLifecycle.UnusableKeyReplyQueuesNothing | custom_components/loxone/pyloxone_api/connection.py:2187-2229 | an accepted getkey2 reply without key or salt, with an unknown algorithm or a key that is not hex, is stored and queues nothing |
| TokenLifecycle.DroppedTokenIsReplaced | custom_components/loxone/pyloxone_api/connection.py:2204-2222 | after a rejection on authwithtoken or refresh and any events that overwrite no token, the next valid getkey2 reply requests a new token |
| TokenLifecycle.TokenWithoutExpiryBlocksTheNextLogin | custom_components/loxone/pyloxone_api/connection.py:2301 | a token reply without expiry authenticates its session and blocks the next login |
| TokenLifecycle.OneUpdateRequestPerLogin | custom_components/loxone/pyloxone_api/connection.py:2308-2343 | over every run, enablebinstatusupdate is queued once for every accepted token reply with a token and every accepted authwithtoken reply, and for nothing else |
| TokenLifecycle.LoginSucceeds | custom_components/loxone/pyloxone_api/connection.py:2171-2345 | an answered login, neutral replies in between, queues exactly its three commands and ends authenticated with the stored token or the new one |
| TokenLifecycle.StaleTokenRecovers | custom_components/loxone/pyloxone_api/connection.py:2326-2359 | from any state: after a rejection no authwithtoken is queued, and the next answered login requests a new token, keeps it and ends authenticated |
| TokenLifecycle.ThirdFailureEscalates | custom_components/loxone/pyloxone_api/connection.py:614-630 | a failed refresh raises exactly when at least two failures precede it since the last success |
| Supervisor.BackoffNeverDecreases | custom_components/loxone/pyloxone_api/connection.py:316-327 | nominal delays never decrease |
| Supervisor.NominalSumClosedForm | custom_components/loxone/pyloxone_api/connection.py:316-327 | default delays add up to 2^k - 1 for k up to 9, then 511 + 300(k-9) |
| Supervisor.SleptWithinBounds | custom_components/loxone/pyloxone_api/connection.py:1184-1188 | after k sleeps the supervisor has slept between half and all of that sum |
| Supervisor.Connection.Close | custom_components/loxone/pyloxone_api/connection.py:1984-2005 | latches once; a second call changes nothing |
| Supervisor.Connection.CloseAndReset | custom_components/loxone/pyloxone_api/connection.py:1190-1204 | clears the latch unless cancelled, absorbing an external close in between |
| Supervisor.Connection.RunPass | custom_components/loxone/pyloxone_api/connection.py:1076-1188 | one pass: its notices, its sleep, its exit and the state of the latch |
| Supervisor.Connection.Run | custom_components/loxone/pyloxone_api/connection.py:1069-1188 | the loop does exactly what the chain of its passes does |
| Supervisor.RunEndsExactlyWhen | custom_components/loxone/pyloxone_api/connection.py:1076-1183 | another pass starts exactly when all passes so far were recoverable and no close latched outside the recovery close |
| Supervisor.CloseStopsTheLoop | custom_components/loxone/pyloxone_api/connection.py:1160-1172 | after a close in pass i no later pass starts |
| Supervisor.ReconnectsAreBounded | custom_components/loxone/pyloxone_api/connection.py:1184-1185 | recoverable passes alone end in an OverflowError after the 1025th |
| Supervisor.CallsArePaired | custom_components/loxone/pyloxone_api/connection.py:1101-1168 | on_state calls come in True/False pairs but for a final True on cancellation or a final False on rejected credentials |
| Supervisor.RunMakesCallsDue | custom_components/loxone/pyloxone_api/connection.py:1101-1168 | the run makes exactly the on_state calls due for the passes it started, told by what happened in each |
| Supervisor.PassEndsAs | custom_components/loxone/pyloxone_api/connection.py:1133-1188 | the exact condition for each way a pass ends the loop or not |
| Supervisor.Coordinator.SetConnectedState | custom_components/loxone/coordinator.py:240-259 | only a flip is stored and dispatched |
| Supervisor.Coordinator.Receive | custom_components/loxone/coordinator.py:240-259 | a sequence of calls is dispatched as its flips |
| Supervisor.FlipsAlternate | custom_components/loxone/coordinator.py:251-259 | the dispatched signals strictly alternate, the first being a change |
| Supervisor.RunIsDispatched | custom_components/loxone/coordinator.py:240-259 | composed with the supervisor every call is dispatched but the final False of a session that never came up |
| Select.OptionBuilder.DedupeLabel | custom_components/loxone/select.py:55-69 | terminates for every used set, returns the first free candidate and registers it |
| Select.OptionBuilder.Build | custom_components/loxone/select.py:72-108 | the options and maps describe the entries, "all off" first and the outputs by number |
| Select.SortedHolds | custom_components/loxone/select.py:101-101 | the outputs are listed by ascending number, those of one number in their given order |
| Select.LabelsAreDetermined | custom_components/loxone/select.py:55-69 | the entries alone decide every option |
| Select.CandidateInjective | custom_components/loxone/select.py:63-67 | the numbered candidates of a label are pairwise different |
| Select.LabelledIsDistinct | custom_components/loxone/select.py:59-62 | no two options are alike |
| Select.MapsInverseIffDistinct | custom_components/loxone/select.py:89-108 | the two maps are mutually inverse exactly when no output number occurs twice, 0 included with "all off" |
| Select.LoxoneSelect.EventHandler | custom_components/loxone/select.py:335-360 | the reported output selects its option or none, the lock is followed |
| Select.LoxoneSelect.SelectOption | custom_components/loxone/select.py:362-378 | a locked block refuses, an unknown option is ignored, "all off" resets, any other option sends its number |
| Select.SelectionReadsBack | custom_components/loxone/select.py:335-377 | an echoed selection reads back as itself exactly when no later output has its number |
| Select.SelectAndEcho | custom_components/loxone/select.py:335-377 | built, selected and echoed, the entity shows the selected option exactly when no later output has its number |
| Select.LockThenSelect | custom_components/loxone/select.py:352-370 | a block reported as locked refuses every selection, an unlocked one none |
| Select.DecimalReads | custom_components/loxone/select.py:63-67 | the number in a label is written in decimal digits |
| Select.LabelsTried | custom_components/loxone/select.py:59-67 | the label is tried first, then with (2), and an unnamed all-off entry is called All off |
| Brightness.ReadRange | custom_components/loxone/helpers.py:302-321 | read-back is in 0..255 and 0 exactly at or below the minimum |
| Brightness.WithoutRange | custom_components/loxone/helpers.py:313-337 | missing values and single-valued ranges read and write their fixed values |
| Brightness.EndsOfTheRange | custom_components/loxone/helpers.py:319-338 | the maximum reads as 255, and 255 is written as the maximum |
| Brightness.ReadMonotone | custom_components/loxone/helpers.py:302-321 | reading is monotone for every range |
| Brightness.WriteMonotone | custom_components/loxone/helpers.py:324-338 | writing is monotone over the levels 0 to 255 |
| Brightness.WriteStaysInRangeIff | custom_components/loxone/helpers.py:334-338 | the exact condition under which no level is written outside the range |
| Brightness.IntegerBoundsAreKept | custom_components/loxone/helpers.py:334-338 | integer bounds with a maximum of at least 1 are never exceeded |
| Brightness.WriteThenRead | custom_components/loxone/helpers.py:302-338 | writing and reading back changes a level by at most 1.5 + 255/(max - min) |
| Brightness.ReadsBackOffIff | custom_components/loxone/helpers.py:302-338 | for every range, a level that is on reads back as off exactly when the minimum is at least 1 and the written value rounds back to the integer at or below it |
| Brightness.ReadsBackOffAboveInteger | custom_components/loxone/helpers.py:319-338 | for an integer minimum: exactly when its share of the range rounds away, ties going down at an even minimum |
| Brightness.LevelOneIsLost | custom_components/loxone/helpers.py:319-338 | level 1 reads back as off for every integer minimum of at least 1 |
| Climate.RangeRequestReadsBack | custom_components/loxone/climate.py:265-301 | applying the plan of a range request makes the read-back equal it (half a degree off comfort in economy), and planning again sends nothing |
| Climate.RequestReportRepeat | custom_components/loxone/climate.py:771-923 | set, reported and repeated: the entity's two targets show the request, and the repetition sends nothing |
| Climate.SingleTargetDroppedIff | custom_components/loxone/climate.py:243-313 | a single temperature is dropped exactly in a range-capable dual mode that is neither fixed nor manual |
| Climate.SingleTargetCommandIff | custom_components/loxone/climate.py:243-313 | the exact condition for each command a single temperature becomes |
| Climate.RangeRequestDroppedIff | custom_components/loxone/climate.py:257-301 | exactly when a range request sends nothing |
| Climate.OverrideDecodesIff | custom_components/loxone/climate.py:331-336 | the override payload decodes to its temperature exactly when that is not negative |
| Climate.CodesRead | custom_components/loxone/climate.py:331-336 | every mode code reads as its mode, 112 and above as an override, any other number as unknown |
| Climate.BoundsShownIff | custom_components/loxone/climate.py:896-935 | exactly when a bound of the range is shown |
| Climate.TargetShown | custom_components/loxone/climate.py:871-882 | outside an override the reported target is shown, comfort where it is missing or 0 |
| Climate.RoomController.EventHandler | custom_components/loxone/climate.py:771-803 | received values replace known ones, an unknown mode code keeps the mode |
| Climate.RoomController.SetTemperature | custom_components/loxone/climate.py:853-867 | the planned commands are sent in order |
| ControlUuids.FindControlUuids | custom_components/loxone/pyloxone_api/__main__.py:176-194 | the worklist terminates and returns the recursive closure of the roots, or names an unknown root |
| ControlUuids.CollectRoots | custom_components/loxone/pyloxone_api/__main__.py:180-184 | the first unknown root is reported |
| ControlUuids.DrainWorklist | custom_components/loxone/pyloxone_api/__main__.py:185-194 | popping the last entry until none is left finds exactly the recursive closure |
| ControlUuids.AnyOrderFindsTheClosure | custom_components/loxone/pyloxone_api/__main__.py:185-194 | any pop order empties the worklist in one pop per control with the same result |
| ControlUuids.ClosureIsReachable | custom_components/loxone/pyloxone_api/__main__.py:186-193 | a uuid is found exactly when a control at or below a root contributes it |
| ControlUuids.FoundIff | custom_components/loxone/pyloxone_api/__main__.py:161-194 | a uuid is found exactly when a control at or below a root has it, names it as its action or as a state, roots being looked up in controls before autopilot |
| LightController.Controller.EventHandler | custom_components/loxone/lights/lightcontroller.py:412-495 | which values an event replaces and when on/off is derived anew |
| LightController.StepKeepsSync | custom_components/loxone/lights/lightcontroller.py:434-488 | on/off goes stale exactly when a non-numeric master position replaces the one that decides |
| LightController.OnOffFollowsTheStreams | custom_components/loxone/lights/lightcontroller.py:412-488 | with numeric master positions on/off is lcv2_is_on of each stream's last accepted value |
| LightController.WhatIsShown | custom_components/loxone/lights/lightcontroller.py:109-123 | after any run with numeric master positions: which moods, levels and master position show on, off or unknown |
| LightController.LevelsRead | custom_components/loxone/lights/lightcontroller.py:164-212 | what the feeds of switches, dimmers and pickers read as |
| LightController.InterleavingDoesNotMatter | custom_components/loxone/lights/lightcontroller.py:412-488 | histories that agree stream by stream show the same state |
| LightController.StaleAfterNonNumericMaster | custom_components/loxone/lights/lightcontroller.py:434-445 | a run that ends shown as on while nothing is known |
| LightController.PlainTurnOnCommand | custom_components/loxone/lights/lightcontroller.py:126-161 | mood 777 first, else the first non-off mood, else plus; the echoed mood reads on |

## Left out

- HTTP bootstrap, TLS, sockets, UDP discovery and logging: opening a session is a step that succeeds or fails.
- AES, RSA, HMAC, SHA and random bytes: salts, keys and hashes are opaque values, "can be hashed" is a predicate.
- AuthReplies.EncryptedAnswerIsMissed: the control arrives decrypted; a control whose decryption fails keeps its encrypted text and is not handled, which is not part of the model.
- JSON, UTF-8 and latin-1 decoding and the little-endian double: "parses" is a predicate, decoding a total function, a double its eight bytes.
- Listener.FrameListener.Receive: the branch for a text frame is not modelled, because `recv` in websocket_protocol.py always asks for bytes; the received-message counter and the receive watchdog are not part of the model.
- SecuredCommands.SecuredSender.OnVisuSaltReply: a `put` that waits for room in a full queue is one atomic step.
- TokenLifecycle.TokenSession.OnText: takes the set of words found in the reply (AuthReplies.WordsIn finds them); the decryption of a control and its failure, the token-change callback and the key-update event are not part of the model.
- TokenLifecycle.TokenSession.OnTokenReply: the token's own key, hash algorithm and unsecure-password flag are not part of the model.
- TokenLifecycle.TokenSession.OnRefreshReply: the unsecure-password flag and the change signal are not part of the model.
- Supervisor.Connection.Close: only the latch and the shutdown flag; draining the queue and cancelling tasks are not part of the model.
- Supervisor.Connection.CloseAndReset: dropping the connection object and clearing the reconnect event are not part of the model.
- Supervisor.Connection.RunPass: the session's worker tasks are reduced to how the session ends; the busy wait after authentication (connection.py:1096-1113) and the waiting inside `close()` take no time.
- Supervisor.ReconnectsAreBounded: delays are reals and the overflow is stated for a float base delay, the default.
- Select.OptionBuilder.Build: output keys arrive as numbers; a non-numeric one is an error of the structure file outside the model.
- Brightness.WriteThenRead: over the reals, without the rounding of float arithmetic.
- Climate.RoomController.EventHandler: the states are the six the planner reads; units, presets and the action are not modelled.
- LightController.Controller.EventHandler: brightness, availability and effects are not modelled; NaN and infinite values do not occur.
- The entity platforms that map one value to one state, the config flow, services, repairs, diagnostics, groups and the web page: they would add only easy members.
