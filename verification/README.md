# Verified model of the Bloop client framework

This project models three parts of the client framework and proves what they
promise, for every input, every schedule and every behaviour of the server, the
network, the file system and the tag:

- **the connection task** (`src/client.rs`, `src/connection.rs`,
  `src/request.rs`): the state machine that connects, authenticates, runs the
  on-connect hook, pings, serves requests one at a time, reconnects and shuts
  down;
- **NDEF reading** (`src/nfc/ndef.rs`, `src/nfc/mfrc522.rs`): the incremental TLV
  parser, the text record parser and the loop that reads a tag;
- **the audio cache** (`src/audio_cache.rs`): `ensure` and `sync` on a directory,
  and concurrent downloads with crashes.

`dafny verify dfyconfig.toml` checks everything.

## How it is built

Code that changes things in place is a class (`Connection`, `ClientTask`,
`NdefMessageParser`, `AudioCache`) or a method with a loop (`ReadNdefText`,
`ParseTextRecord`). Each method is proved equal to a specification function on
values, and the theorems are about those functions.

- Every await, timer, file operation and tag read is resolved by a value the
  environment supplies (`Fate`, `ConnectScript`, `HookScript`, `EnsureFate`,
  `SyncFate`, `Tag`). The theorems hold for all of them.
- The message codec and the server are the fields of a `World`.
  `answer(k, i)` is the server's answer to write number `i` on connection
  attempt `k`; the server answers in order, one frame per request, possibly too
  late. A frame over the payload limit is a read error.
- A connection's `log` records every frame begun and every frame read, with the
  payload limit in force. The connection task keeps the logs of the connections it has let
  go, the statuses it published and the answers it sent.
- Statuses are renamed where another type has the same constructor: `Offline` is
  `Disconnected`, `Online` is `Connected`, `BadCredentials` is
  `InvalidCredentials`, `ShutDown` is `Shutdown`.

Files: `Basics`, `Protocol`, `Wire` (traces and their grammar), `Connection`,
`ConnectionOutcomes` (how attempts and exchanges end, by the raw frames),
`ClientModel` (its specification), `ClientTask` (the class),
`ClientInvariants`, `ClientSteps` (configuration, connection and status, step by
step), `ClientPairing`, `ClientHooks`, `ClientRuns`, `ClientTraces`, `ClientTiming`, `ClientCallers` (what callers are told),
`ClientAvailability`; `NdefStream`, `NdefRecord`, `NdefTag`, `NdefTlv` (the
walk the tag standard prescribes); `AudioCache`, `AudioDownloads`.

## Main results

1. Whatever happens, in every state of every run the status, the connection, the
   configuration and the two flags agree; a held connection was accepted at
   version 3 with the credentials held now (`EveryRunIsSound`).
2. The configuration held is the last one handled before the first shutdown
   (`ConfigIsLast`). Whether there is a connection, the status, the credentials
   flag and what is published after each step of each run follow from the
   schedule and the server's raw frames (`StepIsExact`); so the status is
   `InvalidCredentials` exactly while a refusal stands (`BadCredentialsExactly`).
3. Frames given to callers are exactly the frames of the completed request
   exchanges, once each and in order (`RunConserves`), and each is the server's
   answer to that caller's own frame (`AnswersArePaired`).
4. Result 3 needs the on-connect hook to report success only when all its
   session calls came back, which the source does not enforce. Otherwise it is
   false (`SwallowingHookExample`), and the condition is exact
   (`HookDecidesPairing`).
5. Whatever hooks do, every connection's trace opens with one handshake and one
   login, keeps the payload limit of each phase and has nothing after a farewell
   (`EveryTraceIsFramed`); with result 4's condition no served write goes
   unanswered either (`EveryTraceIsWellShaped`). Which connections end with a
   farewell is exact (`FarewellIsExact`).
6. Requests are answered in FIFO order, none lost, none twice
   (`NoRequestIsLost`), within a bound counted from the call, the wait for a
   place and a command in progress included (`CallerWaitsWithin`), which is
   reached (`SlowestCaller`).
   A caller hears of a loss while the status is `Connected` exactly on a full
   queue (`LossHeardOnlineExactly`).
7. As long as each frame taken off the stream is one the client waits for, the
   status in every state of every run is a function of the schedule alone
   (`RunForecast`, `StatusIsForecast`). With result 4's condition on hooks that is
   so exactly for a server that keeps its side of the protocol
   (`ProperIsHelpful`, `ProperServerForecast`).
8. Feeding a tag stream in chunks agrees with parsing it whole exactly under a
   stated condition on where chunks end (`ChunkingIsExact`).
9. The record parser and a printer are inverse, and its verdicts are exact
   (`ParseIsExact`, `ParseErrorsAreExact`); every result of reading a tag, each
   text and each error, is told by the bytes it shows (`ReadOutcome`,
   `ReadIsExact`), and follows the TLV walk of the standard exactly on tags
   without a marker byte in the blocks in front (`MarkerIsWalk`,
   `ReadFollowsStandard`).
10. When `ensure` succeeds and what it returns is exact (`EnsureIsExact`). When
   `sync` succeeds (`SyncSucceeds`), what it reports (`SkippedAreRefused`)
   and what it leaves (`SyncConverges`) are exact; it is idempotent; final names
   only ever hold whole retrievals, across interleavings and crashes
   (`FinalNamesAreWhole`).

## Where the code and its documentation differ, or surprise

Each has an input that shows it and the condition under which it happens.

- `is_done` is true between the two bytes of a long length whose first byte is
  zero, so a chunk ending there stops the reader with an empty message
  (`EarlyStopExample`, `ChunkingIsExact`).
- A parser that is fed on after completion takes every byte for a part of the
  message (`FedOnExample`, `FeedAfterDone`).
- Other TLVs are not skipped by their length: the first 0x03 byte anywhere
  starts the message. A lock control block in front, as many tags carry, hides
  the message (`LockedTagExample`, `LockControlHidesText`, `MarkerIsWalk`).
- An odd capability byte leaves the last eight data bytes unread, and one above
  126 leaves everything behind byte 1008 unread (`OddCapabilityExample`,
  `CapacityIsExact`, `TailIsLost`).
- The text encoding bit is ignored; text is always taken as UTF-8
  (`Utf16Example`, `EncodingIsExact`).
- `configure` on a clone after shutdown is accepted and does nothing, although
  the documentation of `shutdown` says that every operation fails
  (`ConfigureAfterShutdownExample`, `ShutdownReportIsExact`).
- A send that times out on a full queue gives `Disconnected` without a change of
  status (`FullQueueExample`, `LossHeardOnlineExactly`).
- Downloads are fetched by achievement and not compared with the hash
  (`MismatchExample`, `NamesMatchExactly`).
- Removals that fail during `sync` are ignored, so a stale file can outlive an
  `Ok` (`StuckExample`, `SyncConverges`, `InLineExactly`).

## Model

| member | source | states |
|---|---|---|
| Protocol.DecodeResponse | src/request.rs:46-62 | each outcome exactly: the message, the error the server named, an unexpected opcode, a malformed frame; an error frame never counts as the expected message |
| Wire.GrammarShape | src/connection.rs:77-101 | a trace the grammar accepts has every read right behind the write it answers, handshake and login first and once, hooks before serving, an unanswered write last or on a connection that never serves, and nothing behind a farewell |
| Connections.Connection.RequestRaw | src/connection.rs:77-80 | writes the frame, then takes exactly the next frame off the stream if it comes in time and within the limit |
| Connections.Connection.PingServer | src/connection.rs:83-94 | one keep-alive exchange, with the outcome `PingIsExact` characterises |
| Connections.Connection.SayQuit | src/connection.rs:97-101 | appends one farewell, if it can be encoded |
| Connections.Connection.NegotiateVersion | src/connection.rs:238-259 | one handshake exchange offering version 3 only, and how each answer is classified |
| Connections.Connection.LogIn | src/connection.rs:261-279 | one authentication exchange with the configured credentials, with the outcome `ConnectIsExact` characterises |
| Connections.Connection.RunHook | src/connection.rs:126-180 | a hook's session calls are exchanges on the same stream, in order |
| Connections.Dial | src/connection.rs:183-236 | the whole attempt, with the small limit until the login is accepted and the configured one after |
| Connections.ConnectEstablishes | src/connection.rs:219-236 | an attempt that connects ran at version 3, was accepted with these credentials, keeps its own capabilities, and has nothing outstanding; a rejection is the server's invalid-credentials error |
| ConnectionOutcomes.ConnectIsExact | src/connection.rs:183-279 | an attempt connects exactly if set-up works, the handshake is answered in time by version 3 and the login by an acceptance; is rejected exactly if the login is answered by the invalid-credentials error; times out exactly if the deadline fires; and what it hands over |
| ConnectionOutcomes.ConnectErrorsAreExact | src/connection.rs:29-279 | exactly when a failed attempt reports set-up, encoding, transport, version range or an unsupported version |
| ConnectionOutcomes.PingIsExact | src/connection.rs:83-94 | a ping succeeds exactly if a frame comes in time and within the limit that is no error and decodes as a pong |
| ConnectionOutcomes.HookWrites | src/connection.rs:141-179 | a hook's session calls write exactly their frames, in order |
| ConnectionOutcomes.MessagesWritten | src/connection.rs:83-101 | a ping writes the ping message and a farewell the quit message, and nothing else |
| Connections.HookCalls | src/client.rs:652-669 | after a hook the stream is in step exactly when all its calls were answered |
| ClientTasks.ClientTask.constructor | src/client.rs:247-270 | the initial status follows the configuration; nothing connected, nothing published but that status |
| ClientTasks.ClientTask.Publish | src/client.rs:698-707 | a status is published only when it differs |
| ClientTasks.ClientTask.DropConnection | src/client.rs:692-695 | the connection is let go and the status says so |
| ClientTasks.ClientTask.HandleRequest | src/client.rs:548-586 | one answer is sent, after the status has been brought up to date |
| ClientTasks.ClientTask.Reconfigure | src/client.rs:531-547 | farewell, latch cleared, status and configuration replaced, nothing after shutdown; `ConfigIsLast` says which configuration results |
| ClientTasks.ClientTask.ShutDownTask | src/client.rs:587-595 | farewell, flag and status set |
| ClientTasks.ClientTask.Handle | src/client.rs:527-597 | every command keeps the fields and the status in agreement |
| ClientTasks.ClientTask.AdmitConnection | src/client.rs:651-676 | the hook decides whether a dialed connection is taken up, quit or dropped |
| ClientTasks.ClientTask.Reconnect | src/client.rs:623-690 | latch, configuration, attempt and its four outcomes; `AttemptIsExact` says which status results |
| ClientTasks.ClientTask.OnTick | src/client.rs:599-621 | a tick pings or reconnects, and keeps the agreement |
| ClientTasks.ClientTask.Enqueue | src/client.rs:342-484 | a command is queued if there is room; the caller is told Shutdown on a closed channel, Disconnected after a request's wait for room, success at once for configure; no effect on the connection task's state |
| ClientTasks.ClientTask.Dequeue | src/client.rs:508-512 | commands are handled in queue order; the loop ends only on an empty queue without handles |
| ClientTasks.ClientTask.FinishTask | src/client.rs:517-525 | after the loop the connection is quit and a terminal status published |
| ClientTasks.ClientTask.Serve | src/client.rs:503-525 | over any schedule the class does what the specification `Run` says and stays in agreement |
| ClientInvariants.CommandSound | src/client.rs:527-597 | every command preserves the agreement of fields and status, the provenance of the connection, the history and the honesty of answers |
| ClientInvariants.TickSound | src/client.rs:599-690 | every tick preserves the same |
| ClientInvariants.EveryRunIsSound | src/client.rs:503-707 | they hold in every state of every run: Connected exactly with a connection of those capabilities, shutdown flag exactly with Shutdown, Unconfigured exactly without configuration, InvalidCredentials only with the flag, a connection never with the flag; the connection accepted at version 3 with the credentials held now; a Disconnected or fatal answer only when the status is no longer Connected |
| ClientInvariants.OrderlyMeans | src/client.rs:692-707 | adjacent published statuses differ, two Connected ones have another between them, and nothing follows Shutdown |
| ClientSteps.ConfigFromMeans | src/client.rs:531-547 | the configuration commands give is the argument of the last configure before the first shutdown, or the starting one |
| ClientSteps.ConfigIsLast | src/client.rs:531-547 | in every run the configuration held is that of the commands handled, and the shutdown flag is set exactly by a handled shutdown |
| ClientSteps.KeepAliveIsExact | src/client.rs:604-618 | a tick keeps the connection in hand exactly if a pong comes in time; otherwise the status is Disconnected |
| ClientSteps.AttemptIsExact | src/client.rs:623-690 | after an attempt the status is InvalidCredentials exactly if the server refused the login, Connected exactly if it accepted it and the hook agreed, Disconnected otherwise, whatever it was before |
| ClientSteps.StepIsExact | src/client.rs:503-707 | for every step from every sound state, whether there is a connection afterwards, the status, the credentials flag and what is published |
| ClientSteps.BadCredentialsExactly | src/client.rs:677-687 | in every run the status is InvalidCredentials exactly if the last attempt was refused and no configuration or shutdown was handled since |
| ClientSteps.RequestIsExact | src/client.rs:548-586 | what the caller of a handled request gets: the next frame exactly if it comes in time and within the limit, Shutdown exactly after a shutdown, Disconnected otherwise |
| ClientPairing.ConservesCommand | src/client.rs:554-585 | handling a command keeps the frames given to callers equal to the completed request exchanges |
| ClientPairing.ConservesTick | src/client.rs:599-690 | so does every tick |
| ClientPairing.RunConserves | src/client.rs:554-585 | so does every run: each completed request exchange is given to its caller once, in order, and nothing else is |
| ClientPairing.InStepExchange | src/client.rs:559-585 | an exchange that is not answered in time costs the connection; one that is leaves the stream in step |
| ClientPairing.RunInStep | src/client.rs:604-617 | with candid hooks, in every run the connection in hand is idle with nothing outstanding and every connection let go obeyed the grammar |
| ClientPairing.AnswersArePaired | src/client.rs:554-585 | with candid hooks, the frame given to a caller was read right after that caller's frame was written and is the server's answer to it; no late answer reaches a later request |
| ClientHooks.SwallowingHookExample | src/client.rs:655-675 | a run in which a hook swallows a timed-out call and the next request is given the hook's answer |
| ClientHooks.SwallowedCallMispairs | src/client.rs:655-675 | after any hook that swallowed an unanswered call there is a server, no different so far, whose answer to the next request is not the frame given |
| ClientHooks.HookDecidesPairing | src/client.rs:655-675 | after a successful hook the next request is given its own answer for every such server if and only if all the hook's calls were answered |
| ClientRuns.RunExtends | src/client.rs:692-695 | a connection let go is never written to or read from again; at most one is live |
| ClientRuns.EveryTraceIsWellShaped | src/client.rs:651-675 | with candid hooks every trace of every run has the prescribed shape and the limits of its phases; the connection in hand has no unanswered write and no farewell |
| ClientRuns.NoRequestIsLost | src/client.rs:507-515 | accepted requests are the answered ones followed by the queued ones, in order; at the end all are answered |
| ClientRuns.LatchHolds | src/client.rs:623-632 | under Latch, after a rejection no run makes another attempt or moves the status until a new configuration or a shutdown is handled, whatever is queued |
| ClientRuns.LatchCloses | src/client.rs:671-680 | under Latch a tick closes the latch exactly when the server answers the login with the invalid-credentials error, and a connection means it is open |
| ClientRuns.ShutdownIsAbsorbing | src/client.rs:549-602 | once shut down nothing is attempted, written or published, and every request is answered with Shutdown |
| ClientTraces.EveryTraceIsFramed | src/connection.rs:216-236 | in every run, whatever hooks do: one handshake and one login first, every read behind a write and within the limit of its phase, no hook call behind a served exchange, nothing behind a farewell |
| ClientTraces.FarewellIsExact | src/client.rs:517-524 | a connection let go ends with a farewell exactly when a new configuration, a shutdown, the end of the loop or a hook's error let it go |
| ClientAvailability.WelcomeConnects | src/connection.rs:183-279 | against a server that agrees and accepts, an attempt connects exactly when set-up, handshake and login arrive in time |
| ClientAvailability.RunForecast | src/client.rs:503-690 | from every sound unlatched state, in a run whose frames are the ones waited for, queue, configuration, connection and shutdown flag after any run are those of an automaton that sees only the schedule |
| ClientAvailability.StatusIsForecast | src/client.rs:503-707 | so is the published status of every run, and bad credentials are never reported |
| ClientAvailability.ProperIsHelpful | src/client.rs:559-617 | with candid hooks the frames taken off the stream are the ones waited for if and only if the server answers every ping with a pong, every request without closing and every attempt with acceptance |
| ClientAvailability.ProperServerForecast | src/client.rs:503-707 | so with candid hooks and such a server the published status is the forecast one |
| ClientAvailability.OneTickIsEnough | src/client.rs:599-690 | from every such state without a connection one tick in which all arrives in time connects, and the status stays Connected through any schedule of answered pings and requests |
| ClientTiming.ElapsedWithin | src/client.rs:559-668 | the awaits of a run sum to at most one exchange or farewell per command and two deadlines and a farewell per tick |
| ClientTiming.AnsweredWithin | src/client.rs:507-585 | from its place in the queue, a request with k commands ahead is answered by the k+1st receive, within (k+1)*max(T,Q) + m*(2T+Q) for m ticks, from between two steps; a command in progress counts as one more ahead |
| ClientCallers.CallerWaitsWithin | src/client.rs:466-484 | from the call, a request waits at most T for room, which a receive makes before its command is handled, and then is answered within 17*max(T,Q) + m*(2T+Q) with a tick in progress counted in m, or is told Disconnected |
| ClientCallers.SlowestCaller | src/client.rs:466-512 | a run in which a wait of T and 17 commands of T each come before the answer |
| ClientCallers.SlowestTick | src/client.rs:638-668 | a tick that takes all the bound allows for one |
| ClientCallers.SlowestCommand | src/client.rs:531-595 | on a connection a request takes its exchange and any other command its farewell |
| ClientCallers.ConfirmedAreAccepted | src/client.rs:342-347 | over every run the configure calls told of success are, in order, the configurations that entered the queue |
| ClientCallers.SentRequestIsSettled | src/client.rs:466-484 | a request sent enters the queue, exactly if there is room, or its caller is told, Shutdown exactly if the loop has ended |
| ClientCallers.LossHeardOnlineExactly | src/client.rs:466-484 | over every run, some caller is told Disconnected under the status Connected if and only if some request's send met a full queue then |
| ClientCallers.FullQueueExample | src/client.rs:478-481 | a run, a connection and seventeen requests, in which that happens |
| ClientCallers.ShutdownReportIsExact | src/client.rs:342-484 | after a handled shutdown an operation reports Shutdown if and only if the loop has ended or it is a request that finds room; configure reports success and changes nothing |
| ClientCallers.ConfigureAfterShutdownExample | src/client.rs:336-347 | a run in which configure reports success after shutdown |
| NdefStream.NdefMessageParser.constructor | src/nfc/ndef.rs:56-62 | the parser awaits a message |
| NdefStream.NdefMessageParser.AddData | src/nfc/ndef.rs:65-107 | consumes the chunk byte by byte and stops at the byte that completes the message |
| NdefStream.NdefMessageParser.IsDone | src/nfc/ndef.rs:115-117 | compares the data length, cast to 32 bits, with the announced one |
| NdefStream.NdefMessageParser.HasStarted | src/nfc/ndef.rs:120-122 | whether the marker has been seen |
| NdefStream.ExtractPrefix | src/nfc/ndef.rs:98-103 | a complete message is not changed by more data |
| NdefStream.DescribeIs | src/nfc/ndef.rs:67-105 | what the parser holds after any bytes, read off the stream |
| NdefStream.DoneMeans | src/nfc/ndef.rs:115-117 | on an incomplete message the parser is done exactly between the two bytes of a length whose high byte is zero |
| NdefStream.FeedChunks | src/nfc/ndef.rs:65-117 | without such a cut any chunking gives what the whole stream gives |
| NdefStream.ChunkingIsExact | src/nfc/ndef.rs:65-117 | the condition on chunk ends under which chunked and whole parsing agree, as an if and only if, empty messages included |
| NdefStream.EarlyStopExample | src/nfc/ndef.rs:90-117 | a stream and a chunking for which they do not |
| NdefStream.FeedAfterDone | src/nfc/ndef.rs:98-117 | what a complete parser holds after any chunk; its message survives exactly the empty one, and it is done again only after the cast has wrapped around |
| NdefStream.FedOnExample | src/nfc/ndef.rs:98-117 | a message with a byte too many |
| NdefRecord.ParseTextRecord | src/nfc/ndef.rs:164-273 | the indexed parser stays in bounds on every input and gives the first defect in reading order |
| NdefRecord.ParseIsStable | src/nfc/ndef.rs:164-273 | every result but Truncated is unchanged by appending bytes |
| NdefRecord.TruncationIsCurable | src/nfc/ndef.rs:168-254 | every Truncated input has an extension that is not |
| NdefRecord.ParsePrint | src/nfc/ndef.rs:164-289 | parsing undoes printing of any record, whatever follows, with the verdict its format and type deserve |
| NdefRecord.PrintParse | src/nfc/ndef.rs:164-273 | an input with a verdict is the printed record followed by a rest |
| NdefRecord.ParseIsExact | src/nfc/ndef.rs:164-273 | a verdict is reached exactly on inputs that start with a record of that verdict |
| NdefRecord.ParseErrorsAreExact | src/nfc/ndef.rs:164-254 | Chunked exactly with the chunk flag, Truncated in a part exactly on a record cut short inside that part, a verdict on every other input |
| NdefRecord.TextErrorsAreExact | src/nfc/ndef.rs:143-156 | not UTF-8 exactly if the bytes carried are not, truncated exactly if a payload that is not empty carries none |
| NdefRecord.TextIsExact | src/nfc/ndef.rs:143-156 | a text is read exactly from a status byte, a language code of its length, and that valid text, or as nothing from an empty payload |
| NdefRecord.EncodingIsExact | src/nfc/ndef.rs:143-156 | the text is the declared one, whatever UTF-16 makes of the bytes, if and only if the payload is empty, declares UTF-8 or is too short for its language code |
| NdefRecord.Utf16Example | src/nfc/ndef.rs:143-156 | a payload whose text is not the declared one |
| NdefRecord.TextRoundTrip | src/nfc/ndef.rs:143-289 | a text printed in either length form, with or without ID and with any language code, comes back |
| NdefTag.ReadNdefText | src/nfc/mfrc522.rs:240-277 | the quad loop, with every block address within 252 |
| NdefTag.ReadOutcome | src/nfc/mfrc522.rs:240-277 | for every tag the result, each error included, is a function of the bytes it shows and of the first quad that is missing |
| NdefTag.ReadIsExact | src/nfc/mfrc522.rs:240-277 | a text is returned exactly when the readable bytes hold, behind fewer than 32 others, a message that is a text record carrying it, and no quad ends behind a zero high length byte |
| NdefTag.WrittenTextIsRead | src/nfc/mfrc522.rs:255-277 | a text laid out as filler, TLV in either length form, text record and anything behind it is read back |
| NdefTag.ReadTextIsWritten | src/nfc/mfrc522.rs:240-277 | conversely, a text that is read is laid out so on the tag |
| NdefTag.CapacityIsExact | src/nfc/mfrc522.rs:248-253 | the quads read are the whole ones among the declared bytes, at most 63; so all bytes are read exactly if the capability byte is even and at most 126 |
| NdefTag.TailIsLost | src/nfc/mfrc522.rs:248-273 | of a data area that goes on behind the bytes read, a text is read exactly if the area holds it and its message ends among those bytes |
| NdefTag.OddCapabilityExample | src/nfc/mfrc522.rs:248-273 | a tag of 24 bytes that holds a text and is read in vain |
| NdefTlv.MarkerIsWalk | src/nfc/ndef.rs:68-76 | the first marker byte is the marker the TLV walk comes to if and only if no block in front contains a marker byte and none follows a terminator; otherwise it lies before it |
| NdefTlv.ReadFollowsStandard | src/nfc/mfrc522.rs:240-277 | on such tags a text is read exactly when the standard's NDEF block holds it; a text read from another tag comes from elsewhere |
| NdefTlv.LockControlMisleads | src/nfc/ndef.rs:68-94 | behind a lock control block the code takes its length for the marker and its first value byte for the length, the standard what follows it |
| NdefTlv.LockControlHidesText | src/nfc/mfrc522.rs:240-277 | no text is read from a tag with such a block that is too short for that length |
| NdefTlv.LockControlExample | src/nfc/ndef.rs:68-76 | a complete message behind a lock control block that is not found |
| NdefTlv.LockedTagExample | src/nfc/mfrc522.rs:240-277 | a tag on which the standard finds a text and none is read |
| AudioCaches.AudioCache.EnsureInner | src/audio_cache.rs:104-134 | existence check, retrieval, numbered download, rename, and what each failure leaves |
| AudioCaches.PathsAreKeyed | src/audio_cache.rs:77-87 | records have the same path exactly with the same achievement and hash, and none exactly without audio |
| AudioCaches.EnsureIsExact | src/audio_cache.rs:104-134 | for every cache, record and environment: when an ensure succeeds, that it then returns the record's own path and the file is there, which error it gives otherwise, what it asks the server for and which files it touches |
| AudioCaches.AudioCache.SyncAll | src/audio_cache.rs:157-204 | pruning over any listing, then every record in order, with skippable refusals collected |
| AudioCaches.PruneMeans | src/audio_cache.rs:171-183 | pruning removes exactly the listed stale audio and downloads whose removal works |
| AudioCaches.SyncConverges | src/audio_cache.rs:157-204 | after an Ok, whatever removals failed: every record cached or skipped; a stale mp3 left if and only if it was there and its removal failed, a download only then; everything else unchanged, only whole retrievals added |
| AudioCaches.InLineExactly | src/audio_cache.rs:171-204 | with none skipped the mp3 files are the expected ones if and only if no removal of a stale one failed |
| AudioCaches.StuckExample | src/audio_cache.rs:181-183 | a stale file that outlives an Ok |
| AudioCaches.SyncSucceeds | src/audio_cache.rs:157-204 | a sync returns Ok if and only if the directory can be made and listed and every record with audio is cached at its turn, delivered, or refused without being fatal |
| AudioCaches.FailureStops | src/audio_cache.rs:189-199 | the first record that is none of these ends the sync with its own error, whatever came before |
| AudioCaches.SkippedAreRefused | src/audio_cache.rs:190-198 | an Ok lists exactly the achievements whose audio was asked for and refused, in order |
| AudioCaches.BrokenListingEnds | src/audio_cache.rs:171-183 | a listing that breaks off ends the sync after exactly the stale files it had come to, with nothing asked for |
| AudioCaches.NamesMatchExactly | src/audio_cache.rs:109-134 | a sync, however it ends, keeps the hashes in names and the bytes matching if and only if all it fetched, up to the record that ended it, matched |
| AudioCaches.MismatchExample | src/audio_cache.rs:115-134 | an ensure that succeeds and does not |
| AudioCaches.SyncKeeps | src/audio_cache.rs:164-203 | whatever goes wrong, no expected file and no file of another kind is removed or changed |
| AudioCaches.SyncIsIdempotent | src/audio_cache.rs:109-203 | after a sync that skipped nothing, another on any permutation of the records retrieves nothing and changes nothing but for removing what the first failed to remove |
| AudioDownloads.ActWhole | src/audio_cache.rs:121-131 | every step of any interleaving keeps final names whole |
| AudioDownloads.ActGoodCalls | src/audio_cache.rs:45-131 | every step keeps download names apart and their contents the written prefix |
| AudioDownloads.FinalNamesAreWhole | src/audio_cache.rs:104-134 | at every point of any interleaving of downloads, removals, failures and crashes with a restart at counter 0, a final name holds a whole retrieval for its achievement, or what was there at the outset |
| AudioDownloads.RetryAfterCrash | src/audio_cache.rs:45-134 | after a crash at any point a working ensure leaves the whole retrieval under the final name, and takes away any download left under the name it reuses |
| AudioDownloads.PrunedDownloadIsLost | src/audio_cache.rs:146-148 | a download pruned before its rename ends its call without a final file |
| AudioDownloads.EnsureIsItsSteps | src/audio_cache.rs:104-134 | an undisturbed ensure is the sequence of those steps |

## Left out

- TLS, DNS and TCP set-up, and the stream's own time-outs: they end in success, failure or the deadline.
- The frame codec and the message encodings: functions of the `World`, so nothing is assumed about them.
- The acknowledgement of a shutdown command, and the five-second bound its caller waits.
- Time between steps of the loop: `ClientTiming` sums the awaits inside steps, and takes the bounds of a farewell and of a send's wait as given.
- `AnswersArePaired`, `EveryTraceIsWellShaped` and `RunInStep` ask for candid hooks, and the forecast for a helpful run; the other results about runs ask for neither.
- SyncConverges: of a leftover download whose removal failed it says only that it stays if its number was not used again.
- UTF-8 validation: an arbitrary predicate on bytes.
- Text forms of achievement IDs and hashes: file names are values, so distinct IDs and hashes have distinct names.
- The 64-bit wrap-around of the download counter, which needs as many downloads in one process.
- Power loss and several processes on one cache directory.
- Audio playback, the reader's channel, hardware initialisation and card polling, builder setters, logging and the graceful-shutdown wrapper.
