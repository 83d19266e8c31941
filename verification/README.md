# Verified model of Alpine WebAdmin's stateful core

Alpine WebAdmin manages an Alpine Linux host from a browser. This project models, in Dafny, the parts
of it whose correctness depends on state, time, bytes on a wire or the interleaving of goroutines, and
proves what those parts promise.

| module | models |
|---|---|
| `ApkScheduler`, `ApkManager` | the package-operation scheduler: running slot, bounded queue, bounded history, worker hand-over |
| `ApkParser` | splitting `name-version-rN`, and parsing the lines of a package search |
| `RateLimiter` | the token bucket per client address, and its sweeper |
| `LoginTracker` | the failed-login lockout per client address, and its sweeper |
| `SessionStore`, `SessionStory` | sessions with sliding expiry, limits, revocation and a sweeper |
| `WsFrame`, `WsWire`, `WsConn` | WebSocket frames byte by byte (sections 5.2 and 5.3 of RFC 6455), writers sharing one lock, the read loop |
| `ConfigFiles`, `ConfigTx`, `ConfigStory`, `ConfigBackups`, `ConfigEngine` | config transactions, backup, rollback and pruning, commit-confirm for network targets |
| `TelemetryHub`, `TelemetryStream` | lossy fan-out, the life of a stream connection, shutdown |

## How it is built

Three layers say the same thing at different distances from the Go code.

1. **Operations as functions.** What one locked section does to the fields it guards is a function
   (`ApkScheduler.Retire`, `RateLimiter.Draw`, `ConfigFiles.RollbackTx`, `WsFrame.Decode`, ...).
2. **Methods over mutable state.** The Go objects are classes (`ApkManager.Manager`, `RateLimiter.Limiter`,
   `ConfigEngine.Engine`, `WsConn.Conn`, ...). Each method keeps the branches and loops of the code it
   models. Its contract says in terms of the fields what the new state and the result are, and equates them
   with the function of layer 1.
3. **Runs.** A step system built from the same functions interleaves any number of callers and
   goroutines; `Legal` runs are sequences of enabled steps, and the main theorems quantify over all of
   them. Time is an explicit non-decreasing integer; failures of external commands and of the disk,
   timer expiries and random identifiers are nondeterministic.

Theorems about runs do not lean on layer 1 to say what they mean. They speak of fields, bytes and times, or of
what the calls of the run tell on their own: the calls that vouch for live bytes
(`ConfigStory.LiveFileProvenance`), the life of a session (`SessionStory.Story`), the failures in a row
(`LoginTracker.Streak`), the messages that found room (`TelemetryHub.History`), the position of each byte of a
frame (`WsWire.IsFrameOf`).

Some fields of the step systems only record the past (operations accepted so far, bytes accepted by a
validator, requests and answers so far). No step reads them to decide anything.

## Where a promise fails, and exactly when it holds

- The comment on `NewFailedLoginTracker` (pkg/auth/auth.go:329-330) has an address locked after maxAttempts
  failures *within* the lockout duration. The counter ignores the time between failures, so this holds
  exactly for the policies with maxAttempts <= 1 or lockoutDuration <= 0
  (`LoginTracker.CounterIgnoresDistance`). What locks an address in every run is
  `LoginTracker.LockedExactly`. The bound in the other direction holds for every policy
  (`LoginTracker.LockoutBound`): max(1, maxAttempts) failures per window, plus one for every further
  attempt of the address that the handler serves at the same time.
- A first request is always granted, so a limiter answers as a token bucket exactly when its rate is at
  least one (`RateLimiter.SpecNeedsPositiveRate`).
- `MaskFrame` sets a flag and a key that `WriteFrame` does not send, so a frame that went through it
  arrives with its payload still masked, unless the key bytes that were used are zero
  (`WsFrame.MaskedFramesArriveMasked`). A caller can rely on it exactly when the payload is empty
  (`WsFrame.MaskingHarmlessExactlyWhenEmpty`).
- The opcode `OpPong` that `readLoop` waits for is never returned by `ReadMessage`, so pongs do not extend
  a connection's life: it is given up exactly when its time since `Accept` exceeds the client timeout
  (`TelemetryStream.PongsDoNotCount`).
- Backups carry a time stamp of one second: two transactions begun on one target in the same second share
  a backup file (`ConfigTx.SameSecondBackupsCollide`). A rollback brings back what the last `Begin` on that
  target in that second saved, so it restores what its own `Begin` found exactly when the two are equal
  (`ConfigTx.RollbackRestoresLastSaved`). When there was no live file at `Begin`, it is restored exactly if
  there is none now, because `Rollback` removes nothing (`ConfigTx.RollbackRestoresBegin`).
- A network transaction rolled back while its confirmation is under way becomes Confirmed
  (`ConfigTx.RolledBackNetworkChangeConfirmed`); that step is the only way out of RolledBack
  (`ConfigTx.RolledBackIsFinal`).
- A second `Confirm` of a pending change closes a closed channel, which is a run-time panic. It is at hand
  exactly when the channel is closed and has been looked up at least twice, and it cannot be avoided any more
  once it has been looked up twice (`ConfigTx.ConfirmPanicsExactly`); both the second of two calls in a row
  (`ConfigTx.SecondConfirmPanics`) and two calls at once (`ConfigTx.ConfirmTwiceCrashes`) get there.
- `Engine.Confirm` calls its argument a transaction identifier (pkg/configtx/transaction.go:238-241), but the
  change is found exactly under its target's name (`ConfigTx.ConfirmFindsByName`).
- A refused or failed `StageCommit` leaves the transaction Committed (`ConfigTx.SecondCommitRefused`,
  `ConfigEngine.Engine.Commit`).
- An operation can be in the history while its state still says running: exactly while its worker is between
  its finish section and its last write (`ApkScheduler.ArchivedIsFinalUnlessPublishing`, with a run in
  `ApkScheduler.ArchivedMayStillRun`).
- `Shutdown` can return nil while an `Accept` is in flight, and that connection then survives it
  (`TelemetryStream.AcceptInFlightSurvives`); the connections left when the wait ends are exactly those in
  flight (`TelemetryStream.ShutdownLeavesNothing`).
- `ReadMessage` returns every frame with a data opcode as a message of its own: it skips continuation frames
  and reserved opcodes, and ignores the final flag and the length of control frames. Its messages are those of
  sections 5.4 and 5.5 of RFC 6455 exactly when the frames hold no fragmented message, save one continued by
  empty frames only, and nothing that fails the connection comes before a data frame
  (`WsConn.MessagesAreWholeExactly`); a message in two fragments comes out as the first of them
  (`WsConn.FirstFragmentReturned`).
- `Cleanup` means to keep the most recent backups (pkg/configtx/transaction.go:275) but counts staging files as
  backups. The most recent ones survive exactly when no staging file takes a place among the last names while a
  backup is pushed out (`ConfigBackups.NewestSurviveExactly`); one staging file can push out the only backup
  (`ConfigBackups.StagingPushesBackupOut`). The step system of `ConfigTx` lets `Cleanup` remove any set of files
  other than live ones.

## Model

| member | source | states |
|---|---|---|
| ApkScheduler.OneExecutor | pkg/apk/apk.go:302-406 | in every interleaving of any number of submitters and workers at most one operation is inside executeWithProgress and it is the running one; the running slot is occupied exactly while one worker has not reached its finish section; at most one worker holds the APK mutex |
| ApkScheduler.ArchivesItsOwn | pkg/apk/apk.go:349-362 | although the finish section archives whatever the slot holds, a worker archives its own operation, for the first time, as the newest entry of the history |
| ApkScheduler.Conservation | pkg/apk/apk.go:280-362 | archived, then running, then queued operations are the accepted ones in acceptance order, each once, less the flushed ones (all of them when nothing was flushed); history is the last maxHistory archived; the queue stays within its bound and is empty unless something runs |
| ApkScheduler.AdmissionExactly | pkg/apk/apk.go:303-334 | in every reachable state a submission changes nothing if and only if an operation runs and the queue holds maxQueue; otherwise it starts at once in an empty slot, with its own worker, or waits as the last of the queue in state pending |
| ApkScheduler.StatesMoveForward | pkg/apk/apk.go:364-405 | an operation's state only moves from pending to running to completed or failed, and only its own worker makes it final, with the result of its own execution |
| ApkScheduler.FinalAsReturned | pkg/apk/apk.go:345-370 | a completed operation's execution returned without an error in this run, and a failed one's with an error (also pkg/apk/apk.go:381-405) |
| ApkScheduler.ArchivedIsFinalUnlessPublishing | pkg/apk/apk.go:349-405 | in every reachable state an archived operation lacks its final state exactly while its worker is between its finish section and its last write, and then says running |
| ApkScheduler.WorkerStepLowersMeasure | pkg/apk/apk.go:336-406 | without new submissions every worker step lowers a measure over queue length and worker phases |
| ApkScheduler.WorkerRunsAreBounded | pkg/apk/apk.go:336-406 | so no schedule of worker steps is longer than the measure |
| ApkScheduler.SomeWorkerCanStep | pkg/apk/apk.go:336-406 | while any worker exists some worker can step: hand-over never deadlocks |
| ApkScheduler.StuckMeansDrained | pkg/apk/apk.go:336-406 | a reachable state without worker steps has nothing running or queued, and every accepted, unflushed operation has reached its final state, in acceptance order |
| ApkScheduler.Drain | pkg/apk/apk.go:336-406 | from every state of every run the workers alone can empty the queue |
| ApkManager.Manager.ArchiveOp | pkg/apk/apk.go:280-288 | appends to the history and keeps its newest maxHistory entries; a nil operation changes nothing |
| ApkManager.Manager.FlushQueue | pkg/apk/apk.go:291-297 | empties the queue, leaves the running operation and the history alone, and reports how many it dropped |
| ApkManager.Manager.Submit | pkg/apk/apk.go:303-334 | refuses exactly when something runs and the queue is full, and then changes nothing; otherwise the new operation is running in an empty slot or pending as the last of the queue |
| ApkManager.Manager.FinishSection | pkg/apk/apk.go:349-362 | archives the running operation and promotes the head of the queue, marking it and nothing else running |
| ApkManager.Manager.GetOperation | pkg/apk/apk.go:259-276 | nil exactly when no known operation carries the identifier; otherwise the first one in the order running, queue, history |
| ApkParser.StripVersion | pkg/apk/parser.go:85-114 | the early-return form with its digit loop computes the name function the lemmas are about |
| ApkParser.OnlyDigits | pkg/apk/parser.go:96-102 | the flag loop answers whether every character is a digit |
| ApkParser.StripRoundTrip | pkg/apk/parser.go:85-123 | name-version-rN comes apart into its name and version-rN for every non-empty name, dashes included, and every dash-free version |
| ApkParser.ExtractSplits | pkg/apk/parser.go:85-123 | a version is found exactly in strings that end in a dash and a release after something; then the string is name, dash, version; otherwise the whole string is the name |
| ApkParser.ParsePackages | pkg/apk/parser.go:38-63 | the loop returns the parses of the lines in order, skipping blank ones (also pkg/apk/apk.go:143-169) |
| ApkParser.HeadAndDescription | pkg/apk/parser.go:46-51 | a trimmed line is cut at its first " - ", with the trimmed rest as the description; a line without one is all head |
| ApkParser.OnlyBlankLinesAreSkipped | pkg/apk/parser.go:40-61 | a line gives no package if and only if it is all white space |
| ApkParser.TrimIsMiddle | pkg/apk/parser.go:41 | trimming takes away exactly the white space at both ends |
| ApkParser.LinesJoinBack | pkg/apk/parser.go:40 | splitting into lines loses nothing and leaves no newline |
| ApkParser.SearchRoundTrip | pkg/apk/parser.go:38-63 | printing any list of packages, with or without versions and descriptions, and parsing the output returns the list |
| RateLimiter.AllowMeetsSpec | pkg/security/security.go:78-112 | over any run with any clients and slow sweeps, request k of a client is granted exactly when every window opening at an earlier request j still has a token left of cap + refill * (tk - tj) minus the grants in j..k-1 |
| RateLimiter.SpecIsUnique | pkg/security/security.go:88-112 | that specification determines every answer |
| RateLimiter.SpecNeedsPositiveRate | pkg/security/security.go:93-98 | a run in which the client makes a request meets the specification exactly when the rate is at least one |
| RateLimiter.WindowBound | pkg/security/security.go:88-112 | requests i to k are granted at most a full bucket plus the refill between them |
| RateLimiter.TimeWindowBound | pkg/security/security.go:78-112 | any time window of length d grants one client at most twice the rate plus the rate times d requests |
| RateLimiter.DeniedOnlyWhenSpent | pkg/security/security.go:78-112 | a request is denied if and only if, counted from some earlier request of the client, less than one token is left of twice the rate plus the rate times the seconds since, less the requests granted since |
| RateLimiter.BucketsFollowRequests | pkg/security/security.go:88-124 | over any run a client has a bucket exactly from a request until a sweep that finds it stale |
| RateLimiter.SweepsAreInvisible | pkg/security/security.go:78-124 | with a rate of at least one and sweeps of at least two seconds, a limiter swept anywhere answers every request of every client as one never swept |
| RateLimiter.FaithfulStep | pkg/security/security.go:88-124 | after each call a bucket's tokens are the least budget over all windows of its client's history, and a missing bucket stands for a full one |
| RateLimiter.Limiter.Allow | pkg/security/security.go:88-112 | changes one client's bucket only, to the one the specification function gives, and answers as it does |
| RateLimiter.Limiter.Sweep | pkg/security/security.go:115-124 | removes exactly the buckets last used before the cutoff |
| LoginTracker.LockoutBound | pkg/auth/auth.go:340-393 | when failures are recorded only after IsLocked said no, at most width attempts of an address are served at a time and sweeps keep at least the lockout, any half-open window as long as the lockout holds at most max(1, maxAttempts) + width - 1 failures of one address since its last success |
| LoginTracker.LockHolds | pkg/auth/auth.go:340-393 | after a failure that locks an address, through any calls within the lockout on any addresses, sweeps included, short of a success of an attempt let through before, it stays locked until a lockout after its last failure and nobody new is let through |
| LoginTracker.LockedExactly | pkg/auth/auth.go:340-393 | over every run the counter is the number of failures since the last success, noticed end of a lockout, or sweep after a pause, and the address is locked exactly while less than a lockout has passed since the last of at least max(1, maxAttempts) of them |
| LoginTracker.CounterIgnoresDistance | pkg/auth/auth.go:329-354 | every run locks an address only after maxAttempts failures within lockoutDuration if and only if maxAttempts <= 1 or lockoutDuration <= 0; every other policy has a run that locks on failures further apart |
| LoginTracker.StepKeeps | pkg/auth/auth.go:340-393 | every call on any address keeps the number of recent failures and of attempts under way together below max(1, maxAttempts) + width |
| LoginTracker.FailedLoginTracker.RecordFailure | pkg/auth/auth.go:340-354 | counts one more failure for the address and locks it when the limit is reached; no other address changes |
| LoginTracker.FailedLoginTracker.IsLocked | pkg/auth/auth.go:364-381 | answers whether the lockout is still running, and resets the counter of an address whose lockout has passed |
| LoginTracker.FailedLoginTracker.Sweep | pkg/auth/auth.go:384-393 | removes exactly the entries whose last failure is older than ttl |
| SessionStore.SweepsAreInvisible | pkg/auth/auth.go:49-205 | two stores that agree on unexpired sessions answer every later sequence of calls alike, with sweeps inserted anywhere in one of them |
| SessionStore.SweepPlacementInvisible | pkg/auth/auth.go:136-148 | two histories that differ only in their sweeps are told apart by no answer |
| SessionStore.StepAgrees | pkg/auth/auth.go:49-133 | every call keeps two stores in agreement on unexpired sessions |
| SessionStore.ReplyAgrees | pkg/auth/auth.go:101-191 | stores that agree on unexpired sessions give the same answer to each call, including counts and limits |
| SessionStory.AnswersAsTold | pkg/auth/auth.go:49-205 | over every ordered run, told from the calls alone: Get and GetWithRenew return a session exactly when its identifier was created, each renewal came no later than the expiry then in force, the last creation or renewal ended at most ttl ago, and no Delete, revocation or new login of its user came since; the session is its creation's with the expiry a ttl after that end; CreateWithLimit, CountByUser and All go by the sessions told to be active |
| SessionStory.TableIsStory | pkg/auth/auth.go:49-205 | after any run the store holds exactly the sessions the calls tell of, less those a sweep found expired |
| SessionStory.LastReply | pkg/auth/auth.go:101-191 | the answers of a run are those of its calls, one after the other |
| SessionStore.Store.Create | pkg/auth/auth.go:49-66 | adds one session that expires a ttl from now, or nothing when the random source fails |
| SessionStore.Store.CreateWithMetadata | pkg/auth/auth.go:70-98 | afterwards the new session is the user's only one; when the random source fails the user has none |
| SessionStore.Store.Get | pkg/auth/auth.go:101-109 | returns the session exactly up to and including its expiry time |
| SessionStore.Store.GetWithRenew | pkg/auth/auth.go:112-126 | moves the expiry of a valid session to a ttl from now and returns it so; removes an expired one |
| SessionStore.Store.Sweep | pkg/auth/auth.go:136-148 | removes exactly the expired sessions and counts them |
| SessionStore.Store.All | pkg/auth/auth.go:151-162 | returns exactly the sessions strictly before their expiry time |
| SessionStore.Store.CountByUser | pkg/auth/auth.go:172-183 | the number of a user's sessions strictly before their expiry time |
| SessionStore.Store.CreateWithLimit | pkg/auth/auth.go:186-191 | refuses exactly when a positive limit is reached; otherwise creates |
| SessionStore.Store.RevokeAllForUser | pkg/auth/auth.go:194-205 | removes exactly the user's sessions and counts them |
| WsFrame.XorTwice | pkg/ws/frame.go:78-82 | masking a byte twice with one key byte gives it back |
| WsFrame.XorIsBitwise | pkg/ws/frame.go:78-82 | the arithmetic exclusive-or is the bitwise one |
| WsFrame.DecodeEncode | pkg/ws/frame.go:35-115 | a written frame followed by anything is read back, consuming exactly its bytes, or refused for its length, over all three length forms |
| WsFrame.RoundTripExactly | pkg/ws/frame.go:35-115 | the frames that come back unchanged are exactly the unmasked ones with an opcode below 16 and a payload within the limit |
| WsFrame.DecodeMasked | pkg/ws/frame.go:64-84 | what a client sends masked, as WsWire.EncodeMaskedOnWire spells it out, is read unmasked |
| WsFrame.DecodeIgnoresRest | pkg/ws/frame.go:35-85 | what follows a frame does not change how it is read |
| WsFrame.DecodeNeedsAll | pkg/ws/frame.go:35-85 | no proper prefix of a frame is accepted |
| WsFrame.ReencodeIsCanonical | pkg/ws/frame.go:35-115 | any accepted input, masked or with a longer length form than needed, re-encodes to no more bytes that decode to the same final flag, opcode and payload |
| WsFrame.DecodeAllEncodeAll | pkg/ws/frame.go:35-115 | reading the concatenation of any written frames returns them one by one |
| WsWire.DecodeOnWire | pkg/ws/frame.go:35-85 | for any input, each error with its exact condition, and every field of an accepted frame from its bytes: flags from the top bits, the opcode, the length in its three forms, the key before the payload, payload byte i exclusive-or key byte i modulo four when masked and as it stands otherwise |
| WsWire.EncodeOnWire | pkg/ws/frame.go:89-115 | the first byte, the shortest length form with the length in it, and the payload as it is |
| WsWire.EncodeMaskedOnWire | pkg/ws/frame.go:64-82 | what a masking client sends: mask bit, length, key, and each payload byte exclusive-or its key byte |
| WsWire.MaskFrameOnWire | pkg/ws/frame.go:118-127 | MaskFrame masks each byte with its key byte and sets flag and key, and leaves a masked frame alone |
| WsFrame.MaskedFramesArriveMasked | pkg/ws/frame.go:89-127 | a frame that went through MaskFrame arrives masked, intact exactly when the key bytes used are zero |
| WsFrame.MaskingHarmlessExactlyWhenEmpty | pkg/ws/frame.go:89-127 | whatever key is drawn the frame arrives intact, if and only if it has no payload |
| WsFrame.MaskInPlace | pkg/ws/frame.go:78-82 | the in-place loop leaves byte i of the buffer exclusive-or key byte i modulo four |
| WsFrame.ReadHeader | pkg/ws/frame.go:36-62 | the reads of the header give the length form's value, the length limit and each error |
| WsFrame.ReadFrame | pkg/ws/frame.go:35-85 | returns the decoded frame or the error, and leaves the input right after the frame |
| WsFrame.ReadBody | pkg/ws/frame.go:64-82 | reads the key and the payload after a header, unmasks in place, and reports which of them was cut |
| WsFrame.BuildHeader | pkg/ws/frame.go:90-106 | the appended header is the encoder's |
| WsFrame.WriteFrame | pkg/ws/frame.go:89-115 | sends exactly the encoding, or fails after the part of it the peer took |
| WsConn.WireDecodesToFrames | pkg/ws/conn.go:74-108 | any interleaving of data messages, pongs, pings, close frames and Close gives a wire stream that decodes to exactly one frame per call in lock order up to the first closing call, each final, unmasked, with its call's opcode and payload, and a close frame only as the last (also pkg/ws/ping.go:6-14) |
| WsConn.SocketClosedOnce | pkg/ws/conn.go:38-108 | the socket is closed at most once, and exactly once when a closing call was made and every Close has finished |
| WsConn.ReadLoopIsComplete | pkg/ws/conn.go:52-71 | over any finite input repeated ReadMessage returns exactly the text and binary payloads in order up to the first close frame or error, and sends exactly one pong per ping before it, same payload, in order |
| WsConn.ScanHears | pkg/ws/conn.go:52-71 | one ReadMessage takes exactly the frames up to the next data frame, answers the pings among them, and never needs more room for pongs than the bytes it read |
| WsConn.ScanStops | pkg/ws/conn.go:61-64 | on a closed connection ReadMessage fails at the first ping it meets, on an open one exactly at the first ping whose pong the peer does not take, and otherwise goes as if every pong got through |
| WsConn.Conn.ReadLoop | pkg/telemetry/stream.go:94-109 | the loop around ReadMessage is handed exactly the text and binary frames before the first close frame or error, and the bytes it sends decode to exactly one pong per ping among them, with its payload, in order |
| WsConn.MessagesAreData | pkg/ws/conn.go:58-69 | no message a reader gets is anything but text or binary |
| WsConn.MessagesAreWholeExactly | pkg/ws/conn.go:52-71 | the messages returned over any input are those of section 5.4 of RFC 6455, put together from their fragments, if and only if no message is continued by a non-empty frame or left open and nothing that fails the connection comes before a data frame |
| WsConn.FirstFragmentReturned | pkg/ws/conn.go:58-69 | any text message sent in two fragments is returned as its first fragment |
| WsConn.UnfragmentedIsWhole | pkg/ws/conn.go:58-69 | input without fragments and violations meets that condition |
| WsConn.Conn.ReadMessage | pkg/ws/conn.go:52-71 | the loop terminates on any input, open or closed, whatever the peer takes, with the specified outcome, pongs sent, part of a failed pong on the wire, and input left |
| WsConn.Conn.WriteMessage | pkg/ws/conn.go:74-82 | sends one whole final frame; fails on a closed connection without sending, and otherwise after a part of the frame |
| WsConn.Conn.WritePong | pkg/ws/conn.go:85-92 | the same for a pong |
| WsConn.Conn.WritePing | pkg/ws/ping.go:6-14 | the same for an empty ping, except that a closed connection is reported as success |
| WsConn.Conn.WriteClose | pkg/ws/conn.go:95-108 | the first closing call sends code and reason and closes the socket even when the write fails; later ones do nothing |
| WsConn.Conn.Close | pkg/ws/conn.go:38-48 | closes the socket unless a closing call came before |
| ConfigStory.LiveFileProvenance | pkg/configtx/transaction.go:79-236 | in every run a live file holds what the target's files held at the start, or bytes for which the calls show a Begin on the target, a later Stage of exactly these bytes by that transaction, and a later Validate of it that accepted (also pkg/configtx/network.go:50, 98) |
| ConfigStory.RejectedStaysOut | pkg/configtx/transaction.go:144-153 | a staged change whose validator rejects it is Failed, no file changes, and through any continuation without its rollback it stays Failed and committing it changes nothing |
| ConfigStory.AcceptedIsPublished | pkg/configtx/transaction.go:122-210 | staging, accepted validation and commit, with anything by others in between that spares the staging file, put exactly the staged bytes live |
| ConfigStory.StatusMoves | pkg/configtx/transaction.go:122-236 | a status moves only along the listed edges, each by its own call |
| ConfigStory.EvidenceStep | pkg/configtx/transaction.go:122-158 | every step keeps the calls as evidence for each staging file that awaits validation and for all that was accepted |
| ConfigTx.PendingMeansOneInFlight | pkg/configtx/network.go:34-112 | a name is pending exactly while one StageCommit or its awaiter is in flight, only one is, and an awaiter waits on its own channel |
| ConfigTx.SecondCommitRefused | pkg/configtx/network.go:35-39 | a second network Commit for the name is refused meanwhile; files, entries and the job are untouched and only the refused transaction moves to Committed |
| ConfigTx.CommitConfirmOutcome | pkg/configtx/network.go:34-112 | once the entry is gone the live file holds the staged bytes if the confirm branch ran and the backup's bytes if the timeout branch ran, over every interleaving that leaves the change to its awaiter |
| ConfigTx.RollbackRestoresBegin | pkg/configtx/transaction.go:213-236 | after anything by anyone that spares the backup, a successful Rollback leaves the content seen at Begin; without a live file at Begin, exactly if there still is none |
| ConfigTx.RollbackRestoresLastSaved | pkg/configtx/transaction.go:90-99 | after anything by anyone, Rollback leaves what the last Begin on the target in the same second saved, or the live file as it is when that backup was removed; so it restores what Begin found if and only if the last saved content equals it |
| ConfigTx.NestedRollbacksUndo | pkg/configtx/transaction.go:213-236 | rolling back any stack of transactions on a target, begun in different seconds, in reverse order brings back at each level the content its Begin found |
| ConfigTx.RolledBackIsFinal | pkg/configtx/transaction.go:177-235 | a rolled-back transaction changes exactly by a confirmation already under way, hence never when its target is not a network target |
| ConfigTx.RolledBackNetworkChangeConfirmed | pkg/configtx/transaction.go:177-235 | a run in which that happens |
| ConfigTx.ConfirmPanicsExactly | pkg/configtx/network.go:70-81 | a caller is about to close a closed channel if and only if the channel is closed and Confirm has found it at least twice; one Confirm per pending change never gets there |
| ConfigTx.ConfirmFindsByName | pkg/configtx/transaction.go:238-241 | a text given to Confirm finds a pending change's channel if and only if it is the target's name |
| ConfigTx.PendingStep | pkg/configtx/network.go:34-112 | every step keeps the map of pending names in bijection with the jobs in flight |
| ConfigEngine.Transaction.Stage | pkg/configtx/transaction.go:122-137 | writes the staging file only from Pending, and fails into Failed on a write error |
| ConfigEngine.Transaction.Validate | pkg/configtx/transaction.go:140-158 | moves Staged to Validated or Failed by the validator's verdict and refuses every other status |
| ConfigEngine.NetworkSafety.StageCommit | pkg/configtx/network.go:34-67 | registers the name and replaces the live file, or leaves everything as before |
| ConfigEngine.NetworkSafety.Confirm | pkg/configtx/network.go:70-81 | reports that nothing is pending, signals the awaiter, or panics, which it does exactly on a pending change that has been confirmed already |
| ConfigEngine.ConfirmationAgrees | pkg/configtx/network.go:70-81 | in every reachable state with no other Confirm under way the method's outcome is the step system's: name not found, channel closed, or panic |
| ConfigEngine.NetworkSafety.AwaitConfirm | pkg/configtx/network.go:83-106 | confirms the transaction or restores the backup, by the branch taken, and then forgets the name |
| ConfigEngine.Engine.Begin | pkg/configtx/transaction.go:79-119 | backs an existing live file up under the current second and registers a pending transaction; a failed backup registers nothing |
| ConfigEngine.Engine.Commit | pkg/configtx/transaction.go:161-210 | replaces the live file of a validated transaction only; the error branches leave Failed, or Committed for a network target |
| ConfigEngine.Engine.Rollback | pkg/configtx/transaction.go:213-236 | restores an existing backup, drops the staging file and marks the transaction; a failed copy changes nothing |
| ConfigEngine.Engine.Cleanup | pkg/configtx/transaction.go:263-289 | drops exactly the transactions older than ttl with their staging files, and then every file of a backup directory that at least retain files of it follow by name |
| ConfigEngine.Disk.ReadDir | pkg/configtx/transaction.go:281-284 | lists exactly the files of a backup directory in the order of their names |
| ConfigBackups.LastSurvive | pkg/configtx/transaction.go:281-287 | of a sorted listing exactly the last retain files are kept |
| ConfigBackups.NewestSurviveExactly | pkg/configtx/transaction.go:275-288 | the min(retain, number of backups) most recent backups are kept if and only if no staging file is kept while a backup is removed |
| ConfigBackups.StagingPushesBackupOut | pkg/configtx/transaction.go:275-288 | with one file to keep, a staging file whose name sorts last pushes the only backup out |
| TelemetryHub.FanOut | pkg/telemetry/hub.go:27-58 | in every run what a subscriber received followed by its buffer is exactly the messages that found fewer than capacity unreceived ones before them when offered; each message broadcast while it was registered is offered to it once, in order; the buffer stays within capacity |
| TelemetryHub.LostOnlyWhenFull | pkg/telemetry/hub.go:52-56 | in every reachable state an offered message is kept if and only if the buffer has room |
| TelemetryHub.SlowSubscriberIsHarmless | pkg/telemetry/hub.go:48-58 | a subscriber that stops receiving changes nothing for any other |
| TelemetryHub.Hub.Broadcast | pkg/telemetry/hub.go:48-58 | in any visiting order each registered channel with room gets the message once and a full one is unchanged |
| TelemetryStream.Lifecycle | pkg/telemetry/stream.go:64-156 | never more than MaxConns connections; a served connection is in conns and in the hub until its removal begins; each is deleted and unregistered at most once although both loops call remove, and exactly once when either loop has returned |
| TelemetryStream.AcceptExactly | pkg/telemetry/stream.go:65-76 | in every reachable state a connection is turned away if and only if the stream is closed or full |
| TelemetryStream.RemoveFindsItsConnection | pkg/telemetry/stream.go:144-156 | the guarded function of remove always finds its connection |
| TelemetryStream.ShutdownLeavesNothing | pkg/telemetry/stream.go:166-195 | when the wait ends the connections left are exactly those of Accepts in flight; if there are none, nothing of the stream remains in conns or in the hub from then on |
| TelemetryStream.AcceptInFlightSurvives | pkg/telemetry/stream.go:64-85 | a run in which a connection outlives a Shutdown that returned nil |
| TelemetryStream.PongsDoNotCount | pkg/telemetry/stream.go:94-136 | whatever a client sends, the timeout check fires exactly when its time since Accept exceeds the client timeout |
| TelemetryStream.StepCounter | pkg/telemetry/stream.go:80-145 | the wait group always counts exactly the loops that have not returned |
| TelemetryStream.Stream.Accept | pkg/telemetry/stream.go:64-85 | refuses exactly when closed or full; otherwise adds and registers one new connection |
| TelemetryStream.Stream.Remove | pkg/telemetry/stream.go:144-156 | the first call for a connection deletes, unregisters and closes it; later calls do nothing |
| TelemetryStream.Stream.BeginShutdown | pkg/telemetry/stream.go:166-181 | closes the stream to newcomers and the sockets of all present connections |

## Left out

- queueMu, the hub's, the limiter's, the trackers' and the stores' locks: a section under such a lock takes no other lock, so it is one atomic step, and no cycle among locks is modelled; the APK mutex and a transaction's lock, which are held across steps, are modelled.
- SetMaxQueue: the queue bound is fixed during a run.
- Timestamps, error texts, progress lines, operation types and arguments, and identifiers of operations: they do not steer the scheduler; an operation is its identity.
- executeWithProgress, Reload, Persist, service restarts and the validators' commands: a nondeterministic outcome, or nothing where the code ignores it.
- RateLimiter.Limiter.Allow: does not model float64 rounding; tokens are billionths of a token, so the refill is exact.
- The login handler's password check: an attempt that was let through ends in a Failure, a Success or an Abandon step, whichever.
- SessionStore.Store.CreateWithMetadata and CreateWithLimit: each is one event in a run of the session store; a run with calls between its two locked sections is the one that has the halves as separate calls.
- The counts returned by the sweeps, RevokeAllForUser and Store.Count are not among the answers of the session theorem: they do see expired entries.
- WsConn.ReadLoopIsComplete: assumes a connection that stays open and a peer that takes the pongs; ScanMessage and ReadMessage cover the closed connection and the failing pong as well.
- WsConn.WireDecodesToFrames: is about successful writes; the method contracts say what a failed write leaves on the wire.
- Socket deadlines, the send channel and the shutdown channel of ws.Conn, and the handshake.
- Torn files: copyFile and rename happen at once or not at all; a copy that fails half-way is not modelled.
- Symbolic links and shared paths: a target's name determines its live path, and live, backup and staging paths never coincide.
- ConfigStory.LiveFileProvenance: assumes that each target keeps its name and path, as the registered targets do, and treats transaction identifiers as fresh.
- Confirm's returned error does not tell which branch the awaiter took; outcomes are stated by the branch.
- A failed StageCommit deletes its entry in the same step as the failed rename.
- Unicode white space in TrimSpace: the six ASCII characters only.
- parseList and parseInfo: field splitting and prefix tests without a further claim.
- Unbuffered subscribers: a channel of capacity zero takes nothing; the direct hand-over to a waiting receiver is not modelled.
- Concurrent broadcasts: the hub has one broadcast at a time, as its single collector issues them.
- Negative retention counts, on which Cleanup indexes out of range; reserved header bits and unmasked client frames, which sections 5.1 and 5.2 of RFC 6455 refuse and ReadFrame does not look at.
- The text of file names: how a staging file's name falls among the backups' is any monotone function of its identifier.
- A second call of Shutdown, its context's cancellation, and the liveness of its wait.
- pkg/ipc, pkg/proc, pkg/openrc, pkg/config, pkg/log, the collector, the command handlers and the front end.
- CSRF tokens, cookies, password hashing and the accept key of the WebSocket handshake: library calls.
