# Codex Mobile: verified models of its hard parts

Codex Mobile lets a phone drive workspaces on a server: a Go control plane admits workspaces and hands out
sessions, an iOS client shows their terminals, and Python scripts guard the host and its images. This project
models the parts of it whose correctness is not visible from any one function, in Dafny 4.11, and proves what
they promise for every input, every interleaving or every run. `dafny verify dfyconfig.toml` checks everything.

## What is modelled

* **Keyed locks and revocation** (`MutationGates`, `LockOrder`, `OperationExclusion`, `Revocation`,
  `RevocationFinality`, `RevocationProgress`). Every statement of the gate acquisition and of its release closure is
  one step of one thread; any number of threads, gates and keys take part, and gate objects are created, shared and
  deleted on the way. The operations that issue and revoke authority run as jobs on top of those gates, with the
  stores behind their contracts: a failed store call changes nothing, validation fails for a revoked family, a
  replayed rotation revokes its family, a device sweep removes every credential of that device.
* **The terminal client** (`FrameCodec`, `GatewayProtocol`, `WebSocketClient`, `WebSocketDelivery`, `OutputSanitizer`,
  `TerminalCommands`, `TerminalSession`, `TerminalProgress`, `ComposerDelivery`, `ComposerRetry`). The frame format in
  both directions and on both sides, client and server; the socket actor with its late callbacks; the streaming OSC
  filter (operating system commands of section 8.3.89 of ECMA-48, ended by the string terminator of section 8.3.143 or
  by BEL); the sequence, acknowledgement and replay machine built on it; and composer delivery over a connection that
  may fail at any point.
* **The offline cache** (`OfflineCache`, `OfflineSaves`). Merge and trim of terminal frames, and oldest-first
  eviction.
* **Image audit** (`AuditPolicy`, `ImageAudit`, `AuditReports`, `AuditReview`). Loading a disposition policy, matching
  findings against it, the published summaries, and the way from a review to a passing audit.
* **The volume lease of an owner's PC** (`VolumeGate`, `VolumeOptions`, `VolumeLifeCycle`), **admission**
  (`Admission`), **wire keys** (`WireKeys`) and **hostile display text** (`HostileText`).

`Common`, `Ordering` and `Permutations` hold shared definitions. Code that changes state or loops in the source is a
class or a method with loops here, proved equal to a specification function; the theorems are about those functions.

Five promises turned out to need a condition. Each has a concrete failing input and a condition that is exact for
all inputs and can be read before the operation:

* splitting a terminal stream is harmless for whatever follows exactly when the chunk does not take the
  overflow branch of the filter (`OutputSanitizer.OverflowingChunk`, `OutputSanitizer.SplitHarmlessIffNoOverflow`);
* a composer call can return although its own frame was never applied when a random key repeats
  (`ComposerDelivery.RepeatedKeyCanLie`); a draw is safe exactly when no other frame with its key was sent or is being
  delivered (`ComposerDelivery.DeliversOnceIff`), and a return stands for this delivery's own sending exactly when no
  frame with its key was, not even an equal one (`ComposerDelivery.DeliversItselfIff`);
* trimming the cache after every append can keep an old small frame below a gap
  (`OfflineCache.OutOfOrderLeavesGap`); an append keeps the tail of everything offered exactly when no offered frame
  lies below a frame that is gone and would fit (`OfflineCache.AppendIsTailIff`, `OfflineCache.AlwaysTailIff`);
* the reference capacity, which runs up to ten workspaces, breaks its disk reserve when it admits one beside another
  that has its provider identifier but is not yet written (`Admission.EarlySettlementBreaksReserve`); admission is safe
  exactly when the host is full or the pending figure covers what the running volumes may still write
  (`Admission.AdmissionsAreSafeIff`). With a limit of one, as on an owner's PC, the reserve survives every run
  (`Admission.SoleWorkspaceKeepsReserve`);
* wire keys such as `foo_gi_bar` and `foo_i_d` do not come back (`WireKeys.ClashingKey`, `WireKeys.ClashingLetters`);
  among all lists of words, one-letter words included, a key comes back exactly when no words in it clash
  (`WireKeys.RoundTripIff`).

Where code and documentation differ the code is followed. Three further facts about the code are stated as it is: the
client refuses some frames that the server's encoder accepts, exactly the long pings and the texts that are empty or
not UTF-8 where the client wants text (`GatewayProtocol.ClientReadsServerIff`); terminal cache keys of two tabs
coincide exactly when an identifier contains the separator (`OfflineCache.KeyCollidesIff`), and two workspaces can
share a volume name though never a lease (`VolumeGate.SameVolumeIff`).

## Model

| member | source | states |
|---|---|---|
| `MutationGates.GateSafety` | services/control-plane/internal/application/application.go:149-172 | in every reachable state of every interleaving: one thread per key in the critical section, `refs` equals the threads holding or waiting, a gate is indexed exactly while `refs` > 0 (whenever the global mutex is free), no thread waits on a removed gate, and at rest the index is empty |
| `MutationGates.StepInv` | services/control-plane/internal/application/application.go:149-172 | every statement of acquire and release keeps the whole invariant |
| `MutationGates.CounterStep` | services/control-plane/internal/application/application.go:159-168 | a step changes a gate's count by exactly the change in what the stepping thread holds or waits for |
| `MutationGates.SameKeySameGate` | services/control-plane/internal/application/application.go:154-168 | two holders of one key hold the same gate and are the same thread, however often the gate was deleted and recreated |
| `MutationGates.HeldIndexed` | services/control-plane/internal/application/application.go:163-171 | a held gate is the indexed one, except for the thread that is releasing it |
| `MutationGates.RefinesIdealMutexes` | services/control-plane/internal/application/application.go:149-172 | each step of the indexed, counted gates is a step, or no step, of one plain mutex per key |
| `LockOrder.CompositeNameInjective` | services/control-plane/internal/application/application.go:128-144 | length-prefixed composite keys are equal only for equal pairs |
| `LockOrder.LockSecretWorkspaces` | services/control-plane/internal/application/secrets.go:212-236 | the acquisition loop fails exactly on too many or empty identifiers and otherwise takes every granted workspace once, in increasing order: the gates of the rotation's plan |
| `LockOrder.PlansIncrease` | services/control-plane/internal/application/previews_settings.go:99-145 | the gates each kind of caller takes, in the order it takes them, strictly increase in (index, name) |
| `LockOrder.MachineStep` | services/control-plane/internal/application/application.go:149-172 | threads that execute operations, each requesting only the next gate of its plan, keep the gate invariant, the lock order and their plans |
| `LockOrder.RequestsFollowPlans` | services/control-plane/internal/application/application.go:149-172 | in every run of operations a thread that asks for a gate holds exactly the gates before it in its plan |
| `LockOrder.NoStuckState` | services/control-plane/internal/application/application.go:149-172 | with ordered acquisition some unfinished thread can always step, new requests aside |
| `LockOrder.DeadlockFreedom` | services/control-plane/internal/application/application.go:149-172 | in every reachable state of any number of concurrent operations, as long as one is unfinished, some operation has a step that is no new request; the lock order is derived from the plans |
| `LockOrder.OperationsEnd` | services/control-plane/internal/application/application.go:149-172 | from every reachable state the begun operations can make only boundedly many steps, however they interleave, and when they can make none all of them have ended |
| `OperationExclusion.PlanCovers` | services/control-plane/internal/application/application.go:128-147 | an operation takes the gates of exactly the devices, secrets and workspaces it touches; different resources never share a gate |
| `OperationExclusion.ConflictsExclude` | services/control-plane/internal/application/application.go:149-172 | in every reachable state two operations at work that touch a common device, secret or workspace are one and the same |
| `Revocation.SoleOwner` | services/control-plane/internal/application/passkeys.go:182-233 | two jobs that own one device's gate are one job |
| `Revocation.RevocationSparesValidated` | services/control-plane/internal/application/previews_settings.go:116-137 | nobody revokes a device between another job's validation and issuance |
| `Revocation.SystemStepInv` | services/control-plane/internal/application/passkeys.go:147-233 | every step of refresh, session revoke, device revoke and issuance keeps the invariant |
| `Revocation.RevokedGrantIsGuarded` | services/control-plane/internal/application/passkeys.go:217-233 | a live credential of a revoked family exists only while its device's gate is held |
| `Revocation.NoAuthorityAfterRevocation` | services/control-plane/internal/application/passkeys.go:147-233 | whenever a device's gate is free, no live credential of it was minted by a family since revoked, in any interleaving; no enabled push registration belongs to a revoked device |
| `RevocationFinality.RevocationTakesHold` | services/control-plane/internal/application/passkeys.go:182-233 | in every run, a family that a session revocation, a device revocation or the replay of a spent refresh token condemns is revoked in every later state |
| `RevocationFinality.RevokedIff` | services/control-plane/internal/application/passkeys.go:147-233 | a family is revoked if and only if it began so or was condemned on the way, so nobody else's family is |
| `RevocationFinality.RevokedFamilyIsUseless` | services/control-plane/internal/application/passkeys.go:147-233 | from then on no job of that family passes validation, rotates its token or issues anything |
| `RevocationFinality.ReplayRevokes` | services/control-plane/internal/application/passkeys.go:147-180 | whoever rotates one refresh token a second time revokes its family |
| `RevocationFinality.FinishedRevocation` | services/control-plane/internal/application/passkeys.go:182-233 | a session or device revocation that ends without failing leaves its family or device revoked, in every later state |
| `RevocationFinality.SweepsLeaveNothing` | services/control-plane/internal/application/passkeys.go:188-199 | when a job has swept, its device has no live credential of any family |
| `RevocationFinality.LivesUntilSwept` | services/control-plane/internal/application/passkeys.go:188-199 | a credential ends only by expiry or by a sweep of its own device: revoking one device spares the others |
| `RevocationFinality.RevokedDeviceStaysDead` | services/control-plane/internal/application/passkeys.go:217-233 | a revoked device that was swept never again has a live credential or a push registration |
| `RevocationFinality.PushLostOnlyByRevocation` | services/control-plane/internal/application/passkeys.go:217-233 | a push registration ends exactly by the revocation of its own device |
| `RevocationFinality.IssuanceCanSucceed` | services/control-plane/internal/application/previews_settings.go:114-137 | an admitted job of an active family can go on to its credential or registration, which is then live beside all others |
| `RevocationFinality.RotationCanSucceed` | services/control-plane/internal/application/passkeys.go:147-180 | an unspent token of a family that is not revoked buys a fresh unspent one, and nothing else changes |
| `RevocationProgress.JobFollowsPlan` | services/control-plane/internal/application/passkeys.go:147-233 | what the program of an issuing or revoking job requests is the next gate of its operation's plan |
| `RevocationProgress.StepKeepsWorld` | services/control-plane/internal/application/previews_settings.go:103-137 | every step of jobs and other operations keeps safety, lock order and plans together |
| `RevocationProgress.JobsNeverDeadlock` | services/control-plane/internal/application/passkeys.go:147-233 | in every run of jobs among other operations, as long as one is unfinished, some begun job or operation can go on |
| `RevocationProgress.JobsEnd` | services/control-plane/internal/application/passkeys.go:147-233 | and the begun jobs and operations can make only boundedly many steps, after which all of them have ended |
| `FrameCodec.Encode` | apps/ios/Sources/Terminal/TerminalProtocol.swift:87-104 | the buffer built field by field is the specified encoding, or the error of validation |
| `FrameCodec.Decode` | apps/ios/Sources/Terminal/TerminalProtocol.swift:106-146 | reading with an advancing offset yields the specified frame or the first error |
| `FrameCodec.ReadBigEndian` | apps/ios/Sources/Terminal/TerminalProtocol.swift:216-231 | the reader returns the big-endian value of its slice and the offset behind it |
| `FrameCodec.DecodeEncode` | apps/ios/Sources/Terminal/TerminalProtocol.swift:87-197 | decoding inverts encoding for every frame the encoder accepts |
| `FrameCodec.EncodeDecode` | apps/ios/Sources/Terminal/TerminalProtocol.swift:87-197 | encoding inverts decoding for every byte string the decoder accepts |
| `FrameCodec.DecoderAcceptsExactlyEncodings` | apps/ios/Sources/Terminal/TerminalProtocol.swift:106-197 | the decoder accepts exactly the encoder's outputs, and no bytes encode two frames |
| `GatewayProtocol.MarshalBinary` | services/control-plane/internal/terminal/protocol.go:46-77 | the server's buffer, written field by field at its offsets, is the specified encoding, or nothing |
| `GatewayProtocol.ParseFrame` | services/control-plane/internal/terminal/protocol.go:79-114 | the server's parser yields the specified frame or nothing |
| `GatewayProtocol.ServerParsesClient` | services/control-plane/internal/terminal/protocol.go:79-114 | whatever the client encodes the server parses, as the same frame of the same kind |
| `GatewayProtocol.ClientReadsServerIff` | services/control-plane/internal/terminal/protocol.go:46-77 | of the frames the server encodes the client reads exactly those with short pings and proper texts, as the same frame; the others it refuses for their payload |
| `GatewayProtocol.EveryFrameHasAName` | services/control-plane/internal/terminal/protocol.go:21-36 | every frame of the server is exactly one of the client's, kind by kind |
| `GatewayProtocol.ParseMarshalIff` | services/control-plane/internal/terminal/protocol.go:79-114 | the server parses what it encodes, except pings of more than 64 bytes |
| `GatewayProtocol.BigEndianAt` | apps/ios/Sources/Terminal/TerminalProtocol.swift:216-231 | integers are written most significant byte first |
| `GatewayProtocol.BitOfAnd` | services/control-plane/internal/terminal/protocol.go:116-130 | a flag test looks at exactly the common bits |
| `WebSocketClient.TerminalWebSocketClient.Connect` | apps/ios/Sources/Terminal/TerminalWebSocketClient.swift:33-64 | the old stream is finished and all fields name the new connection |
| `WebSocketClient.TerminalWebSocketClient.Disconnect` | apps/ios/Sources/Terminal/TerminalWebSocketClient.swift:72-78 | clears the connection and returns the stream to finish |
| `WebSocketClient.TerminalWebSocketClient.DisconnectOwner` | apps/ios/Sources/Terminal/TerminalWebSocketClient.swift:80-86 | acts only for the current owner |
| `WebSocketClient.TerminalWebSocketClient.DisconnectIfCurrent` | apps/ios/Sources/Terminal/TerminalWebSocketClient.swift:88-94 | acts only for the current socket |
| `WebSocketClient.TerminalWebSocketClient.Deliver` | apps/ios/Sources/Terminal/TerminalWebSocketClient.swift:96-120 | a message of a stale socket goes nowhere; one of the current socket goes to its stream or, undecodable, ends it |
| `WebSocketClient.TerminalWebSocketClient.FailReceive` | apps/ios/Sources/Terminal/TerminalWebSocketClient.swift:112-119 | a failed receive tears down its own connection only |
| `WebSocketClient.NoCrossTalk` | apps/ios/Sources/Terminal/TerminalWebSocketClient.swift:33-120 | over all interleavings a delivered frame came from its stream's own socket, `task`, owner and continuation are all set or all nil, and the actor has finished a stream exactly when its socket is not current |
| `WebSocketClient.StaleIsHarmless` | apps/ios/Sources/Terminal/TerminalWebSocketClient.swift:80-120 | a stale owner, callback or socket changes and delivers nothing |
| `WebSocketClient.EndsIff` | apps/ios/Sources/Terminal/TerminalWebSocketClient.swift:33-120 | a step ends the current connection if and only if it is a new connection, a plain disconnect, its own owner's disconnect, its own stream's termination, or its own failed or undecodable receive; any other step leaves the actor and the finished streams unchanged |
| `WebSocketClient.LastsIff` | apps/ios/Sources/Terminal/TerminalWebSocketClient.swift:33-120 | over every run, a current connection is still current later if and only if no such step came in between, whatever stale owners, callbacks and sockets did |
| `WebSocketClient.CancelledForGood` | apps/ios/Sources/Terminal/TerminalWebSocketClient.swift:55-64 | a stream whose consumer gave it up gets no further frame |
| `WebSocketClient.ReplacedForGood` | apps/ios/Sources/Terminal/TerminalWebSocketClient.swift:33-120 | a replaced socket never becomes current again and delivers nothing more |
| `WebSocketDelivery.ConnectedIsCurrent` | apps/ios/Sources/Terminal/TerminalWebSocketClient.swift:33-64 | a new connection is current at once, with its own owner, limit and open stream |
| `WebSocketDelivery.CurrentIff` | apps/ios/Sources/Terminal/TerminalWebSocketClient.swift:33-120 | over every run a socket is current if and only if it was connected and nothing has ended its connection since |
| `WebSocketDelivery.DeliversIff` | apps/ios/Sources/Terminal/TerminalWebSocketClient.swift:96-111 | every event delivers exactly the frame it brings on a connection that is up, to that connection's stream, in order; all others deliver nothing |
| `WebSocketDelivery.LoopLives` | apps/ios/Sources/Terminal/TerminalWebSocketClient.swift:96-111 | the receive loop of a current connection is never over |
| `WebSocketDelivery.NextFrameArrives` | apps/ios/Sources/Terminal/TerminalWebSocketClient.swift:96-111 | so the next frame of a current connection can always be received |
| `OutputSanitizer.Sanitizer.Process` | apps/ios/Sources/Terminal/TerminalOutputSanitizer.swift:9-42 | one call emits and keeps what the specification of a chunk says, overflow branch included |
| `OutputSanitizer.Sanitizer.Reset` | apps/ios/Sources/Terminal/TerminalOutputSanitizer.swift:44-46 | nothing stays pending |
| `OutputSanitizer.NextOscStart` | apps/ios/Sources/Terminal/TerminalOutputSanitizer.swift:48-62 | the loop finds the first introducer, a trailing escape included |
| `OutputSanitizer.OscTerminator` | apps/ios/Sources/Terminal/TerminalOutputSanitizer.swift:64-80 | the loop finds the first terminator |
| `OutputSanitizer.ScanSplit` | apps/ios/Sources/Terminal/TerminalOutputSanitizer.swift:9-42 | scanning a stream in two parts equals scanning it whole |
| `OutputSanitizer.ChunkIndependence` | apps/ios/Sources/Terminal/TerminalOutputSanitizer.swift:9-42 | any split into chunks without overflow gives the output and the pending bytes of one call |
| `OutputSanitizer.SplitsAgree` | apps/ios/Sources/Terminal/TerminalOutputSanitizer.swift:9-42 | two such splits of one stream agree |
| `OutputSanitizer.OverflowDiffers` | apps/ios/Sources/Terminal/TerminalOutputSanitizer.swift:21-30 | after every overflowing chunk a one-byte continuation shows a difference |
| `OutputSanitizer.OverflowingChunk` | apps/ios/Sources/Terminal/TerminalOutputSanitizer.swift:21-30 | a concrete chunk that overflows and after which splitting shows |
| `OutputSanitizer.SplitHarmlessIffNoOverflow` | apps/ios/Sources/Terminal/TerminalOutputSanitizer.swift:9-42 | splitting after a chunk is harmless for every continuation exactly when it does not overflow |
| `OutputSanitizer.FilterMeaning` | apps/ios/Sources/Terminal/TerminalOutputSanitizer.swift:9-84 | the output is the text and the complete, in-limit, non-clipboard commands of the stream's reading, in order; kept bytes are the open command; every byte is accounted for |
| `TerminalCommands.CommandFiltered` | apps/ios/Sources/Terminal/TerminalOutputSanitizer.swift:9-84 | with either introducer and any of the three terminators, a command behind plain text passes byte for byte, unless its content begins with `52;` or exceeds 8192 bytes: then nothing of it passes |
| `TerminalCommands.ClipboardDropped` | apps/ios/Sources/Terminal/TerminalOutputSanitizer.swift:82-84 | the literal sequence ESC ] 52 ; ... BEL never reaches the screen |
| `TerminalCommands.PlainPasses` | apps/ios/Sources/Terminal/TerminalOutputSanitizer.swift:9-42 | text in which no command begins passes unchanged |
| `OutputSanitizer.LexesUnique` | apps/ios/Sources/Terminal/TerminalOutputSanitizer.swift:48-84 | a stream has at most one reading |
| `OutputSanitizer.LexingExists` | apps/ios/Sources/Terminal/TerminalOutputSanitizer.swift:48-84 | every stream has a reading |
| `TerminalSession.SessionModel.HandleOutput` | apps/ios/Sources/Terminal/TerminalSessionModel.swift:313-328 | the next number, and only that, is accepted and moves the session on by one; every frame at or below the reached number is acknowledged with its own number; with the whole new state |
| `TerminalSession.SessionModel.HandleReplayGap` | apps/ios/Sources/Terminal/TerminalSessionModel.swift:329-347 | a declared gap restarts screen, filter and numbering |
| `TerminalSession.SessionModel.RestoreCachedHistory` | apps/ios/Sources/Terminal/TerminalSessionModel.swift:132-148 | restored output is shown and its number adopted without touching the filter |
| `TerminalSession.CoherentRun` | apps/ios/Sources/Terminal/TerminalSessionModel.swift:307-347 | after every run the screen is the restored text and the filtering of the payloads applied since |
| `TerminalSession.PayloadsAreConsecutive` | apps/ios/Sources/Terminal/TerminalSessionModel.swift:313-328 | the payloads applied since the last restart are those of consecutive numbers, each once |
| `TerminalSession.ScreenShowsStream` | apps/ios/Sources/Terminal/TerminalSessionModel.swift:307-347 | despite loss, repeats, reordering and reconnects the screen is one filtering of the server's consecutive payloads up to the acknowledged number, and no acknowledgement exceeds it |
| `TerminalSession.ArrivalDoesNotMatter` | apps/ios/Sources/Terminal/TerminalSessionModel.swift:307-347 | two sessions at the same number of the same stretch show the same screen |
| `TerminalSession.OnlyRestoreIsUnclean` | apps/ios/Sources/Terminal/TerminalSessionModel.swift:132-148 | without restored history every stretch starts with an empty filter |
| `TerminalSession.GoesOnIff` | apps/ios/Sources/Terminal/TerminalSessionModel.swift:132-148 | a restored screen goes on as the filtering of everything before it, whatever follows, if and only if it shows what that emitted and the filter holds what that left |
| `TerminalSession.RestoredScreenIsWhole` | apps/ios/Sources/Terminal/TerminalSessionModel.swift:132-148 | then the whole screen, restored part included, is one filtering of the stream from its first payload |
| `TerminalProgress.AcknowledgesAllInOrder` | apps/ios/Sources/Terminal/TerminalSessionModel.swift:313-347 | after any run the last acknowledged number is the greatest n such that the numbers after the base, up to n, have arrived in this order since the last restart |
| `TerminalProgress.ReachedFrom` | apps/ios/Sources/Terminal/TerminalSessionModel.swift:313-328 | the same from any point of a run on, until the next restart |
| `TerminalProgress.InOrderIsAccepted` | apps/ios/Sources/Terminal/TerminalSessionModel.swift:313-328 | the server's frames in order are all accepted, from wherever the session is |
| `TerminalProgress.AcknowledgedIff` | apps/ios/Sources/Terminal/TerminalSessionModel.swift:314-328 | a frame is acknowledged, with its own number, if and only if that number is reached by it or before it |
| `ComposerDelivery.InputReceipts.Remember` | apps/ios/Sources/Terminal/TerminalSessionModel.swift:484-490 | a receipt is appended once and the oldest beyond 64 is dropped, set and order in step |
| `ComposerDelivery.InputReceipts.Consume` | apps/ios/Sources/Terminal/TerminalSessionModel.swift:492-496 | reports and removes exactly the asked receipt |
| `ComposerDelivery.ReturnMeansKeyApplied` | apps/ios/Sources/Terminal/TerminalSessionModel.swift:169-235 | with no condition at all, a call that returns had its key applied, for its own frame or another with that key, and no frame is applied twice |
| `ComposerDelivery.DeliversOnceIff` | apps/ios/Sources/Terminal/TerminalSessionModel.swift:423-464 | a drawn frame is applied exactly once whenever its call returns, in every continuation, if and only if no other frame with its key was sent or is being delivered at the draw |
| `ComposerDelivery.DeliversItselfIff` | apps/ios/Sources/Terminal/TerminalSessionModel.swift:423-464 | per delivery: whenever the call of a draw returns, its frame was applied exactly once, after it was sent by a call begun with the draw or later, in every continuation, if and only if no frame with that key, equal or not, was sent or is being delivered at the draw |
| `ComposerDelivery.ExactlyOnce` | apps/ios/Sources/Terminal/TerminalSessionModel.swift:423-464 | in every run whose draws meet that condition, under any failed sends and reconnects, a returned call's frame was applied exactly once and every attempt sent that frame |
| `ComposerDelivery.FreshKeysExactlyOnce` | apps/ios/Sources/Terminal/TerminalSessionModel.swift:423-429 | so it is if no key is drawn twice |
| `ComposerDelivery.ReceiptsBounded` | apps/ios/Sources/Terminal/TerminalSessionModel.swift:484-496 | in every run receipts stay distinct and at most 64 |
| `ComposerDelivery.RepeatedKeyCanLie` | apps/ios/Sources/Terminal/TerminalSessionModel.swift:423-464 | a run in which a repeated key makes a call return although its frame was never applied |
| `ComposerRetry.ReturnedIsOver` | apps/ios/Sources/Terminal/TerminalSessionModel.swift:178-234 | in every run of draws with unused keys, once a call has returned its frame is never drawn or resumed again |
| `ComposerRetry.NothingSwallowed` | apps/ios/Sources/Terminal/TerminalSessionModel.swift:169-235 | a call that begins after another has returned, drawn or resumed, delivers another frame, and both are applied exactly once |
| `ComposerRetry.ResumedCallDelivers` | apps/ios/Sources/Terminal/TerminalSessionModel.swift:178-185 | per resumed call: its frame was drawn for its own text, no call had delivered it before, and when the call returns it is applied exactly once |
| `ComposerRetry.FreshKeysAreUnused` | apps/ios/Sources/Terminal/TerminalSessionModel.swift:423-429 | keys never drawn before meet the condition of these statements |
| `ComposerRetry.DraftLastsIff` | apps/ios/Sources/Terminal/TerminalSessionModel.swift:226-234 | until the next draw a draft stays on offer if and only if no call for its key has returned |
| `ComposerRetry.GivenUpCanBeResumed` | apps/ios/Sources/Terminal/TerminalSessionModel.swift:178-185 | so a message that was given up can be resumed by any idle call, with its own frame |
| `ComposerRetry.ResumeRepeatsText` | apps/ios/Sources/Terminal/TerminalSessionModel.swift:178-185 | a resumed call delivers a frame drawn for the same text and attachments |
| `ComposerRetry.ReturnAnswersDraw` | apps/ios/Sources/Terminal/TerminalSessionModel.swift:423-464 | with no condition, a drawn call returns only on a receipt that arrived after the draw |
| `ComposerRetry.CallCanReturn` | apps/ios/Sources/Terminal/TerminalSessionModel.swift:431-464 | a delivering call can always be brought to return with its frame applied exactly once |
| `ComposerRetry.OnlyOldestForgotten` | apps/ios/Sources/Terminal/TerminalSessionModel.swift:484-490 | a new receipt costs at most the oldest of 64 |
| `OfflineCache.SortBySequence` | apps/ios/Sources/Security/EncryptedOfflineCache.swift:204-213 | the same frames in order of number |
| `OfflineCache.AddFrames` | apps/ios/Sources/Security/EncryptedOfflineCache.swift:203-212 | the loop keeps every stored frame, adds one acceptable frame per new acceptable number and computes the largest number offered |
| `OfflineCache.TrimTerminalFrames` | apps/ios/Sources/Security/EncryptedOfflineCache.swift:366-373 | the loop computes the specified trim |
| `OfflineCache.TrimIsLongestSuffix` | apps/ios/Sources/Security/EncryptedOfflineCache.swift:366-373 | that trim is the longest suffix within 256 frames and 512 KiB |
| `OfflineCache.TrimMembers` | apps/ios/Sources/Security/EncryptedOfflineCache.swift:366-373 | a frame survives exactly when it and everything newer fit |
| `OfflineCache.AppendToHistory` | apps/ios/Sources/Security/EncryptedOfflineCache.swift:196-215 | merged is stored plus new acceptable frames, kept is its trim, `lastSequence` the maximum |
| `OfflineCache.SeriesGood` | apps/ios/Sources/Security/EncryptedOfflineCache.swift:188-219 | after any series of appends frames strictly increase, are nonempty, at most 128 KiB and within both limits |
| `OfflineCache.LastSequenceIsMaximum` | apps/ios/Sources/Security/EncryptedOfflineCache.swift:204-205 | `lastSequence` is the largest number ever offered, in any order |
| `OfflineCache.HistoryCoversTail` | apps/ios/Sources/Security/EncryptedOfflineCache.swift:188-219 | however batched, ordered and repeated, the history holds at least the longest tail of everything offered and only offered frames |
| `OfflineCache.AppendIsTailIff` | apps/ios/Sources/Security/EncryptedOfflineCache.swift:188-219 | one append keeps the tail of everything offered if and only if no offered frame lies below a frame that is gone and would fit, read off before the trim |
| `OfflineCache.AlwaysTailIff` | apps/ios/Sources/Security/EncryptedOfflineCache.swift:188-219 | trimming at every append is trimming everything once, all along a series, if and only if no append leaves such a gap |
| `OfflineCache.TailIffGapless` | apps/ios/Sources/Security/EncryptedOfflineCache.swift:366-373 | a stored history is the tail if and only if nothing offered is missing above its oldest frame |
| `OfflineCache.InOrderHistoryIsTail` | apps/ios/Sources/Security/EncryptedOfflineCache.swift:188-219 | with batches in order, repeats included, trimming each time is trimming everything once |
| `OfflineCache.OutOfOrderLeavesGap` | apps/ios/Sources/Security/EncryptedOfflineCache.swift:366-373 | a series in which a late small frame stays below a trimmed one |
| `OfflineCache.OldestKey` | apps/ios/Sources/Security/EncryptedOfflineCache.swift:342-344 | a key of least date, whatever the iteration order |
| `OfflineCache.TrimRecords` | apps/ios/Sources/Security/EncryptedOfflineCache.swift:324-339 | the twelve newest records stay and none dropped is newer than one kept |
| `OfflineCache.RemoveOldestRecord` | apps/ios/Sources/Security/EncryptedOfflineCache.swift:341-356 | removes one oldest record over all kinds, files before diffs before terminals among equals |
| `OfflineCache.EvictToFit` | apps/ios/Sources/Security/EncryptedOfflineCache.swift:296-306 | for any size function the loop ends, at the first state that fits or with nothing left |
| `OfflineCache.EvictsOldestFirst` | apps/ios/Sources/Security/EncryptedOfflineCache.swift:296-306 | every record removed is no newer than every record kept, across all kinds |
| `OfflineCache.EvictionOnlyRemoves` | apps/ios/Sources/Security/EncryptedOfflineCache.swift:296-306 | the dashboard stays and what is kept is what was not removed, unchanged in date |
| `OfflineCache.EvictsEachOnce` | apps/ios/Sources/Security/EncryptedOfflineCache.swift:341-356 | no record is removed twice |
| `OfflineCache.KeyCollidesIff` | apps/ios/Sources/Security/EncryptedOfflineCache.swift:358-364 | a terminal key is shared by another tab exactly when one of its parts contains the separator |
| `OfflineCache.EncryptedOfflineCache.Persist` | apps/ios/Sources/Security/EncryptedOfflineCache.swift:296-322 | stores the first state that fits; fails as too large exactly when even the bare state is; a failure leaves the loaded state |
| `OfflineCache.EncryptedOfflineCache.AppendTerminalFrames` | apps/ios/Sources/Security/EncryptedOfflineCache.swift:188-219 | a successful call leaves what trimming and evicting make of the old state with the appended history under its key; a failing one changes nothing, and fails as too large only if the bare dashboard is |
| `OfflineCache.EncryptedOfflineCache.ResetTerminalHistory` | apps/ios/Sources/Security/EncryptedOfflineCache.swift:239-245 | a successful call leaves what evicting makes of the old state without that one history; an unknown history or a failure changes nothing |
| `OfflineSaves.SavedWithRoom` | apps/ios/Sources/Security/EncryptedOfflineCache.swift:188-219 | whenever nothing has to be dropped, an append stores the history and changes nothing else |
| `OfflineSaves.FreshHistoryIsSaved` | apps/ios/Sources/Security/EncryptedOfflineCache.swift:296-356 | a history newer than every other record is stored if it fits on its own beside the dashboard |
| `OfflineSaves.SavedUnlessOld` | apps/ios/Sources/Security/EncryptedOfflineCache.swift:296-356 | what is kept is unchanged, and the history is missing only if every kept terminal is dated no earlier |
| `OfflineSaves.PersistedWithRoom` | apps/ios/Sources/Security/EncryptedOfflineCache.swift:296-322 | a reset that leaves the state small enough removes nothing else |
| `AuditPolicy.MatchKeyInjective` | scripts/infra_image_audit.py:356-425 | equal match keys mean equal findings, over both schemas |
| `AuditPolicy.ForbiddenIff` | scripts/infra_image_audit.py:1454-1455 | a category is forbidden if and only if it is that word in any letter case, perhaps with space around it |
| `AuditPolicy.ParseInvertsDocument` | scripts/infra_image_audit.py:816-904 | the parser accepts exactly the documents that expressible findings are written as, and inverts the writer |
| `AuditPolicy.PolicyCountMap` | scripts/infra_image_audit.py:907-943 | accepts exactly bounded, positive, allowed counts and returns them sorted |
| `AuditPolicy.LoadDispositions` | scripts/infra_image_audit.py:1052-1084 | accepts exactly lists of valid records without a repeated id or match document |
| `AuditPolicy.LoadBaselines` | scripts/infra_image_audit.py:1096-1199 | accepts exactly valid baselines with new ids and distinct images |
| `AuditPolicy.LoadPolicy` | scripts/infra_image_audit.py:946-1206 | loads exactly the acceptable documents (schema, field inventories, policy id, records, uniqueness), and every loaded policy is well-formed |
| `ImageAudit.SummaryPermutes` | scripts/infra_image_audit.py:1443-1487 | an inventory's summary or error does not depend on its order |
| `ImageAudit.SummaryDetermines` | scripts/infra_image_audit.py:1443-1487 | with an injective digest, equal summaries mean equal license multisets |
| `ImageAudit.AssignDispositions` | scripts/infra_image_audit.py:1565-1574 | the loop spends each disposition on the first matching finding |
| `ImageAudit.AssignCounts` | scripts/infra_image_audit.py:1565-1574 | of equal findings exactly one gets the disposition, whatever the order |
| `ImageAudit.CollectRemaining` | scripts/infra_image_audit.py:1589-1598 | groups by image exactly the undecided non-forbidden licenses |
| `ImageAudit.ReviewLicenses` | scripts/infra_image_audit.py:1586-1637 | the baseline stage yields the specified decisions or first error |
| `ImageAudit.EvaluateDispositions` | scripts/infra_image_audit.py:1553-1638 | the whole evaluation yields the specified outcome |
| `ImageAudit.OutcomePermutes` | scripts/infra_image_audit.py:1553-1638 | a permutation of the findings gets the same error or the same decisions |
| `ImageAudit.AuditPermutes` | scripts/infra_image_audit.py:1553-1668 | verdict, error and published summary do not depend on the order of the findings |
| `ImageAudit.AcceptedIff` | scripts/infra_image_audit.py:1553-1649 | an audit passes exactly when the findings are every exact match once plus, image by image, the reviewed inventories |
| `ImageAudit.AcceptedExactly` | scripts/infra_image_audit.py:1553-1649 | without baselines only a permutation of the exact matches passes |
| `ImageAudit.AcceptedFinding` | scripts/infra_image_audit.py:826-851 | nothing accepted has another kind (such as "modified"), severity or image; a forbidden license passes only by its own disposition |
| `ImageAudit.AcceptedInventory` | scripts/infra_image_audit.py:1605-1632 | what passes as a reviewed inventory has the reviewed license multiset |
| `ImageAudit.DispositionCoversOne` | scripts/infra_image_audit.py:1565-1584 | in an accepted audit every disposition covers exactly one finding, the one it names |
| `ImageAudit.OtherDecisionsAreBaselines` | scripts/infra_image_audit.py:1605-1637 | every other accepted finding is a non-forbidden license under the baseline of its image |
| `ImageAudit.SummariesAddUp` | scripts/infra_image_audit.py:1652-1668 | summaries per image add up to the summary of the whole |
| `ImageAudit.AcceptedSummariesAddUp` | scripts/infra_image_audit.py:2841-2847 | after acceptance the three published image summaries add up, with nothing undispositioned |
| `AuditReports.CheckIff` | scripts/infra_image_audit.py:1462-1487 | a baseline accepts an inventory if and only if that is nonempty, bounded and of one image, and the baseline gives its number, its digest and how often each category and severity occurs |
| `AuditReports.SummaryCounts` | scripts/infra_image_audit.py:1652-1668 | the summary counts all decisions, those with an identifier, the others and each kind, and lists exactly the identifiers |
| `AuditReports.EnforceIff` | scripts/infra_image_audit.py:1641-1649 | enforcement passes if and only if every finding has an identifier, and otherwise says how many have none |
| `AuditReview.ReviewedInventoryPasses` | scripts/infra_image_audit.py:1490-1552 | for every bounded inventory of one image without forbidden licenses, the policy that gives its own numbers, signed for at most 90 days, is loaded, and under it the audit of that inventory passes |
| `AuditReview.CanBeWritten` | scripts/infra_image_audit.py:1462-1487 | such a record exists for every inventory: its values can always be tallied |
| `VolumeGate.SameVolumeIff` | infra/systemd/owner-pc-workspace-volume-gate.py:136-155 | two leases name one volume exactly when their identifiers share the first 24 digits |
| `VolumeGate.ReadQuotaOptions` | infra/systemd/owner-pc-workspace-volume-gate.py:327-393 | the loops over options and mount tokens compute the specified quota or reject |
| `VolumeOptions.AcceptedIff` | infra/systemd/owner-pc-workspace-volume-gate.py:340-393 | options are accepted, with this result, if and only if options and tokens naming a quota are spelled as the gate allows, valid and unique, none is named both ways, and engine mirrors stand alone and repeat the tokens; the result holds exactly what they say |
| `VolumeOptions.EngineFormAccepted` | infra/systemd/owner-pc-workspace-volume-gate.py:355-393 | the engine's upper-case mirror beside the mount option is accepted for every size |
| `VolumeOptions.EngineRecordMatches` | infra/systemd/owner-pc-workspace-volume-gate.py:1130-1167 | for every lease and every allowed size, the record the engine reports passes inspection |
| `VolumeOptions.IsSizeIff` | infra/systemd/owner-pc-workspace-volume-gate.py:71-72 | sizes are the numbers without leading zero, perhaps with one of the units |
| `VolumeOptions.SizeOkIff` | infra/systemd/owner-pc-workspace-volume-gate.py:1130-1167 | a workspace's size is 8 to 16 whole gibibytes in plain digits, and nothing else |
| `VolumeOptions.SplitJoins` | infra/systemd/owner-pc-workspace-volume-gate.py:371-374 | the mount tokens are the pieces between the commas |
| `VolumeGate.DeclarationsAgree` | infra/systemd/owner-pc-workspace-volume-gate.py:340-393 | every option or token that names a quota in any letter case agrees with the result, so none is hidden |
| `VolumeGate.CollectQuotas` | infra/systemd/owner-pc-workspace-volume-gate.py:1067-1099 | accepts exactly sound records with distinct names and returns those with quotas |
| `VolumeGate.FinishState` | infra/systemd/owner-pc-workspace-volume-gate.py:1191-1271 | passes exactly when the host's project volumes agree with lease and Podman |
| `VolumeGate.InspectLocked` | infra/systemd/owner-pc-workspace-volume-gate.py:1054-1189 | passes exactly in consistent states and reports idle, claimed or active |
| `VolumeGate.VerifiedAgreement` | infra/systemd/owner-pc-workspace-volume-gate.py:775-782 | a passing verification means lease, Podman and XFS name one volume with the declared limits, or none at all |
| `VolumeGate.Gate.Claim` | infra/systemd/owner-pc-workspace-volume-gate.py:727-744 | takes the lease exactly in a consistent state in which it is free or the caller's; succeeds exactly if the second reading of Podman is consistent too, and says what a failure there leaves |
| `VolumeGate.Gate.Release` | infra/systemd/owner-pc-workspace-volume-gate.py:746-767 | gives the lease up exactly for its holder with no quota volume left, and says what a failing second reading leaves |
| `VolumeGate.StepInv` | infra/systemd/owner-pc-workspace-volume-gate.py:727-767 | both halves of claim and release, and any volume creation and deletion by the holder of a claim in between, keep the invariant |
| `VolumeGate.GateSafety` | infra/systemd/owner-pc-workspace-volume-gate.py:727-767 | in every run two workspaces never both hold a claim, and at most one workspace or quota volume exists, only under the lease that names it, whatever options and labels its creator gave it |
| `VolumeGate.StatusIsExact` | infra/systemd/owner-pc-workspace-volume-gate.py:1054-1189 | in every reachable state inspection passes exactly when the workspace volume, if any, matches its lease, and then the reported state is exact |
| `VolumeGate.SecondReadingPasses` | infra/systemd/owner-pc-workspace-volume-gate.py:740-767 | in every run the second reading of a claim or release passes, so neither fails after it has changed the lease |
| `VolumeGate.LeaseEndsByRelease` | infra/systemd/owner-pc-workspace-volume-gate.py:746-767 | a lease ends only by its holder's release, and only when no workspace volume is left |
| `VolumeGate.HolderCanCreate` | infra/systemd/owner-pc-workspace-volume-gate.py:1130-1167 | every lease has a volume that passes inspection |
| `VolumeLifeCycle.LifeCycle` | infra/systemd/owner-pc-workspace-volume-gate.py:727-767 | from every reachable idle state any workspace can claim, create a volume of any allowed size as the engine reports it, have it reported active, delete it and release, which restores that state |
| `VolumeLifeCycle.FreeGateGrants` | infra/systemd/owner-pc-workspace-volume-gate.py:727-744 | a free gate grants its lease to whoever claims it, whatever other volumes there are |
| `VolumeLifeCycle.ActiveHolder` | infra/systemd/owner-pc-workspace-volume-gate.py:727-767 | with its volume in place the holder can claim again and cannot release |
| `Admission.Controller.New` | services/control-plane/internal/admission/controller.go:74-89 | makes a controller for exactly the acceptable capacities |
| `Admission.Controller.PlanStart` | services/control-plane/internal/admission/controller.go:91-114 | the specified decision; admission leaves the reserve and one volume free and its quota fits |
| `Admission.Controller.Shares` | services/control-plane/internal/admission/controller.go:122-138 | equal quotas above the minimum whose sum and the reserve fit, leaving less than one unit per workspace; both errors exactly |
| `Admission.SharesFit` | services/control-plane/internal/admission/controller.go:140-147 | n shares plus the reserve never exceed the total and leave less than n units of each resource |
| `Admission.SharesShrink` | services/control-plane/internal/admission/controller.go:140-147 | fewer workspaces get no smaller shares |
| `Admission.AdmissionMonotone` | services/control-plane/internal/admission/controller.go:91-114 | admission survives fewer running or pending and more free disk, with no smaller quota |
| `Admission.AdmittedIff` | services/control-plane/internal/admission/controller.go:91-114 | a start is admitted if and only if the host does not drain, the limit is not reached, one more workspace of the minimum size fits beside the reserve, and the disk is free; otherwise the reason is the first that applies |
| `Admission.AdmittedShare` | services/control-plane/internal/admission/controller.go:91-147 | an admitted quota is at least the minimum and with equal ones for all leaves less than one unit per workspace |
| `Admission.PressureBounds` | services/control-plane/internal/admission/controller.go:165-165 | pressure lies between 0 and 1 and is the running workspaces' part of the limit |
| `Admission.FirstIsAdmitted` | services/control-plane/internal/admission/controller.go:84-114 | an accepted capacity always admits a first workspace |
| `Admission.SoleWorkspaceKeepsReserve` | services/control-plane/internal/workspace/service.go:570-608 | with a limit of one running workspace, over every run of starts, resumes, suspensions, writes, erasures, settlements and deletions, at most one volume is live and free disk, even less all it may still write, stays at or above the reserve, with no condition on the pending figure |
| `Admission.OwnerPcKeepsReserve` | services/control-plane/internal/admission/controller.go:43-56 | so the owner-PC profile always keeps its 24 GiB |
| `Admission.LiveIsBounded` | services/control-plane/internal/postgres/workspace.go:417-420 | in every run no more workspaces are live than the limit allows |
| `Admission.ReserveSurvives` | services/control-plane/internal/admission/controller.go:106-112 | with any limit, free disk never falls below the reserve over every such run, if at each start or resume the pending figure covers what live volumes may still write |
| `Admission.ResilientIff` | services/control-plane/internal/admission/controller.go:106-112 | all later writes of the live volumes leave the reserve if and only if writing everything would |
| `Admission.AdmissionsAreSafeIff` | services/control-plane/internal/postgres/workspace.go:406-431 | starts and resumes beside given volumes, in snapshots that count every live one as running, are safe against all later writes if and only if the host is full or the pending figure covers what live volumes may still write |
| `Admission.PendingUntilWritten` | services/control-plane/internal/postgres/workspace.go:414-424 | it does in every run in which a volume counts as pending until it is written in full |
| `Admission.EarlySettlementBreaksReserve` | services/control-plane/internal/admission/controller.go:33-41 | a run of the reference capacity in which a second workspace is admitted beside a running, settled, unwritten one and the reserve is broken |
| `WireKeys.CodexPropertyName` | apps/ios/Sources/Networking/Coding.swift:67-107 | the loop computes the specified property name |
| `WireKeys.CodexWireKey` | apps/ios/Sources/Networking/Coding.swift:109-131 | the replacement and word loops compute the specified wire key |
| `WireKeys.SnakeCaseWords` | apps/ios/Sources/Networking/Coding.swift:133-146 | the accumulator loop computes the words of a component |
| `WireKeys.ReturnedKey` | apps/ios/Sources/Networking/Coding.swift:67-146 | what comes back for every key made of a first word and any list of words, one-letter words included |
| `WireKeys.RoundTripIff` | apps/ios/Sources/Networking/Coding.swift:67-146 | such a key comes back unchanged if and only if no words clash: `gi` before a longer word in `b`, `e` before a longer word in `tag`, `i` before a word in `d`, or the single letters of another acronym before a word that completes it; all else survives the ordered replacements |
| `WireKeys.ClashingKey` | apps/ios/Sources/Networking/Coding.swift:109-131 | `foo_gi_bar` comes back as `foo_gi_b_ar` |
| `WireKeys.ClashingLetters` | apps/ios/Sources/Networking/Coding.swift:109-131 | `foo_i_d` comes back as `foo_id` |
| `WireKeys.RoundTrip` | apps/ios/Sources/Networking/Coding.swift:67-146 | so every key comes back whose words have two letters or more and are not `gi`, the spellings `gi_b` and `e_tag` aside |
| `HostileText.Sanitized` | apps/ios/Sources/Security/HostileDisplayText.swift:8-26 | the loop escapes the text, or its first scalars and an ellipsis |
| `HostileText.SanitizedIsInert` | apps/ios/Sources/Security/HostileDisplayText.swift:28-45 | the result has no unsafe scalar and at most 9 times the limit plus one scalars |
| `HostileText.UnsafeIff` | apps/ios/Sources/Security/HostileDisplayText.swift:34-45 | what is escaped besides the backslash is exactly the controls, direction changes, invisible characters, line breaks and format characters of Unicode |
| `HostileText.HarmlessIsShown` | apps/ios/Sources/Security/HostileDisplayText.swift:8-26 | text with nothing to escape and within the limit is shown as it is |
| `HostileText.PrintableIsHarmless` | apps/ios/Sources/Security/HostileDisplayText.swift:19-45 | that includes all printable ASCII, the backslash aside |
| `HostileText.DecodeEncode` | apps/ios/Sources/Security/HostileDisplayText.swift:19-32 | a decoder recovers every escaped text |
| `HostileText.ShownAlikeIff` | apps/ios/Sources/Security/HostileDisplayText.swift:8-26 | two texts are shown alike exactly when equal, or both too long with the same first scalars |
| `HostileText.RoundTrip` | apps/ios/Sources/Security/HostileDisplayText.swift:8-26 | within the limit the original is recovered, so escaping is injective |

## Left out

- User interface, SwiftTerm, Runestone and WebKit adapters, and the HTTP endpoint wrappers: thin or foreign code.
- Cryptography, key chains and WebAuthn: library calls; SHA-256 is an arbitrary function, injective where stated.
- File descriptors, permissions, subprocesses, `flock` and atomic renames: each locked gate operation is one step.
- PostgreSQL and in-memory stores: only their contracts are used. The PostgreSQL contract of device revocation (by owner and device) is followed; the in-memory store ignores the owner.
- The server's terminal gateway beyond its frame format: that it applies each input key at most once is a given. Its record of keys is bounded, so this holds only while a key is remembered.
- `ListPreviews`, the cache redactor, sensitive path lists, release and billing scripts: loops of simple filters, regular expressions and fixed tables.
- `TerminalSessionModel` cache writing and its redaction: only what reaches the screen, the filter and the acknowledgements is modelled.
- Wall-clock time, retry delays and backoff: nothing proved depends on them.
- Random draws: a key or identifier is an argument; freshness is a stated condition where it matters.
- `saveFile`, `saveDiff` and `saveDashboard` of the offline cache: they set one entry and then trim and persist as modelled.
- OfflineCache.EncryptedOfflineCache.AppendTerminalFrames: calls that overlap at the suspension inside `persist` are not modelled, so one call's commit cannot overwrite another's here; nor is a failing load of the state.
- OfflineCache.EncryptedOfflineCache.ResetTerminalHistory: the same two, because it loads and persists in the same way.
- Image policy files: reading bytes and decoding JSON are not modelled; records arrive decoded, with their field names, dates as day numbers.
- Texts of error messages: errors are constructors carrying the set of names that the message lists in sorted order.
- Order in which equal keys leave a library sort, and the order of dictionary iteration: left open, so every result holds for all of them.
- Admission of several owners on one host: snapshots count one owner's workspaces, and the runs here are those of one owner.
- Wire keys with empty words, upper-case letters (the WebAuthn fields) or a later word that begins with a digit: the round trip is stated for snake-case words of small letters and digits.
- Integer widths: admission and cache counters are unbounded integers; frame fields and sequence numbers carry their widths.
- WireKeys.CodexPropertyName: capitalises ASCII letters only, because the wire keys of the repository are ASCII.
- WireKeys.CodexWireKey: lowers ASCII letters only, for the same reason.
- WireKeys.SnakeCaseWords: classifies ASCII letters only, for the same reason.
- VolumeGate.GateSafety: that only the holder of a claim creates or deletes volumes of its name, and that one reading of Podman together with the lease change it leads to is one step, are assumptions about the callers and the lock.
- LockOrder.DeadlockFreedom: an operation's plan is fixed when it starts, while a rotation learns its workspaces after it holds the secret's gate; gates may be released in any order.
