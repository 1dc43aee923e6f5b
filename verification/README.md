# FirmwareUpdater: verified model

A Dafny model of the parts of the FirmwareUpdater firmware whose correctness spans several
functions or whole runs, with proofs. Every answer of the outside world (modem, broker, socket,
flash, clock) is a parameter or a nondeterministic choice, so a statement for all parameters is a
statement about every environment.

| file | models |
|---|---|
| `Words.dfy` | bytes, 32-bit words and clocks, terminated strings |
| `GsmProtocol.dfy` | the cellular link, the MQTT session and the HTTP lease as one state machine on values |
| `GsmSafety.dfy` | the inductive invariant over all runs, tied to an automaton that sees only actions |
| `GsmAttempts.dfy` | exactly which single events end a pending opening or move the recovery ladder |
| `GsmRetries.dfy` | over whole runs, what the retry counter counts and when the next attempt is due at once |
| `GsmDecisions.dfy` | one call at a time, where it goes, in the numbers and answers themselves; sessions that are left alone |
| `GsmHistory.dfy` | what that automaton's verdict means, as plain statements about histories |
| `GsmProgress.dfy` | every state that is not Ready is left by its deadline |
| `GsmTimeline.dfy` | the same over whole runs from boot, against a schedule of all events |
| `GsmRecovery.dfy` | with a modem that does as asked the link is Ready again, by a known call and a known time |
| `GsmObjects.dfy` | the same machine as classes that update their fields and call each other re-entrantly, proved equal to the steps |
| `GsmModem.dfy` | CIPSEND against a command/data automaton; the second opinion before a socket is given up |
| `GsmMqttQueue.dfy` | the queue between the cellular session's callback and the application |
| `SpscRing.dfy` | the lock-free ring at the grain of single loads, copies and stores, and as a class |
| `ChunkedDecoder.dfy`, `ChunkedGrammar.dfy` | the chunked decoder; the language it accepts (section 7.1 of RFC 9112, read leniently) |
| `GsmHttpClient.dfy` | the bulk readers that drive the decoder from a socket that may understate, stall and read short |
| `Iso8601Calendar.dfy`, `Iso8601Text.dfy` | calendar arithmetic against day counting; timestamp printer and parser (section 5.6 of RFC 3339) |
| `EspMqttClient.dfy` | reassembly and routing of fragmented messages on the Wi-Fi session |
| `Hex.dfy`, `OtaSink.dfy` | digest text and comparison; the write-verify-boot protocol |
| `OrderCodec.dfy`, `VersionText.dfy` | version comparison and order validation; which numbers a version string is read as |
| `Backoff.dfy` | the retry timer: hash, jitter and wrap-around clock |

Code that the firmware writes as objects is modelled as classes whose methods are proved to take
the object's state where a specification function says; the theorems are about those functions.
`GsmObjects.Device` closes the circle for the link: the wired objects, fed any events, are where
the run of `GsmProtocol` is.

## What the proofs turned up

Where code and documentation differ the model follows the code.

- An MQTT socket asked for at the very millisecond when `millis()` reads 0, and not settled at once,
  is forgotten, because 0 also marks "nothing pending". `GsmHistory.ForgetfulRunOverlaps` is such a
  run from boot; `GsmSafety.TrackedExactlyWhenRemembered` says that nothing else loses an opening,
  and `GsmSafety.EveryRunIsLawful` that even such a run keeps every other rule.
- A fragmented message is routed under its topic cut to 95 characters, so a reserved topic longer
  than that can reach the direct callback (`EspMqtt.ReservedFragmentsStayQueued`).
- A payload of 65536 bytes or more would be announced modulo 65536 and its tail read as commands
  (`GsmModem.OversizedPayloadSpills`); shorter ones never lose step.
- The OTA slot check adds in 32 bits: an accepted write stays inside the slot exactly when the sum
  does not wrap (`OtaSink.AcceptedWriteStaysInSlot`). A digest engine that fails after the flash
  write leaves the sink open with the two apart (`OtaSink.DigestFailureDiverges`). A second download
  without a restart overwrites the slot that is set to boot with its first write
  (`OtaSink.SecondDownloadOverwrites`, exactly when in `OtaSink.ImageSurvivesExactlyWhen`).
- `src/core/Hex.h:10-11` promises that a failed decode leaves the output untouched; it has written
  every good pair before the bad one (`Hex.Decode`, `Hex.UntouchedOnlyIfFirstPairIsBad`).
- Versions with a `-` sign are not ordered transitively (`OrderCodec.SignedIsNotTransitive`); still,
  whatever the strings, accepted orders strictly climb (`OrderCodec.InstalledVersionsIncrease`).
- `fromEpoch` and `toEpoch` are inverse exactly until the year leaves its 32-bit field
  (`Iso8601Calendar.EpochRoundTrip`), and a day 31 in a short month is read as a day of the next
  (`Iso8601Calendar.LateDaySpillsOver`).
- Retry delays leave their jitter band exactly when base plus span passes 2^32 while the span is
  below 2^31 (`BackoffTimer.JitterStaysInBand`).
- A push into the ring with a null buffer and a length is accepted and delivers what the slot held
  before (`SpscRing.NullBufferDeliversStaleBytes`).
- `src/platform/gprs/GsmLink.h:54-56` says a lost session rebuilds the PDP at once; the code only
  notes it (`GsmAttempts.DropIsOnlyNoted`, `GsmHistory.LostSessionsDoNotClimb`).

## Model

| member | source | states |
|---|---|---|
| GsmSafety.EveryRunIsLawful | src/platform/gprs/GsmLink.cpp:192-424 | in every run from boot, with no exception, against every answer of modem, broker, HTTP peers and clock, each action is one the reference automaton allows at that point and the fields agree with it: an inductive invariant of link, session and lease together |
| GsmSafety.StepKeeps | src/platform/gprs/GsmMqttClient.cpp:303-490 | every event, re-entrant suspensions from inside a connection attempt included, keeps that invariant; it loses sight of an opening if and only if it forgets one, and no event gets it back |
| GsmSafety.KeptExactlyUnlessForgotten | src/platform/gprs/GsmMqttClient.cpp:321-337 | fields and automaton know of every opening after an event if and only if they did before and the event does not ask for a socket at a clock reading of 0 and leave the outcome open |
| GsmSafety.TrackedExactlyWhenRemembered | src/platform/gprs/GsmMqttClient.cpp:321-337 | over every run from boot: they know of every opening at its end if and only if no event of the run forgot one |
| GsmSafety.FailKeeps | src/platform/gprs/GsmLink.cpp:192-207 | going down with the session closed first keeps the invariant, whether from Settling or from the ladder |
| GsmSafety.ResetKeeps | src/platform/gprs/GsmLink.cpp:542-587 | a modem reset from any state and for any of its six causes keeps it, and is of the kind the number of earlier resets asks for |
| GsmSafety.SuspendKeeps | src/platform/gprs/GsmMqttClient.cpp:475-483 | suspending leaves the session closed, nothing marked as pending and every other part untouched, whoever asked for it |
| GsmSafety.ConectarKeeps | src/platform/gprs/GsmMqttClient.cpp:303-413 | an attempt to connect keeps it through every outcome, including the ones that bring the link down underneath it |
| GsmSafety.BeginDownloadKeeps | src/platform/gprs/GsmHttpClient.cpp:355-394 | after a download is begun, or fails to begin at any point, the lease is held exactly when one is open |
| GsmHistory.LinkIsExclusive | src/platform/gprs/GsmLink.cpp:365-384 | in every run: a held lease means Ready, no session and no opening marked as in progress; a session means Ready, unleased and unsuspended; suspended means leased or paused by a failure, the latter never in Ready; the lease is held exactly while a download is open |
| GsmHistory.NothingUnderALease | src/platform/gprs/GsmLink.cpp:365-398 | between taking and returning the lease no socket is opened for MQTT, no session connects, and neither PDP nor modem is touched |
| GsmHistory.OneOpeningAtATime | src/platform/gprs/GsmMqttClient.cpp:316-413 | only after an opening opened, was answered neither CONNECTED nor CONNECTING, passed 75 s, or was taken away by HTTP or the session's owner, with the answer that says so, is a second socket asked for, a session connected, a failure counted, the link lent, given up or reset |
| GsmHistory.FirmwareOpenings | src/platform/gprs/GsmMqttClient.cpp:303-413 | the same in every run of the firmware, of every opening not stamped 0, and of those too where no event forgot one |
| GsmHistory.FirmwareLeases | src/platform/gprs/GsmLink.cpp:365-384 | in every run of the firmware nothing needs the link between taking and returning the lease |
| GsmHistory.FirmwareLadder | src/platform/gprs/GsmLink.cpp:192-424 | the rules of the ladder, of the two resets and of the waits, announced and kept, hold at every moment of every run of the firmware |
| GsmHistory.FirmwareAddresses | src/platform/gprs/GsmLink.cpp:291-316 | in every run, of two PDPs in a row with a teardown and no reset between, the second has another address or none |
| GsmHistory.FirmwareDrops | src/platform/gprs/GsmLink.cpp:386-419 | in every run, after a session is lost at least three attempts fail before the PDP is torn down and five before the ladder resets the modem |
| GsmAttempts.PendingEndsExactlyWhen | src/platform/gprs/GsmMqttClient.cpp:316-413 | any single event drops a pending opening if and only if it ends the session, gives HTTP the link, or is an attempt that finds the socket open, neither open nor opening, or 75 s old |
| GsmAttempts.WaitingCostsNothing | src/platform/gprs/GsmMqttClient.cpp:393-400 | an opening still reported CONNECTING within 75 s is kept: link, retry counter and history stay as they are, and only the next look is scheduled |
| GsmAttempts.StampMarksTheOpening | src/platform/gprs/GsmMqttClient.cpp:329-337 | a waiting opening is marked as pending if and only if its stamp is not 0 |
| GsmAttempts.LadderMovesExactlyWhen | src/platform/gprs/GsmMqttClient.cpp:339-354 | a pass of the session moves the link one rung up if and only if the transport fails, back to the foot when MQTT connects, and not at all otherwise: not for a refusal by the broker, a wait or a drop |
| GsmAttempts.OthersDoNotClimb | src/platform/gprs/GsmLink.cpp:386-398 | no event but a pass of the session raises the count, and only a reset clears it |
| GsmAttempts.DropIsOnlyNoted | src/platform/gprs/GsmLink.cpp:400-419 | a session that drops leaves the whole link as it was and adds one entry to the history |
| GsmAttempts.FailedAttemptIsPutOff | src/platform/gprs/GsmMqttClient.cpp:467-472 | after an attempt that fails, by the transport or by the broker, the next is due 3, 8, 15 or 30 s after its end, by the number of failures in a row |
| GsmAttempts.NoAttemptEarly | src/platform/gprs/GsmMqttClient.cpp:453 | passes before that time change nothing at all while the link stays up and unleased |
| GsmRetries.RetriesStartOver | src/platform/gprs/GsmMqttClient.cpp:420-472 | over every run the retry counter is the number of attempts that failed in a row, capped at four, counted since a session was last seen (alive or just lost), connected or newly configured |
| GsmRetries.InterruptionsEndAtOnce | src/platform/gprs/GsmMqttClient.cpp:485-490 | in every run, once the link was down or lent and is neither any more, the next pass of a configured session goes for the socket at any clock reading |
| GsmRetries.StepIsPrompt | src/platform/gprs/GsmMqttClient.cpp:475-490 | while the link is down or lent a session is suspended or not put off; every event keeps that, and the one that ends the interruption leaves it closed, unsuspended and not put off |
| GsmDecisions.SettlingGoes | src/platform/gprs/GsmLink.cpp:216-229 | Settling goes to Init if and only if the settle time is over, at most 20000 ms more have gone and AT is answered; to Backoff if and only if more have gone; else nothing changes |
| GsmDecisions.InitAndBackoffGo | src/platform/gprs/GsmLink.cpp:231-361 | Init always goes on to Network; Backoff to Init exactly from the retry time on; Ready stays |
| GsmDecisions.NetworkGoes | src/platform/gprs/GsmLink.cpp:250-284 | Network goes to Attaching if and only if registered; to a reset if and only if not, 3000 ms after the last look, and denied (3), or with a signal from 15 and not 99 for 20000 ms, or after more than 60000 ms; else only the look is noted |
| GsmDecisions.AttachingGoes | src/platform/gprs/GsmLink.cpp:286-334 | Attaching goes to Ready if and only if the PDP is up with an acceptable address; to a reset if and only if it is up with the old one, or not up after more than 25000 ms; else nothing changes |
| GsmDecisions.OpeningGoes | src/platform/gprs/GsmMqttClient.cpp:316-413 | an attempt has its socket if and only if TinyGSM has it, a new opening succeeds, or the modem says CONNECTED within 75000 ms; it waits if and only if the modem says CONNECTING within 75000 ms |
| GsmDecisions.LiveSessionStays | src/platform/gprs/GsmMqttClient.cpp:415-441 | a pass of a connected session that finds it alive changes nothing but the retry counter; one that finds it dead drops it, notes it once and makes it due at once |
| GsmDecisions.SessionStaysUp | src/platform/gprs/GsmMqttClient.cpp:415-441 | over any events in which no pass finds the session dead, nobody ends it and HTTP does not ask, it stays connected, the link stays as it is and nothing is added to the history |
| GsmDecisions.BeginAndEnd | src/platform/gprs/GsmMqttClient.cpp:197-274 | beginning configures the session and makes it due at once; ending closes it and leaves nothing pending, and leaves the link alone |
| GsmDecisions.PendingDiesWithItsPdp | src/platform/gprs/GsmMqttClient.cpp:303-318 | a pending opening of another PDP is dropped before an attempt, and one without a link by the next pass |
| GsmDecisions.IdleSessionStays | src/platform/gprs/GsmMqttClient.cpp:416 | a session that is not configured, or suspended, is left alone by its pass |
| GsmDecisions.WaitsAre | src/platform/gprs/GsmLink.cpp:192-207 | the waits in numbers: 2, 5, 15 and 30 s for the link, 3, 8, 15 and 30 s for the session, 3 s after a reset, 1 s between two looks at an opening |
| GsmDecisions.LentExactlyWhen | src/platform/gprs/GsmLink.cpp:365-374 | the link is lent if and only if it is Ready and not lent, with the session closed; else nothing changes |
| GsmDecisions.DownloadOpensExactlyWhen | src/platform/gprs/GsmHttpClient.cpp:355-394 | a download is open after its beginning if and only if the URL was good, the link Ready, the TCP connection opened and headers and status were good |
| GsmDecisions.ExchangeLeavesNothing | src/platform/gprs/GsmHttpClient.cpp:210-353 | a request leaves link and lease as they were, and touches the session only if it got the link |
| GsmHistory.LadderClimbs | src/platform/gprs/GsmLink.cpp:386-398 | the PDP is torn down only after three or four counted failures with no connection and no reset between; the ladder resets the modem exactly at the fifth |
| GsmHistory.LostSessionsDoNotClimb | src/platform/gprs/GsmLink.cpp:400-419 | a session that drops finds the ladder at its foot and leaves it there: at least three attempts fail after the drop before the PDP is torn down, and five before the ladder resets the modem |
| GsmHistory.RedonePdpHasAnotherIp | src/platform/gprs/GsmLink.cpp:291-316 | a PDP redone on purpose does not come back into use with its previous non-zero address |
| GsmHistory.ResetKind | src/platform/gprs/GsmLink.cpp:563-578 | a reset is the full one exactly when the number of resets since the last connection is even and below 255 |
| GsmHistory.ResetHasGrounds | src/platform/gprs/GsmLink.cpp:260-332 | a reset has grounds in what the modem answered or how long it had: registration denied, 20 s stuck with a good signal, a minute without registration, a PDP redone that kept its address, 25 s without one, or the fifth failure of the ladder |
| GsmHistory.ResetsAlternate | src/platform/gprs/GsmLink.cpp:563-578 | consecutive resets alternate CFUN=1,1 and CFUN=0/1 until the counter saturates, then only the radio is cycled |
| GsmHistory.WaitsEscalate | src/platform/gprs/GsmLink.cpp:192-207 | each time the link gives up it announces a wait of 2, 5, 15, then always 30 s, counted since a PDP last came up, whatever resets lie between; and the next thing that happens at all is its retry, at a reading not before the end of that wait |
| GsmHistory.RetryFollowsFailure | src/platform/gprs/GsmLink.cpp:356-361 | a retry follows a failure and nothing else |
| GsmHistory.ZeroStampForgetsAnOpening | src/platform/gprs/GsmMqttClient.cpp:329-337 | the family of runs, with the clock only moving forward, in which an opening stamped 0 is forgotten and a second is issued over it |
| GsmHistory.ForgetfulRunOverlaps | src/platform/gprs/GsmMqttClient.cpp:329-337 | a run of that family from boot: two openings with nothing between them, in a history that is lawful in all else |
| GsmProgress.LeavesInTime | src/platform/gprs/GsmLink.cpp:209-363 | whatever the modem answers and whatever session and HTTP do, a link called at least every gap leaves its state within the state's limit plus one gap and one call |
| GsmProgress.StayingIsEarly | src/platform/gprs/GsmLink.cpp:216-361 | a call that does not leave the state came before the limit and does not move it |
| GsmProgress.LeavesAfterRedo | src/platform/gprs/GsmLink.cpp:291-298 | Attaching with the PDP marked to be redone is left too: its deadline restarts once, so within one teardown, 25 s and their gaps |
| GsmProgress.RecoveryReinitialises | src/platform/gprs/GsmLink.cpp:231-249 | from Backoff or a reset, whatever happens, registration, PDP and Ready are reached only through Init |
| GsmProgress.WaitIsKept | src/platform/gprs/GsmLink.cpp:216-218 | a link that backs off or lets the modem settle is left alone, in all its fields, whatever is called before its wait is over |
| GsmProgress.WaitIsLongEnough | src/platform/gprs/GsmLink.cpp:192-207 | that wait is the table entry after giving up, counted from the failure, and 3 s after a reset |
| GsmTimeline.TimesAlwaysAgree | src/platform/gprs/GsmLink.cpp:131-207 | at every moment of a punctual run from boot the stored readings lie in the past and a retry at most 30 s ahead |
| GsmTimeline.EveryStayEnds | src/platform/gprs/GsmLink.cpp:209-363 | from boot, at any moment of any punctual run, with sessions and HTTP in between: a link that is not Ready leaves its state within the allowance of that state, one gap and one call |
| GsmRecovery.RecoversAfter | src/platform/gprs/GsmLink.cpp:209-363 | against a modem that answers AT, registers and brings up a PDP with an acceptable address, at most six calls that do not come too early in their state, by where the link stands, reach Ready, whatever session, HTTP and clock do |
| GsmRecovery.CallMovesOn | src/platform/gprs/GsmLink.cpp:209-363 | with that modem a call that is too early changes nothing and any other takes the link at least one step nearer to Ready, without changing what makes an address acceptable |
| GsmRecovery.ReadyInTime | src/platform/gprs/GsmLink.cpp:209-363 | called at least every gap, that link is Ready by the end of its state's wait plus a gap and a call for each step left, and 30 s if it has to settle |
| GsmRecovery.EveryOutageEnds | src/platform/gprs/GsmLink.cpp:209-363 | from boot, at any moment of any punctual run: if the modem does as asked from then on, a link that is down is Ready again within its settling time, 30 s, six gaps and seven calls |
| GsmProgress.EntryGrantsItsBudget | src/platform/gprs/GsmLink.cpp:216-361 | entering a state grants at most 23 s, 63 s, 25 s or 30 s |
| GsmProgress.ReportGrantsItsBudget | src/platform/gprs/GsmLink.cpp:386-398 | a failure report can only send a Ready link to Backoff or to a reset, with the same budgets, and leaves the clock readings in order |
| GsmObjects.Device | src/platform/gprs/GsmLink.cpp:131-174 | the three wired objects, driven by any events in place, end where the pure run ends and satisfy the invariant |
| GsmObjects.Dispatch | src/platform/gprs/GsmMqttClient.cpp:415-490 | one event on the objects is one step of the machine |
| GsmObjects.GsmLink.Loop | src/platform/gprs/GsmLink.cpp:209-363 | the method's effect on link, session and log is the pure step's |
| GsmObjects.GsmLink.Fail | src/platform/gprs/GsmLink.cpp:192-207 | the same, re-entrant suspension included |
| GsmObjects.GsmLink.ResetModem | src/platform/gprs/GsmLink.cpp:542-587 | the same, with the reset command chosen by parity |
| GsmObjects.GsmLink.AcquireForHttp | src/platform/gprs/GsmLink.cpp:365-374 | the lease is granted exactly in Ready and unleased, with the session suspended first |
| GsmObjects.GsmLink.ReleaseHttp | src/platform/gprs/GsmLink.cpp:376-384 | giving back a lease that is not held does nothing; one that is held resumes the session |
| GsmObjects.GsmLink.ReportMqttTransportFailure | src/platform/gprs/GsmLink.cpp:386-398 | the ladder's step, ignored off Ready and under a lease |
| GsmObjects.GsmMqttClient.Loop | src/platform/gprs/GsmMqttClient.cpp:415-473 | the session's pass over both objects is the pure step |
| GsmObjects.GsmMqttClient.Conectar | src/platform/gprs/GsmMqttClient.cpp:303-369 | the attempt, with its reports into the link and their way back through the gate |
| GsmObjects.GsmMqttClient.AvaliarAbertura | src/platform/gprs/GsmMqttClient.cpp:371-413 | the evaluation of an opening that overran |
| GsmObjects.GsmMqttClient.Suspend | src/platform/gprs/GsmMqttClient.cpp:475-483 | closing for HTTP or for a failure |
| GsmObjects.GsmMqttClient.End | src/platform/gprs/GsmMqttClient.cpp:267-274 | shutting the session down |
| GsmObjects.HttpLease.Abrir | src/platform/gprs/GsmHttpClient.cpp:49-68 | the lease is kept exactly when the TCP connection opened |
| GsmObjects.HttpLease.Exchange | src/platform/gprs/GsmHttpClient.cpp:210-353 | a whole request gives back what it took, wherever it stops |
| GsmObjects.HttpLease.BeginDownload | src/platform/gprs/GsmHttpClient.cpp:355-394 | an earlier download is ended first; the lease stays only with an open download |
| GsmObjects.HttpLease.EndDownload | src/platform/gprs/GsmHttpClient.cpp:426-430 | ending a download twice is ending it once |
| GsmModem.EnviarMqtt | src/platform/gprs/GsmLink.cpp:447-506 | the writes, null pieces included, take the modem where the specification says, for every length and answer |
| GsmModem.SendResynchronises | src/platform/gprs/GsmLink.cpp:464-491 | from command mode a send ends in command mode with exactly one whole frame, nulls in its place, or nothing as data, if and only if the payload is below 65536 bytes or refused |
| GsmModem.TrafficStaysInStep | src/platform/gprs/GsmLink.cpp:447-506 | over any mixture of sends and commands, timeouts and refusals: no command becomes data, no payload byte becomes a command, every frame is whole |
| GsmModem.TakenInPieces | src/platform/gprs/GsmLink.cpp:479-483 | writing nulls in pieces of 64 is writing them at once |
| GsmModem.NullsAreZeros | src/platform/gprs/GsmLink.cpp:478-483 | what neutralises a send is as many zero bytes as were announced |
| GsmModem.OversizedPayloadSpills | src/platform/gprs/GsmLink.cpp:464 | an accepted longer payload splits: the head is data, the tail is read as commands |
| GsmModem.ReportedIsTaken | src/platform/gprs/GsmLink.cpp:493-505 | a length is reported only for a payload the modem took whole |
| GsmModem.ReportedExactlyWhen | src/platform/gprs/GsmLink.cpp:493-505 | a length is reported if and only if prompt, acceptance and the line after it came with a positive number, and it is that number |
| GsmModem.SessionsEndOnTheModemsWord | src/platform/gprs/GsmMqttClient.cpp:118-152 | over any calls: the answer is open if and only if there is a client and TinyGSM says open, or the socket was open and the modem vouched for it less than 2 s ago, not at reading 0, or does now; the modem is asked if and only if an open socket is about to be given up without such a word |
| GsmModem.SocketMqttGsm.Connected | src/platform/gprs/GsmMqttClient.cpp:118-152 | fields, answer and question are the specified ones |
| GsmModem.SocketMqttGsm.Connect | src/platform/gprs/GsmMqttClient.cpp:63-75 | a connect forgets any earlier confirmation |
| GsmModem.SocketMqttGsm.Stop | src/platform/gprs/GsmMqttClient.cpp:110-116 | a stop closes and forgets |
| GsmModem.SocketMqttGsm.ConfirmarAberto | src/platform/gprs/GsmMqttClient.h:44-47 | the modem's confirmation counts from now |
| GsmMqttQueue.NothingIsReorderedOrInvented | src/platform/gprs/GsmMqttClient.cpp:173-195 | over any calls, what was polled plus what waits is what was accepted, which is what was sent in less exactly the counted refusals; at most five wait |
| GsmMqttQueue.RefusedOnlyWhenFull | src/platform/gprs/GsmMqttClient.cpp:181-187 | over any calls, a message is accepted exactly when fewer than five wait as it is sent in, and the rest are the counted refusals |
| GsmMqttQueue.DirectIsHandedOn | src/platform/gprs/GsmMqttClient.cpp:173-195 | over any calls the direct callback gets every message meant for it, whole and in order, whatever waits in the queue |
| GsmMqttQueue.SlotKeeps | src/platform/gprs/GsmMqttClient.cpp:173-195 | a slot keeps a topic of less than 128 characters and a payload of at most 512 bytes whole, and the front of longer ones |
| GsmMqttQueue.MqttQueue.Entregar | src/platform/gprs/GsmMqttClient.cpp:173-195 | in place on the slots: direct, refused when five wait, or appended with topic cut to 127 and payload to 512 |
| GsmMqttQueue.MqttQueue.Poll | src/platform/gprs/GsmMqttClient.cpp:518-531 | takes the oldest, handing over as much as the caller's buffers hold |
| GsmMqttQueue.MqttQueue.Reservado | src/platform/gprs/GsmMqttClient.cpp:166-171 | finds exactly the reserved topics |
| GsmMqttQueue.MqttQueue.ReserveTopic | src/platform/gprs/GsmMqttClient.cpp:281-285 | keeps at most four, cut to 127 characters |
| SpscRing.EveryInterleavingIsSound | src/core/SpscRing.h:29-67 | the invariant holds after every interleaving of the two sides' single loads, copies and stores |
| SpscRing.DeliveredInOrderAndWhole | src/core/SpscRing.h:29-67 | between clears what was popped is a prefix of what was accepted, each message as sent; at most Slots-1 in flight; attempts are accepted plus dropped |
| SpscRing.NeverTheSameSlot | src/core/SpscRing.h:42-56 | the slot being written is never the one being read |
| SpscRing.RefinesBoundedFifo | src/core/SpscRing.h:29-67 | each single step is a step of a bounded FIFO or changes nothing there |
| SpscRing.RefusalsAreHonest | src/core/SpscRing.h:30-54 | a push is refused at once exactly for a null topic or an oversized payload, later exactly when the queue is full, and a pop finds nothing exactly when it is empty |
| SpscRing.PushQueuesItsMessage | src/core/SpscRing.h:29-49 | a push that nobody interrupts puts exactly its topic, of at most 95 characters, and its payload at the end of the queue, if and only if the payload fits a slot and there is room |
| SpscRing.TopicIsKept | src/core/SpscRing.h:43 | a topic of at most 95 characters is kept whole, a longer one to its first 95 |
| SpscRing.NextIsRemainder | src/core/SpscRing.h:36 | the step of an index is the remainder the source computes |
| SpscRing.RoomCheck | src/core/SpscRing.h:36-37 | the index comparison says exactly whether Slots-1 messages are in flight |
| SpscRing.NullBufferDeliversStaleBytes | src/core/SpscRing.h:44-45 | a null buffer with a length queues the slot's old bytes |
| SpscRing.SpscRing.Push | src/core/SpscRing.h:29-49 | uninterrupted, in place on the slot array: the specified ring |
| SpscRing.SpscRing.Pop | src/core/SpscRing.h:52-59 | uninterrupted: the specified ring and the message of the tail slot |
| SpscRing.SpscRing.Clear | src/core/SpscRing.h:65-67 | uninterrupted: the specified ring |
| SpscRing.PushEffect | src/core/SpscRing.h:29-49 | the single steps of a push, run together, are the method's result |
| SpscRing.PopEffect | src/core/SpscRing.h:52-59 | the single steps of a pop, run together, are the method's result |
| SpscRing.PopTakesOldest | src/core/SpscRing.h:52-59 | a pop takes the head of the queue and leaves its tail |
| SpscRing.ClearEffect | src/core/SpscRing.h:65-67 | a clear leaves nothing in flight |
| Chunked.ChunkedDecoder.Feed | src/core/ChunkedDecoder.cpp:22-72 | one byte in place is one step of the byte-at-a-time reference, and none inside data |
| Chunked.ChunkedDecoder.ConsumeData | src/core/ChunkedDecoder.cpp:87-91 | bytes taken in bulk count against the chunk |
| Chunked.ChunkedDecoder.Reset | src/core/ChunkedDecoder.cpp:15-20 | back to the start |
| Chunked.BulkIsByteByByte | src/core/ChunkedDecoder.cpp:87-91 | moving payload in bulk and reporting it once is decoding it byte by byte |
| Chunked.DecodeConcat | src/core/ChunkedDecoder.cpp:22-91 | decoding in two pieces is decoding at once |
| Chunked.FinalPhases | src/core/ChunkedDecoder.cpp:67-70 | done and invalid are final and yield nothing |
| Chunked.DigitsAreHex | src/core/ChunkedDecoder.cpp:6-12 | a size digit has the value its character writes in base sixteen, in either case, and no other character has one |
| ChunkedGrammar.SizeLineIsReadExactly | src/core/ChunkedDecoder.cpp:24-43 | a size line is invalid if and only if its true value passes 2^32-1, with blanks, leading zeros and either case; otherwise it is read exactly |
| ChunkedGrammar.RoundTrip | src/core/ChunkedDecoder.cpp:22-91 | decoding any encoded body, with extensions and trailers, ends done with exactly its payload, and every strict prefix is neither done nor invalid |
| ChunkedGrammar.AcceptsExactlyTheGrammar | src/core/ChunkedDecoder.cpp:22-91 | the decoder is done on a stream if and only if the stream begins with a body of the grammar, and then its output is that body's payload |
| ChunkedGrammar.FramesAreWellFormed | src/core/ChunkedDecoder.cpp:22-91 | plain CRLF framing with lower-case sizes is in the grammar |
| GsmHttpClient.GsmHttpClient.LerCorpo | src/platform/gprs/GsmHttpClient.cpp:133-180 | however the socket understates, stalls or reads short, the bytes taken are the peer's next ones, the buffer holds and `delivered` grows by what the reference yields for them; the end flag means the body is finished |
| GsmHttpClient.GsmHttpClient.LerBloco | src/platform/gprs/GsmHttpClient.cpp:163-176 | one bulk read takes the peer's next bytes and never passes the caller's room, the chunk or the length |
| GsmHttpClient.GsmHttpClient.LerMarcador | src/platform/gprs/GsmHttpClient.cpp:154-161 | framing goes one byte of the peer's at a time and none of it into the body |
| GsmHttpClient.GsmHttpClient.LerResposta | src/platform/gprs/GsmHttpClient.cpp:182-208 | the buffer holds the first min(total, cap-1) body bytes of what the peer sent and a NUL; it stops only at the end of the body, on a hang-up or at the deadline; at most one pass begins after the end, and once the peer has closed every pass but the last takes bytes |
| GsmHttpClient.GsmHttpClient.ReadChunk | src/platform/gprs/GsmHttpClient.cpp:396-424 | none of the peer's bytes is lost or invented; Eof means the bytes reported with Ok are the whole body; bytes that arrive are answered Ok and a finished body Eof; with none, the socket is asked in that call: WouldBlock or, after 30 s, Timeout if and only if it is up or bytes wait, else Eof if neither header bounds the body and Transport if one does |
| GsmHttpClient.Download | src/platform/gprs/GsmHttpClient.cpp:390-424 | a client made for a response and asked for piece after piece: the pieces in order are a prefix of the payload of what the peer sent, and on Eof the whole body; when the peer has sent everything and closed, it ends in Eof if and only if the whole body was sent, and in Transport otherwise |
| GsmHttpClient.SplitDoesNotMatter | src/platform/gprs/GsmHttpClient.cpp:133-180 | payload and decoder state depend on the bytes alone, not on how they were cut |
| GsmHttpClient.TruncationIsNeverTheEnd | src/platform/gprs/GsmHttpClient.cpp:141-145 | a chunked body cut short is never finished; whole it is, with its payload |
| Iso8601Calendar.ClosedFormCounts | src/core/Iso8601.cpp:11-18 | the closed form is the day count by years and months, for every valid date from 1970 |
| Iso8601Calendar.DaysRoundTrip | src/core/Iso8601.cpp:20-31 | every day number gives a valid date that has that day number |
| Iso8601Calendar.DateRoundTrip | src/core/Iso8601.cpp:11-31 | every valid date survives the way to its day number and back |
| Iso8601Calendar.EpochRoundTrip | src/core/Iso8601.cpp:50-68 | seconds to fields and back is the identity if and only if the year fits its 32-bit field |
| Iso8601Calendar.CivilRoundTrip | src/core/Iso8601.cpp:45-68 | valid fields to seconds and back is the identity |
| Iso8601Calendar.EpochPreservesOrder | src/core/Iso8601.cpp:45-48 | seconds order valid times exactly as the calendar does |
| Iso8601Calendar.LateDaySpillsOver | src/core/Iso8601.cpp:98 | a day past the end of its month counts into the next one |
| Iso8601Text.Digits | src/core/Iso8601.cpp:33-41 | the loop reads the specified value and never past the terminator |
| Iso8601Text.FieldIsItsPrint | src/core/Iso8601.cpp:33-41 | digits are read as v if and only if they are what prints v |
| Iso8601Text.Format | src/core/Iso8601.cpp:70-80 | succeeds exactly when the text and its NUL fit a buffer of at least 21; then the buffer holds it |
| Iso8601Text.Parse | src/core/Iso8601.cpp:82-125 | the specified value for every terminated string and null, reading nothing past the terminator |
| Iso8601Text.LanguageIsAccepted | src/core/Iso8601.cpp:82-125 | every stamp and tail of the language is accepted with the value it stands for |
| Iso8601Text.AcceptedIsInTheLanguage | src/core/Iso8601.cpp:82-125 | nothing else is accepted |
| Iso8601Text.PrintedIsParsed | src/core/Iso8601.cpp:70-125 | printing and parsing is the identity for every second of 1970 to 9999, in 20 characters |
| Iso8601Text.GsmClockAgreesWithParser | src/core/Iso8601.cpp:127-129 | for every time with a 4-digit year and every quarter-hour zone of a signed byte, the parser and the modem's clock give the same second |
| EspMqtt.DeliversOnlyCompleteMessages | src/platform/esp32/EspMqttClient.cpp:189-270 | for any events whatsoever from a session in the middle of nothing: a fragment hands a message on if and only if it completes one that nothing broke off and that fits 1024 bytes, and then exactly its fragments joined, under its own topic |
| EspMqtt.AssemblyIsOneMessage | src/platform/esp32/EspMqttClient.cpp:242-264 | at every moment the assembly is, if and only if there is one, the message being put together, all of it and nothing else |
| EspMqtt.OnlyOneRuns | src/platform/esp32/EspMqttClient.cpp:243-248 | at most one message is being put together |
| EspMqtt.WholeIsHandedOn | src/platform/esp32/EspMqttClient.cpp:232-240 | a message in one event is handed on at once, under its topic, or without one under the last one assembled |
| EspMqtt.DirectExactlyWhen | src/platform/esp32/EspMqttClient.cpp:142-148 | over any events a delivery is direct if and only if a callback is installed and its topic is not reserved |
| EspMqtt.ConnectedIsTheLastWord | src/platform/esp32/EspMqttClient.cpp:193-200 | over any events the connection flag is the last thing the library said of it |
| EspMqtt.DeliveredExactly | src/platform/esp32/EspMqttClient.cpp:189-270 | from any session state, for messages whole, in fragments with others in between, abandoned, or broken off by disconnections with their rest still coming in: exactly the whole ones and the complete ones of at most 1024 bytes are handed on, once, in order |
| EspMqtt.FragmentsAssemble | src/platform/esp32/EspMqttClient.cpp:242-264 | after n fragments, with whole messages between them, the assembly holds exactly them or the message was too long and is given up |
| EspMqtt.ReservedFragmentsStayQueued | src/platform/esp32/EspMqttClient.cpp:142-148 | a fragmented message on a reserved topic stays queued if and only if the topic is below 96 characters or its first 95 are reserved too |
| EspMqtt.EspMqttClient.Handle | src/platform/esp32/EspMqttClient.cpp:189-270 | in place on the assembly buffer: the specified session and deliveries |
| EspMqtt.EspMqttClient.Append | src/platform/esp32/EspMqttClient.cpp:251-257 | the copy appends and stays inside the buffer |
| EspMqtt.EspMqttClient.Deliver | src/platform/esp32/EspMqttClient.cpp:142-148 | direct exactly when a callback is installed and the topic is not reserved |
| EspMqtt.EspMqttClient.IsReserved | src/platform/esp32/EspMqttClient.cpp:132-138 | finds exactly the reserved topics |
| EspMqtt.EspMqttClient.ReserveTopic | src/platform/esp32/EspMqttClient.cpp:123-130 | adds a new topic while there is room, cut to 127 characters, and nothing else |
| Hex.Decode | src/core/Hex.cpp:16-29 | accepts exactly 2n hex digits and a terminator; a failed decode has written the leading good pairs and nothing more |
| Hex.Encode | src/core/Hex.cpp:31-41 | writes the digits and a NUL exactly when there is room |
| Hex.Equal | src/core/Hex.cpp:43-49 | true if and only if all the bytes are the same |
| Hex.DecodeOfEncode | src/core/Hex.cpp:16-41 | decoding an encoding is accepted and gives the bytes back |
| Hex.EncodeOfDecode | src/core/Hex.cpp:16-41 | encoding what was decoded gives the text back in lower case |
| Hex.UntouchedOnlyIfFirstPairIsBad | src/core/Hex.cpp:19-25 | a decode writes nothing if and only if its first pair is bad |
| OtaSink.NothingUnverifiedBoots | src/platform/esp32/Esp32OtaSink.cpp:34-145 | over every sequence of calls and answers: an image becomes bootable only by a successful finish; with a digest, the bytes written with Ok have it and their count is the announced one; the slot holds exactly them if and only if failed writes left nothing behind; at every moment the announced size fits the slot and, without wrap-around, what is flashed does; the bootable slot holds them until a write of a later download reaches the flash |
| OtaSink.BeginOpensExactlyWhen | src/platform/esp32/Esp32OtaSink.cpp:34-65 | a download begins if and only if none is open, there is a slot that the announced size fits, and platform and digest agree; TooLarge is answered exactly for a size that does not fit, and no begin touches the slot or what is set to boot |
| OtaSink.WriteOkExactlyWhen | src/platform/esp32/Esp32OtaSink.cpp:67-100 | a write is Ok if and only if the sink is open and there is nothing to write, or something whose 32-bit count fits the slot and that flash and digest take; TooLarge and NotOpen exactly for their causes, and then nothing changes |
| OtaSink.FinishBootsExactlyWhen | src/platform/esp32/Esp32OtaSink.cpp:102-134 | a finish boots the image if and only if the platform agrees and what was sent has the announced size and digest |
| OtaSink.FinishFailsExactlyFor | src/platform/esp32/Esp32OtaSink.cpp:102-134 | which failure a finish answers, exactly, and that it always closes the sink and leaves the slot alone |
| OtaSink.AbortCloses | src/platform/esp32/Esp32OtaSink.cpp:136-145 | aborting closes the download in any state and leaves slot and selector alone |
| OtaSink.AcceptedWriteStaysInSlot | src/platform/esp32/Esp32OtaSink.cpp:75-79 | an accepted write stays in the slot if and only if the 32-bit sum does not wrap |
| OtaSink.ImageSurvivesExactlyWhen | src/platform/esp32/Esp32OtaSink.cpp:67-83 | the slot that is set to boot goes on holding the verified image through a call if and only if the call does not reach the flash, or writes the very same bytes |
| OtaSink.SecondDownloadOverwrites | src/platform/esp32/Esp32OtaSink.cpp:37-63 | after a finish, one write of a second download replaces what is set to boot |
| OtaSink.DigestFailureDiverges | src/platform/esp32/Esp32OtaSink.cpp:92-99 | a run in which a failed digest update is followed by booting bytes no digest covers |
| OtaSink.Esp32OtaSink.Begin | src/platform/esp32/Esp32OtaSink.cpp:34-65 | every error exit leaves the specified state |
| OtaSink.Esp32OtaSink.Write | src/platform/esp32/Esp32OtaSink.cpp:67-100 | flash, digest and count move together or as specified for each failure |
| OtaSink.Esp32OtaSink.Finish | src/platform/esp32/Esp32OtaSink.cpp:102-134 | counts, digests and compares before anything becomes bootable |
| OtaSink.Esp32OtaSink.Abort | src/platform/esp32/Esp32OtaSink.cpp:136-145 | closes and forgets |
| OrderCodec.CompareVersions | src/core/OrderCodec.cpp:80-93 | the loop terminates with the comparison of the two component lists |
| OrderCodec.ComparedIsBefore | src/core/OrderCodec.cpp:80-93 | for all strings, "newer" implies later in the zero-padded lexicographic order |
| OrderCodec.FoundUnlessBothBlank | src/core/OrderCodec.cpp:83-91 | a first difference is found if and only if no earlier component is negative or missing on both sides |
| OrderCodec.SignFreeIsLexicographic | src/core/OrderCodec.cpp:80-93 | on sign-free strings the comparison is that order, in both directions |
| VersionText.NumberIsRead | src/core/OrderCodec.cpp:23-30 | a number is read whole: white space, a sign, all its digits by place value, capped to 32 bits, up to the first character that is no digit |
| VersionText.PartsGoOn | src/core/OrderCodec.cpp:23-30 | the components of a string that begins with a number are that number and those of what follows it and its dot |
| VersionText.PartsEnd | src/core/OrderCodec.cpp:27 | where no number begins the components end |
| VersionText.CappedAtTheEnds | src/core/OrderCodec.cpp:26 | values out of the range of a 32-bit long become its ends |
| VersionText.SpacesAre | src/core/OrderCodec.cpp:26 | the white space skipped is the blank and the control characters 9 to 13 |
| VersionText.DottedIsRead | src/core/OrderCodec.cpp:23-30 | digit strings with dots between them, leading zeros or not, are read as their values capped at 2^31-1 |
| VersionText.DottedVersionsCompare | src/core/OrderCodec.cpp:80-93 | such versions compare as those lists of values, in both directions, the shorter with zeros added |
| VersionText.PrintedVersionIsRead | src/core/OrderCodec.cpp:23-30 | a version printed from numbers below 2^31 is read back as those numbers |
| VersionText.NumberedOrderIsNewer | src/core/OrderCodec.cpp:120-126 | for numbered versions the version check is no obstacle if and only if the order's numbers come later |
| OrderCodec.SignFreeIsPreorder | src/core/OrderCodec.cpp:80-93 | "not newer" is transitive on sign-free strings |
| OrderCodec.SignedIsNotTransitive | src/core/OrderCodec.cpp:23-30 | three strings with signs on which it is not |
| OrderCodec.Validate | src/core/OrderCodec.cpp:95-133 | the specified verdict, in the source's order of checks |
| OrderCodec.AcceptedExactlyWhen | src/core/OrderCodec.cpp:95-133 | on sign-free versions: accepted if and only if complete, new, for this repository, later in the reference order (or merely different with downgrades allowed), small enough and with a digest |
| OrderCodec.RefusedExactlyFor | src/core/OrderCodec.cpp:95-133 | each refusal is answered exactly when its cause holds and none before it does |
| OrderCodec.AcceptedIsNewer | src/core/OrderCodec.cpp:120-126 | an order accepted without downgrades is strictly later than what runs |
| OrderCodec.InstalledVersionsIncrease | src/core/OrderCodec.cpp:95-133 | over any arrivals the installed versions strictly increase, whatever strings the orders carry |
| OrderCodec.NoVersionRepeats | src/core/OrderCodec.cpp:95-133 | no version is installed twice |
| BackoffTimer.ScrambleIsABijection | src/core/Backoff.cpp:9-16 | the hash is a bijection on 32-bit words, with its inverse |
| BackoffTimer.DelaysFillTheBand | src/core/Backoff.cpp:18-27 | below the limit a delay is in the band if and only if some hash value gives it |
| BackoffTimer.JitterStaysInBand | src/core/Backoff.cpp:18-27 | all delays stay in the band if and only if base plus span is below 2^32 or twice the span is not |
| BackoffTimer.ReadyAfterItsDelay | src/core/Backoff.cpp:45-60 | after a failure the timer is ready k ms later if and only if k is at least its delay, for all k below 2^32 and across the wrap |
| BackoffTimer.NthDelay | src/core/Backoff.cpp:45-54 | without jitter the n-th failure waits for the n-th step, at most the 256th, or the last |
| BackoffTimer.NthDelayInBand | src/core/Backoff.cpp:18-54 | with jitter the n-th failure waits for a delay in the band of the n-th step, wherever that band fits 32 bits or the span has wrapped |
| BackoffTimer.TimesScatter | src/core/Backoff.cpp:48-50 | failures at different milliseconds draw different hashes |
| BackoffTimer.FailureIsNoted | src/core/Backoff.cpp:45-60 | a failure arms the timer at its time and counts to 255; without a table it does nothing |
| BackoffTimer.SpanIsOfHundreds | src/core/Backoff.cpp:21 | the span is the configured percentage of the step's whole hundreds |
| BackoffTimer.DelaysDoNotDecrease | src/core/Backoff.cpp:45-54 | on a non-decreasing table the delays do not decrease until a reset |
| BackoffTimer.Backoff.Fail | src/core/Backoff.cpp:45-54 | the specified timer; a null or empty table changes nothing |
| BackoffTimer.Backoff.IsReady | src/core/Backoff.cpp:56-60 | true when unarmed or when the wrapped difference reaches the delay |
| BackoffTimer.Backoff.Configure | src/core/Backoff.cpp:31-36 | a new table starts unarmed |
| BackoffTimer.Backoff.Reset | src/core/Backoff.cpp:38-43 | back to the first step, unarmed |
| BackoffTimer.Backoff.CurrentDelayMs | src/core/Backoff.cpp:56-64 | the wait after which the timer becomes ready: ready if and only if that much has passed since the last failure |

## Left out

- GsmSafety.EveryRunIsLawful: both gates are bound before the first step and `GsmLink::begin` happens once; an opening stamped 0 does not count as pending, since the code cannot tell it from none.
- GsmHistory.FirmwareOpenings: of openings stamped 0 it speaks only in runs that forgot none; `ForgetfulRunOverlaps` is a run in which the claim fails for one.
- GsmRecovery.EveryOutageEnds: as the next two lines; the untimed `RecoversAfter` needs neither.
- GsmTimeline.EveryStayEnds: as the next line; unused readings of a pass are taken to be in order too.
- GsmProgress.LeavesInTime: the clock does not wrap, because `now < _next_try` in the source is not safe across a wrap; session calls may block only as long as the stated gap between calls of the link's loop, and the settling time plus 20 s is below 2^32 ms.
- SpscRing.DeliveredInOrderAndWhole: atomics are sequentially consistent single steps, so memory ordering weaker than that is not modelled; payloads are said to be whole for non-null buffers.
- OtaSink.NothingUnverifiedBoots: a finish with a null digest skips verification, as the code does; a failing digest update is taken to leave the digest as it was.
- GsmModem.SendResynchronises: the modem decides to accept or refuse before the payload or the nulls are written, and shows its prompt only for an accepted CIPSEND.
- GsmModem.EnviarMqtt: the size of the null pieces is not visible in the result, only their sum.
- EspMqtt.DeliveredExactly: fragments of one message arrive in order and non-empty, as the library sends them, whole messages carry their topic, and topics are terminated strings; `DeliversOnlyCompleteMessages` needs none but the last.
- GsmHttpClient.Download: that it ends is said of a peer that has sent everything and closed, with a modem that reports so; of other sockets, what each call answers.
- PubSubClient's own reopening of the socket inside its connect is not modelled: the session library is one bit and its answers.
- The Wi-Fi `poll`, which loses a popped message longer than the caller's buffer (src/platform/esp32/EspMqttClient.cpp:170-171), is a single branch.
- Header parsing and URL splitting of GsmHttpClient: length, chunking and status enter as given.
- JSON codecs of orders, provisioning and pings: they rest on ArduinoJson, which is not part of this model.
- DeviceStore, RemoteConfigCodec and the FirmwareUpdater facade: persistence and orchestration around the parts modelled here.
- SHA-256, flash, NVS, UART, TinyGSM, esp-mqtt and mbedTLS are answers of the environment; SHA-256 is an uninterpreted function of 32-byte results.
- RollbackGuard, the hardware adapters, TopicResolver, logging, the `toString` tables and `plausible`: each would add only members that one branch settles.
- AT tracing, power pins, delays, and the scraping of IMEI and ICCID.
