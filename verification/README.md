# WS63 radio runtime: a Dafny model

This project models the stateful core of a Rust port that runs a vendor Wi-Fi and
Bluetooth stack on the WS63 and proves what its protocols keep. Concurrency is
modelled as interleaved atomic steps, at the granularity of one critical section
or one atomic operation, under sequential consistency. Code that changes state in
place is also written as classes and methods, each proved against a function of
the old state; the lemmas over all runs are about those functions.

`dafny verify dfyconfig.toml` checks every file.

| module | models |
|---|---|
| `WaitBridge` | the edge counters, waker slot and `poll_ready` of the wait bridge |
| `WorkerMailbox`, `WorkerProtocol`, `WorkerAnswers` | the one-slot mailbox between runner and worker, the whole system of runner, worker, semaphore, scan storage and wait bridge, and books that follow every command and answer through it |
| `CryptoHandles`, `CryptoTables`, `CryptoOps`, `CryptoRuns`, `CryptoDriver` | the two-slot key and operation tables with 24-bit generation handles, and runs in which hardware steps are in flight between critical sections |
| `CryptoMaps`, `CryptoDevice`, `CryptoOrigins` | what those tables stand for: maps from handles, a simpler device every run refines, and the way of each output back to a successful hardware step and a clear key |
| `NumberTheory`, `SaeField`, `SaeRandom`, `SaeObjects` | the group-19 bignum adapter: Fermat inversion, Euler's criterion, rejection sampling, aliasing and ownership |
| `TxRing`, `BondQueue`, `Frw`, `AllocTrace` | the lossy submission ring, the bond-record queue, the framework FIFO and worker, the allocator's event trace |
| `Reservations` | the task-reservation transaction of start-up |
| `Common`, `RingBuffer` | shared types; a circular buffer read as a sequence |

A machine is a total function `Next(state, step)`: a step that is not enabled
leaves the state alone, and a theorem about `Run` or `Reachable` therefore covers
every interleaving, including late, spurious and repeated calls.

How the model reads the code:

- The comment at src/incremental_worker.rs:235-237 says that the busy flag keeps
  new commands out until the scan results are copied. In the code a cancel-only or
  spurious worker turn clears the flag during a copy
  (`WorkerProtocol.BusyFlagFallsDuringCopy`).
  What protects the copy is that at most one token exists among command, work in
  hand, response and copy (`AtMostOneToken`, `ScanNeverShared`).
- Waking a task may or may not leave its waker registered; both are allowed.
- Handles are built with shifts and masks in the code and with multiplication and
  remainder here. `And` in `SaeRandom` is bitwise and is proved to be a remainder.
- HMAC-SM3 and AES-CMAC (RFC 4493) are arbitrary functions of key and input. That
  the P-256 prime (section D.1.2.3 of FIPS 186-4) is prime, and that the hardware
  power is the power, are hypotheses of the lemmas that need them.
- An update's end can land in a later taking of its slot only whole periods of
  2^24 - 1 takings later; `CryptoOps.SlotHistory` records whose end each taking got,
  so the crypto theorems hold of every run.
- Where a theorem speaks of the last key set, the answers given or the nodes out,
  books are kept beside the run from the arguments of its steps, and the theorem ties
  the system's state to them.
- Answers of the vendor code, the entropy source, the RTOS driver and the vendor
  bond table are parameters.

Results where an expected property fails, with the condition under which it holds:

- A framework post is refused only when 32 nodes are queued. Posting each fetched
  node once does not prevent that, since nodes can be freed while queued
  (`Frw.EarlyFreesRefusePost`); callers that also free only nodes not queued never
  see it (`Frw.DisciplinedPostSucceeds`), and `Frw.PostRefusedIff` says exactly when
  it happens.
- An accepted trace record is one event entire as long as no two writers are inside
  one slot (`AllocTrace.AcceptedRecordsAreWhole`). That is exactly the condition:
  numbering an event whose slot a writer is still inside can always lead to a mixed
  record (`AllocTrace.WholeIffSlotFree`).
- The submission ring is the lossy queue exactly below 2^32 submissions
  (`TxRing.RefinesIff`); at 2^32 the reader stops (`TxRing.WrappedTotalStopsReader`).
- Late start-up failures leave nothing reserved if and only if no release is refused
  (`Reservations.FailureReleasesAllIff`).

## Model

| member | source | states |
|---|---|---|
| `WaitBridge.WaitSignals.constructor` | src/incremental_wait.rs:52-66 | a new bridge has no pending edge and no waker |
| `WaitBridge.WaitSignals.Signal` | src/incremental_wait.rs:68-79 | adds one saturating edge per named source to that source alone and schedules exactly a registered waiter |
| `WaitBridge.WaitSignals.TakeReady` | src/incremental_wait.rs:81-90 | takes one edge from each subscribed source that has one and from no other |
| `WaitBridge.WaitSignals.PollReady` | src/incremental_wait.rs:204-239 | an uninterrupted poll registers the waker, takes one edge of each subscribed source that has one, and reports exactly the subscribed sources with an edge, a queued frame or an elapsed deadline; pending exactly when there is none |
| `WaitBridge.FirstLookRuns` | src/incremental_wait.rs:204-222 | the first look is exactly its five atomic actions, with the deadline reported exactly when asked for and elapsed |
| `WaitBridge.SecondLookRuns` | src/incremental_wait.rs:223-239 | the second look after registering is exactly its atomic actions |
| `WaitBridge.SignalEffect` | src/incremental_wait.rs:68-79 | a whole signal is one saturating edge and count per named source, one notification, and a registered waiter scheduled |
| `WaitBridge.PollOnceIsTwoLooks` | src/incremental_wait.rs:204-239 | undisturbed, both looks together find exactly the edges, frame and deadline that were there, and count the poll as pending, ready or timed out |
| `WaitBridge.SourceCounts` | src/incremental_wait.rs:242-254 | one counted signal keeps sent, pending, taken and saturated edges in balance |
| `WaitBridge.StepKeepsInv` | src/incremental_wait.rs:68-90 | every action of any signaller and of the poller keeps wakes, counts and per-poll takes |
| `WaitBridge.NoLostWakeup` | src/incremental_wait.rs:204-239 | in every run a parked poller has a waker or is scheduled, and a pending subscribed edge means it is scheduled or a signaller is between increment and wake |
| `WaitBridge.EdgesConserved` | src/incremental_wait.rs:242-254 | in every run taken plus pending plus saturated equals sent per source, and nothing saturates below 2^32 |
| `WaitBridge.OnePollOneEdge` | src/incremental_wait.rs:204-239 | one poll takes at most one edge per source and reports only subscribed ones |
| `WaitBridge.PollsAnswerExactly` | src/incremental_wait.rs:204-239 | in every interleaving each poll that ended reported exactly the subscribed sources whose edge it took, whose queue had a frame or whose deadline had elapsed, pending when none; the diagnostics count polls and notifications |
| `WaitBridge.WholePollRuns` | src/incremental_wait.rs:204-239 | the interleaved poller, with nothing in between, is the whole call |
| `WaitBridge.SignalWakesAndAnswers` | src/incremental_wait.rs:68-239 | from every state of a run with a parked runner, a signal schedules it, it runs once for that, and its next poll of that source reports it |
| `WorkerMailbox.ActiveNeverSwitches` | src/incremental_worker.rs:533-556 | the active id is kept, or cleared by exactly the terminal answers to it, or set from none by exactly an accepted start or an unfinished poll; never exchanged |
| `WorkerMailbox.IncrementalWorkerState.constructor` | src/incremental_worker.rs:50-119 | a new mailbox is empty and the scan storage blank |
| `WorkerMailbox.IncrementalWorkerState.Submit` | src/incremental_worker.rs:179-195 | a command is accepted exactly when nothing is in the mailbox and the worker is idle, and then wakes the worker once |
| `WorkerMailbox.IncrementalWorkerState.RequestCancel` | src/incremental_worker.rs:197-204 | replaces the cancellation and wakes the worker |
| `WorkerMailbox.IncrementalWorkerState.ResetScan` | src/incremental_worker.rs:80-119 | blanks every scan entry |
| `WorkerMailbox.IncrementalWorkerState.CopyTo` | src/incremental_worker.rs:80-119 | copies exactly the counted prefix and leaves the rest of the output |
| `WorkerMailbox.IncrementalWorkerState.Take` | src/incremental_worker.rs:206-244 | returns only a response with the expected id, counts a mismatch once, and releases the busy flag after a scan copy |
| `WorkerMailbox.IncrementalWorkerState.PollProxy` | src/incremental_worker.rs:490-514 | drains at most one response, reports only its own id's, and otherwise asks for a poll when the mailbox can take it |
| `WorkerMailbox.IncrementalWorkerState.TakeWork` | src/incremental_worker.rs:292-310 | the worker's critical section at the head of a turn |
| `WorkerMailbox.IncrementalWorkerState.PublishTurn` | src/incremental_worker.rs:403-418 | the worker's critical section at the end of a turn |
| `WorkerProtocol.StepKeepsInv` | src/incremental_worker.rs:179-420 | every step of runner, worker, signallers and poller keeps the protocol invariant |
| `WorkerProtocol.AtMostOneToken` | src/incremental_worker.rs:179-244 | in every reachable state at most one of command, work in hand, response and copy exists, so publishing overwrites nothing |
| `WorkerProtocol.ScanNeverShared` | src/incremental_worker.rs:221-242 | the worker never touches scan storage while the runner copies it |
| `WorkerProtocol.DeliveriesAreExact` | src/incremental_worker.rs:206-244 | everything delivered carries the id polled for, and copied scan entries are what the backend wrote since the last scan began |
| `WorkerProtocol.ResponsesConserved` | src/incremental_worker.rs:206-220 | each published response is delivered, dropped as stale and counted once, waiting, or being copied |
| `WorkerProtocol.ActiveStepsThroughNone` | src/incremental_worker.rs:403-418 | no step moves the active id to another without passing through none, an id that ends becomes the last terminal one, and a deadline is kept only with an active id |
| `WorkerProtocol.NotStuck` | src/incremental_worker.rs:284-310 | a runner waiting for the backend and not scheduled always leaves the worker or a signaller something to do |
| `WorkerProtocol.QuietStepIsProgress` | src/incremental_worker.rs:284-420 | each such step comes closer to the wake-up and keeps the runner waiting |
| `WorkerProtocol.WorkerAloneWakesRunner` | src/incremental_worker.rs:405-418 | the worker and its signallers alone bring a waiting runner to be scheduled |
| `WorkerProtocol.QuiescenceMeansQueued` | src/incremental_worker.rs:456-482 | when they have nothing left to do the waiting runner has been scheduled, in whatever order they moved |
| `WorkerProtocol.WaitingRunnerIsWoken` | src/incremental_worker.rs:456-514 | both, for every reachable state in which the runner waits for the backend |
| `WorkerProtocol.CallsEnd` | src/incremental_worker.rs:490-514 | a poll that takes an accepted start's answer goes on to ask; a call returns only on another answer of its own, after waking the worker, or when the mailbox is taken, and is then owed a wake-up if it was told to wait |
| `WorkerProtocol.CallsFinishAlone` | src/incremental_worker.rs:456-514 | every call of the runner, a scan copy included, ends by the runner's own steps and waits for nobody |
| `WorkerProtocol.StartRoundTrip` | src/incremental_worker.rs:179-418 | from any idle state a start is executed in one worker turn, makes its id active if accepted and free, and its outcome is what the next poll of that id takes |
| `WorkerProtocol.BusyFlagFallsDuringCopy` | src/incremental_worker.rs:405-418 | a reachable state in which the busy flag is clear during a scan copy |
| `WorkerAnswers.HistoriesAreRuns` | src/incremental_worker.rs:179-420 | the books below cover every run of the system |
| `WorkerAnswers.AnswersArriveUnchanged` | src/incremental_worker.rs:338-418 | in every run the worker executes what was submitted in order, publishes for each command what the backend answered to it or the injected completion, and the runner delivers exactly the taken answers of the id asked for, unchanged and in order |
| `WorkerAnswers.WritesArrive` | src/incremental_worker.rs:338-386 | in every run scan storage has received what backend polls wrote since the last scan start, but for what the current poll has still to write |
| `WorkerAnswers.MailboxFollowsBooks` | src/incremental_worker.rs:292-418 | in every run cancellation, injection, active id, last ended id and deadline are what the calls, turns and published answers say |
| `CryptoHandles.DecodeEncoded` | src/ble_compat.rs:160-172 | decoding undoes encoding for every slot and generation |
| `CryptoHandles.EncodeDecoded` | src/ble_compat.rs:160-172 | every accepted handle is the encoding of what it decodes to |
| `CryptoHandles.GenerationAdvances` | src/ble_compat.rs:155-158 | the successor of the generation of one taking is that of the next |
| `CryptoHandles.GenerationsRepeat` | src/ble_compat.rs:155-158 | two takings share a generation exactly when a multiple of 2^24 - 1 apart |
| `CryptoHandles.HandleNamesOneTaking` | src/ble_compat.rs:155-172 | equal handles less than a period apart name the same slot and taking |
| `CryptoTables.DestroyKeepsKeys` | src/ble_compat.rs:912-933 | destroying a keyslot never leaves a ladder attached to a freed one |
| `CryptoTables.KeyStepKeepsInv` | src/ble_compat.rs:886-1096 | every key call keeps ladders on live keyslots of their generation and kind, free slots blank and key lengths legal |
| `CryptoTables.KeyRunKeepsInv` | src/ble_compat.rs:886-1096 | the same over every sequence of calls |
| `CryptoTables.MaterialLengths` | src/ble_compat.rs:1133-1146 | key material read for AES is 16 bytes and for HMAC between 1 and 64, in every reachable state |
| `CryptoTables.StaleKeyHandleRefused` | src/ble_compat.rs:912-1096 | a call naming a dead keyslot or ladder returns an error and changes nothing, and a dead keyslot yields no key |
| `CryptoTables.OnlyTakingAdvances` | src/ble_compat.rs:886-959 | only taking a slot changes its generation, by one |
| `CryptoTables.GenerationCountsTakings` | src/ble_compat.rs:886-959 | a slot's generation counts how often it was taken |
| `CryptoTables.OldKeyHandleLiveIff` | src/ble_compat.rs:912-1048 | an old handle is accepted exactly when its slot is in use and was taken a multiple of 2^24 - 1 times since |
| `CryptoMaps.CallFollows` | src/ble_compat.rs:886-1096 | each key call succeeds exactly when maps from live handles with room for two allow it, and does to the tables what it does to the maps; a handle given out names nothing live |
| `CryptoMaps.DestroyKeyslotFollows` | src/ble_compat.rs:912-933 | a keyslot is destroyed exactly when live with no ladder pointing at it |
| `CryptoMaps.AttachFollows` | src/ble_compat.rs:979-1005 | a ladder is attached exactly when live and detached and the keyslot is live and of the destination's kind, and then points at it |
| `CryptoMaps.DetachFollows` | src/ble_compat.rs:1008-1025 | a ladder is detached exactly from the destination and keyslot named, and then points at nothing |
| `CryptoMaps.SetClearKeyFollows` | src/ble_compat.rs:1051-1096 | a clear key is taken exactly when the ladder's engine, the keyslot's kind and the length fit, and replaces that keyslot's key only |
| `CryptoMaps.TablesRefineMaps` | src/ble_compat.rs:886-1096 | the same after every sequence of calls |
| `CryptoMaps.ClearKeyIsStored` | src/ble_compat.rs:1089-1091 | after any calls a successful set makes the keyslot yield exactly the key given and changes no other slot and no ladder |
| `CryptoMaps.StartReadsLastKey` | src/ble_compat.rs:1133-1146 | after any calls a start reads from a live keyslot of its kind the clear key last set through a ladder since the keyslot was created, nothing if none was, and nothing from any other |
| `CryptoOps.AllocateReturns` | src/ble_compat.rs:181-194 | an allocation numbers a new taking of a free slot and records its key |
| `CryptoOps.BeginReturns` | src/ble_compat.rs:196-208 | beginning an update yields the key of the slot's current taking, once |
| `CryptoOps.EndKeeps` | src/ble_compat.rs:210-237 | a completion or failure, however late, keeps the table right |
| `CryptoOps.ClearKeeps` | src/ble_compat.rs:239-252 | taking a result or destroying an operation keeps the table right |
| `CryptoOps.ClearAllKeeps` | src/ble_compat.rs:1169-1176 | deinitialising clears every slot and keeps its generation |
| `CryptoOps.LateEndLandsIff` | src/ble_compat.rs:210-225 | a completion lands exactly when its slot is updating and the takings are a multiple of the period apart |
| `CryptoOps.TakenResultIsExact` | src/ble_compat.rs:239-252 | a taken result has the engine's length and is the function of the key and input of the update that ended in the slot, which belongs to this taking or to one whole periods earlier |
| `CryptoMaps.AllocateFollows` | src/ble_compat.rs:181-194 | an operation starts exactly while fewer than two are live, under a new handle, with the key given |
| `CryptoMaps.BeginFollows` | src/ble_compat.rs:196-208 | an update begins exactly on a started operation and yields its key |
| `CryptoMaps.CompleteFollows` | src/ble_compat.rs:210-225 | a completion lands exactly on a running operation and leaves it done with the result given |
| `CryptoMaps.FailFollows` | src/ble_compat.rs:227-237 | a failure removes exactly a running operation |
| `CryptoMaps.TakeFollows` | src/ble_compat.rs:239-252 | a result is taken exactly from a done operation, which is then gone |
| `CryptoMaps.DestroyFollows` | src/ble_compat.rs:1263-1275 | a destroy removes exactly a live operation |
| `CryptoMaps.ClearAllFollows` | src/ble_compat.rs:1253-1260 | deinitialising leaves no operation live |
| `CryptoMaps.ClearingLeavesNothing` | src/ble_compat.rs:227-252 | failing, taking and destroying free that slot with every key and result byte zero and leave the other slot; deinitialising frees both |
| `CryptoRuns.StepKeepsTables` | src/ble_compat.rs:1179-1385 | every call half, with any number of hardware steps in flight, keeps all tables right |
| `CryptoRuns.StepKeepsLog` | src/ble_compat.rs:1179-1385 | and keeps every flight, issued handle and finished output right |
| `CryptoRuns.FinishIsExact` | src/ble_compat.rs:1278-1385 | in every run a finished output is what the update that ended in its slot computed; if fewer than 2^24 - 1 takings lay between that update's begin and end, it is the function of the key its start read and the input of its one update |
| `CryptoRuns.EndLandsIff` | src/ble_compat.rs:1202-1236 | in every run the end of an update changes a table exactly when its slot waits for an end and was taken a multiple of 2^24 - 1 times since |
| `CryptoRuns.LengthTestsNeverReject` | src/ble_compat.rs:1278-1385 | in every run the key-length test of a MAC start and the result-length test of a finish never reject |
| `CryptoRuns.FinishReturnsIff` | src/ble_compat.rs:1354-1385 | in every run a finish returns exactly when its buffer holds 32 or 16 bytes and its handle has a result, and otherwise changes nothing |
| `CryptoRuns.OldHandleAcceptedIff` | src/ble_compat.rs:181-252 | in every run update, finish and destroy accept an old handle exactly when its slot is in the right state a multiple of the period later |
| `CryptoDevice.StepCommutes` | src/ble_compat.rs:1179-1385 | every call half is the step of the same name on maps of keys, ladders and operations, and a handle it gives out names nothing live |
| `CryptoDevice.SystemRefinesDevice` | src/ble_compat.rs:1179-1385 | every interleaving of calls is a run of that simpler device with the same keys, operations, calls in progress and outputs |
| `CryptoDevice.EndGivesResult` | src/ble_compat.rs:1220-1236 | in every run, where the end of an update lands, success leaves exactly the MAC of its key and input to be taken, failure leaves the slot free and zero and no call accepts its handle |
| `CryptoDevice.UndisturbedReturnsMac` | src/ble_compat.rs:1179-1385 | from every reachable state a start, update and finish with nothing between append exactly the MAC of the keyslot's key and the input, nothing if the hardware fails, and leave keys and operations as they were |
| `CryptoOrigins.RunsHaveBooks` | src/ble_compat.rs:1179-1385 | the books below exist for every run |
| `CryptoOrigins.OutputsComeFromSuccess` | src/ble_compat.rs:1202-1236 | in every run each output was computed by a hardware step that succeeded, from that update's key and input |
| `CryptoOrigins.IssuedKeyIsLastClearKey` | src/ble_compat.rs:1179-1200 | in every run the key of each started operation is the clear key last set, when its start read the keyslot, since the keyslot was created |
| `CryptoOrigins.FinishDownToClearKey` | src/ble_compat.rs:1051-1385 | in every run, a period not having passed, an output is HMAC-SM3 or AES-CMAC, 32 or 16 bytes, of that clear key and of the input of an update whose hardware step succeeded |
| `CryptoDriver.BleCryptoState.constructor` | src/ble_compat.rs:129-153 | the tables start blank |
| `CryptoDriver.BleCryptoState.CreateKeyslot` | src/ble_compat.rs:886-909 | takes the first free keyslot and advances its generation |
| `CryptoDriver.BleCryptoState.DestroyKeyslot` | src/ble_compat.rs:912-933 | frees a live, unattached keyslot and nothing else |
| `CryptoDriver.BleCryptoState.CreateKlad` | src/ble_compat.rs:936-959 | takes the first free ladder |
| `CryptoDriver.BleCryptoState.DestroyKlad` | src/ble_compat.rs:962-976 | frees a live ladder |
| `CryptoDriver.BleCryptoState.Attach` | src/ble_compat.rs:979-1005 | attaches a live ladder to a live keyslot of a compatible kind |
| `CryptoDriver.BleCryptoState.Detach` | src/ble_compat.rs:1008-1025 | detaches exactly the named attachment |
| `CryptoDriver.BleCryptoState.SetAttr` | src/ble_compat.rs:1028-1048 | sets the engine of a live ladder |
| `CryptoDriver.BleCryptoState.SetClearKey` | src/ble_compat.rs:1051-1096 | writes a key of legal length into the attached keyslot, which then yields exactly that key |
| `CryptoDriver.BleCryptoState.DestroyMac` | src/ble_compat.rs:1263-1275 | clears a live MAC operation |
| `CryptoDriver.AllocateCryptoOp` | src/ble_compat.rs:181-194 | takes the first free operation slot in place |
| `CryptoDriver.BeginCryptoUpdate` | src/ble_compat.rs:196-208 | moves a started operation to updating in place |
| `CryptoDriver.CompleteCryptoUpdate` | src/ble_compat.rs:210-225 | stores a result in place if generation and state still match |
| `CryptoDriver.FailCryptoUpdate` | src/ble_compat.rs:227-237 | clears a failed update in place if generation and state still match |
| `CryptoDriver.TakeCryptoResult` | src/ble_compat.rs:239-252 | returns and clears a finished operation |
| `CryptoDriver.ClearOps` | src/ble_compat.rs:1253-1260 | clears every operation slot |
| `SaeField.ConstantsDecode` | src/crypto_sae.rs:48-65 | the exponent and element bytes decode to p - 2, (p - 1) / 2, 1 and p - 1 |
| `SaeField.InverseIsCorrect` | src/crypto_sae.rs:495-531 | a canonical operand has no result exactly when it is zero or the hardware failed; any result is the one inverse below the prime |
| `SaeField.HalfPowerIsClassified` | src/crypto_sae.rs:237-244 | the half power is always one of the three recognised elements and agrees with Euler's criterion |
| `SaeField.LegendreIsCorrect` | src/crypto_sae.rs:729-767 | the return code is -2 on hardware failure and otherwise 0, 1 or -1 as the operand is zero, a square or not |
| `SaeField.DispatchDoesNotShow` | src/crypto_sae.rs:591-632 | whichever path is taken, an answer is the modular power or the inverse below the modulus, and none is given only if that path failed or the operand is zero |
| `SaeField.LegendreDispatchDoesNotShow` | src/crypto_sae.rs:729-767 | for every value and odd prime the code is that of the value's symbol, or -2 exactly when the path taken failed |
| `SaeRandom.LeadingZeros` | src/crypto_sae.rs:130-132 | the shift that brings the byte's top bit to bit 7 |
| `SaeRandom.AndIsRemainder` | src/crypto_sae.rs:457 | masking with 2^k - 1 is the remainder by 2^k |
| `SaeRandom.MaskShape` | src/crypto_sae.rs:130-132 | the mask is the least 2^k - 1 covering the byte, and 2^k is at most twice the byte |
| `SaeRandom.MinimalForm` | src/crypto_sae.rs:444-450 | the unpadded encoding decodes to the modulus and starts with a non-zero byte |
| `SaeRandom.CandidateBelowTwice` | src/crypto_sae.rs:434-472 | every masked candidate is below twice the modulus |
| `SaeRandom.EveryValueEquallyLikely` | src/crypto_sae.rs:434-472 | for every value below the modulus the set of raw strings that mask to it has exactly 2^(cleared bits) members |
| `SaeRandom.RandomBelow` | src/crypto_sae.rs:444-472 | the first accepted draw, below the modulus; no result exactly on a zero modulus, an entropy failure reached before it, or 128 rejections |
| `SaeObjects.AliasIsIdenticalOrDisjoint` | src/crypto_sae.rs:113-127 | two objects are accepted exactly when identical, or neither wraps and they share no byte |
| `SaeObjects.BignumAliases` | src/crypto_sae.rs:278-308 | accepts exactly non-null pointers pairwise valid as aliases |
| `SaeObjects.BignumObject.Owned` | src/crypto_sae.rs:75-92 | an owned object holds its value |
| `SaeObjects.BignumObject.Borrowed` | src/crypto_sae.rs:75-92 | a borrowed object holds its value |
| `SaeObjects.Memory.constructor` | src/crypto_sae.rs:67-73 | memory starts with no objects |
| `SaeObjects.Memory.CloneAt` | src/crypto_sae.rs:167-173 | the value behind a pointer that is not null, aligned and of the right magic word |
| `SaeObjects.Memory.StoreAt` | src/crypto_sae.rs:185-195 | overwrites exactly an aligned, owned object of the right magic word and refuses every other pointer |
| `SaeObjects.Memory.Compute` | src/crypto_sae.rs:311-351 | succeeds exactly when aliases, operands, arithmetic and result are accepted, storing the function of the operands' old values even when the result is an operand |
| `SaeObjects.Memory.Rand` | src/crypto_sae.rs:434-472 | stores a sample below the modulus, or fails exactly on a bad alias, modulus, sampling or result, changing nothing |
| `SaeObjects.StepKeepsInv` | src/crypto_sae.rs:278-391 | every call keeps live objects apart and every live group's constants in place |
| `SaeObjects.ConstantsSurvive` | src/crypto_sae.rs:384-391 | no call but the group's own deinitialisation frees or changes its constants |
| `SaeObjects.ConstantsOutliveCalls` | src/crypto_sae.rs:771-795 | over any run a live group's prime, order and coefficients are unchanged until it is deinitialised |
| `SaeObjects.LivePointersAccepted` | src/crypto_sae.rs:278-308 | the alias test never rejects live objects |
| `SaeObjects.InPlaceEqualsFresh` | src/crypto_sae.rs:311-351 | after any run an in-place call stores what a call with a separate output stores, and changes nothing else |
| `SaeObjects.BadCallChangesNothing` | src/crypto_sae.rs:278-351 | a null, misaligned, dead or foreign operand or result, a borrowed result or a partial overlap leaves everything as it was |
| `SaeObjects.EcInitInstallsConstants` | src/crypto_sae.rs:771-788 | a group installs prime, order and both coefficients in that order, borrowed, and changes nothing else |
| `SaeObjects.DeinitUndoesInit` | src/crypto_sae.rs:355-391 | deinitialising an object undoes its initialisation |
| `SaeObjects.EcDeinitUndoesEcInit` | src/crypto_sae.rs:771-795 | deinitialising a group undoes its initialisation |
| `SaeObjects.NothingLeaks` | src/crypto_sae.rs:355-795 | after any run the live objects are exactly those initialised and not deinitialised since, holding what the last successful call stored, and the constants of live groups |
| `SaeObjects.InverseCallIsCorrect` | src/crypto_sae.rs:495-531 | after any run the inverse call on a P-256 operand stores the one inverse, also over the operand, or changes nothing exactly when the operand is zero or the hardware fails |
| `SaeObjects.ExpModCallIsCorrect` | src/crypto_sae.rs:591-632 | after any run the power call stores the modular power of its operands' values, also over an operand, or changes nothing |
| `TxRing.TxTrace.constructor` | src/data_path_diag.rs:19-24 | the trace starts empty |
| `TxRing.TxTrace.RecordSubmission` | src/data_path_diag.rs:172-177 | writes echo and time to the next slot in place and counts with 32-bit wrap |
| `TxRing.TxTrace.ConsumeSubmission` | src/data_path_diag.rs:186-197 | skips what was overwritten and reads the next slot |
| `TxRing.TakenOrOverwritten` | src/data_path_diag.rs:172-197 | over every run indices are handed out in increasing order, and each one passed is either handed out or was overwritten |
| `TxRing.TakeIsOldestKept` | src/data_path_diag.rs:186-197 | a take skips exactly the overwritten submissions and hands out the oldest kept |
| `TxRing.RingRefinesFifo` | src/data_path_diag.rs:172-197 | below 2^32 submissions the ring is the lossy queue, word for word |
| `TxRing.RefinesIff` | src/data_path_diag.rs:172-197 | the ring is the lossy queue all along a run exactly when the run makes fewer than 2^32 submissions |
| `TxRing.WrappedTotalStopsReader` | src/data_path_diag.rs:186-197 | at 2^32 submissions the reader gets nothing though one waits |
| `BondQueue.BleBondRecordQueue.constructor` | src/ble.rs:339-364 | the queue starts empty with zero counters |
| `BondQueue.BleBondRecordQueue.Push` | src/ble.rs:367-383 | appends to the ring, or drops and counts when four wait |
| `BondQueue.BleBondRecordQueue.Pop` | src/ble.rs:385-401 | removes the oldest record and counts it |
| `BondQueue.PushIsItsSteps` | src/ble.rs:367-383 | an uninterrupted push is its atomic actions in order, with the drop counted exactly when four wait |
| `BondQueue.PopIsItsSteps` | src/ble.rs:385-401 | an uninterrupted pop likewise, delivering what it counts |
| `BondQueue.StepConserves` | src/ble.rs:367-401 | each atomic action of a push or pop keeps the balance, counters wrapping |
| `BondQueue.RecordsConserved` | src/ble.rs:356-401 | at every interleaving point received equals processed, dropped, pending and calls between their counts modulo 2^32, and records leave in the order they entered |
| `BondQueue.QuiescentDiagnosticsBalance` | src/ble.rs:403-411 | with no call in flight the four diagnostic numbers balance |
| `BondQueue.BleB1Controller.constructor` | src/ble.rs:701-708 | no peer has been observed |
| `BondQueue.BleB1Controller.NextVendorBondRecord` | src/ble.rs:753-770 | the scan in place over observed peers, vendor table and queue |
| `BondQueue.EachBondOnce` | src/ble.rs:753-770 | over any calls and tables each identity is handed out at most once, and observed entries are distinct and fill a prefix |
| `BondQueue.MarkedAreDelivered` | src/ble.rs:753-770 | when records can be taken out of their snapshots, every observed bond was handed out, in that order |
| `BondQueue.QueuedRecordsComeFirst` | src/ble.rs:753-756 | a queued record is handed out before the table is looked at |
| `BondQueue.NextBondIsFirstNew` | src/ble.rs:753-770 | a call hands out the first bond not observed before, and has none exactly when the table is unreadable, holds nothing new, the memory is full, or the record cannot be taken out |
| `Frw.PointersNameNodes` | src/frw.rs:167-183 | a pointer is freed as node i exactly when it is the address of pool node i |
| `Frw.FrwState.constructor` | src/frw.rs:126-135 | pool and FIFO start empty |
| `Frw.FrwState.FetchMsgNode` | src/frw.rs:152-164 | takes the first free node and zeroes it but for its used bit and index, or returns null exactly when none is free |
| `Frw.FetchTakesFreeNode` | src/frw.rs:152-164 | a fetch takes a node that was free, zeroed but for its mark, and leaves the others; null exactly when all are used |
| `Frw.OutAreInUse` | src/frw.rs:152-183 | in every run the nodes marked as used are exactly those fetched and not freed since |
| `Frw.FetchIsExclusive` | src/frw.rs:152-183 | in every run a fetch returns null exactly when all sixteen nodes are out, and otherwise one that is not out |
| `Frw.NoNodeTwice` | src/frw.rs:152-183 | in every run two fetches return the same node only if it was freed in between |
| `Frw.FrwState.FreeMsgNode` | src/frw.rs:167-183 | frees the pool node at that address and ignores every other address |
| `Frw.FrwState.Post` | src/frw.rs:189-205 | appends to the FIFO, refused exactly when 32 nodes are queued |
| `Frw.FrwState.Pop` | src/frw.rs:213-223 | removes the oldest node, or returns null |
| `Frw.FrwState.Drain` | src/frw.rs:237-251 | hands over every queued node up to the first null, in order, and counts them |
| `Frw.DrainTakesAll` | src/frw.rs:237-251 | with no null queued one pass hands over the whole queue |
| `Frw.PostingOrderKept` | src/frw.rs:189-254 | in every run accepted messages are dispatched, in hand or queued, in posting order, none lost or repeated |
| `Frw.NoMessageSleeps` | src/frw.rs:189-254 | a parked worker with a queued message always has a semaphore count or a poster about to signal |
| `Frw.QuietStepIsProgress` | src/frw.rs:227-254 | every enabled step of the worker or of a caller about to signal comes closer to an empty queue and a parked worker |
| `Frw.EveryMessageIsDispatched` | src/frw.rs:227-254 | from every reachable state before a stop the worker and pending signallers can dispatch every accepted message, and whenever they have nothing left to do they have |
| `Frw.PostRefusedIff` | src/frw.rs:189-205 | in every run a post is refused exactly when 32 accepted messages are neither dispatched nor in hand |
| `Frw.PostSendsLastContent` | src/frw.rs:152-205 | in every run an accepted post sends what was last written to the node since it was fetched |
| `Frw.NullIsNeverQueued` | src/frw.rs:189-251 | in every run no null is queued, so each pass of the worker takes the whole queue |
| `Frw.OfferedToLastHandler` | src/frw.rs:209-251 | in every run each message is offered exactly to the handler registered last before its dispatch |
| `Frw.StopEndsWorker` | src/frw.rs:227-265 | from every reachable state after a stop the worker ends by itself, whatever the order, and then dispatches nothing |
| `Frw.StopAndTimeout` | src/frw.rs:230-265 | a stop is seen and signalled, and a timeout makes a parked worker look |
| `Frw.ContentsArriveIntact` | src/frw.rs:152-254 | with callers that free or fill in no node on its way, every message is dispatched with the contents it was posted with |
| `Frw.DisciplinedPostSucceeds` | src/frw.rs:152-205 | callers that post fetched, unqueued nodes and free unqueued ones never see a full FIFO |
| `Frw.EarlyFreesRefusePost` | src/frw.rs:152-205 | nodes freed while queued let the 33rd post be refused |
| `AllocTrace.StoreKeepsSlots` | src/alloc.rs:151-161 | each store of a writer keeps published slots whole and half-written slots unnumbered |
| `AllocTrace.StepKeepsReader` | src/alloc.rs:117-138 | while a slot carries the number first loaded, what was loaded since is that event's |
| `AllocTrace.AcceptedRecordsAreWhole` | src/alloc.rs:94-161 | in every interleaving with one writer per slot, a record accepted with number s is event s entire |
| `AllocTrace.SharedSlotCanMix` | src/alloc.rs:151-161 | after every run with one writer per slot, if a writer is still inside the next number's slot some event can be numbered after which a reader accepts a record that is no event |
| `AllocTrace.WholeIffSlotFree` | src/alloc.rs:94-161 | so numbering one more event keeps every accepted record whole, in all continuations, exactly when no writer is inside that number's slot |
| `AllocTrace.DelayedWriterMixesRecords` | src/alloc.rs:151-161 | an instance: one delayed writer, all others done, makes a reader accept a record that is no event |
| `AllocTrace.ReadSlot` | src/alloc.rs:121-135 | the retry loop ends in the first round whose two numbers agree and returns that round's loads |
| `AllocTrace.ReadRecordsAreWhole` | src/alloc.rs:117-138 | whatever steps lie between the loop's loads, a record it returns with number s is event s entire |
| `AllocTrace.AllocationTrace.constructor` | src/alloc.rs:51-71 | slots start unnumbered |
| `AllocTrace.AllocationTrace.RecordAllocation` | src/alloc.rs:151-161 | numbers the event with 32-bit wrap and writes its slot |
| `AllocTrace.Snapshot` | src/alloc.rs:117-138 | fills as many entries as there are slots, each from an agreeing round, and leaves the rest of the output |
| `AllocTrace.LastSixteenKept` | src/alloc.rs:151-161 | the trace holds exactly the last sixteen events, each in its slot |
| `Reservations.ReleaseRemaining` | src/composition.rs:1521-1533 | releases what the batch still holds, in order, up to the first refusal, and reports success exactly when none is refused |
| `Reservations.GiveIsPrefix` | src/composition.rs:1521-1533 | giving a list back releases exactly its members before the first refused one |
| `Reservations.GiveAllBack` | src/composition.rs:1490-1516 | the late failure paths release vendor, worker and remaining groups in that order, with success exactly when none is refused |
| `Reservations.TakeGroups` | src/composition.rs:1464-1490 | the admission reserves every planned group and the takes give vendor, worker and batch each its own |
| `Reservations.ClaimProfileStorage` | src/composition.rs:1426-1519 | when the claim succeeds, what each path leaves reserved, and on success one owner for each group |
| `Reservations.FailureReleasesAllIff` | src/composition.rs:1486-1517 | a late failure leaves nothing reserved exactly when no release is refused, and releases no group twice |
| `Reservations.InitIncrementalClaimed` | src/composition.rs:959-1045 | the worker's reservation is consumed by its spawn or given back on every other path |
| `Reservations.InitIncremental` | src/composition.rs:943-1045 | over the whole start-up a failed claim gives every group back in order, once, up to a refused release; after a claim the vendor's stays, and the worker's, where one is planned, is spawned or released exactly once |

## Left out

- Vendor and ROM calls, the RTOS driver, the HAL and the crypto hardware: not visible; parameters or arbitrary functions here.
- Weak memory: all atomics are sequentially consistent here, although the trace stores and several counters are relaxed in the code.
- Semaphore failures and capacity: raising and lowering always succeeds.
- Pointer tests of the C interface outside the bignum calls; a pointer to memory that holds no object is refused here like one with a wrong magic word.
- Time, software timers and the CMSIS and LiteOS shims: `crate::timer` is not part of this model; a timeout is a step that may happen at any moment.
- The `standard-l2` branches of the worker and of start-up, and the coexistence start-up after its claim.
- Elliptic-curve points, and the encoding calls of the bignum adapter: they repeat the ownership and alias rules already modelled.
- Square, product and sum of field elements: pass-through calls, covered only as arbitrary arithmetic in `SaeObjects`.
- The UDP echo classifier and the packing of completion words: single functions of their arguments.
- The event queue beside the bond-record queue: the same ring with a counter inside the lock.
- The free-event trace: the allocation trace without its size word.
- AllocTrace.AcceptedRecordsAreWhole: a step that would number event 2^32 is not modelled, because the numbers repeat from there.
- TxRing.RingRefinesFifo: calls run one after another; interleaved halves of two calls are not modelled.
- BondQueue.QuiescentDiagnosticsBalance: the four diagnostic loads are not interleaved with other calls.
- AllocTrace.ReadSlot: says nothing of a slot on which no round ever agrees, since the loop then never returns.
- AllocTrace.Snapshot: likewise for a slot it never finishes reading.
- SaeObjects.Memory.Rand: clearing the entropy buffer is not modelled.
- Reservations.TakeGroups: the branches for an admitted batch that lacks a planned group are not modelled, because the driver hands out every group it admitted.
