# Miaominal: verified models of its protocols

Miaominal is an SSH client whose agent types commands into the user's own live
terminal, and whose mobile backend keeps credentials, sessions, port forwards and
an event stream behind one lifecycle. This project states what those protocols
promise and proves it for every input, every interleaving or every run.

| file | what it models |
|---|---|
| `TerminalLease.dfy`, `TerminalExec.dfy` | the lease an agent holds on a terminal: one command at a time, one Ctrl-C at most, streaming detection of the answer; as a state machine with a history, and as the shared object that runs it |
| `TerminalTap.dfy`, `TerminalChannel.dfy` | the capacity-8 tap, its receiver and the two receive loops, of a typed command and of a script, together with the lease |
| `ExecLoop.dfy` | the receive loop's growing and trimmed buffer |
| `TerminalScript.dfy`, `ScriptLoop.dfy`, `Utf8.dfy`, `Base64.dfy`, `Search.dfy` | typing a wrapped script and reading its output back, from the terminal's bytes, through noise and however they are cut |
| `TargetShell.dfy` | what the typed input does on the target: a shell that reads the here-document and runs the script, down to what the terminal shows |
| `EventBus.dfy`, `EventBusObject.dfy`, `Subscriptions.dfy` | the bounded event window against the unbounded log, and parking and waking of subscribers |
| `VaultOutcomes.dfy`, `VaultMigration.dfy` | moving credentials into and out of the local vault with faults everywhere, how each call ends told from the faults in store, and passphrase revocation |
| `RenderFrames.dfy` | delta frames of a terminal and the clients that overlay them |
| `ForwardPhases.dfy`, `ForwardRegistry.dfy` | one forwarding session's state, and one live session per rule over all interleavings |
| `CloseHandshake.dfy`, `SessionTable.dfy`, `Lifecycle.dfy` | closing a session while it is being attached; the table of sessions and a shutdown's sweep through it; initialization, operations, snapshots and shutdown of a backend |
| `UseTree.dfy` | expanding nested Rust use trees |
| `PathGuard.dfy` | workspace paths and shell quoting |
| `Results.dfy` | Option and Result |

Conventions. Code that updates objects in place is a class whose methods equate the
new state with a function of the old one (`TerminalExecShared`,
`TerminalOutputChannel`, `SharedEventBus`, `MobileData`, `SshSessionInner`,
`ForwardSessionInner`, `ForwardSessionRegistry`, `SessionRegistry`, `Backend`); the theorems are about
that function and about all runs of it. A critical section is one step; what happens
between two critical sections is interleaved freely. A history that exists only for
the theorems (the log of everything published, the commands sent, the states the disk
went through) is kept beside the state.

## What the proofs found

Most promises hold as they stand. These do not, and each has a lemma that shows it and
one that says exactly when the promise does hold:

* Enabling the vault is crash safe, except when the settings write reports failure
  after the new flag has been stored (the rename succeeded and syncing its directory
  did not): the rollback then erases the vault that a restart selects.
  `TornFlagStrandsCredentials` runs into it. `EnableVault` states for all inputs and
  faults that some disk state loses a needed secret if and only if `Strands`, a
  condition on the inputs and the faults in store: the copy succeeds, the flag is
  written and reported not to be, the erasure is not refused, and something is needed.
* Disabling the vault never loses a secret, but it may leave the running process on a
  store that a restart would not select: `TornFlagDividesProcessAndRestart` is such a
  run, and `DisableVault` states that it happens if and only if `Divides`. Settings
  writes that do not report failure after taking effect rule out both
  (`UntornNeverStrandsNorDivides`).
* Changing the vault's passphrase may report failure after the file was rewritten under
  the new one: the session goes on as unlocked with a passphrase that no longer opens
  its vault (`FailedChangeStraysFromItsFile`). `ChangeVaultPassphrase` states that this
  happens to a session that could read its vault if and only if `Strays` holds of the
  inputs and the faults in store.
* A script whose target can make its first temporary file and not its second leaves the
  first behind; no other run leaves a file (`TypedInputRuns`, `FailedSetupIsReported`).
* Disconnecting a forwarding handle removes by rule. When its rule has been started
  again in the meantime, the newer, live session is dropped from the registry and the
  next start runs a second one (`StaleDisconnectBreaksIt`, `StaleDisconnectHappens`;
  exactly when a step does this: `ForwardRegistry.StepKeepsInv`).
* A stopped or failed forwarding session may still report a bound port: a binding that
  is reported late sets it whatever the phase is, and failing does not take it away
  (`StoppedMayReportAPort`, `FailedMayReportAPort`). After every run, a session reports
  a port if and only if that port was bound last and no stop, and no route lost before
  the session's end, came later (`ReportsThePortLeft`; it has ended if and only if some
  operation ended it: `EndedExactly`).
* A second call to shutdown returns while operations are still running
  (`ClosedIsNotDrained`), and also before the first has asked the sessions to close
  (`DrainedIsNotTold`). A call that returns at once keeps everything a shutdown promises
  if and only if the backend is drained and every session was sent Close
  (`PromiseExactly`); the call that closed the backend always does
  (`WhenAReturningShutdownKeepsItsPromise`).
* Resolving a workspace path is not idempotent (`HomeReappears`). It is exactly for
  paths that name nothing, or whose last named segment does not end in white space and
  whose first one, if they are relative, starts neither with white space nor with a tilde
  (`ResolvingTwice`). And the root directory resolves to the workspace
  (`RootBecomesTheWorkspace`; for all other paths the destination is kept:
  `ResolvedLeadsThere`).
* The use-tree expansion may never end, or read past the end (`ExpansionMayNotEnd`):
  exactly on a closing brace that nothing opened, and on a last `as`
  (`ExpansionEnds`).
* Cutting the receive loop's buffer is not always invisible (`OverlongIsMissed`): it is
  exactly for sentinels that fit into what a cut leaves behind (`TrimmingIsExact`).

## Model

| member | source | states |
|---|---|---|
| TerminalLease.OneCommandAtATime | crates/miaominal-agent/src/channel.rs:137-236 | in every run at most one sent command is outstanding: a new one can be sent, and the terminal handed on, only when every earlier one was answered with its own sentinel; no two share a sentinel |
| TerminalLease.DetectionIsExact | crates/miaominal-agent/src/channel.rs:292-368 | the lease is Completed exactly when the whole output since the last command holds its sentinel and a digit, or its receive loop confirmed it, although only a short tail is kept |
| TerminalLease.ChunkingIsInvisible | crates/miaominal-agent/src/channel.rs:330-368 | observing output chunk by chunk ends in the very state that observing it in one piece would, for every way of cutting it |
| TerminalLease.AnswersAreHistory | crates/miaominal-agent/src/channel.rs:137-290 | phase and answers told from the history alone: a command starts if and only if the lease was not retired, every earlier command is over, epochs are left, its sentinel is new and not empty, and it can be sent, and else is refused for the first of these reasons; a cancel interrupts the newest command if and only if it is not over and was not interrupted before; the terminal may be handed on exactly when every command is over and the lease was retired or lost its owners |
| TerminalLease.RunsAnswerByHistory | crates/miaominal-agent/src/channel.rs:129-368 | the same in every run from a fresh lease |
| TerminalLease.SendsExactly | crates/miaominal-agent/src/channel.rs:208-290 | a command is typed exactly when its start is accepted, and Ctrl-C exactly when a cancel answers that it interrupted or tried to |
| TerminalLease.TailSuffices | crates/miaominal-agent/src/channel.rs:340-362 | an answer that the text so far does not hold shows in the last sentinel-many bytes and the next chunk exactly when the whole text holds it |
| TerminalLease.UnknownEndsWithTheCommand | crates/miaominal-agent/src/channel.rs:309-368 | Unknown is left only towards Completed, without a new command, and only when every command is over |
| TerminalLease.InterruptsAreSafe | crates/miaominal-agent/src/channel.rs:238-290 | Ctrl-C is attempted at most once per command, only while that command is not over, and only by a step that retires the lease |
| TerminalLease.RetiredNeverSends | crates/miaominal-agent/src/channel.rs:167-236 | a retired lease stays retired and never sends again, whatever follows |
| TerminalLease.CancelIsFinal | crates/miaominal-agent/src/channel.rs:238-290 | after a cancel that concerns the newest command no later command is ever sent |
| TerminalLease.RetiredAndSettledStays | crates/miaominal-agent/src/channel.rs:137-142 | once retired and settled the lease stays releasable for good |
| TerminalLease.StaleCallsAreInvisible | crates/miaominal-agent/src/channel.rs:238-328 | calls made with a stale epoch leave no trace: in every reachable state, deleting them from any run changes nothing |
| TerminalLease.StepKeepsInv | crates/miaominal-agent/src/channel.rs:129-368 | every operation keeps the lease invariant that ties phase, epoch, tail, owners, retirement and used sentinels to the history |
| TerminalExec.TerminalExecShared.RegisterOwner | crates/miaominal-agent/src/channel.rs:144-146 | one step of the machine: the owner count grows |
| TerminalExec.TerminalExecShared.UnregisterOwner | crates/miaominal-agent/src/channel.rs:148-165 | the last owner of a reserved lease releases it, and nothing else |
| TerminalExec.TerminalExecShared.StartCommand | crates/miaominal-agent/src/channel.rs:167-222 | the whole new state and whether the bytes were sent, for every refusal and a failing send; the result is the one that the history demands (`StartAnswer`) |
| TerminalExec.TerminalExecShared.Retire | crates/miaominal-agent/src/channel.rs:224-236 | the whole new state after retiring |
| TerminalExec.TerminalExecShared.CancelMatching | crates/miaominal-agent/src/channel.rs:238-290 | the whole new state and whether Ctrl-C was sent, for matching and stale epochs; the outcome is the one that the history demands (`CancelAnswer`) |
| TerminalExec.TerminalExecShared.Complete | crates/miaominal-agent/src/channel.rs:292-307 | the whole new state of a confirmation, unchanged for a stale epoch |
| TerminalExec.TerminalExecShared.MarkUnknownIfPending | crates/miaominal-agent/src/channel.rs:309-328 | the whole new state, unchanged for a stale epoch |
| TerminalExec.TerminalExecShared.ObserveOutput | crates/miaominal-agent/src/channel.rs:330-368 | the whole new state and the observed epoch of one chunk |
| TerminalExec.TerminalExecShared.CanReleaseLease | crates/miaominal-agent/src/channel.rs:137-142 | the terminal may be handed on exactly when the history says so: every command is over, and the lease was retired or nobody owns it |
| TerminalTap.StepRefinesLease | crates/miaominal-agent/src/channel.rs:427-526 | every step of tap, receiver and receive loop is a sequence of lease steps, so that all lease theorems hold of it |
| TerminalTap.FifoUpToFirstFailure | crates/miaominal-agent/src/channel.rs:446-526 | what was received and what is queued is in order everything offered while the tap is open; an offer fails exactly when the history says so, and after the first that does nothing offered later is ever delivered |
| TerminalTap.OffersAnswerByHistory | crates/miaominal-agent/src/channel.rs:446-478 | how an offer ends, told from the history alone: sent while nothing failed, the receiver is there and fewer than eight chunks wait |
| TerminalTap.ClosedAcceptsNothing | crates/miaominal-agent/src/channel.rs:446-486 | a tap that was closed or overflowed stays closed and accepts nothing |
| TerminalTap.ReceiveIsJustified | crates/miaominal-agent/src/channel.rs:1405-1563 | a receive loop, of a typed command or of a script, confirms it only when its sentinel and a digit were offered to the tap |
| TerminalTap.SettledMeansAnswered | crates/miaominal-agent/src/channel.rs:427-568 | with tap and both receive loops together, every command but the newest, and the newest before the terminal is handed on, was answered in the offered output |
| TerminalTap.ArrivedMeansAnswered | crates/miaominal-agent/src/terminal_script.rs:113-126 | a script's complete status is an answer by the lease's measure: its end marker and a digit |
| TerminalTap.DetectionSurvivesTheQueue | crates/miaominal-agent/src/channel.rs:446-478 | unless an answer began before the command was typed, Completed means exactly that the bytes offered since hold the answer, also after overflow or close |
| TerminalTap.TapDoubtsExactly | crates/miaominal-agent/src/channel.rs:446-527 | a pending command is marked unknown exactly by a failed send, by closing and by dropping the receiver |
| TerminalTap.LoopsBegin | crates/miaominal-agent/src/channel.rs:1398-1523 | a receive loop begins, and its command is sent, if and only if the history lets the command start |
| TerminalTap.LoopsRead | crates/miaominal-agent/src/channel.rs:1405-1563 | it takes chunk after chunk in order and ends, with its command over, exactly with the chunk that completes what it waits for |
| TerminalTap.LoopsGiveUp | crates/miaominal-agent/src/channel.rs:551-568 | giving up retires the lease and interrupts the command if and only if it is not over and was not interrupted |
| TerminalTap.ChannelStepKeepsInv | crates/miaominal-agent/src/channel.rs:427-568 | every step keeps the joint invariant of queue, receive buffer and lease |
| TerminalChannel.TerminalOutputChannel.TrySend | crates/miaominal-agent/src/channel.rs:446-478 | observation, queueing, overflow and closing of one send, as one step of the joint machine, answering what the history demands |
| TerminalChannel.TerminalOutputChannel.CloseTap | crates/miaominal-agent/src/channel.rs:480-485 | closing marks a pending command unknown and stops the queue |
| TerminalChannel.TerminalOutputChannel.DropReceiver | crates/miaominal-agent/src/channel.rs:523-527 | dropping the receiver, as one step |
| TerminalChannel.TerminalOutputChannel.DrainPending | crates/miaominal-agent/src/channel.rs:514-516 | the drain loop empties the queue and changes nothing else |
| TerminalChannel.TerminalOutputChannel.BeginCommand | crates/miaominal-agent/src/channel.rs:1398-1523 | after draining, starting a command or a script begins its receive loop exactly when the start was accepted |
| TerminalChannel.TerminalOutputChannel.ReceiveOne | crates/miaominal-agent/src/channel.rs:1405-1563 | one received chunk either answers and completes the command or is kept, trimmed for a typed command and whole for a script; a script over 32 MB reads no more |
| TerminalChannel.TerminalOutputChannel.GiveUpCommand | crates/miaominal-agent/src/channel.rs:551-568 | a timeout or a dropped guard cancels the command's own epoch and ends the loop |
| ExecLoop.TrimmingChangesNothing | crates/miaominal-agent/src/channel.rs:1533-1558 | with the buffer trimmed the loop stops after the same chunk as with all output kept |
| ExecLoop.TrimmingIsExact | crates/miaominal-agent/src/channel.rs:1547-1557 | this holds for all outputs if and only if the sentinel fits into the 128 KiB a cut leaves |
| ExecLoop.OverlongIsMissed | crates/miaominal-agent/src/channel.rs:1547-1557 | for every longer sentinel an output that is missed |
| ExecLoop.StreamTakesIsLeast | crates/miaominal-agent/src/channel.rs:1533-1552 | the loop over all output stops after the least number of chunks that ends answered |
| ExecLoop.CollectUntilAnswered | crates/miaominal-agent/src/channel.rs:1525-1560 | the loop answers exactly when some prefix of the chunks ends answered, at the first one |
| ExecLoop.MachineRunsTheLoop | crates/miaominal-agent/src/channel.rs:1525-1560 | the receive steps of tap and lease end the loop with the same chunk as the loop on all output |
| ExecLoop.ReadingKeepsAnswers | crates/miaominal-agent/src/channel.rs:1533-1552 | the loop's text, read chunk by chunk as lossy UTF-8, holds an answer exactly when the bytes that the lease watches do, for every cutting and every ASCII sentinel |
| TerminalScript.TerminalScriptInput | crates/miaominal-agent/src/terminal_script.rs:63-102 | the buffer built chunk by chunk is the typed form of opening line, 76-character lines, delimiter and closing line; what that does when it is typed is stated by `TargetShell.TypedInputRuns` |
| TerminalScript.TypedScriptDecodes | crates/miaominal-agent/src/terminal_script.rs:63-102 | for every command the here-document opens with its line, ends only at its delimiter, decodes to exactly the wrapped script, and the closing line follows |
| TargetShell.TypedInputRuns | crates/miaominal-agent/src/terminal_script.rs:63-102 | typed into the shell, the input runs the command once and prints both outputs in base64 behind their own markers and the status behind the end marker, or the end marker alone with 125 for a failed setup; it leaves no file, but for the first temporary file where the second cannot be made |
| TargetShell.CommandOutputComesBack | crates/miaominal-agent/src/terminal_script.rs:63-173 | command output in is parsed output out: whatever the command writes and returns, typing it and parsing what the terminal shows, among any text without a marker, gives exactly that output and status |
| TargetShell.FailedSetupIsReported | crates/miaominal-agent/src/terminal_script.rs:63-150 | a target that cannot make its temporary files ends in the error that says so |
| TerminalScript.EchoHidesMarkers | crates/miaominal-agent/src/terminal_script.rs:84-101 | the echo of the typed lines behind any prompts holds none of the three markers |
| TerminalScript.EchoNeverSettles | crates/miaominal-agent/src/terminal_script.rs:84-101 | so the echo never counts as an answer to the lease |
| TerminalScript.StatusOfPrinted | crates/miaominal-agent/src/terminal_script.rs:113-126 | behind any text, the printed status is read back exactly |
| TerminalScript.OutputRoundTrips | crates/miaominal-agent/src/terminal_script.rs:130-173 | for every token, status and output, and behind any text without a marker, parsing the transcript gives exactly the status and the two outputs, read as lossy UTF-8 |
| TerminalScript.TextRoundTrips | crates/miaominal-agent/src/terminal_script.rs:130-173 | a script that writes text gets that very text back |
| TerminalScript.EchoIsHarmless | crates/miaominal-agent/src/terminal_script.rs:84-101 | the echo of any command, between other text without markers, is such text; joining them brings up none |
| TerminalScript.TypedAheadRoundTrips | crates/miaominal-agent/src/terminal_script.rs:63-173 | the output comes back also when the terminal echoes the whole input twice |
| TerminalScript.EndIsUnique | crates/miaominal-agent/src/terminal_script.rs:95-126 | the end marker occurs in the transcript exactly once, at its place |
| TerminalScript.NeverCutShort | crates/miaominal-agent/src/terminal_script.rs:113-165 | on every prefix of the transcript the status is absent or final, and from the terminator on the whole output is right |
| TerminalScript.ParsedFromTheText | crates/miaominal-agent/src/terminal_script.rs:113-173 | for all text: whatever is parsed stood in it, each output in canonical base64 behind its own marker and the status behind the end marker, with something behind it; nothing is invented |
| TerminalScript.ErrorsTellWhatIsMissing | crates/miaominal-agent/src/terminal_script.rs:130-173 | with a status in place, the error says whether the first marker is missing, the setup failed, or the second marker does not follow; with both markers in order only garbled base64 is refused |
| ScriptLoop.RunScriptViaTerminal | crates/miaominal-agent/src/channel.rs:1413-1449 | the loop reads, waits for the status, gives up over 32 MB, and parses |
| ScriptLoop.ScriptComesBack | crates/miaominal-agent/src/channel.rs:1380-1449 | from bytes to result: whatever a script writes, whatever harmless bytes surround it and however the terminal cuts them, the caller gets exactly that output and status, or the loop gives up if and only if it held more than 32 MB before the status came |
| ScriptLoop.AgentGetsTheOutput | crates/miaominal-agent/src/channel.rs:1380-1449 | the whole way: a command is typed, the target runs it, the terminal cuts what it prints into chunks, and the loop returns exactly what the command wrote and its status, or gives up if and only if it held more than 32 MB before the status came |
| ScriptLoop.NoStatusYet | crates/miaominal-agent/src/terminal_script.rs:113-126 | bytes that end before the character behind the status give none, however they were cut |
| ScriptLoop.ReadUpToStatus | crates/miaominal-agent/src/channel.rs:1413-1426 | up to the status only the noise before the markers depends on how the bytes were cut, and it brings up no marker |
| Utf8.TextSurvives | crates/miaominal-agent/src/terminal_script.rs:172-172 | lossy reading gives well-formed text back as it is (section 3 of RFC 3629) |
| Utf8.LosslessExactly | crates/miaominal-agent/src/terminal_script.rs:172-172 | lossy reading loses nothing if and only if the bytes are the encoding of some text |
| Utf8.AsciiSurvives | crates/miaominal-agent/src/channel.rs:1419-1419 | reading chunks one by one neither invents nor loses ASCII text, whatever other bytes are cut apart |
| Utf8.ReadApart | crates/miaominal-agent/src/channel.rs:1419-1419 | what was read comes apart wherever a byte beside the cut is ASCII |
| Utf8.TakesTheLongest | crates/miaominal-agent/src/terminal_script.rs:172-172 | each replacement stands for the longest beginning of a character, or for one byte that begins none (section 3.9 of the Unicode Standard) |
| Base64.DecodeEncode | crates/miaominal-agent/src/terminal_script.rs:82-82 | decoding undoes the standard encoding (section 4 of RFC 4648) for all bytes |
| Base64.EncodeDecode | crates/miaominal-agent/src/terminal_script.rs:167-173 | only canonical text decodes: whatever is accepted is the encoding of its bytes |
| Base64.AlphabetIsStandard | crates/miaominal-agent/src/terminal_script.rs:82-82 | the alphabet is that of Table 1 of RFC 4648 |
| Base64.GroupsAreBits | crates/miaominal-agent/src/terminal_script.rs:82-82 | three bytes and their four characters are the same 24 bits |
| Base64.PaddingIsZeros | crates/miaominal-agent/src/terminal_script.rs:82-82 | padding stands for missing bytes that count as zero (section 4 of RFC 4648) |
| EventBus.PublishRefines | crates/miaominal-android/src/events.rs:178-201 | publishing keeps the window equal to the end of the unbounded log, with the right sequence numbers |
| EventBus.DrainReadsTheLog | crates/miaominal-android/src/events.rs:312-345 | a batch is the slice of the log right behind the cursor, or behind exactly the evicted events with a resync flag |
| EventBus.OutcomeReadsTheLog | crates/miaominal-android/src/events.rs:312-345 | the whole outcome, told from the log alone: while the cursor has not passed every event, exactly the events right behind it or behind the evicted ones, numbered, as many as there is room for, flagged if and only if some were evicted; else Closed or Wait; the cursor moves to the last event handed out |
| EventBus.QuietOnlyAtTheEnd | crates/miaominal-android/src/events.rs:334-345 | Closed and Wait are answered exactly when the cursor has passed every published event |
| EventBusObject.SharedEventBus.PublishEvent | crates/miaominal-android/src/events.rs:178-201 | pushing, popping down to 512 and waking everyone registered is the step of bus and subscriptions, and keeps the window equal to the log's end |
| EventBusObject.SharedEventBus.CloseBus | crates/miaominal-android/src/events.rs:209-225 | closing, once, wakes everyone registered and forgets them, as the step of bus and subscriptions |
| EventBusObject.SharedEventBus.Subscribe | crates/miaominal-android/src/events.rs:227-243 | a new subscription is registered at its cursor, and nothing else changes |
| EventBusObject.SharedEventBus.Latest | crates/miaominal-android/src/events.rs:204-206 | the latest sequence is the length of the log |
| EventBusObject.SharedEventBus.CollectRetained | crates/miaominal-android/src/events.rs:323-333 | the loop over the window collects what the cursor has not passed, up to the limit |
| EventBusObject.SharedEventBus.Drain | crates/miaominal-android/src/events.rs:312-345 | one drain answers what the log says (`LogOutcome`) and moves the cursor to the last event of its batch |
| Subscriptions.DeliveryRefinesTheLog | crates/miaominal-android/src/events.rs:178-345 | over all interleavings the answers a subscription got hold the log from its start to its cursor, once and in order, but for gaps that were reported |
| Subscriptions.TilesAreOrdered | crates/miaominal-android/src/events.rs:323-333 | nothing is delivered twice or out of order |
| Subscriptions.ClosedComesLast | crates/miaominal-android/src/events.rs:334-345 | a subscription is told that it ended only once it was cancelled, or the bus is closed and everything published was delivered or reported lost |
| Subscriptions.CancelTakes | crates/miaominal-android/src/events.rs:246-260 | every subscription can be cancelled at any time |
| Subscriptions.CancelledForGood | crates/miaominal-android/src/events.rs:262-309 | after a cancellation nothing more is handed out, whatever follows: every answer is that the subscription has ended |
| Subscriptions.NoLostWakeUp | crates/miaominal-android/src/events.rs:262-309 | a parked consumer with no permit and no wake-up on its way has nothing to see and was not cancelled |
| Subscriptions.CallsGetTheirAnswer | crates/miaominal-android/src/events.rs:262-309 | in every run a call that has something to see, or was cancelled, gets to its answer by its own steps and without its timeout, answers once, and with just that: the events behind the cursor, or the end |
| Subscriptions.OtherwiseItWaits | crates/miaominal-android/src/events.rs:262-309 | a call that has nothing to see parks unless a permit is stored, which it uses up, and answers an empty batch when it gives up |
| Subscriptions.NewSubscriberIsServed | crates/miaominal-android/src/events.rs:227-345 | the first call of a new subscription answers what the log holds behind the point it starts from |
| Subscriptions.WakesExactly | crates/miaominal-android/src/events.rs:178-260 | wake-ups are neither lost nor made up: one for each publication and the closing to everyone registered and for a first cancellation, delivered once, to the parked consumer or as the stored permit |
| Subscriptions.StepKeepsInv | crates/miaominal-android/src/events.rs:178-309 | every publish, close, subscribe, cancel, drain, park and wake keeps the invariant behind these |
| VaultMigration.MobileData.constructor | crates/miaominal-android/src/data.rs:1357-1380 | a fresh process starts locked exactly when the persisted flag is set, holding no passphrase |
| VaultMigration.MobileData.SetVaultEnabledFlag | crates/miaominal-android/src/data.rs:1716-1731 | what is persisted and reported for every fault of the reload and of the write |
| VaultMigration.MobileData.ReplaceVaultPassphrase | crates/miaominal-android/src/data.rs:1351-1355 | the passphrase replaced is revoked; all installed ones but the held one stay revoked |
| VaultMigration.MobileData.CopyAndVerify | crates/miaominal-android/src/data.rs:1775-1798 | for which faults it succeeds; then the target is its old contents overlaid with the source's accounts, whatever a write may store; no other account or store is touched at any step |
| VaultMigration.MobileData.CopyEverything | crates/miaominal-android/src/data.rs:1541-1600 | the same for the accounts and the three sync secrets together |
| VaultMigration.MobileData.Delete | crates/miaominal-android/src/data.rs:1604-1614 | a deletion that is not refused takes exactly its account out of the store |
| VaultOutcomes.NothingIsLeft | crates/miaominal-android/src/data.rs:1604-1614 | with no deletion refused a cleaned-up store is its old contents without the accounts |
| VaultMigration.MobileData.Cleanup | crates/miaominal-android/src/data.rs:1604-1614 | best-effort removal leaves exactly the accounts of which every deletion was refused, and touches no others |
| VaultMigration.MobileData.SwitchToVault | crates/miaominal-android/src/data.rs:1197-1221 | switching, persisting and rolling back: every disk state is safe if and only if the flag is accepted or not stored, the erasure is refused, or nothing is needed |
| VaultMigration.MobileData.EnableVault | crates/miaominal-android/src/data.rs:1170-1221 | the result, told from the inputs and all faults in store; on success every migrated account is gone from the platform store but those whose deletion was refused, and the vault has them; contents of both stores, mode and passphrase; however it ends the process goes on with everything needed; some disk state loses a needed secret if and only if `Strands` holds of the inputs |
| VaultMigration.MobileData.DisableVault | crates/miaominal-android/src/data.rs:1223-1258 | the result, told from the inputs and all faults in store; no disk state ever loses a needed secret, and however it ends the process goes on with everything needed; on success the platform store holds exactly its old contents overlaid with the vault's, and the vault is erased unless that was refused; process and flag part ways if and only if `Divides` holds of the inputs |
| VaultMigration.MobileData.LockVault | crates/miaominal-android/src/data.rs:1260-1276 | exactly when it succeeds; a vault that is enabled ends locked with every passphrase revoked |
| VaultMigration.MobileData.UnlockVault | crates/miaominal-android/src/data.rs:1278-1299 | exactly when it succeeds, which is only with the passphrase of the vault file; then unlocked under a fresh passphrase, the previous one revoked; otherwise unchanged |
| VaultMigration.MobileData.ChangeVaultPassphrase | crates/miaominal-android/src/data.rs:1301-1332 | exactly when it succeeds; contents kept; then unlocked under the new passphrase, with an identity of its own; which passphrase the file is under afterwards; a failure leaves the session as it was or locked with nothing held, and parted from its file if and only if `Strays` holds of the inputs |
| VaultMigration.FailedChangeStraysFromItsFile | crates/miaominal-android/src/data.rs:1301-1332 | a failed change after which the unlocked session no longer reads its vault |
| VaultMigration.MobileData.ClearLocalData | crates/miaominal-android/src/data.rs:1342-1347 | on success a fresh state with every passphrase revoked |
| VaultMigration.StillSafe | crates/miaominal-android/src/data.rs:1184-1195 | while only the store that a restart does not select changes, every state stays crash safe |
| VaultMigration.Erased | crates/miaominal-android/src/data.rs:1200-1206 | with the flag set, erasing the vault is safe if and only if nothing was needed |
| VaultMigration.TornFlagStrandsCredentials | crates/miaominal-android/src/data.rs:1200-1206 | a run in which enabling fails and a restart selects an erased vault |
| VaultMigration.TornFlagDividesProcessAndRestart | crates/miaominal-android/src/data.rs:1242-1249 | a run in which disabling fails and the process stays on a vault that a restart does not select |
| VaultMigration.UntornNeverStrandsNorDivides | crates/miaominal-android/src/data.rs:1170-1258 | without torn settings writes neither happens, for all faults of the stores |
| VaultMigration.WorkingStoresStrandOrDivide | crates/miaominal-android/src/data.rs:1170-1258 | with working stores each happens exactly when the flag is written and reported not to be |
| VaultOutcomes.FaultlessOutcomes | crates/miaominal-android/src/data.rs:1170-1258 | with working stores only the mode, the passphrase, the list of accounts and the settings file decide how a migration ends |
| RenderFrames.DiffRows | crates/miaominal-android/src/session.rs:1362-1370 | the loop's result is the diff |
| RenderFrames.DiffIsDiff | crates/miaominal-android/src/session.rs:1362-1370 | the diff holds exactly the rows that differ from the previous ones, once each and in order |
| RenderFrames.DeltaRebuilds | crates/miaominal-android/src/session.rs:1077-1088 | overlaying a delta on the previous rows gives the current rows |
| RenderFrames.RenderRebuilds | crates/miaominal-android/src/session.rs:1025-1133 | after one pull the client holds the cached rows, and these are the rows of a screen shown during the call, also when the screen changes while the frame is drawn |
| RenderFrames.ClientsSeeTheScreen | crates/miaominal-android/src/session.rs:1025-1133 | over every run of output, resizes, focus changes, lost frames and several clients, a client that pulls sees exactly the terminal's screen |
| RenderFrames.ClientsSeeTheCells | crates/miaominal-android/src/session.rs:380-420 | after any run, a client that pulls holds the first 1024 lines cell by cell: a blank for a spacer or NUL and else the character with its marks, the cell's colours and attributes, and the cursor exactly where a focused terminal has a visible one |
| RenderFrames.FullFrameDepicts | crates/miaominal-android/src/session.rs:380-420 | so does a client that knew nothing, from a full frame alone |
| RenderFrames.FlagsTellAll | crates/miaominal-android/src/session.rs:396-420 | every attribute of a cell can be read off its flags |
| RenderFrames.UpToDateGetsTheDifference | crates/miaominal-android/src/session.rs:1033-1088 | a client that is up to date gets a delta with exactly the rows that differ from its own |
| RenderFrames.NothingIsSentTwice | crates/miaominal-android/src/session.rs:1033-1066 | pulling again sends nothing, and a delta only rows the client does not have |
| RenderFrames.SshSessionInner.RenderFrame | crates/miaominal-android/src/session.rs:1025-1133 | the imperative rendering is the render step and keeps the cache invariant; a full frame shows the screen's cells (`Depicts`) |
| RenderFrames.SshSessionInner.SetFocus | crates/miaominal-android/src/session.rs:1004-1009 | a focus that changes moves the revision (modulo 2^64), wakes the waiters and outdates the cached frame; the same focus changes nothing |
| ForwardPhases.RunKeepsInv | crates/miaominal-android/src/forward.rs:337-569 | over every sequence of operations: failed exactly when a failure is recorded; reconnecting implies no bound port and a recorded error |
| ForwardPhases.TerminalIsAbsorbing | crates/miaominal-android/src/forward.rs:337-569 | stopped and failed are never left, with the same recorded failure |
| ForwardPhases.StoppedMayReportAPort | crates/miaominal-android/src/forward.rs:480-501 | a stopped session with a bound port |
| ForwardPhases.FailedMayReportAPort | crates/miaominal-android/src/forward.rs:480-519 | a failed session with a bound port |
| ForwardPhases.ReportsThePortLeft | crates/miaominal-android/src/forward.rs:337-569 | after every run, a session reports a port if and only if that port was bound last and neither a stop nor a route lost before the session's end came later |
| ForwardPhases.EndedExactly | crates/miaominal-android/src/forward.rs:337-374 | after every run, a session has ended if and only if some operation was a stop, a failure or the entry into a terminal phase |
| ForwardPhases.PortAfterTheEnd | crates/miaominal-android/src/forward.rs:356-501 | an ended session keeps its port until another is bound |
| ForwardPhases.SameRevisionMeansSameState | crates/miaominal-android/src/forward.rs:337-569 | over any run of fewer than 2^64 operations a reader that finds the revision it knows has missed nothing, also where the counter wraps |
| ForwardPhases.FailedExactlyByAFatalEvent | crates/miaominal-android/src/forward.rs:439-569 | over every sequence of events a session has failed if and only if some event was fatal where it came: an error, or a failure of a forward that was not up yet |
| ForwardPhases.EveryEventIsHeard | crates/miaominal-android/src/forward.rs:439-569 | one event changes exactly the fields it speaks of: phase, failure, relay failure, request, port, reconnect state and hop |
| ForwardPhases.PhaseOfEvents | crates/miaominal-android/src/forward.rs:439-569 | over every sequence of events the phase is Failed if some was fatal where it came, else Stopped if some stopped the session, else the one entered last |
| ForwardPhases.ShowsTheRequestLeft | crates/miaominal-android/src/forward.rs:337-569 | a session shows a request if and only if it was asked last and nothing has settled it since |
| ForwardPhases.ForwardSessionInner.ApplyEvent | crates/miaominal-android/src/forward.rs:439-569 | every event is the sequence of locked operations it stands for |
| ForwardPhases.ForwardSessionInner.Attach | crates/miaominal-android/src/forward.rs:306-320 | filling the slot sends the Close that was asked for before: all steps of the handshake's attaching side |
| ForwardPhases.ForwardSessionInner.RequestClose | crates/miaominal-android/src/forward.rs:630-639 | the request is remembered, the phase becomes Stopping unless it is terminal, and Close goes through the channel if it is there: all steps of the handshake's request |
| ForwardPhases.ForwardSessionInner.FinishTask | crates/miaominal-android/src/forward.rs:680-685 | the session is over afterwards, and unchanged if it was before |
| ForwardRegistry.OneLiveSessionPerRule | crates/miaominal-android/src/backend.rs:1062-1128 | over every interleaving of starts, stops, workers and shutdown, at most one session of a rule is live, and it is the registered one |
| ForwardRegistry.HoldersShareTheLock | crates/miaominal-android/src/forward.rs:806-815 | in every run whoever waits for or is inside one rule shares one lock however the weak table was pruned; different rules share none; two are never inside for one rule |
| ForwardRegistry.StepKeepsLocks | crates/miaominal-android/src/forward.rs:806-815 | every step keeps the invariant of the lock table, a disconnect that drops a live session included |
| ForwardRegistry.StartIsIdempotent | crates/miaominal-android/src/backend.rs:1062-1083 | a start that finds its rule live answers with that session and creates none |
| ForwardRegistry.StopLeavesNoneLive | crates/miaominal-android/src/backend.rs:1104-1128 | a stop leaves no live session of its rule, also one that a start has just created |
| ForwardRegistry.UndisturbedStart | crates/miaominal-android/src/backend.rs:1062-1083 | a start that nothing disturbs creates and registers exactly one session of an idle rule |
| ForwardRegistry.UndisturbedStop | crates/miaominal-android/src/backend.rs:1104-1128 | a stop that nothing disturbs asks the rule's session to close, removes it and says whether there was one |
| ForwardRegistry.AskingStops | crates/miaominal-android/src/forward.rs:630-639 | asking a session sends Close to its worker and shows it as stopping unless it has ended; no other session changes |
| ForwardRegistry.TableIsPruned | crates/miaominal-android/src/forward.rs:806-815 | behind every call the lock table holds the locks that somebody has, and no others |
| ForwardRegistry.ClearingEndsAll | crates/miaominal-android/src/forward.rs:906-918 | clearing leaves nothing registered, ends what was and ran, and touches no other session |
| ForwardRegistry.ShutdownGetsThrough | crates/miaominal-android/src/forward.rs:876-918 | whatever is registered, a shutdown can be brought to its end and leaves nothing |
| ForwardRegistry.ShutdownMissesNothing | crates/miaominal-android/src/forward.rs:829-881 | once a shutdown has asked everyone it listed, Close was sent to the worker of every session that had not ended, no session is live, none is created, and none will be |
| ForwardRegistry.StepKeepsInv | crates/miaominal-android/src/forward.rs:806-918 | every step keeps the registry invariant, if and only if it is not a disconnect that drops a newer live session |
| ForwardRegistry.StaleDisconnectBreaksIt | crates/miaominal-android/src/forward.rs:1092-1104 | after any such disconnect the next start runs a second live session of the rule |
| ForwardRegistry.StaleDisconnectHappens | crates/miaominal-android/src/forward.rs:1092-1104 | a run that reaches such a disconnect |
| ForwardRegistry.ForwardSessionRegistry.LockOf | crates/miaominal-android/src/forward.rs:806-815 | pruning and reusing or replacing the lock, as the machine does it |
| ForwardRegistry.ForwardSessionRegistry.ActiveSession | crates/miaominal-android/src/forward.rs:853-858 | the registered session of the rule unless it has ended |
| ForwardRegistry.ForwardSessionRegistry.Start | crates/miaominal-android/src/forward.rs:833-845 | creation and registration, refused once closed |
| ForwardRegistry.ForwardSessionRegistry.RequestCloseAll | crates/miaominal-android/src/forward.rs:876-881 | the loop over the listed sessions is as many ask steps of the machine |
| ForwardRegistry.ForwardSessionRegistry.ClearAll | crates/miaominal-android/src/forward.rs:906-918 | dropping all sessions in any order ends each of them |
| CloseHandshake.CloseIsAlwaysSent | crates/miaominal-android/src/session.rs:558-572 | in every interleaving of attaching with any number of close requests, once both are through Close was sent, and never without a request |
| CloseHandshake.AttachingTakesOver | crates/miaominal-android/src/session.rs:1190-1199 | a request that found no channel leaves exactly one Close for the attaching side to send |
| CloseHandshake.RequestGetsThrough | crates/miaominal-android/src/session.rs:1190-1199 | a request that nobody disturbs sets the flag and sends Close once if the slot is filled; it waits while the slot is locked |
| CloseHandshake.AttachGetsThrough | crates/miaominal-android/src/session.rs:558-572 | attaching fills the slot and sends Close once if it was asked for |
| CloseHandshake.NextKeepsInv | crates/miaominal-android/src/session.rs:558-572 | every step keeps the invariant between flag, slot and sent commands |
| SessionTable.SweepMissesNothing | crates/miaominal-android/src/session.rs:1409-1454 | over every interleaving of starts, attachments, requests, removals and the sweep: once it is through, Close was sent to the worker of every session ever created, registered or not, and no session is created any more |
| SessionTable.RemovedWereTold | crates/miaominal-android/src/backend.rs:909-922 | a session that left the table was sent Close before |
| SessionTable.StartGetsThrough | crates/miaominal-android/src/session.rs:1409-1421 | behind the open door a start adds exactly one session, attached and registered |
| SessionTable.SweepGetsThrough | crates/miaominal-android/src/session.rs:1449-1454 | from every state with the door open and no start under way the sweep can be brought to its end |
| SessionTable.NextKeepsInv | crates/miaominal-android/src/session.rs:1409-1454 | every step keeps the invariant of table, handshakes and sweep |
| SessionTable.SessionRegistry.StartSession | crates/miaominal-android/src/session.rs:1409-1421 | creation, attachment and registration under the lifecycle lock, refused behind the closed door |
| SessionTable.SessionRegistry.RequestCloseAll | crates/miaominal-android/src/session.rs:1449-1454 | the loop leaves every session ever created with Close sent |
| Lifecycle.ReadyOnceShutdownLast | crates/miaominal-android/src/backend.rs:143-225 | over all interleavings Ready is published at most once, Shutdown at most once and last, and the two flags are what the log says |
| Lifecycle.SnapshotsMatchTheirCursor | crates/miaominal-android/src/backend.rs:198-202 | a snapshot's flags are those of the log up to its cursor, so resuming there misses and repeats nothing |
| Lifecycle.PublishesExactly | crates/miaominal-android/src/backend.rs:143-270 | every step publishes exactly what was asked for, nothing behind Shutdown, and drops nothing before it |
| Lifecycle.SnapshotsShowThePresent | crates/miaominal-android/src/backend.rs:198-202 | a snapshot shows both flags and a cursor behind everything published |
| Lifecycle.InitializeAnswers | crates/miaominal-android/src/backend.rs:143-190 | a closed backend answers nothing, an initialized one a snapshot at once, and any other a snapshot after preparing, unless it was closed meanwhile |
| Lifecycle.EntersExactly | crates/miaominal-android/src/data.rs:131-141 | an operation gets in exactly until the data layer is retired, and is counted |
| Lifecycle.DrainingEnds | crates/miaominal-android/src/data.rs:143-169 | a sleeping shutdown has a running operation to wait for, and when none is left its next step returns |
| Lifecycle.LastToLeaveWakes | crates/miaominal-android/src/data.rs:143-169 | a running operation can leave, and a sleeping shutdown returns behind it if and only if it was the last |
| Lifecycle.SleepsExactlyWhileSomethingRuns | crates/miaominal-android/src/data.rs:157-169 | a shutdown that retires the data layer or wakes up returns if nothing runs, and else sleeps until it is woken |
| Lifecycle.ShutdownReturns | crates/miaominal-android/src/backend.rs:214-270 | with the sessions swept and nothing running the shutdown's own steps bring it to its return |
| Lifecycle.ShutdownIsFinal | crates/miaominal-android/src/backend.rs:214-270 | once shutdown has returned no data operation runs or can ever enter, every session ever created was sent Close, none is created and the log has ended |
| Lifecycle.ClosedIsNotDrained | crates/miaominal-android/src/backend.rs:214-223 | a second shutdown returns while an operation is running, and does not keep the promise |
| Lifecycle.DrainedIsNotTold | crates/miaominal-android/src/backend.rs:214-232 | a second shutdown of a drained backend returns before a session was sent Close |
| Lifecycle.QuietExactlyWhenDrained | crates/miaominal-android/src/data.rs:131-169 | in a closed backend no operation will ever run again if and only if none runs and the gate is shut to those that hold a handle |
| Lifecycle.PromiseExactly | crates/miaominal-android/src/backend.rs:214-270 | in a closed backend it holds for good that no operation runs, every session was sent Close, none is created and nothing is published, if and only if the data layer is drained and every session was sent Close |
| Lifecycle.WhenAReturningShutdownKeepsItsPromise | crates/miaominal-android/src/backend.rs:214-270 | a call that returns at once keeps the whole promise of shutdown if and only if before it the backend was drained and every session was sent Close; the call that closed it always does |
| Lifecycle.NextKeepsInv | crates/miaominal-android/src/backend.rs:143-270 | every critical section keeps the invariant of flags, log, gate, shutdown and snapshots |
| Lifecycle.Backend.CommitInit | crates/miaominal-android/src/backend.rs:170-190 | the commit of initialize, with the snapshot it returns |
| Lifecycle.Backend.CloseDoor | crates/miaominal-android/src/backend.rs:214-223 | closing, publishing Shutdown and closing the bus, once |
| Lifecycle.Backend.EnterOperation | crates/miaominal-android/src/data.rs:131-141 | an operation enters exactly while the data layer is not retired |
| Lifecycle.Backend.LeaveOperation | crates/miaominal-android/src/data.rs:143-152 | leaving counts down and wakes the waiting shutdown at zero |
| Lifecycle.Backend.RetireData | crates/miaominal-android/src/data.rs:157-169 | retiring refuses new operations and waits while any is left |
| UseTree.ExpandPrinted | scripts/check_ui_boundaries.py:227-266 | for every list of nested use trees, expanding its tokens gives exactly what it imports, in order, with aliases, first lines and visibility |
| UseTree.ExpansionEnds | scripts/check_ui_boundaries.py:227-266 | for all tokens: the expansion ends, fails or never ends exactly as counting braces and looking behind each `as` says |
| UseTree.ExpansionMayNotEnd | scripts/check_ui_boundaries.py:227-266 | token lists on which it never ends, and on which it reads past the end |
| UseTree.Branch | scripts/check_ui_boundaries.py:231-257 | the nested loops of one branch compute its walk |
| UseTree.ExpandImports | scripts/check_ui_boundaries.py:259-266 | the outer loop computes the expansion, including where it would never end |
| PathGuard.ResolveWorkspacePath | crates/miaominal-agent/src/path_guard.rs:25-63 | the loop over the segments computes the resolved path or the error |
| PathGuard.AcceptedExactly | crates/miaominal-agent/src/path_guard.rs:25-50 | every path is judged by its characters between the blanks: refused for a tilde in front, then a NUL or line end, then two dots between separators, and accepted otherwise |
| PathGuard.TrimIsExact | crates/miaominal-agent/src/path_guard.rs:26-26 | trimming drops all white space at both ends and nothing else |
| PathGuard.ResolvedLeadsThere | crates/miaominal-agent/src/path_guard.rs:41-63 | followed from any directory, the resolved path leads where the given one does, if and only if that is not the root itself |
| PathGuard.ResolvedStaysInside | crates/miaominal-agent/src/path_guard.rs:41-63 | a relative path never leads out of the directory it starts from |
| PathGuard.ResolvedIsClean | crates/miaominal-agent/src/path_guard.rs:35-63 | no backslash, control character, empty, dot or dot-dot segment is left, and absolute paths stay absolute |
| PathGuard.ResolvingTwice | crates/miaominal-agent/src/path_guard.rs:25-63 | resolving again changes nothing if and only if the path names nothing, or its last named segment does not end in white space and, for a relative path, its first one starts neither with white space nor with a tilde |
| PathGuard.HomeReappears | crates/miaominal-agent/src/path_guard.rs:30-34 | names that are accepted and resolve to something that is refused |
| PathGuard.RootBecomesTheWorkspace | crates/miaominal-agent/src/path_guard.rs:55-62 | the root resolves to the workspace |
| PathGuard.QuotedInContext | crates/miaominal-agent/src/path_guard.rs:79-81 | anywhere on a command line a quoted value adds exactly itself to the word around it (sections 2.2.2 and 2.2.3 of the POSIX.1-2017 Shell Command Language) |
| PathGuard.CommandLineRoundTrip | crates/miaominal-agent/src/path_guard.rs:79-81 | a line of quoted arguments expands to exactly those arguments, for all strings |
| PathGuard.FishRoundTrip | crates/miaominal-agent/src/path_guard.rs:83-86 | fish reads a quoted value back as itself and stops right behind it |

## Left out

- Real time: timeouts, sleeps and deadlines are steps that may happen at any moment; waiting for a lease to settle is not modelled.
- Attaching and closing a session, and waiting for events, interleave inside one call. The interleaving is stated on machines on values; the objects run one such call from start to end.
- Locks are steps that happen at once; poisoned locks and panics are not modelled.
- In the lease and the tap a byte is a character, and the receive loops there hold the bytes themselves; what lossy decoding does to them is stated beside these machines, in ExecLoop and ScriptLoop. Buffers are cut at any character, not at the next boundary of a character in UTF-8, and measured in characters (in ScriptLoop, in bytes).
- In ForwardRegistry a request to close happens at once; its interleaving with attaching is CloseHandshake's part. A forwarding session's channel is in place before the session is registered.
- The epoch of a lease, sequence numbers and frame versions do not wrap around; the owner count and the forwarding revision do.
- Dropping a subscription without cancelling it; more than one consumer of a subscription.
- The encryption of a vault file and the parsing of its contents. The file is opened by the passphrase it was last written under and by no other; opening and rotating may fail for any other reason too.
- The target's shell is interpreted for the constructs that the script is made of, on a POSIX target. Which text the grammar takes for the list in parentheses, and what that list writes and returns, are inputs (`list`, `output`), and the theorems speak of the case that the list is the command; a command that ends the parenthesis early, or leaves a quote or a comment open, is not followed. So are the line ends that a terminal shows and how `base64` breaks its lines. Temporary files are made, written, read and removed without fail but for their making.
- The probe for the target's shell that precedes a script.
- Reads of a credential store return what is stored or fail; a store that answers reads wrongly is not modelled.
- Rendering calls on one session come one after the other and the focus does not change during one; the screen may.
- The terminal emulator: a screen is any grid with a cursor, and each change of it bumps the generation; selection, search and mode fields of a frame are left out, as are wrapping of counts to 32 bits.
- The phases of interactive SSH sessions and their prompts: the same absorbing pattern as for forwarding sessions.
- ForwardSession handles wait for their worker before they remove their session; only the removal is modelled, with the request that precedes it.
- Publishing of forwarding events to the bus, SFTP and agent registries, sync and the log lines.
- The lexer, alias resolution and rule checks around the use-tree expansion.
- PowerShell and CMD quoting, and canonical paths for Windows shells.
- SSH, SFTP, sockets, named pipes, file descriptors and the bindings to Kotlin.
