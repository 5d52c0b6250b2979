# Models of the set-top box firmware

The firmware is mostly glue between Linux, Qt and the chip vendor's libraries. Between the glue sit components with a
state of their own and rules about it. This project models those components in Dafny and proves what they guarantee,
for every input, every run and every schedule, or proves exactly when they do.

- `MessageQueue`, `MessageQueueSafety`, `MessageQueueTheorems`, `MessageQueueCalls`, `MessageQueuePosts`,
  `MessageQueueAnswers`, `MessageQueueSolo`: the bounded message queue between threads over a manual-reset event, as a
  step system over any number of posters, senders, getters and handlers. One step is one action on a shared object; list
  lock, event mutex, flag, wait set and broadcast are separate.
- `LinkedList`, `ThreadDictionary`: the doubly linked list on the heap, which refines a sequence, and the per-thread
  dictionary on it, which refines a map from (thread, key).
- `EventCenter`: the one-shot timers, kept in order of their deadlines.
- `GenericTimer`, `GenericTimerTheorems`: the periodic countdown timers, scanned again after every callback;
  `IdCounter`: the ids of timers and playbacks.
- `Keypad`: the two threads that turn key presses into Down and Up reports.
- `Playback`: the playback service and its messages.
- `GpioButtons`, `GpioButtonsTheorems`, `ButtonReceiver`: edge detection, the event queue, packets over a pipe that
  takes parts of them, and the listener that cuts the byte stream into packets again (its loop is the one in
  `thtfit/WebBrowser/WebBrowserApp.cpp`, lines 7360 to 7404).
- `Tokenizer`, `TokenizerTheorems`, `Split`, `Buffers`, `BuffersTheorems`, `Crc8`, `Checksum`, `Rc4`, `Duration`: the
  parsers and codecs.

Code that changes state is a class, or a method with the loops of the program; its contract ties the new state to a
function of the old one, and the lemmas are about that function. Runs are sequences of calls, of steps under a lock,
or of messages. What comes from outside (clock readings, answers of the pipe and of the media player, wake-ups, what a
timer's callback unregisters) is a parameter, so a claim holds for all of it.

Where the code does not do what it is for, the model keeps the code, and a theorem gives the exact condition under
which it does:

- A `SendMessage` that succeeds was answered unless a spurious wake-up ended its wait, and if nobody else reset its item
  meanwhile, it was answered exactly if its wait saw the flag. A spurious wake-up can end it with success and no answer
  (`MessageQueueTheorems.SendReturnsAfterAnswer`, `MessageQueueAnswers.SendIsAnsweredExactly`,
  `MessageQueueSolo.SpuriousSendExists`).
- A new timer id of the event center is 0 exactly if live timers hold all ids from the first one tried to the last one,
  and none holds 0; a run leads there (`EventCenter.NewIdIsZeroExactly`, `ZeroIdIsReached`).
- A wait and a registration keep every list of timers in order exactly if the clock does not step back. Elapsed time is
  measured in 32 bits, so a head that is too old is missed (`EventCenter.WaitKeepsOrderExactly`,
  `RegisterKeepsOrderExactly`, `WaitIsToEarliestDeadline`, `OverdueHeadIsMissed`).
- A periodic timer's id is never compared with the ids in use, so that of another timer can be unregistered in its
  place, and a check that comes 2^31 ms late misses timers (`GenericTimerTheorems.UnregisterTakesOwnExactly`,
  `CountdownExact`, `LateCheckMissesTimer`).
- The keypad's second thread measures the time since a press in 32 bits and can miss the end of a press by a look that
  comes 2^32 ms late (`Keypad.DetectorReportsExactly`, `LooksOverExactly`, `LookIsMissed`).
- An end-of-stream message ends a session that is only prepared (`Playback.EosInPrepared`, `LateEosEndsNextSession`).
- A write error cuts a packet after k of its 4 bytes. After one error the listener gets the codes of all later packets
  exactly if there are none, or k is at most 1, or k is 2 and at least 256 packets follow. With k = 2 and fewer it
  stalls; with k = 3 it takes the next packet's first byte for a key. For any number of errors the exact condition is
  ComesThrough (`ButtonReceiver.ListenerAfterError`, `CutPacketKeys`, `CutIsReached`, `ListenerExactly`).
- An argument that is a single quote gives a negative copy length, and a command line that does not end with a
  complete argument leaves an array entry unset (`TokenizerTheorems.FaultExactly`, `LoneQuoteFaults`, `PassesFit`,
  `EndingSpaceLeavesUnset`). A written argument comes back exactly if it is printable
  (`TokenizerTheorems.PrintableExactly`).
- A refused string write may have moved the offset, and a received text with a length field of 2^31 or more is accepted
  and sends the reader back (`BuffersTheorems.RefusedWrite`, `TextStaysInsideExactly`, `TextRunsWild`).
- The cyclic check sees every difference within 8 consecutive bits, and of those within 9 all but one pattern
  (`Crc8.BurstDetected`, `NineBitsMissedExactly`).
- RC4 key setup leaves its box for a key with a character above 127, where a char is signed and a running sum falls
  below 0 (`Rc4.EncDecrypt`, `PositiveKeyWorks`, `NegativeStartFails`).

Every lemma carries `{:induction false}`: inductions are spelled out in the lemma bodies.

## Model

| member | source | states |
|---|---|---|
| MessageQueueSafety.OpStepFacts | thtfit/LinuxBaseLib/ThreadMessageQueue.cpp:89-479 | a step outside the event calls changes the queue only under the list lock, takes and releases that lock in turn, and leaves a non-empty queue only if it was one before or the thread goes on to set the flag |
| MessageQueueSafety.CallStepFacts | thtfit/LinuxBaseLib/EventEx.cpp:127-408 | a step inside SetEvent, ResetEvent or a wait follows the mutex; only a broadcast wakes others and then all; nobody goes to sleep on a set flag; only ResetEvent clears it |
| MessageQueueSafety.StepKeepsInv | thtfit/LinuxBaseLib/ThreadMessageQueue.cpp:89-479 | every step of every thread keeps the invariant that ties locks, flag, wait set, queue, program counters and history together |
| MessageQueueSafety.RunKeepsInv | thtfit/LinuxBaseLib/ThreadMessageQueue.cpp:89-479 | so does every run |
| MessageQueueTheorems.NoLostWakeup | thtfit/LinuxBaseLib/ThreadMessageQueue.cpp:95-142 | in every reachable state a getter sleeps beside a waiting message only while the poster that holds the list lock is about to wake it; spurious wake-ups allowed |
| MessageQueueTheorems.IdleQueueIsAwake | thtfit/LinuxBaseLib/ThreadMessageQueue.cpp:237-289 | with the list lock free, a non-empty queue means the flag is set and nobody is in the wait set |
| MessageQueueTheorems.SetFlagWakesAll | thtfit/LinuxBaseLib/EventEx.cpp:127-181 | for every event, a set flag leaves no thread in the wait set except while its setter is about to broadcast |
| MessageQueueTheorems.NoDeadlock | thtfit/LinuxBaseLib/ThreadMessageQueue.cpp:89-306 | whenever some thread is inside a method and not asleep, some such thread can take a step |
| MessageQueueTheorems.AcceptedIsRemovedThenQueued | thtfit/LinuxBaseLib/ThreadMessageQueue.cpp:105-129 | messages removed, followed by those queued, are exactly the accepted ones in order, and never more than 1000 are queued |
| MessageQueueTheorems.AcceptedIsTakenThenQueued | thtfit/LinuxBaseLib/ThreadMessageQueue.cpp:228-306 | without RemoveAllMessage each accepted message was taken by one thread or is still queued, first in first out |
| MessageQueueCalls.GetSteps | thtfit/LinuxBaseLib/ThreadMessageQueue.cpp:228-434 | each step of a getter: with the lock it takes exactly the head of a queue that is not empty, and nothing if it only waits; a wait that succeeds leads back to the queue, and one that fails, which has a limit, out of the call |
| MessageQueueCalls.GetEndsWithMessage | thtfit/LinuxBaseLib/ThreadMessageQueue.cpp:228-434 | in every interleaving a call of GetMessage ends only with exactly one message, taken by its thread since the call began; GetMessageTimeout and PeekMessage end with one such message or none; WaitMessage takes none |
| MessageQueueCalls.GetEndsWithout | thtfit/LinuxBaseLib/ThreadMessageQueue.cpp:308-434 | in every reachable state: a getter leaves without a message only after a wait with a limit that timed out or was interrupted by a signal, after a look at an empty queue, or from WaitMessage |
| MessageQueueCalls.WaitDecides | thtfit/LinuxBaseLib/EventEx.cpp:235-408 | a wait that holds the mutex ends at once with success exactly if the flag is set, with a timeout if its limit is used up, and otherwise goes to sleep and gives the mutex back |
| MessageQueueCalls.WakeDecides | thtfit/LinuxBaseLib/EventEx.cpp:235-408 | a woken thread that holds the mutex again succeeds if the flag is set; if not, it sleeps again or ends with the code of what woke it |
| MessageQueueCalls.SleeperRises | thtfit/LinuxBaseLib/EventEx.cpp:235-408 | a sleeping thread rises by itself only spuriously or, if its wait has a limit, by time or a signal |
| MessageQueueCalls.GetterWaits | thtfit/LinuxBaseLib/ThreadMessageQueue.cpp:237-387 | a getter that found the queue empty gives the lock back and waits without a limit in GetMessage, and with the limit its caller gave otherwise |
| MessageQueueCalls.ClearEmpties | thtfit/LinuxBaseLib/ThreadMessageQueue.cpp:436-479 | RemoveAllMessage leaves an empty queue, and exactly the messages it held count as cleared, in their order |
| MessageQueueTheorems.SendReturnsAfterAnswer | thtfit/LinuxBaseLib/ThreadMessageQueue.cpp:161-192 | a successful SendMessage whose own wait did not end spuriously was accepted and answered: after its reset, the very thread that took the item from the queue set the item's event; what it took was this posting if the item was accepted once only |
| MessageQueueTheorems.SendReturnsAfterAnswerWithoutSpurious | thtfit/LinuxBaseLib/ThreadMessageQueue.cpp:161-192 | in a schedule without spurious wake-ups this holds for every successful SendMessage |
| MessageQueueCalls.SendEndsWithAnswer | thtfit/LinuxBaseLib/ThreadMessageQueue.cpp:161-192 | in every interleaving a whole SendMessage call ends with one result; it is success exactly if its wait saw the flag or was woken, then the item was posted during this call, and answered during it unless the wake-up was spurious |
| MessageQueueAnswers.FlagMeansAnswered | thtfit/LinuxBaseLib/EventEx.cpp:127-225 | in every reachable state an item's flag is set exactly if somebody has answered since the item's last reset |
| MessageQueueAnswers.SendIsAnsweredExactly | thtfit/LinuxBaseLib/ThreadMessageQueue.cpp:161-192 | a SendMessage that returns, and whose item no later reset has cleared, was answered exactly if its wait saw the flag, not if it was woken spuriously, timed out or was interrupted |
| MessageQueueAnswers.HandlerChooses | thtfit/MediaPlayer/MediaSrv.cpp:621-640 | a thread that took a message sets the event of that message or lets it go, and does not come back to it |
| MessageQueueAnswers.AnswerWakesSenders | thtfit/LinuxBaseLib/EventEx.cpp:127-181 | in every interleaving a handler that answers has, when it is done, given exactly that answer since it began, with the flag of the item set and nobody asleep on it at its last step |
| MessageQueuePosts.RefusedPostChangesNothing | thtfit/LinuxBaseLib/ThreadMessageQueue.cpp:95-142 | in every state that keeps the invariant, each of the three steps of a post of a null item or to a full queue, alone or inside SendMessage, leaves queue, events, other threads, answers and the record of messages alone, and it ends in the error code |
| MessageQueuePosts.RefusedPostIsUnseen | thtfit/LinuxBaseLib/ThreadMessageQueue.cpp:95-142 | in every interleaving: the other threads can make the same steps without the refused post, and all but the poster's own result ends up the same |
| MessageQueuePosts.AcceptedPostWakesEverybody | thtfit/LinuxBaseLib/ThreadMessageQueue.cpp:117-142 | in every interleaving: when a post that found room is about to release the list lock, its item and nothing else has been appended, nothing was removed, the flag is set, the wait set is empty and nobody sleeps |
| MessageQueueSolo.SpuriousSendExists | thtfit/LinuxBaseLib/EventEx.cpp:263-284 | from every quiet state with room there is a schedule in which a SendMessage succeeds although nobody answered and its item is still queued |
| LinkedList.List.AddTail | thtfit/LinuxBaseLib/List.c:46-92 | a null datum is refused without a change; any other is appended to the sequence, and the chains, ends and count fit again |
| LinkedList.List.RemoveAll | thtfit/LinuxBaseLib/List.c:106-125 | the list is the empty sequence afterwards |
| LinkedList.List.RemoveAt | thtfit/LinuxBaseLib/List.c:171-198 | exactly the element at the held position is deleted; all other positions stay held |
| LinkedList.List.GetNext | thtfit/LinuxBaseLib/List.c:141-155 | from position i it yields the i-th datum and position i + 1, so a walk visits the sequence in order |
| LinkedList.List.GetAt | thtfit/LinuxBaseLib/List.c:157-169 | the datum of a held position |
| LinkedList.List.ExistTargetData | thtfit/LinuxBaseLib/List.c:200-218 | true exactly if the datum is in the sequence |
| ThreadDictionary.SetRefinesUpdate | thtfit/LinuxBaseLib/ThreadSpecific.c:137-194 | setting a record is updating the map at (thread, key) |
| ThreadDictionary.ReleaseRefinesRemoval | thtfit/LinuxBaseLib/ThreadSpecific.c:344-366 | releasing a record is removing (thread, key) from the map |
| ThreadDictionary.HistoryKeepsUnique | thtfit/LinuxBaseLib/ThreadSpecific.c:137-194 | after any calls of any threads there is at most one record for a thread and key |
| ThreadDictionary.GetReadsLastSet | thtfit/LinuxBaseLib/ThreadSpecific.c:258-284 | get returns the last value the thread set for the key and has not released |
| ThreadDictionary.ThreadsAreIsolated | thtfit/LinuxBaseLib/ThreadSpecific.c:137-366 | what a thread reads depends on its own calls only |
| ThreadDictionary.Dictionary.Search | thtfit/LinuxBaseLib/ThreadSpecific.c:137-165 | the walk over the list finds the position and record of the thread's key, or none |
| ThreadDictionary.Dictionary.SetKeyValue | thtfit/LinuxBaseLib/ThreadSpecific.c:110-217 | the list of records becomes the specified one: overwritten in place or appended |
| ThreadDictionary.Dictionary.GetValueFromKey | thtfit/LinuxBaseLib/ThreadSpecific.c:219-308 | returns what the record sequence holds for the thread and key, and changes none |
| ThreadDictionary.Dictionary.ReleaseKey | thtfit/LinuxBaseLib/ThreadSpecific.c:310-390 | unlinks exactly the thread's record; reports a missing record and an uninitialised dictionary |
| EventCenter.Center.RegisterTimer | thtfit/LinuxBaseLib/EventCenter.cpp:266-385 | refuses the 513th timer without a change, else inserts the new timer before the first one with more time left |
| EventCenter.Center.UnregisterTimer | thtfit/LinuxBaseLib/EventCenter.cpp:387-421 | removes the timer with the id or reports that there is none |
| EventCenter.Center.GetMinTimerWaitTimeMs | thtfit/LinuxBaseLib/EventCenter.cpp:666-717 | rebases timers that start in the future and computes the wait from the head alone |
| EventCenter.Center.GetTimerMessage | thtfit/LinuxBaseLib/EventCenter.cpp:719-752 | hands out the first expired timer and removes it |
| EventCenter.TakenIdsFit | thtfit/LinuxBaseLib/EventCenter.cpp:277-320 | pigeonhole: k consecutive ids, counted round at 32 bits, can be taken only by at least k timers |
| EventCenter.NewIdIsFree | thtfit/LinuxBaseLib/EventCenter.cpp:277-320 | with fewer than 512 live timers the search stops within as many probes as there are timers, on an id no live timer has |
| EventCenter.NeverBackAtStart | thtfit/LinuxBaseLib/EventCenter.cpp:303-320 | so its out-of-range exit is never taken |
| EventCenter.NewIdIsZeroExactly | thtfit/LinuxBaseLib/EventCenter.cpp:282-320 | with fewer than 512 live timers the new id is 0 exactly if all ids from the first candidate to 2^32 - 1 are taken and 0 is not |
| EventCenter.ZeroIdIsReached | thtfit/LinuxBaseLib/EventCenter.cpp:266-421 | a run of registrations and unregistrations from the start leads to one live timer and a next id of 0 |
| EventCenter.RunKeepsInv | thtfit/LinuxBaseLib/EventCenter.cpp:332-367 | under any register, unregister, wait and expire calls with a clock that does not step back the list is ordered by deadline, equal deadlines by registration, with distinct ids |
| EventCenter.CallAccounts | thtfit/LinuxBaseLib/EventCenter.cpp:266-421 | one call takes out of the list exactly what it hands out or unregisters, puts in exactly what it registers, and keeps every other timer |
| EventCenter.TimersAreAccounted | thtfit/LinuxBaseLib/EventCenter.cpp:266-752 | over any run, with any clock, the registrations made are exactly the timers listed and those handed out or unregistered, each once |
| EventCenter.LeavesOnce | thtfit/LinuxBaseLib/EventCenter.cpp:387-752 | a timer that was handed out or unregistered is never handed out or unregistered again, is no longer listed, and was unregistered by its own id only |
| EventCenter.LastIdIsLastMade | thtfit/LinuxBaseLib/EventCenter.cpp:277-385 | after any run the last id, from which the next search counts up, is the id of the last registration made |
| EventCenter.WaitIsToEarliestDeadline | thtfit/LinuxBaseLib/EventCenter.cpp:666-717 | the head has the earliest deadline, and the wait is max(0, deadline - now) exactly if the head is not too old for the 32-bit elapsed time |
| EventCenter.ExpiredTimerIsEarliest | thtfit/LinuxBaseLib/EventCenter.cpp:719-752 | a timer handed out has passed its deadline; it is the one with the least deadline, and none that is due is kept back, exactly under the same condition on the head |
| EventCenter.OverdueHeadIsMissed | thtfit/LinuxBaseLib/EventCenter.cpp:666-752 | a run with two timers after which, at time 2^32, an overdue head is given its full wait again and a later timer is handed out |
| EventCenter.WaitKeepsOrderExactly | thtfit/LinuxBaseLib/EventCenter.cpp:683-686 | for all clock readings: a wait keeps every state that is in order in order, exactly if the clock has not stepped back |
| EventCenter.RegisterKeepsOrderExactly | thtfit/LinuxBaseLib/EventCenter.cpp:332-367 | for all clock readings: so does every registration, exactly if the clock has not stepped back |
| GenericTimer.Timers.RegisterTimer | thtfit/LinuxBaseLib/GenericTimer.cpp:86-131 | refuses a negative timeout or a dead listener without a change, else appends a new timer with its full time left |
| GenericTimer.Timers.UnregisterTimer | thtfit/LinuxBaseLib/GenericTimer.cpp:133-177 | unlinks the first timer with the id, or reports that there is none |
| GenericTimer.Timers.Scan | thtfit/LinuxBaseLib/GenericTimer.cpp:213-243 | the scan that starts again after every callback ends, as the unchecked timers get fewer each time, and does what a single pass in list order does |
| GenericTimer.Timers.CheckAndTrig | thtfit/LinuxBaseLib/GenericTimer.cpp:179-251 | a check is that pass with the time since the last check, for every behaviour of the callbacks that unregister timers; a call from inside a callback changes nothing |
| GenericTimer.Timers.GetNextTimeoutMs | thtfit/LinuxBaseLib/GenericTimer.cpp:253-295 | the least remaining time behind the last negative one; a negative one at the end of the list is returned itself, -1 if there is no timer |
| GenericTimerTheorems.CountdownExact | thtfit/LinuxBaseLib/GenericTimer.cpp:235-236 | the mixed 64- and 32-bit subtraction tells a due timer from one that is not, exactly for the gaps that OnTime names |
| GenericTimerTheorems.LateCheckMissesTimer | thtfit/LinuxBaseLib/GenericTimer.cpp:235-236 | a due timer that a check 2^31 ms late takes for not due |
| GenericTimerTheorems.RestartedInRange | thtfit/LinuxBaseLib/GenericTimer.cpp:232-242 | after a check the remaining time is in (0, timeout] exactly for the gaps that GapAllows names |
| IdCounter.IdsRepeatExactly | thtfit/LinuxBaseLib/GenericTimer.cpp:34-84 | two counts of the id counter give the same id exactly if a multiple of 2^32 - 1 lies between them, and ids are never 0 |
| GenericTimerTheorems.RunInOrder | thtfit/LinuxBaseLib/GenericTimer.cpp:34-251 | after any run from an empty list the listed timers stand in order of registration, each with the id of its registration |
| GenericTimerTheorems.UnregisterTakesOwnExactly | thtfit/LinuxBaseLib/GenericTimer.cpp:133-177 | unregistering the id of a listed timer takes that timer exactly if none before it was registered a multiple of 2^32 - 1 registrations earlier; otherwise the first such timer goes instead |
| GenericTimerTheorems.SweepAccounts | thtfit/LinuxBaseLib/GenericTimer.cpp:201-243 | one check: the timers left keep their order, each was counted down exactly once, every due one was fired, none twice or out of order, and whatever is gone was unregistered by a callback |
| GenericTimerTheorems.SweepTimer | thtfit/LinuxBaseLib/GenericTimer.cpp:201-243 | the same seen from one timer: still listed, it was counted down once and fired exactly if due |
| GenericTimerTheorems.StaysUnlessDropped | thtfit/LinuxBaseLib/GenericTimer.cpp:201-243 | with ids all different, a timer is still listed after a check exactly if no callback of that check unregistered its id |
| GenericTimerTheorems.FirstCheckCountsNothing | thtfit/LinuxBaseLib/GenericTimer.cpp:195-251 | the first check only starts the clock: it counts nothing down and fires no timer with time left |
| GenericTimerTheorems.RunKeepsRange | thtfit/LinuxBaseLib/GenericTimer.cpp:179-251 | between checks, over any run of registrations, unregistrations and checks in which the gaps between checks are at most 2^31 ms modulo 2^32, every timer with a positive timeout has remaining time in (0, timeout] |
| GenericTimerTheorems.NextFiring | thtfit/LinuxBaseLib/GenericTimer.cpp:179-251 | with check gaps of at most 2^31 ms: after the check that started it afresh, a timer that stays listed next fires at the first later check at least its timeout away, and not before; a new timer counts from the check before its registration |
| Keypad.Keypad.AddLastKeycode | thtfit/GpioKbInput/Keypad.cpp:175-208 | one press under the lock is one step of the specified machine |
| Keypad.Keypad.OnLastKeyUp | thtfit/GpioKbInput/Keypad.cpp:97-131 | one stretch of the second thread, from taking the lock to giving it up, is one step of the machine |
| Keypad.ReportsAlternate | thtfit/GpioKbInput/Keypad.cpp:97-208 | in every two-thread schedule reports go Down k, Up k, Down j, Up j; "last key up" holds exactly when the stored key is 0; the second thread never waits unsignalled while a key is down |
| Keypad.ReportsExactly | thtfit/GpioKbInput/Keypad.cpp:97-208 | after every schedule the stored key is the last one pressed, unless a look ended it, and the reports are exactly these: a press ends another key that was down and starts its own unless it was down already, key 0 only ends, and a look that finds the key over ends it |
| Keypad.DetectorIsExpected | thtfit/GpioKbInput/Keypad.cpp:97-208 | after every schedule: the second thread goes to wait only if no key is down, sleeps exactly if a key is down and was pressed too lately, and begins again in all other cases; a key pressed while it waits signals it |
| Keypad.DetectedUpIsLate | thtfit/GpioKbInput/Keypad.cpp:110-122 | an Up by the second thread comes at least 200 ms after every earlier press, even with a clock kept in 32 bits |
| Keypad.DetectorReportsExactly | thtfit/GpioKbInput/Keypad.cpp:110-122 | after any schedule, a look of that thread reports an Up exactly if a key is down and the time since the last press is, modulo 2^32 ms, at least the filter time; otherwise it changes nothing |
| Keypad.LooksOverExactly | thtfit/GpioKbInput/Keypad.cpp:110-122 | that is right exactly for the times outside the first 200 ms after a positive multiple of 2^32 ms |
| Keypad.LookIsMissed | thtfit/GpioKbInput/Keypad.cpp:110-122 | a press and a look 2^32 + 199 ms later that takes the key for just pressed |
| Playback.MediaSrv.OnSetDataSource | thtfit/MediaPlayer/MediaSrv.cpp:949-979 | sets the address in the idle state only |
| Playback.MediaSrv.OnPrepare | thtfit/MediaPlayer/MediaSrv.cpp:981-1034 | moves from idle to prepared, and is refused in every other state |
| Playback.MediaSrv.OnPlay | thtfit/MediaPlayer/MediaSrv.cpp:1036-1174 | moves from prepared to playing with a new id, also when the player refuses; the loop count is taken only if there is a player |
| Playback.MediaSrv.OnStop | thtfit/MediaPlayer/MediaSrv.cpp:3590-3681 | ends a session unless the player refuses, and hands back id and address exactly if one was playing |
| Playback.MediaSrv.OnPlaybackEos | thtfit/MediaPlayer/MediaSrv.cpp:3717-3800 | counts down for the current id only, and at the last round ends the session with a signal |
| Playback.MediaSrv.ProcessMsg | thtfit/MediaPlayer/MediaSrv.cpp:621-695 | every message goes to its handler and gets that one's answer, so the service is the machine of the lemmas below |
| Playback.AnswersTell | thtfit/MediaPlayer/MediaSrv.cpp:949-3800 | after any run: a request is answered as out of state exactly if it is not in time, and then changes nothing; with the player's error exactly if the player was asked and refused; a success means the request did what it says |
| Playback.StatusMoves | thtfit/MediaPlayer/MediaSrv.cpp:949-3800 | after any run: exactly a prepare request leads from idle to prepared, a play request from prepared to playing, and a stop or last end message the player does not refuse from either to idle |
| Playback.StopEnds | thtfit/MediaPlayer/MediaSrv.cpp:3590-3681 | after any run: a stop that the player does not refuse leaves the service idle, keeps id, address, count and signals, and lets a prepare request open the next session; a refused one only clears "complete" |
| Playback.SignalNamesAddress | thtfit/MediaPlayer/MediaSrv.cpp:3717-3800 | after any run: a message emits a signal exactly if it is an end message that closes a session, and that names its id and the address given last while the service was idle; each end message with the last id counts one round down |
| Playback.SessionsBalance | thtfit/MediaPlayer/MediaSrv.cpp:981-3800 | over every run, moves from idle to prepared equal moves back to idle plus one if not idle now, and signals never outnumber the moves back |
| Playback.PlaysOn | thtfit/MediaPlayer/MediaSrv.cpp:3730-3743 | while playing with id p and loop count n, without a stop or a refusing player, fewer than max(1, n) end-of-stream messages with id p change only the count, and other ids nothing |
| Playback.NthEosEnds | thtfit/MediaPlayer/MediaSrv.cpp:3730-3795 | the max(1, n)-th one, and no earlier message, ends playback with one signal for id p |
| Playback.PlayStarts | thtfit/MediaPlayer/MediaSrv.cpp:1050-1152 | a play request taken after any run starts such a playback, with an id that is not 0 and that none of the last 2^32 - 2 playbacks had |
| Playback.PlayIdsRepeatExactly | thtfit/MediaPlayer/MediaSrv.cpp:1050-1152 | two playbacks of a run have the same id exactly if a multiple of 2^32 - 1 play requests lies between them |
| Playback.EosInPrepared | thtfit/MediaPlayer/MediaSrv.cpp:3730-3772 | a prepared session is ended by an end-of-stream message exactly if it carries the last id and at most one round was left |
| Playback.LateEosEndsNextSession | thtfit/MediaPlayer/MediaSrv.cpp:3730-3795 | a run in which that happens, with a second signal for the same id |
| Playback.CompleteMeansNotBrokenOff | thtfit/MediaPlayer/MediaSrv.cpp:3615-3795 | a signal says "complete" exactly if no effective stop request came since the play request, be it refused |
| GpioButtons.GpioBtnInput.ChkGpioBtnInput | thtfit/GpioBtnInput/GpioBtnInputApp.cpp:606-891 | a reading queues the edges of the input lines in bit order, drops the oldest beyond 200 and keeps the pipe watched; a failed reading changes nothing |
| GpioButtons.GpioBtnInput.OnBtnDataOutPipeWrite | thtfit/GpioBtnInput/GpioBtnInputApp.cpp:893-969 | the two nested loops do what the step-by-step drain does for every sequence of answers of the pipe |
| GpioButtonsTheorems.EdgesReplay | thtfit/GpioBtnInput/GpioBtnInputApp.cpp:627-846 | replaying the edges between two readings turns one into the other on the input lines |
| GpioButtonsTheorems.CodesTellEvents | thtfit/GpioBtnInput/GpioBtnInputEventDef.h:4-20 | each line has its own code for down and for up, and the code tells line and edge |
| GpioButtonsTheorems.CheckKeepsLatest | thtfit/GpioBtnInput/GpioBtnInputApp.cpp:847-862 | a reading keeps exactly the latest 200 of the events queued before and found now, all of them if there are fewer |
| GpioButtonsTheorems.WritingDrains | thtfit/GpioBtnInput/GpioBtnInputApp.cpp:899-959 | a pipe that takes enough gets everything, and no packet is cut |
| GpioButtonsTheorems.LosesOnErrorOnly | thtfit/GpioBtnInput/GpioBtnInputApp.cpp:919-931 | over any run: every hard write error that is met cuts exactly one packet short, by 1 to 4 bytes, and bytes are lost in no other way |
| GpioButtonsTheorems.RunKeepsInv | thtfit/GpioBtnInput/GpioBtnInputApp.cpp:606-969 | after any run: detected events are those sent, dropped oldest first, and queued, in order, at most 200 queued; pipe and unsent tail are the packets of the events sent, in order, each up to where an error cut it; replaying the events on 0xFF gives the status on the input lines; the pipe is watched exactly while anything is unsent |
| GpioButtonsTheorems.FramedExactly | thtfit/GpioBtnInput/GpioBtnInputApp.cpp:893-969 | pipe and tail are whole packets in order exactly if the run met no write error |
| ButtonReceiver.ParseStretch | thtfit/GpioBtnInput/GpioBtnInputApp.cpp:941-953 | the first n bytes of the stream of packets built here parse to the codes of the whole packets in them |
| ButtonReceiver.ChunksDecode | thtfit/GpioBtnInput/GpioBtnInputApp.cpp:941-953 | however reads cut that stream, the listener gets the codes of the whole packets read so far and keeps the rest |
| ButtonReceiver.ListenerGetsEvents | thtfit/GpioBtnInput/GpioBtnInputApp.cpp:893-969 | from edge to key: after any run of the sender that met no write error the listener has the codes of exactly the events sent whose packet is in the pipe |
| ButtonReceiver.ListenerKnowsPort | thtfit/GpioBtnInput/GpioBtnInputApp.cpp:606-969 | from port to port: after any run that met no write error, dropped no event and has nothing left to send, replaying the listener's events on a port with all lines high gives the status on the input lines |
| ButtonReceiver.CutPacketKeys | thtfit/GpioBtnInput/GpioBtnInputApp.cpp:919-953 | for every packet cut after 0 to 3 bytes and all whole packets behind it: exactly the keys the listener reads, which are the right ones, none, or the byte 4 and then none or all but the first |
| ButtonReceiver.ListenerAfterError | thtfit/GpioBtnInput/GpioBtnInputApp.cpp:893-969 | from edge to key after any run that met one write error and left no packet half written: the codes before the cut packet, then those keys, and exactly when the later codes come through |
| ButtonReceiver.ListenerExactly | thtfit/GpioBtnInput/GpioBtnInputApp.cpp:893-969 | after any run, with any number of write errors and perhaps a packet half written, the listener has the codes of exactly the events whose packets are whole in the pipe, exactly if ComesThrough holds of the numbers of bytes of each packet in the pipe |
| ButtonReceiver.EarlyCutsAreHarmless | thtfit/GpioBtnInput/GpioBtnInputApp.cpp:893-969 | in particular if no packet is cut after its second or third byte |
| ButtonReceiver.CutIsReached | thtfit/GpioBtnInput/GpioBtnInputApp.cpp:606-969 | for every input line and every k from 0 to 3, a run with one falling edge and one error leaves exactly the first k bytes of its packet in the pipe |
| Tokenizer.CountArguments | thtfit/LinuxBaseLib/Process.c:43-69 | the counting pass computes the specified count |
| Tokenizer.CreateArguments | thtfit/LinuxBaseLib/Process.c:28-143 | the two passes and the array between them: the array is the specified one and has one entry more than were counted; every store is inside it |
| Tokenizer.PassesAgree | thtfit/LinuxBaseLib/Process.c:43-143 | before every character the two passes agree on state and count, unless the filling pass has faulted |
| TokenizerTheorems.PassesFit | thtfit/LinuxBaseLib/Process.c:76-143 | for every command at most as many arguments are stored as were counted, the end mark is last, and one entry stays unset exactly if the text does not end with a complete argument |
| TokenizerTheorems.FaultExactly | thtfit/LinuxBaseLib/Process.c:98-136 | the copy gets a negative length exactly if some argument is a quote with a space or the end right after it |
| TokenizerTheorems.LoneQuoteFaults | thtfit/LinuxBaseLib/Process.c:98-136 | the command of one quote has that fault |
| TokenizerTheorems.EndingSpaceLeavesUnset | thtfit/LinuxBaseLib/Process.c:98-136 | a space at the end leaves the entry before the end mark unset |
| TokenizerTheorems.RoundTrip | thtfit/LinuxBaseLib/Process.c:80-143 | tokenizing a printed list of plain words and quoted texts, with any extra spaces between, returns the arguments followed by the end mark |
| TokenizerTheorems.PrintableExactly | thtfit/LinuxBaseLib/Process.c:80-143 | one written argument comes back exactly if it is a word without a space and without a quote at either end, or a quoted text that does not start with a space and in which no quote is followed by one |
| Split.CStringSplit | thtfit/LinuxBaseLib/String.cpp:743-797 | the first implementation returns the specified parts, in both modes |
| Split.StackBufStringSplit | thtfit/LinuxBaseLib/StackBufString.cpp:406-462 | the second one returns the same parts |
| Split.SetContent | thtfit/LinuxBaseLib/String.cpp:324-361 | a part holds exactly the characters from its start on |
| Split.JoinRestores | thtfit/LinuxBaseLib/String.cpp:743-797 | with empty parts kept, joining the parts, plus one delimiter if the text ended in one, restores the text; no part has a delimiter |
| Split.SkipIsFilter | thtfit/LinuxBaseLib/String.cpp:769-769 | skipping empties gives the same list without the empty ones |
| Split.SkipLeavesOutEmpty | thtfit/LinuxBaseLib/String.cpp:769-769 | these are exactly the parts that are not empty, each at its place in the order |
| Split.SplitOfJoin | thtfit/LinuxBaseLib/String.cpp:743-797 | any delimiter-free parts come back from joining them, if the text ends in a delimiter or the last part is not empty |
| Split.PartsDetermineText | thtfit/LinuxBaseLib/String.cpp:743-797 | two texts have the same parts exactly if they are equal, or one is the other, not empty and not ending in a delimiter, with a delimiter at the end |
| Buffers.SendBufInStack.SetBufSize | thtfit/LinuxBaseLib/SendBufInStack.cpp:26-55 | chooses how much of the memory is used; refuses a negative size and one beyond the memory |
| Buffers.SendBufInStack.SetWriteStartOff | thtfit/LinuxBaseLib/SendBufInStack.cpp:57-69 | moves the offset to a place inside the bytes in use, or refuses without a change |
| Buffers.SendBufInStack.WriteData | thtfit/LinuxBaseLib/SendBufInStack.cpp:81-99 | a block is written at the offset as a whole or refused without a change |
| Buffers.SendBufInStack.WriteString | thtfit/LinuxBaseLib/SendBufInStack.cpp:148-179 | length and text are written one after the other, each refused by itself; no string counts as the empty one |
| Buffers.SendBuf2.SetBufSize | thtfit/LinuxBaseLib/SendBuf2.cpp:34-96 | the buffer moves to new memory with the bytes in use, stays in place, or is freed; the offset stays |
| Buffers.SendBuf2.WriteData | thtfit/LinuxBaseLib/SendBuf2.cpp:127-145 | the growing buffer writes like the fixed one |
| Buffers.SendBuf2.WriteString | thtfit/LinuxBaseLib/SendBuf2.cpp:167-192 | and so for strings |
| Buffers.RecvBufInStack.CopyData | thtfit/LinuxBaseLib/RecvBufInStack.cpp:76-115 | the received bytes replace the start of the memory and set the size, or do not fit and change nothing |
| Buffers.RecvBufInStack.SetReadStartOff | thtfit/LinuxBaseLib/RecvBufInStack.cpp:57-69 | the same for the reader |
| Buffers.RecvBufInStack.GetData | thtfit/LinuxBaseLib/RecvBufInStack.cpp:122-140 | a block is read at the offset, or refused without a change |
| Buffers.RecvBufInStack.GetInteger | thtfit/LinuxBaseLib/RecvBufInStack.cpp:142-160 | four bytes are read as a signed number |
| Buffers.RecvBufInStack.GetText | thtfit/LinuxBaseLib/RecvBufInStack.cpp:167-194 | the length field is compared as a signed number and added to the offset as an unsigned one in 32 bits; a refused text leaves the offset behind its length |
| Buffers.RecvBuf2.SetBufSize | thtfit/LinuxBaseLib/RecvBuf2.cpp:22-55 | keeps the bytes in use when the memory changes, and the offset |
| Buffers.RecvBuf2.RenewBuf | thtfit/LinuxBaseLib/RecvBuf2.cpp:205-228 | new memory starts with the bytes in use of the old |
| Buffers.RecvBuf2.CopyData | thtfit/LinuxBaseLib/RecvBuf2.cpp:81-120 | the buffer holds exactly the received bytes, whatever it held before; memory that is kept keeps what is behind them |
| Buffers.RecvBuf2.GetText | thtfit/LinuxBaseLib/RecvBuf2.cpp:157-184 | as in the fixed receive buffer |
| BuffersTheorems.WriteIsPut | thtfit/LinuxBaseLib/SendBufInStack.cpp:81-179 | a field is written exactly if all its bytes fit, and then they stand at the old offset |
| BuffersTheorems.RefusedWrite | thtfit/LinuxBaseLib/SendBufInStack.cpp:148-179 | a refused write changes nothing, except exactly for a string whose length field fits |
| BuffersTheorems.OffsetGoesBack | thtfit/LinuxBaseLib/SendBufInStack.cpp:57-69 | the offset can be set back to a block just written, which is read from there, and to any place before it |
| BuffersTheorems.OffsetSetExactly | thtfit/LinuxBaseLib/RecvBufInStack.cpp:57-69 | the offset can be set exactly to places inside the bytes in use, and the next block is read from there or refused; a refused offset changes nothing |
| BuffersTheorems.ResizeDecides | thtfit/LinuxBaseLib/SendBufInStack.cpp:26-55 | the fixed buffer takes exactly the sizes its memory has, and then exactly what fits that size can be written |
| BuffersTheorems.RenewKeeps | thtfit/LinuxBaseLib/SendBuf2.cpp:34-96 | the growing buffer takes every size that is not negative, keeps each byte in use that still fits at its place, and keeps the offset; told to stay, it keeps its memory if that is large enough |
| BuffersTheorems.RefusedRead | thtfit/LinuxBaseLib/RecvBufInStack.cpp:122-140 | a block is read exactly if it is inside the bytes in use; a refused one is told apart by its code and changes nothing |
| BuffersTheorems.WrittenStays | thtfit/LinuxBaseLib/SendBuf2.cpp:34-96 | whatever is written and however the buffer is resized in between, the encoded fields stand before the offset in order, behind what was there |
| BuffersTheorems.ReadsBack | thtfit/LinuxBaseLib/RecvBufInStack.cpp:122-194 | a reader with the encoded fields before it gets every value and stops right behind them |
| BuffersTheorems.TextStaysInsideExactly | thtfit/LinuxBaseLib/RecvBufInStack.cpp:167-194 | a text is handed out exactly if it fits or its length field is 2^31 or more; the offset stays between the field and the end of the buffer exactly in the other cases, and when it is sent before the buffer is said too |
| BuffersTheorems.TextRunsWild | thtfit/LinuxBaseLib/RecvBufInStack.cpp:167-194 | four bytes that send the reader before the buffer |
| BuffersTheorems.RoundTrip | thtfit/LinuxBaseLib/SendBufInStack.cpp:81-179 | numbers, bytes, blocks and strings that were accepted read back equal, field by field |
| BuffersTheorems.OffsetsAgree | thtfit/LinuxBaseLib/RecvBufInStack.cpp:122-194 | after each step the reader's offset is the writer's |
| Crc8.CalcCrc8 | thtfit/LinuxBaseLib/Checksum.c:123-146 | the loops compute the check the lemmas are about |
| Crc8.Chains | thtfit/LinuxBaseLib/Checksum.c:123-146 | checking a text in pieces, each from the value before, checks the whole |
| Crc8.Linear | thtfit/LinuxBaseLib/Checksum.c:130-143 | the check of the difference of two messages is the difference of their checks |
| Crc8.OwnCrcGivesZero | thtfit/LinuxBaseLib/Checksum.c:123-146 | exactly a message's own check value, appended, brings the check to 0 |
| Crc8.BurstDetected | thtfit/LinuxBaseLib/Checksum.c:123-146 | messages of one length that differ only within 8 consecutive bits, lowest first, have different checks |
| Crc8.OneByteDetected | thtfit/LinuxBaseLib/Checksum.c:123-146 | messages that differ in one byte only have different checks |
| Crc8.NineBitsMissedExactly | thtfit/LinuxBaseLib/Checksum.c:134-141 | messages that differ within 9 consecutive bits have the same check exactly if the differing bits are the generator polynomial, shifted to the place |
| Checksum.CheckSum32 | thtfit/LinuxBaseLib/Checksum.c:12-32 | the loop and the residue compute the sum of all words, the last filled up with zeros, modulo 2^32 |
| Checksum.CalcFileChecksum32 | thtfit/LinuxBaseLib/Checksum.c:34-121 | reading a file in blocks of 4096 bytes gives the sum over the whole file; missing arguments and a file that cannot be opened are reported |
| Checksum.SumIsWeighted | thtfit/LinuxBaseLib/Checksum.c:12-32 | the sum is that of all bytes, each times 1, 2^8, 2^16 or 2^24 by its place modulo 4, modulo 2^32 |
| Checksum.OneByteSeen | thtfit/LinuxBaseLib/Checksum.c:12-32 | texts that differ in one byte only have different sums |
| Checksum.SplitsExactly | thtfit/LinuxBaseLib/Checksum.c:70-86 | a piece may be followed by any other and the sums add up, exactly if its length is a multiple of 4 |
| Checksum.AlignedPieces | thtfit/LinuxBaseLib/Checksum.c:70-86 | however a text is cut at multiples of 4 bytes, the sums of the pieces add up to its sum |
| Checksum.SwapNotSeen | thtfit/LinuxBaseLib/Checksum.c:12-32 | swapped whole words are not noticed |
| Rc4.EncDecrypt | thtfit/Md5-Base64-Permision/Md5-Base64-Permision.cpp:89-208 | refusals, the query for the size, and the conversion: as many bytes as the input, the rest of the output untouched, also in place; it faults exactly for a key that is empty or does not work, or an output memory shorter than the input |
| Rc4.SwapInts | thtfit/Md5-Base64-Permision/Md5-Base64-Permision.cpp:75-85 | exchanges two entries of the box |
| Rc4.SetUpBox | thtfit/Md5-Base64-Permision/Md5-Base64-Permision.cpp:149-173 | key setup computes the specified box, or indexes outside it exactly if the specification says so |
| Rc4.PositiveKeyWorks | thtfit/Md5-Base64-Permision/Md5-Base64-Permision.cpp:157-173 | key setup stays inside its box for every key that is not empty and whose characters are positive numbers |
| Rc4.NegativeStartFails | thtfit/Md5-Base64-Permision/Md5-Base64-Permision.cpp:157-173 | and leaves it for every key whose first character is negative |
| Rc4.BoxStaysPermutation | thtfit/Md5-Base64-Permision/Md5-Base64-Permision.cpp:159-191 | for every key whose setup stays inside the box, through setup and output of any length, the box is a permutation of 0 to 255 and the indices are in range |
| Rc4.EveryValueOnce | thtfit/Md5-Base64-Permision/Md5-Base64-Permision.cpp:159-191 | every value is in the box at one place only |
| Rc4.CipherAt | thtfit/Md5-Base64-Permision/Md5-Base64-Permision.cpp:177-191 | each byte of the output is that of the input, exclusive or the key stream's byte at its place |
| Rc4.StreamAt | thtfit/Md5-Base64-Permision/Md5-Base64-Permision.cpp:177-191 | byte n of the key stream stands in the box after n steps, at the sum of the entries at n modulo 256 and at the other index |
| Rc4.StepExchanges | thtfit/Md5-Base64-Permision/Md5-Base64-Permision.cpp:177-191 | step n exchanges the entry at n modulo 256 with the one at the other index, which that entry moves on, and no others |
| Rc4.FirstByte | thtfit/Md5-Base64-Permision/Md5-Base64-Permision.cpp:177-191 | for every working key the first byte is the entry at x plus the entry at x, x being the entry at 1, of the box after key setup with places 1 and x exchanged |
| Rc4.SecondByteZero | thtfit/Md5-Base64-Permision/Md5-Base64-Permision.cpp:177-191 | the second byte is 0 whenever the entry at 2 after key setup is 0 and the one at 1 is not 2 |
| Rc4.SetupBegins | thtfit/Md5-Base64-Permision/Md5-Base64-Permision.cpp:153-165 | key setup begins with every entry at its own place and index 0 |
| Rc4.SetupExchanges | thtfit/Md5-Base64-Permision/Md5-Base64-Permision.cpp:165-173 | each step of key setup exchanges the entry at its place with the one at the index that this entry and the key's character move on |
| Rc4.SameKey | thtfit/Md5-Base64-Permision/Md5-Base64-Permision.cpp:149-159 | a key written twice, and a key with anything behind its first 256 characters, is the same key |
| Rc4.EveryCharacterMatters | thtfit/Md5-Base64-Permision/Md5-Base64-Permision.cpp:165-173 | after the same characters, two next characters lead key setup to the same state exactly if they differ by a multiple of 256 |
| Rc4.TwiceIsIdentity | thtfit/Md5-Base64-Permision/Md5-Base64-Permision.cpp:177-191 | running it twice with one key gives the input back |
| Rc4.PrefixesAgree | thtfit/Md5-Base64-Permision/Md5-Base64-Permision.cpp:177-191 | the output for the start of a text is the start of the output |
| Duration.FormatDuration | solidui2/js/format.js:566-595 | shows the largest few entries of the decomposition, none for a duration or a number of buckets that is not positive |
| Duration.PartsRecompose | solidui2/js/format.js:571-584 | the entries stand for exactly the duration, each unit once, largest first, short of the next unit |
| Duration.PartsUnique | solidui2/js/format.js:571-584 | no other such entries stand for it |
| Duration.ShownIsRoundedDown | solidui2/js/format.js:586-592 | the first k entries are the duration rounded down by less than one of the smallest unit shown |

## Left out

- Memory exhaustion, failing locks and failing condition variables, everywhere.
- Tests of `m_bInited`, null handles and null out-pointers of the list, the dictionary and the events.
- MessageQueue.OpStep: the listener callback after a post and the failure of the clock in timed waits are not modelled.
- MessageQueue.CallStep: the time accounting of WaitMessageTimeout, which subtracts the elapsed total again and again, is not modelled; any timed wait may end at any time.
- The memory model below the locks: every step on a shared object is atomic, in one order for all threads.
- ThreadDictionary.Dictionary.SetKeyValue: calls are atomic, as they run under the dictionary's lock; the first, unlocked creation of that lock is not modelled.
- ThrdSpecificDict_DestroySelfThrdData, which unlinks the records of all threads, not only the caller's.
- EventCenter: the file-descriptor events and posted messages of the event center.
- GenericTimer.Timers.CheckAndTrig: null items, dead listeners (whose branches go on from an erased iterator) and timers registered inside a callback are not modelled.
- Keypad: starting and stopping the second thread, the key map and the input device; unsigned long is taken as 32 bits wide.
- Playback: the television branches, video format and 3D settings, the shared status the service writes, and overflow of the remaining count, which 2^31 stale end-of-stream messages would take.
- GpioButtons.GpioBtnInput.ChkGpioBtnInput: the D-Bus signal per edge, the interrupt rate limit and a changing line direction are not modelled; watching the pipe always succeeds.
- ButtonReceiver.Receiver.OnInput: what a failing read does is not modelled; a packet's size is read in the byte order the sender wrote it.
- Tokenizer.CreateArguments: starting the process is not modelled, and after the negative length nothing is said.
- Split: a delimiter NUL, for which the search finds the end of the text and goes on behind it.
- Buffers.SendBufInStack.WriteData: an offset plus size beyond 2^31 does not overflow in the model.
- Buffers.RecvBufInStack.GetText: after a text with a length field of 2^31 or more (Wild) nothing is said about later reads.
- The unsigned and pointer overloads of the send buffers, which write the same four bytes.
- Rc4.EncDecrypt: after an access outside the box or the output memory, or a division by 0, nothing is said (Faulted); the input memory holds the size the caller gives.
- Checksum.CalcFileChecksum32: a read error cannot be told from the end of the file, as in the program.
- Duration.FormatDuration: durations are whole numbers; the unit names and their translation are not modelled.
- The unused first RC4 routine, MD5 and Base64 calls, the id table, address and bitmap helpers, settings and user interface scripts.
