# Verification of the TAG messaging module

A Dafny model of the kernel module's core, with proofs. The system: processes exchange messages through *TAG
services*. Each service has 32 levels; `tag_send` stores a message on a level and wakes the readers parked there,
`tag_receive` parks until it is woken and then copies out the message it finds. The messages of a service sit in a
linked list that readers walk without a lock, under an epoch scheme with grace periods. A character device shows a
status listing, and the module installs its system calls in free entries of the kernel's table, which it has to find
by its pattern first.

`dafny verify dfyconfig.toml` checks everything.

## The parts

**The epoch list, as a machine of small steps** (`Epoch*.dfy`). `EpochMachine` gives every reader, insert, remove,
replace-and-wake (`Send`) and AWAKE_ALL call a program counter, over one memory of `next` pointers, `head`, the two
`standing` counters, the flags and the lock. Any number of calls of each kind interleave, one shared access a step,
as the lines of `rcu-list.c` order them: the epoch is sampled on entry and used after the sleep; remove drains both
counters, insert and replace one; an interrupted reader takes one off a counter it never added to; replace publishes
its element (line 188) before it links what follows (line 189). `View` adds two history variables, the current list
and what each reader still has to walk. They do not restrict the runs (`RunsLift`).
On this machine: a structural invariant (`EpochShape`), lookups against writers (`EpochLookup`), the list of a service
in use (`EpochLevels`), counters (`EpochCounters`), what each call does to the list (`EpochCalls`), grace periods
(`EpochGrace`), progress of the spins and of whole calls (`EpochDrain`, `EpochProgress`) and the wake-up protocol: who
is woken (`EpochWake`) and why (`EpochRelease`). Where the code falls short, the exact limit and a run beyond it: lookups
(`EpochGap`), replace's grace period (`EpochExposure`, `EpochStale`), both grace periods when signals strike
(`EpochSignals`, `EpochStrike`). `EpochScenario` holds the steps from which the runs are put together.

**The epoch list, on the heap** (`RcuList.dfy`). The same operations as methods over linked `Element` objects, each
proved against the sequence of elements. With nobody else inside, the spins end at once.

**Level store** (`LevelStore.dfy`). The list as services use it: a map from levels to last messages.

**Registry** (`RegistrySpec.dfy`, `Registry.dfy`, `RegistryAnswers.dfy`, `RegistryRuns.dfy`, `RoomHistory.dfy`,
`Delivery.dfy`, `ServiceCounter.dfy`). The system calls on the array of services, each with its pointer list, as methods
that update objects in place; a functional specification of each, and what it means field by field; over all runs of
calls from the empty registry, invariants, isolation, message delivery up to the bytes in the receiver's buffer, and the
life of a room from its creation to its removal; and the separately kept counter when calls overlap.

**Status device and copies** (`StatusText.dfy`, `StatusLines.dfy`, `StatusReading.dfy`, `StatusRegistry.dfy`,
`CopyOut.dfy`). The listing written by truncating appends, its lines, what can be read off it, for any slots and for the
registries that calls make, the copy loops to user space, and reads of the device.

**System call table** (`PageWalk.dfy`, `TableSearch.dfy`, `TableInstall.dfy`). The page walk, the search that never
touches an unmapped page, and installing and restoring entries.

## What the proofs found

These follow from the code as it is written; each is a theorem below.

- `rcu_list_remove`, which nothing in the module calls, keeps its elements safe for every reader that is still walking,
  stale epoch or not, as long as no signal has interrupted a reader with the same snapshot (`RemoveGrace`,
  `NoCursorOnFreed`).
- A signal takes one off a counter it was never added to (`SignalUndercounts`), and a signal can break remove on every
  list that is not empty (`SignalBreaksRemove`). `RemoveSafeExactly` says when, over all continuations, with signals at
  any time: a traversing reader can end up on the freed element if and only if, at the unlink, some reader is on its way
  to it whose snapshot is the current epoch, or that of another reader that a signal has struck or still can strike
  before it registers. If no signal comes after the unlink, it takes one that has struck already
  (`RemoveSafeWithoutMoreSignals`).
- `rcu_list_replace` is not safe even without signals. A reader can sample an epoch, sleep across an odd number of flips,
  and register under the epoch that replace does not drain; it can then stand on the element that replace frees.
  `ReplaceIsNotEnough` gives the run, on the list of any service, with readers, sends and AWAKE_ALLs only.
  `ReplaceSafeExactly` says when, for signal-free runs: if and only if, at the swap, some reader is on its way to the
  element under the other epoch. With signals at any time it takes no more than a reader on its way, under either epoch
  (`ReplaceWithSignalsExactly`).
- Between lines 188 and 189 of `rcu-list.c` a lookup can return NULL though its level was in the list all the time.
  `LookupCanFail` gives the run, on the list of any service, with readers, sends and AWAKE_ALLs only. On a list in use a
  lookup comes back with NULL if and only if it stepped off the element just published (`ServiceLookup`); on any list
  this is the only way to be wrong (`LookupFailsExactly`), and none is left with the two stores as one step
  (`LookupLinearizesAtomic`).
- A replace that does not find its level returns with the lock held, and every call that waits for it waits for good
  (`LeakBlocks`). On the list of a service in use this never happens (`LevelsStay`), and every call can come back
  (`EveryCallCanReturn`).
- A send that finds a reader asleep raises the flag before it comes back (`SendDone`), and the reader is then free to go
  (`ParkedIsReleased`); but a reader that enters the level first lowers the flag again, and the sleeper sleeps on
  (`EntrantTakesTheFlag`).
- For a private key `serviceCount` is raised after the lock is released. A removal in between takes the counter to
  2^32 - 1 and the next creation is refused with the registry empty (`RemovedBeforeCounted`).
- The check of line 36 and the insertion are not one step. From every state with no lock held in which line 36 lets a
  creator pass, as many creators as there are free slots and one more can pass before any of them is counted; the last
  one finds no slot and returns with the write lock held, and no slot is taken or given up ever after (`OneTooMany`,
  `TwoForOneSlot`, `StuckForGood`). It never happens without an overlap (`StuckNeedsOverlap`).
- `sys_vtpmo` returns its frame number cut to 32 bits, so a frame numbered 0xFFFFFFFF modulo 2^32 reads as NO_MAP
  (`NoMapExactly`; `NoMapThoughMapped` is an address).
- More calls of `add_syscall` than entries found overwrite entry 0 of the table, and restoring then puts the
  placeholder there (`RoundTrip`; `FifthLoses` is a table). `main.c:44-47` never makes a fifth call. The header announces
  15 free entries, the code redefines the number as 10 (`sysCall_Discovery.h:59`, `sysCall_Discovery.c:22`); the model
  has 10.
- `dev_read` stays in its snapshot exactly when the sum of offset and length does not wrap (`InBoundsExactly`;
  `LeavesSnapshot` is a pair). This is a property of the function alone: the kernel's read call, which is not part of
  this model, caps the length far below.
- Up to 23 services always fit in the buffer that the device asks for, and the status then tells exactly which services
  there are (`TwentyThreeFit`, `StatusTells`); 36 never do (`ThirtySixDoNotFit`).

## Model

| member | source | states |
|---|---|---|
| EpochShape.StepKeepsShape | TAG_MESSAGING/TAG_Subsystem/rcu-list.c:33-217 | every step of every reader and writer, signals included, keeps the structural invariant: the memory spells an acyclic list, each walker's remaining path is a chain, only the lock holder is in its critical section, unlinked elements are off the list for good, private elements are on nobody's path |
| EpochShape.RunShape | TAG_MESSAGING/TAG_Subsystem/rcu-list.c:33-217 | so it holds in every state of every run, from any initial list |
| EpochShape.RunsLift | TAG_MESSAGING/TAG_Subsystem/rcu-list.c:33-217 | the history variables of the model exclude no behaviour: each run of bare memories extends to a run with them |
| EpochChain.ChainNoRepeat | TAG_MESSAGING/TAG_Subsystem/rcu-list.c:50-55 | a chain of next pointers that ends never meets an element twice |
| EpochChain.ChainReroute | TAG_MESSAGING/TAG_Subsystem/rcu-list.c:130-133 | one store to a next pointer turns the chain into the rerouted one |
| EpochChain.FirstReroute | TAG_MESSAGING/TAG_Subsystem/rcu-list.c:50-55 | exactly what a walker finds on a rerouted chain |
| EpochChain.ClearAdvance | TAG_MESSAGING/TAG_Subsystem/rcu-list.c:184-194 | the writers' search loop: no element of the level before the cursor, and none in the list when it runs out |
| EpochLookup.LookupLinearizes | TAG_MESSAGING/TAG_Subsystem/rcu-list.c:46-66 | in every run, what a lookup returns was the first of its level in the live list, or NULL with the level absent, at an instant between registration and return; the only exception is a NULL of a reader that walked off an element published by line 188 before line 189 linked it, with its level behind |
| EpochLookup.LookupLinearizesAtomic | TAG_MESSAGING/TAG_Subsystem/rcu-list.c:46-66 | with lines 188-189 as one step, no exception |
| EpochLookup.RightNowMeaning | TAG_MESSAGING/TAG_Subsystem/rcu-list.c:48-55 | "the right answer now" in terms of memory: the unique list spelled from head, its first element of the level, or none |
| EpochLookup.WalkAhead | TAG_MESSAGING/TAG_Subsystem/rcu-list.c:50-55 | a step of the walk changes what the reader will find if and only if it steps off the unlinked element with its level behind, and it then ends at NULL |
| EpochLookup.StepAhead | TAG_MESSAGING/TAG_Subsystem/rcu-list.c:86-88 | under any step of anyone, a walker's eventual answer stays, or becomes the answer right for the new list, or is lost in the gap |
| EpochGap.LookupFailsExactly | TAG_MESSAGING/TAG_Subsystem/rcu-list.c:46-66 | for every run and every returned lookup: what it returned was right at no instant if and only if it stepped off an element published but not yet linked, with an element of its level behind, and the list had its level at every instant at which it was registered |
| EpochGap.GapLoses | TAG_MESSAGING/TAG_Subsystem/rcu-list.c:188-189 | from every state in the gap, three steps of the reader alone end its lookup with NULL, right at no instant, if its level was there all the time |
| EpochGap.LookupCanFail | TAG_MESSAGING/TAG_Subsystem/rcu-list.c:188-189 | on the list of every service, a run without signals of readers, sends and AWAKE_ALLs in which a lookup returns NULL though its level was in the list all the time |
| EpochGap.NewService | TAG_MESSAGING/TAG_Subsystem/TAG_Messagin_help.c:73-78 | the list of a new service is an initial state of the machine |
| EpochGap.ServiceLookup | TAG_MESSAGING/TAG_Subsystem/TAG_Messaging.c:325-329 | on a list in use, a lookup returns NULL if and only if it stepped off the gap, and otherwise what was right at some instant |
| EpochLevels.LevelsStay | TAG_MESSAGING/TAG_Subsystem/TAG_Messaging.c:229-242 | in every run of readers, sends and AWAKE_ALLs, signals included, the list of a service keeps the levels 31 to 0 in order, and no send comes back without having found its level |
| EpochLevels.SwapKeepsLevels | TAG_MESSAGING/TAG_Subsystem/rcu-list.c:186-189 | swapping an element for one of its level keeps the levels of the list |
| EpochCalls.UpdatedAt | TAG_MESSAGING/TAG_Subsystem/rcu-list.c:86-88 | every call past its search updated the list at one instant of its own: an insert put its element in front (lines 86-88), a remove took out exactly the first element of its level or found none (122-137), a replace put its element in the place of exactly the first of its level (177-194) |
| EpochCalls.OnlyUpdates | TAG_MESSAGING/TAG_Subsystem/rcu-list.c:33-217 | whatever step changes the list is that update, of a call that had made none |
| EpochCalls.LeakedAt | TAG_MESSAGING/TAG_Subsystem/rcu-list.c:173-197 | a replace that gives up found its level absent at an instant of its own |
| EpochCalls.DoneHasFreed | TAG_MESSAGING/TAG_Subsystem/rcu-list.c:150-153 | a remove or replace past its last line has freed what it took out |
| EpochProgress.EveryCallCanReturn | TAG_MESSAGING/TAG_Subsystem/rcu-list.c:173-214 | from every reachable state of the list of a service in use, signals included, every send and AWAKE_ALL can come back, by steps of what is under way |
| EpochProgress.GivesBack | TAG_MESSAGING/TAG_Subsystem/rcu-list.c:184-210 | whoever holds the list lock there can give it back: the search loop ends, and so do the spins |
| EpochProgress.LeakBlocks | TAG_MESSAGING/TAG_Subsystem/rcu-list.c:176-176 | a replace that has given up keeps the lock, and a call that waits for it never gets it |
| EpochCounters.CountersConserve | TAG_MESSAGING/TAG_Subsystem/rcu-list.c:35-57 | in every reachable state standing[b] is the readers registered under b minus those interrupted under b, and waiters[k] the readers of level k between entry and exit |
| EpochCounters.ZeroMeansNobody | TAG_MESSAGING/TAG_Subsystem/rcu-list.c:46-56 | as long as no signal has interrupted a reader with snapshot b, standing[b] is never negative, and it is zero if and only if nobody is registered under b |
| EpochSignals.SignalUndercounts | TAG_MESSAGING/TAG_Subsystem/rcu-list.c:41-44 | from any initial state, one interrupted reader leaves standing at -1 |
| EpochGrace.OffStays | TAG_MESSAGING/TAG_Subsystem/rcu-list.c:122-137 | an element off the list stays off, and no reader newly gets it on its way |
| EpochGrace.HeldSince | TAG_MESSAGING/TAG_Subsystem/rcu-list.c:48-56 | who has an unlinked element on its way had it there ever since it was unlinked |
| EpochGrace.GracePeriod | TAG_MESSAGING/TAG_Subsystem/rcu-list.c:138-146 | a reader registered at the update under the epoch then current has left before the drains are over; for remove, any registered reader; all that it takes is that no signal has interrupted a reader with the same snapshot |
| EpochGrace.UpdateInstant | TAG_MESSAGING/TAG_Subsystem/rcu-list.c:122-137 | a writer that holds an element to free took it out of the list at an instant of the run |
| EpochGrace.RemoveGrace | TAG_MESSAGING/TAG_Subsystem/rcu-list.c:138-151 | once remove's drains are over, and ever after, a traversing reader does not have its element under the cursor or ahead, with inserts and replaces running too, unless a signal has interrupted a reader with the same snapshot |
| EpochGrace.ReplaceGrace | TAG_MESSAGING/TAG_Subsystem/rcu-list.c:173-214 | who still holds the replaced element after the drain was traversing at the swap, with the element ahead, under the epoch that is not drained, unless a signal has interrupted a reader with the same snapshot |
| EpochGrace.WhoFreed | TAG_MESSAGING/TAG_Subsystem/rcu-list.c:150-153 | every freed element was freed by the remove or replace that had taken it out |
| EpochGrace.NoCursorOnFreed | TAG_MESSAGING/TAG_Subsystem/rcu-list.c:35-56 | in every run of readers, inserts and removes, a traversing reader is not on a freed element and will not get to one, unless a signal has interrupted a reader with the same snapshot |
| EpochExposure.ReplaceSafeExactly | TAG_MESSAGING/TAG_Subsystem/rcu-list.c:198-214 | a signal-free continuation can put a traversing reader on the element that replace frees if and only if at the swap some reader is on its way to it under the other epoch |
| EpochExposure.ReplaceSafeWhenAlone | TAG_MESSAGING/TAG_Subsystem/rcu-list.c:198-214 | in particular never when the other epoch's counter is zero at the swap |
| EpochExposure.OnlyExposed | TAG_MESSAGING/TAG_Subsystem/rcu-list.c:198-214 | the reader found on the freed element was itself exposed at the swap |
| EpochExposure.ExposedGetsThere | TAG_MESSAGING/TAG_Subsystem/rcu-list.c:198-214 | from every exposed state a continuation ends on the freed element |
| EpochStale.ReplaceIsNotEnough | TAG_MESSAGING/TAG_Subsystem/rcu-list.c:35-46 | on the list of every service, a run without signals of readers, sends and AWAKE_ALLs in which a reader with a stale epoch stands on an element that replace has freed |
| EpochStrike.RemoveSafeExactly | TAG_MESSAGING/TAG_Subsystem/rcu-list.c:138-151 | some continuation, with signals at any time, puts a traversing reader on the element that remove frees if and only if at the unlink some reader is on its way to it whose snapshot is the current epoch or that of a reader that a signal has struck or that has not registered yet |
| EpochStrike.OnlyEndangered | TAG_MESSAGING/TAG_Subsystem/rcu-list.c:139-142 | the reader found on the freed element was itself on its way at the unlink, under such a snapshot |
| EpochStrike.EndangeredGetsThere | TAG_MESSAGING/TAG_Subsystem/rcu-list.c:38-44 | from every such state, after a remove or a replace, a continuation ends on the freed element |
| EpochStrike.ReplaceWithSignalsExactly | TAG_MESSAGING/TAG_Subsystem/rcu-list.c:198-214 | some continuation, with signals at any time, puts a traversing reader on the element that replace frees if and only if at the swap some reader is on its way to it |
| EpochSignals.RemoveSafeWithoutMoreSignals | TAG_MESSAGING/TAG_Subsystem/rcu-list.c:138-151 | a continuation without further signals can put a traversing reader on the element that remove frees if and only if at the unlink some reader is on its way to it with a snapshot under which a signal has already ended a wait |
| EpochSignals.UndercutGetsThere | TAG_MESSAGING/TAG_Subsystem/rcu-list.c:142-151 | from every state with a reader on its way, just after a remove or a replace, under a snapshot that a signal has undercut, calls that are under way lead to the freed element without another signal |
| EpochStrike.SignalBreaksRemove | TAG_MESSAGING/TAG_Subsystem/rcu-list.c:41-44 | on every list that is not empty, a run in which an interrupted reader lets remove free an element under a traversing reader |
| EpochDrain.WorkShrinks | TAG_MESSAGING/TAG_Subsystem/rcu-list.c:94-101 | while a writer spins on standing[b], whatever step is taken, the remaining steps of the readers under b never grow as a set, and each step of such a reader removes some |
| EpochDrain.SpinBounded | TAG_MESSAGING/TAG_Subsystem/rcu-list.c:139-146 | so over any stretch of a spin the readers under b take at most that many steps |
| EpochDrain.SomeoneMoves | TAG_MESSAGING/TAG_Subsystem/rcu-list.c:142-146 | while the counter is positive, signals or not, a registered reader under b can move |
| EpochDrain.SpinCanEnd | TAG_MESSAGING/TAG_Subsystem/rcu-list.c:198-209 | from every state of a spin, steps of registered readers under b, and of nobody else, lead to its end |
| EpochDrain.CounterCanEmpty | TAG_MESSAGING/TAG_Subsystem/rcu-list.c:142-146 | spin or not, standing[b] can always come down to zero by steps of registered readers under b, with as many of them staying as signals have undercounted |
| EpochRelease.FlagStep | TAG_MESSAGING/TAG_Subsystem/rcu-list.c:38-38 | ready[k] goes up only by a send or AWAKE_ALL on that level, and down only by a reader entering it |
| EpochRelease.StaysRaised | TAG_MESSAGING/TAG_Subsystem/rcu-list.c:38-40 | once raised, the flag stays up until a reader enters the level |
| EpochRelease.ReleaseHasCause | TAG_MESSAGING/TAG_Subsystem/rcu-list.c:38-46 | a reader past the wait without a signal was released by a send on its level or an AWAKE_ALL, after its own reset of the flag |
| EpochRelease.RaiseFollowsUpdate | TAG_MESSAGING/TAG_Subsystem/TAG_Messaging.c:236-256 | a send that raises a flag has swapped its element in before |
| EpochWake.SendWakes | TAG_MESSAGING/TAG_Subsystem/TAG_Messaging.c:244-256 | a send that finds a reader asleep on its level, and has come back, has raised the flag of that level in between |
| EpochWake.SendWakesNobody | TAG_MESSAGING/TAG_Subsystem/TAG_Messaging.c:244-250 | one that finds nobody asleep comes back at once, and its check leaves all flags as they were |
| EpochWake.SendDone | TAG_MESSAGING/TAG_Subsystem/TAG_Messaging.c:236-256 | every send that has come back: first the swap of its element, then the look for sleepers, then, if there were any, the flag |
| EpochWake.AwakeRaises | TAG_MESSAGING/TAG_Subsystem/TAG_Messaging.c:371-374 | an AWAKE_ALL that has come back has raised the flag of each of the 32 levels |
| EpochWake.ParkedIsReleased | TAG_MESSAGING/TAG_Subsystem/TAG_Messaging.c:244-256 | from every check of a send that sees a reader asleep, two steps of the send and one of the reader release it |
| EpochWake.EntrantTakesTheFlag | TAG_MESSAGING/TAG_Subsystem/rcu-list.c:38-40 | from every state with a parked reader, one that enters its level leaves it asleep, whatever its flag was |
| EpochWake.TestStep | TAG_MESSAGING/TAG_Subsystem/rcu-list.c:40-40 | a reader parks if and only if its flag is down when it gets there |
| EpochWake.StruckWhileDown | TAG_MESSAGING/TAG_Subsystem/rcu-list.c:40-41 | a reader that a signal has ended was parked, with its flag down, when the signal came |
| EpochWake.StruckReturnsNull | TAG_MESSAGING/TAG_Subsystem/rcu-list.c:41-45 | and returns NULL |
| EpochRelease.ReleasedReadIsFresh | TAG_MESSAGING/TAG_Subsystem/TAG_Messaging.c:236-256 | with the relink as one step, what a released reader returns was right at an instant after the releasing operation's own update, and is never the element which that operation replaced |
| RcuList.List.constructor | TAG_MESSAGING/TAG_Subsystem/rcu-list.c:17-31 | an empty list, epoch 0, unlocked, all counters zero, all flags down |
| RcuList.List.Find | TAG_MESSAGING/TAG_Subsystem/rcu-list.c:48-66 | the first element of the level, or null exactly when the level is absent |
| RcuList.List.Enter | TAG_MESSAGING/TAG_Subsystem/rcu-list.c:35-39 | the epoch sampled, the flag down, one more waiter, nothing else |
| RcuList.List.GiveUp | TAG_MESSAGING/TAG_Subsystem/rcu-list.c:42-44 | one less in the counter sampled and one waiter less |
| RcuList.List.Traverse | TAG_MESSAGING/TAG_Subsystem/rcu-list.c:46-66 | the first element of the level, or null when it is absent; the counter as before, one waiter less |
| RcuList.List.Search | TAG_MESSAGING/TAG_Subsystem/rcu-list.c:33-67 | the three together, alone: the flag lowered and raised again, or left down by a signal; the counters as before, but one less in standing after a signal; the first element of the level, or null when it is absent or a signal came |
| RcuList.List.Insert | TAG_MESSAGING/TAG_Subsystem/rcu-list.c:69-112 | one new element in front of the same elements, the epoch flipped, the lock free; nothing changes without memory |
| RcuList.List.Remove | TAG_MESSAGING/TAG_Subsystem/rcu-list.c:114-155 | deletes exactly the first element of the level; 1 exactly when there was one; the epoch flips in both cases |
| RcuList.List.Replace | TAG_MESSAGING/TAG_Subsystem/rcu-list.c:157-217 | swaps exactly the first element of the level for a new one, keeping length, order and all others; 1 exactly when there was one and memory; when absent, 0 with the lock left held and the epoch unflipped |
| RcuList.List.Unlink | TAG_MESSAGING/TAG_Subsystem/rcu-list.c:122-137 | the pointer stores of remove: exactly the first element of the level leaves the list |
| RcuList.List.SwapIn | TAG_MESSAGING/TAG_Subsystem/rcu-list.c:177-194 | the pointer stores of replace: the new element stands where the first of its level stood, or nothing has changed |
| RcuList.CutSpells | TAG_MESSAGING/TAG_Subsystem/rcu-list.c:131-133 | the pointer store of remove makes the memory spell the list without the element |
| RcuList.ItemsAfterRemove | TAG_MESSAGING/TAG_Subsystem/rcu-list.c:122-137 | as a sequence of messages: deletion of the first match |
| RcuList.ItemsAfterReplace | TAG_MESSAGING/TAG_Subsystem/rcu-list.c:173-194 | as a sequence of messages: the first match swapped |
| LevelStore.NewLevels | TAG_MESSAGING/TAG_Subsystem/TAG_Messagin_help.c:73-78 | the list of a new service holds empty messages at levels 31 down to 0 |
| LevelStore.StoreKeepsLevels | TAG_MESSAGING/TAG_Subsystem/rcu-list.c:157-217 | every history of sends keeps the levels in place, and each holds the last message sent to it |
| LevelStore.StoreRefinesMap | TAG_MESSAGING/TAG_Subsystem/TAG_Messaging.c:229-242 | replace finds every level, and a lookup yields the last message sent there or the initial empty one |
| LevelStore.Store | TAG_MESSAGING/TAG_Subsystem/TAG_Messaging.c:234-242 | a send to the heap list with any history succeeds, releases the lock and extends the history |
| LevelStore.Load | TAG_MESSAGING/TAG_Subsystem/rcu-list.c:48-61 | the traversal of the heap list with any history returns the last message sent to the level |
| Registry.Table.constructor | TAG_MESSAGING/TAG_Subsystem/TAG_Messaging.c:11-19 | an empty registry |
| Registry.Table.SearchKey | TAG_MESSAGING/TAG_Subsystem/TAG_Messagin_help.c:40-50 | the first service with the key, or null |
| Registry.Table.SearchTag | TAG_MESSAGING/TAG_Subsystem/TAG_Messagin_help.c:52-62 | the first service with the tag, or null |
| Registry.Table.NewService | TAG_MESSAGING/TAG_Subsystem/TAG_Messagin_help.c:64-89 | fills the first free slot, whose number becomes the tag; nothing changes when all are taken |
| Registry.Service.IsValidFor | TAG_MESSAGING/TAG_Subsystem/TAG_Messagin_help.c:22-38 | who may use a service |
| Registry.Service.Store | TAG_MESSAGING/TAG_Subsystem/TAG_Messaging.c:234-242 | the replace on the pointer list of the service, as the swap of the first message of the level; 1 exactly when there was one |
| Registry.Service.Deliver | TAG_MESSAGING/TAG_Subsystem/TAG_Messaging.c:234-256 | the message swapped into the pointer list, the flag raised only if somebody sleeps on the level |
| Registry.Service.RaiseAll | TAG_MESSAGING/TAG_Subsystem/TAG_Messaging.c:371-374 | all flags up, nothing else |
| Registry.Service.Park | TAG_MESSAGING/TAG_Subsystem/rcu-list.c:35-40 | the flag lowered, one more sleeper, and as many waiters in the list |
| Registry.Service.Unpark | TAG_MESSAGING/TAG_Subsystem/rcu-list.c:41-66 | one sleeper less; the element of the level, or null for an interrupted reader |
| Registry.Service.IsQuiet | TAG_MESSAGING/TAG_Subsystem/TAG_Messaging.c:402-410 | whether nobody sleeps on any level |
| Registry.Table.Create | TAG_MESSAGING/TAG_Subsystem/TAG_Messaging.c:32-77 | the call's answer and the whole new registry |
| Registry.Table.Open | TAG_MESSAGING/TAG_Subsystem/TAG_Messaging.c:84-110 | the call's answer |
| Registry.Table.TagGet | TAG_MESSAGING/TAG_Subsystem/TAG_Messaging.c:129-167 | the call's answer and the whole new registry, malformed arguments included |
| Registry.Table.TagSend | TAG_MESSAGING/TAG_Subsystem/TAG_Messaging.c:187-259 | the call's answer and the whole new registry, each error in its order |
| Registry.Table.TagReceive | TAG_MESSAGING/TAG_Subsystem/TAG_Messaging.c:284-325 | up to the wait: the answer and the whole new registry |
| Registry.Table.FinishReceive | TAG_MESSAGING/TAG_Subsystem/TAG_Messaging.c:325-340 | after the wait: EUCLEAN for an interrupted reader, else the first bytes of the message found, in the buffer, and their number; one sleeper less, nothing else in the registry |
| Registry.Table.AwakeAll | TAG_MESSAGING/TAG_Subsystem/TAG_Messaging.c:353-380 | the call's answer and the whole new registry |
| Registry.Table.Remove | TAG_MESSAGING/TAG_Subsystem/TAG_Messaging.c:387-434 | the call's answer and the whole new registry; refused while anybody sleeps |
| Registry.Table.TagCtl | TAG_MESSAGING/TAG_Subsystem/TAG_Messaging.c:451-478 | the call's answer and the whole new registry |
| RegistryRuns.InitInv | TAG_MESSAGING/TAG_Subsystem/TAG_Messaging.c:11-19 | the invariant holds of the registry that initService makes |
| RegistryRuns.NextKeepsInv | TAG_MESSAGING/TAG_Subsystem/TAG_Messaging.c:32-434 | every call keeps: tags are slot numbers, public keys are distinct and nonzero, each service's list has its 32 levels in order, serviceCount is the number of taken slots |
| RegistryRuns.RunKeepsInv | TAG_MESSAGING/TAG_Subsystem/TAG_Messaging.c:32-434 | so it holds throughout every run of calls from the empty registry |
| RegistryRuns.FreeSlot | TAG_MESSAGING/TAG_Subsystem/TAG_Messaging.c:36-41 | pigeonhole: a count below the capacity if and only if the scan finds a free slot |
| RegistryRuns.TagScanIsIndexing | TAG_MESSAGING/TAG_Subsystem/TAG_Messagin_help.c:52-62 | the scan for a tag is the same as indexing the array with it |
| RegistryRuns.CreateExactly | TAG_MESSAGING/TAG_Subsystem/TAG_Messaging.c:36-76 | creation fails exactly when the registry is full or the public key is taken; otherwise it fills the lowest free slot; the "no slot" branches are never taken |
| RegistryRuns.OpenExactly | TAG_MESSAGING/TAG_Subsystem/TAG_Messaging.c:84-110 | open answers a tag if and only if it is that of the service with this public key and the caller is admitted |
| RegistryRuns.SendDelivers | TAG_MESSAGING/TAG_Subsystem/TAG_Messaging.c:229-258 | an admitted send succeeds; a lookup of its level finds the message, other levels stay, the flag goes up exactly if somebody sleeps |
| RegistryRuns.NextIsolates | TAG_MESSAGING/TAG_Subsystem/TAG_Messaging.c:216-256 | a call addressed to one tag leaves every other slot unchanged, a creation every taken slot |
| RegistryRuns.PrivateStays | TAG_MESSAGING/TAG_Subsystem/TAG_Messagin_help.c:22-38 | a private service, its messages and flags change only in calls by its creator or uid 0 |
| RegistryRuns.PrivateRun | TAG_MESSAGING/TAG_Subsystem/TAG_Messagin_help.c:22-38 | the same over every stretch of every run |
| RegistryRuns.FoundStep | TAG_MESSAGING/TAG_Subsystem/TAG_Messaging.c:234-242 | one call changes what a lookup finds exactly when it stores a message at that level of that service |
| RegistryRuns.LastMessageIsFound | TAG_MESSAGING/TAG_Subsystem/TAG_Messaging.c:187-259 | over every run, a lookup in a service finds at each level the last accepted message, or the empty one |
| RegistryRuns.SentIsFound | TAG_MESSAGING/TAG_Subsystem/TAG_Messaging.c:204-242 | a message accepted, its size bytes exactly, is found until another is accepted for its level |
| RegistryRuns.CreatedEmpty | TAG_MESSAGING/TAG_Subsystem/TAG_Messagin_help.c:64-89 | a service just created has the empty message at every level |
| RegistryAnswers.GetRefuses | TAG_MESSAGING/TAG_Subsystem/TAG_Messaging.c:129-165 | tag_get with a permission, key or command out of range: which answer, and nothing changes |
| RegistryAnswers.CreateAnswers | TAG_MESSAGING/TAG_Subsystem/TAG_Messagin_help.c:64-85 | command 0: the errors in their order; otherwise the first free slot gets this key, its number as tag, the caller's pid, this permission, 32 flags down, no sleepers, the empty message at every level, and nothing else changes but the count |
| RegistryAnswers.OpenAnswers | TAG_MESSAGING/TAG_Subsystem/TAG_Messaging.c:84-110 | command 1: nothing changes; the tag of the service with the key, or which error |
| RegistryAnswers.SendAnswers | TAG_MESSAGING/TAG_Subsystem/TAG_Messaging.c:194-258 | the errors in their order; otherwise 0, exactly size bytes at the level, its flag up exactly if somebody sleeps there, every other field and slot as before |
| RegistryAnswers.ReceiveAnswers | TAG_MESSAGING/TAG_Subsystem/TAG_Messaging.c:299-325 | the errors in their order; otherwise the caller sleeps, the flag of the level is down, its sleepers are one more, every other field and slot as before |
| RegistryAnswers.WakeAnswers | TAG_MESSAGING/TAG_Subsystem/TAG_Messaging.c:325-340 | one sleeper less, nothing else; the answer is EUCLEAN after a signal, else the smaller of the two sizes |
| RegistryAnswers.CtlRefuses | TAG_MESSAGING/TAG_Subsystem/TAG_Messaging.c:460-476 | tag_ctl with a negative tag or an unknown command |
| RegistryAnswers.AwakeAnswers | TAG_MESSAGING/TAG_Subsystem/TAG_Messaging.c:358-380 | command 0: the errors in their order; otherwise 0, all 32 flags of the service up, everything else as before |
| RegistryAnswers.RemoveAnswers | TAG_MESSAGING/TAG_Subsystem/TAG_Messaging.c:391-433 | command 1: 0 if and only if the slot is taken, the caller admitted and nobody sleeps on any level; then the slot is empty, the count one less, every other slot as before; otherwise which error, and nothing changes |
| RoomHistory.RoomStays | TAG_MESSAGING/TAG_Subsystem/TAG_Messagin_help.c:68-72 | over every run, from its creation until its removal a room has the key, tag, creator and permission it was created with |
| RoomHistory.PrivateRefuses | TAG_MESSAGING/TAG_Subsystem/TAG_Messagin_help.c:22-38 | over every run, from the creation of a private room until its removal, every open, send, receive and ctl for it by a caller that is neither its creator nor uid 0 fails and changes nothing, with EBADRQC if nothing else is wrong |
| RoomHistory.SleepersCounted | TAG_MESSAGING/TAG_Subsystem/rcu-list.c:38-57 | over every run, the sleepers of a level are the receives that parked there less those that have left |
| RoomHistory.SleeperKeepsRoom | TAG_MESSAGING/TAG_Subsystem/TAG_Messaging.c:403-409 | over every run, as long as a receive sleeps in a room every removal of it is refused |
| RoomHistory.GoneStays | TAG_MESSAGING/TAG_Subsystem/TAG_Messaging.c:423-424 | over every run, a removed room stays away until a creation is answered with its tag |
| RoomHistory.GoneRefuses | TAG_MESSAGING/TAG_Subsystem/TAG_Messaging.c:210-214 | until then sends and receives for its tag answer ENOMSG, ctl its error, and no open answers its tag |
| RoomHistory.KeyGone | TAG_MESSAGING/TAG_Subsystem/TAG_Messaging.c:96-110 | opening the public key of a removed room answers ENOMSG until it is created again |
| ServiceCounter.CounterInterleaved | TAG_MESSAGING/TAG_Subsystem/TAG_Messaging.c:43-72 | with overlapping creations and removals, serviceCount plus creations not yet counted minus removals not yet counted is the number of taken slots, modulo 2^32 |
| ServiceCounter.CounterExactWhenEven | TAG_MESSAGING/TAG_Subsystem/TAG_Messaging.c:423-428 | the counter is exact if and only if the uncounted creations and removals balance modulo 2^32 |
| ServiceCounter.RemovedBeforeCounted | TAG_MESSAGING/TAG_Subsystem/TAG_Messaging.c:36-53 | a run that leaves the registry empty, the counter at 2^32 - 1 and a creation refused |
| ServiceCounter.StuckNeedsOverlap | TAG_MESSAGING/TAG_Subsystem/TAG_Messaging.c:36-68 | in every run, a creation that finds no slot passed line 36 while a creation with its slot was not counted, or another call took a slot between that and its own insertion |
| ServiceCounter.StuckForGood | TAG_MESSAGING/TAG_Subsystem/TAG_Messaging.c:45-50 | it leaves the write lock held: no slot is taken or given up ever after |
| ServiceCounter.OneTooMany | TAG_MESSAGING/TAG_Subsystem/TAG_Messaging.c:36-68 | from every reachable state with no lock held in which line 36 lets a creator pass, one creator more than there are free slots leads to one that finds none |
| ServiceCounter.TwoForOneSlot | TAG_MESSAGING/TAG_Subsystem/TAG_Messaging.c:36-50 | a run in which two creators come for the last slot, with the counter exact till then, and one of them finds none |
| StatusText.Scnprintf | TAG_MESSAGING/TAG_Subsystem/TAG_Messagin_help.c:117-117 | one bounded print: at most size - 1 characters, a terminator, nothing else touched |
| StatusText.TakeAppend | TAG_MESSAGING/TAG_Subsystem/TAG_Messagin_help.c:117-120 | truncated appends compose: cutting the whole is cutting the parts with the room that is left |
| StatusText.Append | TAG_MESSAGING/TAG_Subsystem/TAG_Messagin_help.c:117-122 | writeLen stays below the limit, so the size passed never wraps, and the buffer stays the cut of the full text |
| StatusText.ScanService | TAG_MESSAGING/TAG_Subsystem/TAG_Messagin_help.c:109-128 | for every registry: the first len - 1 characters of the full listing and one terminator, and the length that says so |
| StatusLines.ListingIs | TAG_MESSAGING/TAG_Subsystem/TAG_Messagin_help.c:114-124 | the listing is one line for each level of each service, in the order of slots and levels, with the tag, the creator, the tag, the key, the level and the sleepers after their words, and an empty line after each service |
| StatusLines.StatusIs | TAG_MESSAGING/TAG_Subsystem/TAG_Messagin_help.c:109-128 | the status of every registry is the beginning of that text |
| StatusReading.ThirtySixDoNotFit | TAG_MESSAGING/charDev/charDev.h:30-30 | with 36 or more services the status is cut |
| StatusReading.TwentyThreeFit | TAG_MESSAGING/charDev/charDev.h:30-30 | with up to 23 services, numbers being ints, the status is never cut |
| StatusReading.LineSplit | TAG_MESSAGING/TAG_Subsystem/TAG_Messagin_help.c:117-120 | a line of the listing can be read off: its numbers, and where it ends |
| StatusReading.ListingInjective | TAG_MESSAGING/TAG_Subsystem/TAG_Messagin_help.c:114-124 | the full listing tells exactly which slots are taken, and every field shown of each service |
| StatusReading.StatusInjective | TAG_MESSAGING/TAG_Subsystem/TAG_Messagin_help.c:109-128 | so does the status as written, with up to 23 services |
| StatusRegistry.ShownInPlace | TAG_MESSAGING/TAG_Subsystem/TAG_Messagin_help.c:114-117 | in every registry that calls can make, services are shown in the slot of their tag, and serviceCount of them |
| StatusRegistry.MadeRowsOk | TAG_MESSAGING/TAG_Subsystem/TAG_Messagin_help.c:117-119 | after fewer than 2^31 calls with int arguments, every number shown is an int |
| StatusRegistry.StatusTells | TAG_MESSAGING/TAG_Subsystem/TAG_Messagin_help.c:109-128 | of two such registries with up to 23 services, the status is the same if and only if the same slots are taken, with the same tags, keys, creators and sleepers |
| CopyOut.CopyAll | TAG_MESSAGING/TAG_Subsystem/TAG_Messaging.c:332-335 | however copy_to_user splits the work, the loop ends with exactly the requested bytes copied and the rest of the buffer untouched |
| CopyOut.Deliver | TAG_MESSAGING/TAG_Subsystem/TAG_Messaging.c:330-339 | the first min(size, message size) bytes of the message found |
| CopyOut.Receive | TAG_MESSAGING/TAG_Subsystem/TAG_Messaging.c:325-339 | from the search to the copy, on the pointer list with any history of sends: the first bytes of the last message sent to the level, or EUCLEAN exactly after a signal |
| Delivery.ReceiveSent | TAG_MESSAGING/TAG_Subsystem/TAG_Messaging.c:187-340 | over every run of calls, a reader that is woken gets in its buffer the first min(size, size sent) bytes of the sender's buffer, until another message is accepted for the level; the rest of its buffer stays |
| CopyOut.OpenFile.constructor | TAG_MESSAGING/charDev/charDev.c:3-19 | opening takes the snapshot, at offset 0 |
| CopyOut.OpenFile.DevRead | TAG_MESSAGING/charDev/charDev.c:27-46 | the bytes in memory from the offset on, and the new offset; with a sum that does not wrap, the next part of the snapshot, never past its end; 0 at the end |
| CopyOut.InBoundsExactly | TAG_MESSAGING/charDev/charDev.c:36-37 | a read stays inside the snapshot if and only if offset plus length does not wrap in 64 bits |
| CopyOut.LeavesSnapshot | TAG_MESSAGING/charDev/charDev.c:36-37 | an offset and a length for which it does not |
| CopyOut.ReadsReassemble | TAG_MESSAGING/charDev/charDev.c:27-46 | any run of non-wrapping reads concatenates to the next part of the snapshot, as long as asked for in all or what is left |
| CopyOut.WholeStatus | TAG_MESSAGING/charDev/charDev.c:27-46 | reads that ask for enough give the whole status, and the next one returns 0 |
| PageWalk.IndexUnsigned | TAG_MESSAGING/sysCall_Discovery/vtpmo/vtpmo.c:10-21 | the sign kept by the shifts never reaches the nine bits of an index |
| PageWalk.IndicesReassemble | TAG_MESSAGING/sysCall_Discovery/vtpmo/vtpmo.c:10-21 | the four indices and the page offset are the low 48 bits of the address |
| PageWalk.OneMappedPage | TAG_MESSAGING/sysCall_Discovery/vtpmo/vtpmo.c:54-106 | when four tables map the page of one address to a frame and all other entries are zero, the walk answers that frame for every address with the same page number in its low 48 bits, and NO_MAP for all others |
| PageWalk.OneMappedLargePage | TAG_MESSAGING/sysCall_Discovery/vtpmo/vtpmo.c:79-87 | the same for a large page that the third table maps |
| PageWalk.OnePageOneAnswer | TAG_MESSAGING/sysCall_Discovery/vtpmo/vtpmo.c:54-106 | all addresses of a 4 KiB page get one answer |
| PageWalk.OneLargePageOneAnswer | TAG_MESSAGING/sysCall_Discovery/vtpmo/vtpmo.c:79-87 | and so do all of a 2 MiB region mapped as a large page |
| PageWalk.NoMapExactly | TAG_MESSAGING/sysCall_Discovery/vtpmo/vtpmo.c:54-106 | NO_MAP if and only if a visited entry is invalid or the frame number, cut to 32 bits, is -1 |
| PageWalk.NoMapThoughMapped | TAG_MESSAGING/sysCall_Discovery/vtpmo/vtpmo.c:79-87 | tables and a mapped address for which the answer is NO_MAP |
| PageWalk.NoMapMeansUnmapped | TAG_MESSAGING/sysCall_Discovery/vtpmo/vtpmo.c:54-106 | with frame addresses below 2^43, NO_MAP if and only if a visited entry is invalid |
| TableSearch.RunsOutMeans | TAG_MESSAGING/sysCall_Discovery/sysCall_Discovery.c:55-60 | the single probe of line 59 decides whether all 237 entries can be read; when it fails, no later base in the page can be a table either |
| TableSearch.PatternIs | TAG_MESSAGING/sysCall_Discovery/sysCall_Discovery.c:63-70 | the pattern in the numbers of the source: the seven places with one value, aligned to 4 and above 0xffffffff00000000, that entries 1 to 133 do not have |
| TableSearch.GoodArea | TAG_MESSAGING/sysCall_Discovery/sysCall_Discovery.c:33-47 | whether entries 1 to 133 all differ from entry 134 |
| TableSearch.Matches | TAG_MESSAGING/sysCall_Discovery/sysCall_Discovery.c:63-70 | whether the words at the base have the full pattern, read only where mapped |
| TableSearch.ValidatePage | TAG_MESSAGING/sysCall_Discovery/sysCall_Discovery.c:50-79 | of a mapped page, the lowest aligned base with the full pattern and all entries mapped, or none if there is none; every load is of a mapped address |
| TableSearch.FindTable | TAG_MESSAGING/sysCall_Discovery/sysCall_Discovery.c:86-101 | the first such base in the whole range, or none if there is none |
| TableInstall.FoundIsAccepted | TAG_MESSAGING/sysCall_Discovery/sysCall_Discovery.c:63-75 | what the search establishes is what installing relies on |
| TableInstall.PlacesFill | TAG_MESSAGING/sysCall_Discovery/sysCall_Discovery.c:112-119 | an increasing list that contains the first n known places has n members up to the n-th |
| TableInstall.FirstHolesUnique | TAG_MESSAGING/sysCall_Discovery/sysCall_Discovery.c:112-119 | "the first n entries with the placeholder" is one list |
| TableInstall.Installer.FindFree | TAG_MESSAGING/sysCall_Discovery/sysCall_Discovery.c:103-121 | the first entries with the placeholder, as many as asked for or all there are among 256; on a table with the known places exactly as many as asked for, reading no entry after the place of that number (183 for four); -1 without a table |
| TableInstall.Installer.AddSyscall | TAG_MESSAGING/sysCall_Discovery/sysCall_Discovery.c:138-152 | the pointer in the next free entry, or -1 with nothing changed |
| TableInstall.Installer.RemoveAll | TAG_MESSAGING/sysCall_Discovery/sysCall_Discovery.c:154-165 | the table restored, see RestoredAt; without a table, nothing |
| TableInstall.RestoredAt | TAG_MESSAGING/sysCall_Discovery/sysCall_Discovery.c:159-162 | restoring writes the placeholder to the entries in use, and to nothing else |
| TableInstall.InstalledStay | TAG_MESSAGING/sysCall_Discovery/sysCall_Discovery.c:138-147 | with distinct free entries each pointer stays where its call put it |
| TableInstall.RoundTrip | TAG_MESSAGING/sysCall_Discovery/sysCall_Discovery.c:138-165 | any number of adds and then the restore give back the whole table if and only if there were no more adds than entries found (or ten were found), or entry 0 held the placeholder; nextFree is 0 in any case |
| TableInstall.FifthLoses | TAG_MESSAGING/sysCall_Discovery/sysCall_Discovery.c:138-165 | an accepted table on which five adds and the restore lose entry 0 |
| TableInstall.Installer.Load | main.c:38-47 | on a table that the search accepted: four entries found, and the pointers added to them |
| TableInstall.Installer.LoadThenUnload | main.c:38-55 | on such a table, loading and unloading the module leave the table as it was |

The machine itself is `EpochMachine.Apply`, guarded by `EpochMachine.Enabled`; the source line of each step stands
beside it. The functions of `RegistrySpec` are the specification of the calls of `Registry`.

## Left out

- Lines 87 and 88, and 179 and 181, of `rcu-list.c` are one step each: the first store of either pair is to an element that nobody else can reach yet.
- Weak memory, compiler reordering, interrupts and preemption: steps are sequentially consistent, and `waiters[key] += 1` is one step.
- Freed elements keep their contents and their addresses are not used again, so that "stands on a freed element" can be said.
- Use of an element after the lookup has returned it: a reader deregisters at line 56, so the grace periods cover the traversal only. `CopyOut.Deliver` takes the message as still there.
- Delivery to every parked reader: no such promise holds (`EpochWake.EntrantTakesTheFlag`). That scheduling is fair is not assumed, so calls that can come back need not.
- RcuList.List.Insert: the spin of line 101 is shown to end at once, since nobody else is inside; spins that go round are in `EpochDrain`.
- RcuList.List.Remove: likewise for the spins of lines 142 and 146; the release of the element's memory is in the step machine only. The unlinking store comes after the search loop instead of in its last turn.
- RcuList.List.Replace: likewise for the spin of line 209 and the release of memory; the two stores come after the search loop, in the source's order.
- RcuList.List.Search: the wait is a choice between release and signal; who releases is in `EpochRelease`.
- Registry.Table.FinishReceive: whether the flag is up when the reader is woken is not in its contract; who raises it is in `EpochRelease`. In between, other calls run, but none of them overlaps with another.
- Registry.Service.Store: a replace that does not find its level leaves the list's lock held (lines 176 and 196 of `rcu-list.c`); the lock counts as released. On the lists of services it never happens (`EpochLevels.LevelsStay`).
- Registry.Table.constructor: slots start empty, though `kmalloc` does not clear them; later allocations are taken to succeed.
- Registry.Table.TagSend: levels are not negative (the code rejects only those of 32 and more).
- Registry.Table.Remove: the lock that some error returns of REMOVE and CREATE leave held, and the extra unlock of AWAKE_ALL, count as released; module reference counts are left out.
- RegistryRuns.RunKeepsInv: calls come one at a time. Overlap is modelled for `serviceCount` only, with removals that do not overlap, since REMOVE takes just the read lock.
- StatusText.ScanService: the buffer holds the `len` bytes asked for, as page rounding gives; one byte less is requested. Numbers print in full, without the 32-bit range of `%d`.
- CopyOut.CopyToUser: makes progress on every call; a user address that always faults loops forever in the source.
- CopyOut.OpenFile.DevRead: the memory that it reads, the snapshot or beyond, is there; the user's buffer holds the length asked for.
- PageWalk: five-level paging and 1 GiB pages, which the walk does not handle; the tables do not change during a search.
- TableInstall.Installer.FindFree: either all 256 entries can be read, or the placeholder is at as many known places as are asked for; otherwise the source reads past what the search has shown to be mapped.
- The unused `getTAG_Service`, the discarded `emptyService` of REMOVE, memory leaks, sysfs, `printk`, CR0, device registration, and the user-side programs.
