# Verified model of turbo

A Dafny model of the parts of turbo that are hard to get right by inspection, with
proofs of what they promise. Each module follows one component of the library, in
that component's own form: a protocol between threads is a step machine whose steps
interleave arbitrarily; an object that changes in place is a class; a loop over an
array is a loop over an array, proved against a function or a predicate on values.

- `CallOnce` — `call_once` on one flag, called by any number of threads, together with
  the waiting loop of `SpinLockWait` and the futex wait and wake under it. The function
  starts at most once, nobody returns before it has ended, no wake-up is lost, and every
  run is of bounded length.
- `Permute` — `permute` and `arg_sort`: permuting in place by following cycles, the
  number of cycles, and sorting by permuting. `PermuteEnds` — for which index vectors
  the walks of `permute` end at all.
- `SyncEvent` — `SynchronousEvent`: callbacks that subscribe, unsubscribe, clear and
  notify while they are being called. The slots always represent an ordered set, on which
  every script acts as its operations say; a notification reaches exactly those it should,
  in order, if no callback notifies; and for every other callback it is proved whom it
  misses.
- `Sample` — the fallback of `c_sample`: which elements a random stream selects; every
  subset is selected by the same number of streams.
- `EndPointRefs` — the reference counts of extended endpoints under concurrent use,
  with the global set that keeps equal addresses equal. `EndPointEffects` — what each
  operation on an endpoint object leaves behind.
- `EndPointText` — printing and parsing IPv4 endpoints. `EndPointGrammar` — exactly which
  texts the parser accepts. `EndPointParse` — what parsing into an existing object does to
  the reference counts.
- `LogSiteRing` — the benchmark's ring of log sites: building it, cutting it into three
  pieces and rejoining them any number of times, and cutting it open.
- `PairGenerator` — the benchmark's lazy enumeration of all pairs of two streams.
- `StrReplace` — the benchmark's two replacement loops.
- `ScopedGenerics` — `ScopedGeneric`: who owns a value and with which traits it is freed.
- `Bits` — `Log2Floor` and `Log2Ceiling`.
- `Common` — what several modules share.

Random draws, cuts, callbacks, socket addresses, the resources a pool hands out and
the schedule are arbitrary inputs. In `CallOnce` the futex is an assumption: a wait sleeps
only if the word still holds the given value, a wake wakes all sleepers, and a sleeper may
also be woken for no reason. Each function call in a thread's run returns.

## Findings

The model does what the code does. In six places this is less than a reader of the
documentation, or of the neighbouring code, might expect. Each is proved with the exact
condition under which the code does what is expected, and with a concrete input on which it
does not.

- Reading an IPv4 endpoint from text or from a host name stores the fields without resetting
  the object. This keeps the reference counts exact if and only if the object keeps its
  value, or neither the old nor the new value is an extended endpoint
  (`EndPointRefs.StepKeepsInv`, `EndPointRefs.RunKeepsInv`). Two families fail. Reading
  into an extended object leaks its resource (`EndPointParse.ParseLeaks`). A text whose
  number is taken for port 123456789 is refused, but only after that port has been stored,
  which makes a plain object pass for an extended one: destroying it releases a resource that
  it never held (`EndPointParse.NumberIsSafe`, `EndPointParse.ParseForges`).
- Assigning an `EndPoint` to itself clears it, because the target is reset before the
  source is read (`EndPointRefs.AssignCopiesUnlessSelf`,
  `EndPointRefs.SelfAssignmentClears`).
- `str2endpoint` never looks at the first character after the port, so `1.2.3.4:80x` is
  accepted (`EndPointText.FirstTrailingCharacterIsIgnored`, `EndPointText.JunkAccepted`).
- `str2endpoint` checks the port after storing it in an `int`. So 4294967376 and -4294967216
  are accepted as port 80, and every number below the least `long` as port 0
  (`EndPointText.PortIsTruncated`, `EndPointText.WrongPortsAccepted`).
- The benchmark's ring is cut open after as many sites as there are files, so the list holds
  all sites if and only if every file has one (`LogSiteRing.SyntheticBinary`,
  `LogSiteRing.SecondSiteIsLost`).
- A callback that calls `notify` on the event it is called from can make the outer
  notification miss observers, because the inner one closes the gaps in the list. If slot i
  was called and d of the slots up to i were squeezed out during the callback, then exactly
  the observers in slots i+1-d..i are missed (`SyncEvent.NotificationIsQueue`), and everyone
  is served if and only if these slots are empty in every turn
  (`SyncEvent.ServedIffNobodyMissed`, `SyncEvent.NestedNotifySkips`). In particular nobody
  is missed if the nested notifications find no empty slot up to the one called
  (`SyncEvent.NothingSqueezedNobodyMissed`). Two conditions are known before the call: no
  callback notifies, which is all that the comments of the class allow
  (`SyncEvent.FlatMissesNobody`); or no slot is empty and no callback removes an observer
  (`SyncEvent.NeverRemovingMissesNobody`).

## Model

| member | source | states |
|---|---|---|
| `CallOnce.Lookup` | turbo/base/internal/spinlock_wait.cc:45-49 | The row search finds the first row for the loaded value, or no row exactly if there is none. |
| `CallOnce.TableRows` | turbo/base/call_once.h:165-168 | Which of the four control words the transition table covers: only Waiter has no row, so only on Waiter does a thread sleep. |
| `CallOnce.MoveKeepsInv` | turbo/base/internal/spinlock_wait.cc:40-58 | The invariant survives a thread that only reads the word, retries, or falls asleep on Waiter. |
| `CallOnce.WordMoveKeepsInv` | turbo/base/call_once.h:165-180 | The invariant, with its single owner of a busy word, survives winning the word from Init and marking it Waiter while it is Running. |
| `CallOnce.OwnerKeepsInv` | turbo/base/call_once.h:181-182 | The invariant survives the owner's start and end of the function, which are the first two events of the log. |
| `CallOnce.ExchangeKeepsInv` | turbo/base/call_once.h:183-185 | The invariant survives publishing Done: whoever still sleeps then has a wake-up call pending. |
| `CallOnce.WakeAllKeepsInv` | turbo/base/internal/spinlock_linux.inc:67-70 | The invariant survives the wake-up call. |
| `CallOnce.LeaveKeepsInv` | turbo/base/call_once.h:185-189 | The invariant survives a thread's return to its caller from a finished flag, unless it would skip a pending wake-up. |
| `CallOnce.StepKeepsInv` | turbo/base/call_once.h:148-219 | Every atomic step of every thread keeps the invariant. |
| `CallOnce.RunKeepsInv` | turbo/base/call_once.h:148-219 | So does every interleaving, spurious wake-ups included. |
| `CallOnce.RunsOnce` | turbo/base/call_once.h:53-63 | In every interleaving of any number of callers the function starts at most once, ends only after it started, nobody leaves before it has ended, nobody leaves twice, and the debug check of the word never fails. |
| `CallOnce.NoLostWakeUp` | turbo/base/call_once.h:165-188 | While a thread sleeps, either the word is Waiter and its owner is still to exchange it, or Done has been exchanged for Waiter and the wake-up call is still to come. |
| `CallOnce.StuckMeansFinished` | turbo/base/call_once.h:53-63 | A run that cannot go on has ended well: the word is Done, the function ran, and every caller has returned. |
| `CallOnce.StepShrinksWork` | turbo/base/internal/spinlock_wait.cc:40-58 | Every step of every thread, a failed compare-exchange included, brings the run closer to its end by a measure over all threads. |
| `CallOnce.Terminates` | turbo/base/internal/spinlock_wait.cc:40-58 | n callers take at most 38 n steps together, plus three for each spurious wake-up. |
| `CallOnce.FinishedFlagIsLeft` | turbo/base/call_once.h:211-219 | A caller that finds the flag finished leaves in one step. |
| `CallOnce.FirstCallerNeverWaits` | turbo/base/call_once.h:172-188 | A caller that finds the flag untouched and is not disturbed wins it without entering the waiting loop, runs the function, publishes Done and leaves, in seven steps. |
| `CallOnce.SpuriousWakeIsHarmless` | turbo/base/internal/spinlock_wait.cc:40-58 | A sleeper woken for no reason is asleep again two steps later, with nothing changed, if the flag is busy; it leaves if the flag is finished. |
| `CallOnce.BadWordIsFatal` | turbo/base/call_once.h:153-164 | The debug check stops a caller if and only if the word is none of the four control words. |
| `Permute.WalkReturns` | turbo/algorithm/algorithm.h:97-105 | When the inner loop is about to return to its start, the positions it has visited are exactly the cycle of each of them. |
| `Permute.ResolvingStep` | turbo/algorithm/algorithm.h:99-104 | One swap puts one more position of the cycle right and passes the first value on along the cycle. |
| `Permute.ResolveCycle` | turbo/algorithm/algorithm.h:88-105 | The inner loop ends; it gathers along one cycle, marks exactly that cycle and keeps the values as a multiset. |
| `Permute.StillWholeCycles` | turbo/algorithm/algorithm.h:79-106 | At the head of the outer loop the mask is a union of whole cycles. |
| `Permute.OneMoreCycle` | turbo/algorithm/algorithm.h:84-86 | An iteration of the outer loop marks exactly one cycle that was not marked before. |
| `Permute.LeastStep` | turbo/algorithm/algorithm.h:84-89 | The start of that cycle is its least position. |
| `Permute.ProgressStep` | turbo/algorithm/algorithm.h:84-106 | One iteration of the outer loop keeps values, mask, count and recorded starts in step. |
| `Permute.ShortPermutation` | turbo/algorithm/algorithm.h:75-77 | The early return gives the same answer for no or one position. |
| `Permute.Permute` | turbo/algorithm/algorithm.h:73-109 | For every permutation of at most as many positions as there are values: the new value at i is the old one at indices[i], values beyond are untouched, the result is the number of cycles with fixed points counted, and the outer loop began each cycle at its least position. |
| `PermuteEnds.WalksEndIffPermutation` | turbo/algorithm/algorithm.h:97-105 | For indices within range, every walk of the inner loop comes back to its start if and only if the indices are a permutation. |
| `PermuteEnds.OnReturningWalk` | turbo/algorithm/algorithm.h:97-105 | Every position on a walk that comes back comes back itself, so a position that does not is never marked. |
| `PermuteEnds.EndsIffPermutation` | turbo/algorithm/algorithm.h:79-108 | For indices within range, the two loops of `permute`, with the mask deciding where walks begin, come to their end if and only if the indices are a permutation. |
| `PermuteEnds.RepeatedIndexNeverReturns` | turbo/algorithm/algorithm.h:97-105 | With the indices 1, 1 the walk from position 0 never comes back. |
| `Permute.NotLessIsTransitive` | turbo/algorithm/algorithm.h:64-71 | What a strict weak order gives a sort: "not less" is transitive, incomparable elements included. |
| `Permute.ArgSort` | turbo/algorithm/algorithm.h:64-71 | The result is a permutation, and selecting the values by it gives a sequence in which no element is less than an earlier one, for every strict weak order. |
| `Permute.SortByPermuting` | turbo/algorithm/algorithm.h:64-109 | `permute` with the result of `arg_sort` sorts any vector in place and keeps its values. |
| `SyncEvent.SubscribedRefines` | turbo/base/synchronous_event.h:63-77 | Subscribing appends to the ordered set of observers, or changes nothing for null and for a member. |
| `SyncEvent.UnsubscribedRefines` | turbo/base/synchronous_event.h:79-95 | Unsubscribing removes exactly that observer from the ordered set and keeps the order of the rest. |
| `SyncEvent.ClearedRefines` | turbo/base/synchronous_event.h:97-104 | Clearing empties the ordered set. |
| `SyncEvent.ShrunkKeepsLive` | turbo/base/synchronous_event.h:164-176 | Shrinking keeps the ordered set and leaves no empty slot. |
| `SyncEvent.PerformRefines` | turbo/base/synchronous_event.h:66-176 | Every operation, a notification with any nested operations included, acts on the slots as its history says it acts on the ordered set; only absent observers are added, only present ones are removed or called, and none is listed twice. |
| `SyncEvent.DeliverRefines` | turbo/base/synchronous_event.h:113-122 | The same for the index loop of `notify` from any slot on. |
| `SyncEvent.DeliverKeepsPromise` | turbo/base/synchronous_event.h:63-65 | If no callback notifies: calls go to live slots in slot order, and a slot that exists at the end, also one added meanwhile, is called once if and only if it was not emptied before its turn. |
| `SyncEvent.GoneIsNotCalled` | turbo/base/synchronous_event.h:79-95 | A subscription removed before its turn is not called. |
| `SyncEvent.ReactBehind` | turbo/base/synchronous_event.h:113-122 | Whatever a callback does, the observers that were behind a given slot, less those removed and followed by those added, are behind it afterwards, moved forward by the number of slots up to it that nested notifications squeezed out. |
| `SyncEvent.TurnsMakeTheLog` | turbo/base/synchronous_event.h:115-119 | The calls of the outer loop, each with what happens during it, make up the whole history, so outer calls are told apart from nested ones. |
| `SyncEvent.LeftAfterCall` | turbo/base/synchronous_event.h:115-119 | When a callback returns, those still to be called are the ones in slots i+1-d..i, which the loop steps over, followed by those from slot i+1 on. |
| `SyncEvent.NotificationIsQueue` | turbo/base/synchronous_event.h:113-122 | For every callback script, nested notifications included: the outer loop serves a queue; each turn calls its first observer, the callback's removals and subscriptions change it, exactly the observers in slots i+1-d..i are lost from its front, and at the end nobody is left. |
| `SyncEvent.ServedIffNobodyMissed` | turbo/base/synchronous_event.h:63-65 | Everyone is called when their turn comes, unless removed before, if and only if nobody is missed in any turn. |
| `SyncEvent.NobodyLives` | turbo/base/synchronous_event.h:115-119 | Nobody is missed in a turn if and only if the slots stepped over are empty. |
| `SyncEvent.NoGapsNobodyMissed` | turbo/base/synchronous_event.h:164-176 | A turn in which no nested notification that ends finds an empty slot up to the one called misses nobody. |
| `SyncEvent.NothingSqueezedNobodyMissed` | turbo/base/synchronous_event.h:113-122 | A notification all of whose turns are like that misses nobody. |
| `SyncEvent.NeverRemovingMissesNobody` | turbo/base/synchronous_event.h:113-122 | A condition on event and callbacks alone: if no slot is empty and no callback, of nested notifications to any depth included, unsubscribes or clears, then nobody is missed. |
| `SyncEvent.FlatMissesNobody` | turbo/base/synchronous_event.h:63-65 | A notification whose callbacks do not notify misses nobody. |
| `SyncEvent.NestedNotifySkips` | turbo/base/synchronous_event.h:113-122 | A concrete history: the first of three observers unsubscribes itself and notifies; one slot is squeezed out, the outer notification goes on with the third observer and misses the second. |
| `SyncEvent.PerformExplained` | turbo/base/synchronous_event.h:66-176 | Every operation does what it means, on the ordered set and without mention of slots: a subscription adds exactly who is not there, an unsubscription removes exactly who is there, `clear` removes everyone in order, and a notification serves a queue in which the callback of turn k performs the operations of reaction k, nested notifications included. |
| `SyncEvent.ReactExplained` | turbo/base/synchronous_event.h:115-119 | A callback performs all of its operations, one after the other, none dropped and none reordered. |
| `SyncEvent.TurnsAreExplained` | turbo/base/synchronous_event.h:115-119 | In turn k of a notification the callback performs the operations of reaction k, and those beyond the last reaction do nothing. |
| `SyncEvent.ExplainedFold` | turbo/base/synchronous_event.h:66-104 | For operations other than `notify` this meaning is a fold: append an observer that is new, remove one, or empty the ordered set, over all operations in order. |
| `SyncEvent.PerformMeans` | turbo/base/synchronous_event.h:66-104 | The observers in the slots after a subscription, an unsubscription or a `clear` are the old ones with the new one appended, without the one removed, or none. |
| `SyncEvent.ReactMeans` | turbo/base/synchronous_event.h:115-119 | The observers in the slots after a callback that does not notify are the fold of all its operations over those before it. |
| `SyncEvent.NotificationMeans` | turbo/base/synchronous_event.h:113-122 | The observers after a notification whose callbacks do not notify are the fold of the operations of all callbacks that it reached, in the order of the calls. |
| `SyncEvent.SynchronousEvent.constructor` | turbo/base/synchronous_event.h:61 | A new event has no observers. |
| `SyncEvent.SynchronousEvent.Subscribe` | turbo/base/synchronous_event.h:66-77 | Returns 0 and appends for a new observer, otherwise returns -1 and changes nothing; the count stays the number of live slots. |
| `SyncEvent.SynchronousEvent.Unsubscribe` | turbo/base/synchronous_event.h:82-95 | Returns 0 and removes a present observer, otherwise returns -1 and changes nothing. |
| `SyncEvent.SynchronousEvent.Clear` | turbo/base/synchronous_event.h:98-104 | Leaves no live slot and as many slots as before. |
| `SyncEvent.SynchronousEvent.Size` | turbo/base/synchronous_event.h:107 | The number of live slots. |
| `SyncEvent.SynchronousEvent.Shrink` | turbo/base/synchronous_event.h:164-176 | The pass with two cursors over one vector keeps the live slots in order and drops all others. |
| `SyncEvent.SynchronousEvent.Notify` | turbo/base/synchronous_event.h:113-122 | The loop, with callbacks that operate on the same event and may notify it again, leaves no empty slot and the ordered set its history describes; each turn performs its own reaction; it serves the queue as stated above. If no callback notifies, it keeps the delivery promise, and the new ordered set is the fold of the operations of the callbacks reached. |
| `SyncEvent.SynchronousEvent.OnEvent` | turbo/base/synchronous_event.h:115-119 | A callback body leaves the ordered set that all of its operations, in order, make of the old one; without `notify` this is their fold. |
| `SyncEvent.SynchronousEvent.Do` | turbo/base/synchronous_event.h:66-122 | One operation of a callback changes the ordered set as the operation says. |
| `Sample.ChosenCount` | turbo/algorithm/container.h:800-807 | Whatever is drawn, exactly as many elements are selected as are wanted. |
| `Sample.ChosenAt` | turbo/algorithm/container.h:800-807 | An element is selected if and only if its draw is below the number of elements still wanted, which is the number wanted at first less those selected before it. |
| `Sample.PickInPlace` | turbo/algorithm/container.h:800-807 | Every selected element is in the output, behind as many elements as are selected before it. |
| `Sample.PickAtPositions` | turbo/algorithm/container.h:800-807 | The output is the container's elements at ascending positions, all of them selected. |
| `Sample.CSample` | turbo/algorithm/container.h:796-808 | The loop never reads past the end and puts out min(n, size) elements: those at the positions that the draws select, in their order; all of them if n is at least the size. |
| `Sample.StreamCount` | turbo/algorithm/container.h:801-802 | There are N! full-length streams of draws. |
| `Sample.SelectingSplits` | turbo/algorithm/container.h:800-807 | The streams that select a given set split by their first draw: it is below the number still wanted if and only if the first element is in the set. |
| `Sample.EverySubsetEquallyLikely` | turbo/algorithm/container.h:785-808 | Each set of n out of N elements is selected by exactly n! (N-n)! of the N! streams. |
| `Sample.EverySampleEquallyLikely` | turbo/algorithm/container.h:785-808 | For a container without repetitions, the output that consists of a given set of n elements is produced by exactly n! (N-n)! of the N! streams. |
| `EndPointRefs.DropKeepsInv` | turbo/base/endpoint.cc:82-91 | The invariant, with every count equal to its holders, survives the reset of an object. |
| `EndPointRefs.SetKeepsInv` | turbo/base/endpoint.cc:68-80 | The invariant survives copying an endpoint into an object that denotes nothing. |
| `EndPointRefs.DedupKeepsInv` | turbo/base/internal/extended_endpoint.hpp:254-264 | The invariant survives sharing a live equal endpoint and publishing a new one, also while an equal one is being released by another thread. |
| `EndPointRefs.PublishDisplaces` | turbo/base/internal/extended_endpoint.hpp:340-357 | Publishing displaces at most an equal endpoint that nobody holds. |
| `EndPointRefs.EmbedKeepsInv` | turbo/base/internal/extended_endpoint.hpp:247-252 | The invariant survives handing the creator's reference over to the object. |
| `EndPointRefs.EraseKeepsInv` | turbo/base/internal/extended_endpoint.hpp:359-367 | The invariant survives the erasure by a releasing thread, also when a successor with the same address has taken its place in the global set. |
| `EndPointRefs.ReturnKeepsInv` | turbo/base/internal/extended_endpoint.hpp:268-276 | The invariant survives giving a dead resource back to the pool. |
| `EndPointRefs.CreateKeepsInv` | turbo/base/internal/extended_endpoint.hpp:233-245 | The invariant survives taking a resource from the pool, with one reference that its maker holds. |
| `EndPointRefs.DestroyKeepsInv` | turbo/base/endpoint.cc:106-108 | The invariant survives the destruction of an object. |
| `EndPointRefs.StepKeepsInv` | turbo/base/endpoint.cc:68-113 | Every step of every thread keeps the invariant, except exactly the parses that change an object's value from or to an extended one. |
| `EndPointRefs.ParseKeepsInv` | turbo/base/endpoint.cc:265-363 | The stores of a parse keep the invariant if they change nothing or replace a plain endpoint by a plain one. |
| `EndPointRefs.OtherParseBreaksInv` | turbo/base/endpoint.cc:265-363 | Any other stores break it: a count no longer matches its holders, or an object denotes a resource that is not there. |
| `EndPointRefs.RunKeepsInv` | turbo/base/endpoint.cc:68-363 | The invariant holds in every state of a run if and only if all parses of the run are safe in this sense. |
| `EndPointRefs.CountsAreExact` | turbo/base/endpoint.cc:68-113 | In every run whose parses are safe, each count is the number of objects that denote the resource plus the number of threads about to make one denote it; the resource is out of the pool exactly while one of these exists or its release is under way. |
| `EndPointRefs.NothingLeaks` | turbo/base/endpoint.cc:68-113 | In every such run, whenever no operation is under way, a resource is out of the pool if and only if some object denotes it, and its count is the number of those objects. |
| `EndPointRefs.OperationEnds` | turbo/base/endpoint.cc:68-113 | No operation, and so no release, stays under way: whatever other threads do, it has ended after at most five steps of its own thread. |
| `EndPointRefs.EqualAddressEqualValue` | turbo/base/internal/extended_endpoint.hpp:57-59 | Two extended endpoints are equal as values if and only if their socket addresses are, in every such run. |
| `EndPointRefs.ChecksNeverFail` | turbo/base/internal/extended_endpoint.hpp:233-281 | In every such run, the run-time checks on reference counts and on the family of a new resource never fail, whichever step comes next. |
| `EndPointRefs.AssignCopiesUnlessSelf` | turbo/base/endpoint.cc:110-113 | Assignment copies the source and changes no other object, if and only if source and target are different objects or already empty. |
| `EndPointRefs.SelfAssignmentClears` | turbo/base/endpoint.cc:110-113 | A concrete run in which an object assigned to itself loses its address and port. |
| `EndPointEffects.CopyNewCopies` | turbo/base/endpoint.cc:102-104 | The copy constructor makes the new object equal to the source, raises the count of what the source denotes by one, and changes no other object and no other count. |
| `EndPointEffects.ResetClears` | turbo/base/endpoint.cc:82-91 | A reset that runs to its end leaves the object empty and all others as they were, lowers the count of what it denoted by one, and gives that back to the pool exactly if the count was one. |
| `EndPointEffects.DestroyRemoves` | turbo/base/endpoint.cc:106-108 | The destructor does the same and removes the object. |
| `EndPointEffects.EmbedSettles` | turbo/base/internal/extended_endpoint.hpp:247-252 | After `embed_to` the object denotes the resource; the reference it held before has been given up. |
| `EndPointEffects.CreateDenotes` | turbo/base/internal/extended_endpoint.hpp:183-187 | After a creation the object denotes a resource with that socket address: the live one of the global set if there is one, otherwise the new one. |
| `EndPointEffects.ParseStores` | turbo/base/endpoint.cc:265-313 | A parse stores the fields it read into its object and changes nothing else. |
| `EndPointParse.TextIsSafe` | turbo/base/endpoint.cc:265-298 | Which texts are safe to read into which objects: nothing is stored, or what is there already, or the object is not extended and the number is not taken for the port of extended endpoints. |
| `EndPointParse.AcceptedTextIsSafe` | turbo/base/endpoint.cc:265-298 | A text that is accepted is safe if and only if the object is not extended. |
| `EndPointParse.NumberIsSafe` | turbo/base/endpoint.cc:285-296 | An address and a number of any length read into a plain object are safe if and only if the number is no `long` with lowest 32 bits 123456789. |
| `EndPointParse.PairIsSafe` | turbo/base/endpoint.cc:300-313 | The form with the port given apart is safe if and only if the address is refused, the object is not extended, or nothing changes. |
| `EndPointParse.SAddrIsInjective` | turbo/base/endpoint.cc:115-125 | Different addresses are different numbers, so an address stored in an object can be told from every other. |
| `EndPointParse.TextIsStored` | turbo/base/endpoint.cc:265-298 | Reading the text of an endpoint stores its address and port, whatever the object held before, and changes nothing else. |
| `EndPointParse.PairIsStored` | turbo/base/endpoint.cc:300-313 | An address and a port given apart: the address is stored, and the port if it is in 0..65535. |
| `EndPointParse.ParseLeaks` | turbo/base/endpoint.cc:280-285 | A concrete run: reading 1.2.3.4:80 into an extended object leaves a resource out of the pool that nothing denotes. |
| `EndPointParse.ForgingText` | turbo/base/endpoint.cc:285-296 | The text 0.0.0.0:123456789 is refused, after it has been stored. |
| `EndPointParse.ParseForges` | turbo/base/endpoint.cc:82-108 | A concrete run: destroying a plain object into which that text was read returns a resource to the pool that another object still denotes. |
| `EndPointText.ReadDecimal` | turbo/base/endpoint.cc:181-182 | Reading a printed number gives the number, whatever follows it. |
| `EndPointText.PtonOfNtop` | turbo/base/endpoint.cc:115-133 | `inet_pton` reads back every address that `inet_ntop` prints. |
| `EndPointText.NtopShape` | turbo/base/endpoint.cc:127-133 | A printed address is 7 to 15 digits and dots and begins with a digit. |
| `EndPointText.NotExtended` | turbo/base/internal/extended_endpoint.hpp:107-137 | Text that begins with a printed address is never taken for an extended endpoint. |
| `EndPointText.ParseAfterAddress` | turbo/base/endpoint.cc:265-298 | After a printed address and a colon, the address is read back and what follows alone decides about the port. |
| `EndPointText.RoundTrip` | turbo/base/endpoint.cc:166-298 | Parsing the text of any address and any `int` port gives both back, and succeeds if and only if the port is in 0..65535. |
| `EndPointText.TextFits` | turbo/base/endpoint.h:103-107 | Neither the text nor its parts overrun their buffers, the 64-byte buffer of the parser included. |
| `EndPointText.FirstTrailingCharacterIsIgnored` | turbo/base/endpoint.cc:285-293 | Text after a valid port is accepted if and only if everything after its first character is white space. |
| `EndPointText.JunkAccepted` | turbo/base/endpoint.cc:288-293 | A concrete text with a stray character that is accepted. |
| `EndPointText.PortIsTruncated` | turbo/base/endpoint.cc:285-297 | A number of either sign and any length is stored as the lowest 32 bits of the nearest `long`. It is accepted if and only if it is below every `long`, or is a `long` whose lowest 32 bits are at most 65535. |
| `EndPointText.WrongPortsAccepted` | turbo/base/endpoint.cc:285-297 | Concrete numbers, two of them negative, that are taken for ports 80 and 0. |
| `EndPointText.ExtendedPortIsStored` | turbo/base/endpoint.cc:285-296 | For every address, the number 123456789 is refused as a port after it has been stored. |
| `EndPointText.ToInt` | turbo/base/endpoint.cc:285 | Storing a `long` in an `int` keeps it modulo 2^32 and within the range of an `int`. |
| `EndPointText.StrToEndPoint` | turbo/base/endpoint.cc:265-298 | The parser with its buffer and its two loops computes the specified parse of every text and stores a field also when a later part is refused. |
| `EndPointText.StrToEndPointAndPort` | turbo/base/endpoint.cc:300-313 | The form with the port apart stores the address also when the port is refused, and the port only when it is in 0..65535. |
| `EndPointText.PrintThenParse` | turbo/base/endpoint.cc:166-298 | Printing an endpoint and parsing the text into another object copies it. |
| `EndPointGrammar.DecimalDenotes` | turbo/base/endpoint.cc:181-182 | A printed number is digits that denote the number, without needless zeros. |
| `EndPointGrammar.PtonIsExact` | turbo/base/endpoint.cc:115-125 | `inet_pton` yields an address if and only if the text is four numbers with dots between, each of one to three digits and at most 255, that are the octets of this address. |
| `EndPointGrammar.StrToIpIsExact` | turbo/base/endpoint.cc:115-125 | `str2ip` yields an address if and only if the text is white space, possibly none, followed by that address. |
| `EndPointGrammar.SpacedAddressRoundTrip` | turbo/base/endpoint.cc:115-133 | Every printed address is read back, after any white space. |
| `EndPointGrammar.StrToLIsExact` | turbo/base/endpoint.cc:284-287 | `strtol` yields a value and a rest if and only if the text is white space, at most one sign, digits and that rest, which begins with no digit; the value is the nearest `long`. |
| `EndPointGrammar.AddressIsStoredExactly` | turbo/base/endpoint.cc:270-282 | An address is stored if and only if the text begins with white space, that address and a colon inside the 64-byte buffer; otherwise nothing is stored and the text is refused. |
| `EndPointGrammar.ParseIsExact` | turbo/base/endpoint.cc:265-298 | A text is accepted if and only if it is white space, an address, a colon inside the buffer, a number whose lowest 32 bits make a port, and at most one more character before white space; address and port are those. |
| `EndPointGrammar.SpacedRoundTrip` | turbo/base/endpoint.cc:166-298 | The text of an endpoint after white space is read back while the colon lies inside the buffer; with more white space it is refused and nothing is stored. |
| `EndPointGrammar.ParsePairIsExact` | turbo/base/endpoint.cc:300-313 | With the port apart, a call succeeds if and only if the address text is white space followed by an address and the port is in 0..65535. |
| `EndPointGrammar.ExtendedFormsAreExact` | turbo/base/internal/extended_endpoint.hpp:107-137 | Exactly the texts that begin, after white space, with a bracket or with `unix:` are considered for extended endpoints. |
| `LogSiteRing.XorLeavesThird` | benchmark/log/vlog_config_benchmark.cc:89-91 | Cancelling two of three numbers of any width by exclusive or leaves the third. |
| `LogSiteRing.SortCuts` | benchmark/log/vlog_config_benchmark.cc:89-91 | The three cuts come out in ascending order and are the three that went in, the middle one computed by exclusive or. |
| `LogSiteRing.RelinkedFollowsSplice` | benchmark/log/vlog_config_benchmark.cc:92-106 | Exchanging the three links is what exchanging the two middle pieces calls for, at every position. |
| `LogSiteRing.SplicedKeepsSites` | benchmark/log/vlog_config_benchmark.cc:100-106 | Exchanging the pieces loses and repeats no site. |
| `LogSiteRing.SplicedPlaces` | benchmark/log/vlog_config_benchmark.cc:100-106 | Where each site goes: those up to the least cut and after the greatest stay, and the two pieces between exchange places and keep their order. |
| `LogSiteRing.ShuffledByAnyOrder` | benchmark/log/vlog_config_benchmark.cc:84-106 | Three different cuts, drawn in any order, exchange the two pieces between them; if two are equal nothing changes. |
| `LogSiteRing.ThreeSitesShuffled` | benchmark/log/vlog_config_benchmark.cc:89-106 | A concrete shuffle: of three sites, with the cuts 0, 1 and 2, the last two are exchanged. |
| `LogSiteRing.Relink` | benchmark/log/vlog_config_benchmark.cc:92-99 | The link surgery turns the ring into the ring in the new order. |
| `LogSiteRing.CopyPieces` | benchmark/log/vlog_config_benchmark.cc:100-106 | The four copies fill the second array with the new order, without overrunning it. |
| `LogSiteRing.Shuffle` | benchmark/log/vlog_config_benchmark.cc:81-108 | One shuffle leaves the array in exactly the order in which the two pieces between the cuts have changed places, and the ring in the same order. |
| `LogSiteRing.ShuffleAll` | benchmark/log/vlog_config_benchmark.cc:81-108 | Any number of shuffles leaves the order that the exchanges make one after the other; following the links from site i of the array leads to site i+1, and from the last to the first. |
| `LogSiteRing.LayOut` | benchmark/log/vlog_config_benchmark.cc:49-70 | The sites of each file are laid out together, named for the file, and linked within it. |
| `LogSiteRing.FileListAt` | benchmark/log/vlog_config_benchmark.cc:49-70 | Which file each site is named for: site number k of file f comes after all sites of the files before f. |
| `LogSiteRing.LinkFiles` | benchmark/log/vlog_config_benchmark.cc:71-79 | Linking each file's last site to the next file's first makes one ring of all sites. |
| `LogSiteRing.CutOpen` | benchmark/log/vlog_config_benchmark.cc:115-116 | Clearing the link of site number count-1 leaves a list of the first count sites. |
| `LogSiteRing.Walk` | benchmark/log/vlog_config_benchmark.cc:115-116 | Following the links of a list ends, and visits exactly its sites in order. |
| `LogSiteRing.SumAtLeastLength` | benchmark/log/vlog_config_benchmark.cc:53-57 | Files with at least one site each have as many sites as files if and only if each has one. |
| `LogSiteRing.SyntheticBinary` | benchmark/log/vlog_config_benchmark.cc:43-117 | The order is the one in which the sites of the files were laid out, shuffled with the cuts one after the other; it holds every site of every file once. The list left by the constructor is its first num_tus sites, and is the whole order if and only if every file has one site. |
| `LogSiteRing.SecondSiteIsLost` | benchmark/log/vlog_config_benchmark.cc:115-116 | One file with two sites: walking the list visits the first only. |
| `PairGenerator.RankFormula` | benchmark/container/raw_hash_set_probe_benchmark.cc:308-318 | The rank of (t, u) is (t+u)(t+u+1)/2 + u. |
| `PairGenerator.RankOfPosition` | benchmark/container/raw_hash_set_probe_benchmark.cc:308-318 | Call number k is at the pair of rank k. |
| `PairGenerator.EveryPairOnce` | benchmark/container/raw_hash_set_probe_benchmark.cc:308-318 | Every pair of stream positions is met by exactly one call. |
| `PairGenerator.DiagonalsInOrder` | benchmark/container/raw_hash_set_probe_benchmark.cc:308-318 | After n(n+1)/2 calls exactly the pairs below the n-th diagonal have been met. |
| `PairGenerator.SequentialPair.GetT` | benchmark/container/raw_hash_set_probe_benchmark.cc:320-323 | Yields the stream's value at the cursor and draws each stream value once. |
| `PairGenerator.SequentialPair.GetU` | benchmark/container/raw_hash_set_probe_benchmark.cc:325-328 | The same for the second stream. |
| `PairGenerator.SequentialPair.Next` | benchmark/container/raw_hash_set_probe_benchmark.cc:308-318 | Call number k yields the pair of stream values at the k-th position, draws from each stream only up to that position, and the caches still agree with the streams. |
| `PairGenerator.SequentialPair.Take` | benchmark/container/raw_hash_set_probe_benchmark.cc:296-329 | n calls in a row yield, for every (t, u) of rank below n, the pair of the t-th and u-th stream values at that rank. |
| `StrReplace.AgreeMeansEqual` | benchmark/strings/str_replace_benchmark.cc:80 | Matching character by character is equality of the needle with that part of the text. |
| `StrReplace.Find` | benchmark/strings/str_replace_benchmark.cc:70 | The first occurrence at or after a position, or -1 if and only if there is none. |
| `StrReplace.RemainingOccurrences` | benchmark/strings/str_replace_benchmark.cc:68-72 | Overwriting "the" with "box" neither destroys a later occurrence nor makes a new one. |
| `StrReplace.SearchAgain` | benchmark/strings/str_replace_benchmark.cc:69-70 | Searching again from the position just overwritten finds the next original occurrence. |
| `StrReplace.ReplaceThe` | benchmark/strings/str_replace_benchmark.cc:66-72 | The loop ends for every text; every original "the", and nothing else, has become "box", and no "the" is left. |
| `StrReplace.CopyUntilMatch` | benchmark/strings/str_replace_benchmark.cc:74-92 | The single-pass replacement copies the text before the first match. |
| `StrReplace.ReplaceBest` | benchmark/strings/str_replace_benchmark.cc:78-91 | Replacing the leftmost match, the first listed of several, and going on behind it is what the single-pass replacement does. |
| `StrReplace.BestFrom` | benchmark/strings/str_replace_benchmark.cc:76-86 | The inner loop finds the leftmost match and, of several there, the first listed; or that there is none. |
| `StrReplace.ReadRound` | benchmark/strings/str_replace_benchmark.cc:88-91 | A round leaves finished text in front of the position and an untouched end of the original behind it. |
| `StrReplace.ReplaceMany` | benchmark/strings/str_replace_benchmark.cc:73-92 | For all non-empty needles the loop ends with the single-pass, leftmost, first-listed replacement of the original text; inserted text is never searched. |
| `StrReplace.BoxedIsReplaced` | benchmark/strings/str_replace_benchmark.cc:65-92 | The in-place loop gives what the multi-needle loop gives for the one needle "the". |
| `ScopedGenerics.StepKeepsInv` | turbo/base/scoped_generic.h:103-175 | No operation loses or invents a value: what was acquired is held, freed or released, counted together with the traits it was acquired under, and the invalid value is never among them. |
| `ScopedGenerics.MoveKeepsHeld` | turbo/base/scoped_generic.h:115-117 | What all objects hold together, each value with its traits, is unchanged by a move. |
| `ScopedGenerics.SwapKeepsHeld` | turbo/base/scoped_generic.h:133-140 | What all objects hold together, each value with its traits, is unchanged by a swap, also of an object with itself. |
| `ScopedGenerics.RunKeepsInv` | turbo/base/scoped_generic.h:103-175 | So in every run over any number of objects, acquired = held + freed + released. |
| `ScopedGenerics.NothingLeaks` | turbo/base/scoped_generic.h:119-121 | In every run after which all objects have been destroyed, everything acquired has been freed or released. |
| `ScopedGenerics.FreshStepNeverCrashes` | turbo/base/scoped_generic.h:126-131 | If nothing is acquired that an object holds already, the check against self-resets never fails. |
| `ScopedGenerics.FreshStepKeepsDistinct` | turbo/base/scoped_generic.h:103-175 | Then no operation makes two objects hold one value; a value that was freed or released may be acquired again. |
| `ScopedGenerics.SingleOwner` | turbo/base/scoped_generic.h:177-179 | Two objects never hold the same value. |
| `ScopedGenerics.FreesMatch` | turbo/base/scoped_generic.h:170-175 | In every run, each value is freed with the traits it was acquired under, exactly as often as it was acquired under them and is neither held nor was released, and the invalid value is never freed. |
| `ScopedGenerics.FreedOnce` | turbo/base/scoped_generic.h:170-175 | In every run, a value acquired once and freed was freed once, and is neither held nor was released. |
| `ScopedGenerics.OwnershipIsSafe` | turbo/base/scoped_generic.h:103-175 | All of this for every run from the start in which no value is acquired while it is held. |
| `ScopedGenerics.ScopedGeneric.FromRValue` | turbo/base/scoped_generic.h:115-117 | The new object has the old one's value and traits, the old one keeps only its traits. |
| `ScopedGenerics.ScopedGeneric.Release` | turbo/base/scoped_generic.h:145-149 | Returns the value and no longer holds it. |
| `ScopedGenerics.ScopedGeneric.FreeIfNecessary` | turbo/base/scoped_generic.h:170-175 | Frees exactly what is held, with the object's traits, and never the invalid value. |
| `ScopedGenerics.ScopedGeneric.Reset` | turbo/base/scoped_generic.h:126-131 | Fails exactly on a reset to the valid value held; otherwise frees the old value and holds the new one. |
| `ScopedGenerics.ScopedGeneric.Swap` | turbo/base/scoped_generic.h:133-140 | Exchanges value and traits, also when both objects are the same. |
| `ScopedGenerics.Program.Do` | turbo/base/scoped_generic.h:103-175 | Each operation on objects in memory is a step of the machine, so what is proved of all runs holds of them. |
| `ScopedGenerics.Program.Make` | turbo/base/scoped_generic.h:103-112 | Adds an object with that value and those traits, and frees nothing. Here and below, no other object changes. |
| `ScopedGenerics.Program.Move` | turbo/base/scoped_generic.h:115-117 | Adds an object with the value and traits of the old one, which keeps its traits and loses its value; frees nothing. |
| `ScopedGenerics.Program.Reset` | turbo/base/scoped_generic.h:126-131 | Fails exactly on a reset to the valid value held, and then changes nothing; otherwise the object holds the new value, and exactly the old one has been freed, with the object's traits, if it was valid. |
| `ScopedGenerics.Program.Swap` | turbo/base/scoped_generic.h:133-140 | Two objects exchange values and traits; frees nothing. |
| `ScopedGenerics.Program.Release` | turbo/base/scoped_generic.h:145-149 | Returns the value; the object keeps its traits and nothing is freed. |
| `ScopedGenerics.Program.Destroy` | turbo/base/scoped_generic.h:119-121 | Removes the object; exactly its value, if valid, has been freed, with its traits. |
| `Bits.ShrZero` | turbo/base/bits.h:31-32 | Exactly the numbers below 2^k are shifted out by k places. |
| `Bits.LogIsUnique` | turbo/base/bits.h:23 | At most one i has 2^i <= n < 2^(i+1). |
| `Bits.Log2Floor` | turbo/base/bits.h:23-39 | For every positive 32-bit n, 2^i <= n < 2^(i+1) for the result i, and the check that the remaining value is 1 never fails; -1 for 0. |
| `Bits.Log2Ceiling` | turbo/base/bits.h:41-49 | For every positive 32-bit n, 2^(j-1) < n <= 2^j for the result j, which is 0 for 1; -1 for 0. |

## Left out

- Memory ordering: `CallOnce` and `EndPointRefs` are sequentially consistent.
- `SchedulingHelper` and callables that throw in `call_once`; the non-Linux forms of the delay and wake calls; `call_once` in a release build, which is the model without the `Check` step.
- EndPointRefs.StepKeepsInv: endpoint objects are entries of a map and not class instances, because the claims are about interleavings; an object is used by one thread at a time, or read by several. The duplicate that `dedup` discards is given back in the same step, and a handle is cleared in the step that gives up its reference.
- Resolving host names: what `hostname2endpoint` stores is covered as arbitrary stores of a parse, its text form is not.
- EndPointText.StrToEndPoint: covers text that `ExtendedEndPoint::create` declines; the text of IPv6 and unix endpoints is not modelled. Section 6.3 of RFC 3493 does not mention leading zeros in an address such as 01.2.3.4; the model reads them, so the grammar of `EndPointGrammar` allows them, while some C libraries refuse them. A null `ip_str` is left out.
- EndPointText.StrToEndPointAndPort: likewise covers text that `ExtendedEndPoint::create` declines.
- Permute.Permute: nothing is said about the values after index vectors of two or more entries that are not permutations; `PermuteEnds` shows that the loops never end on those within range, and those out of range are not considered.
- Permute.ArgSort: `std::sort` is represented by insertion into a sequence; callers rely only on its result being sorted.
- SyncEvent.DeliverKeepsPromise: callbacks that notify are excluded; `NotificationIsQueue` covers them. Histories are finite, so a notification kept alive forever by ever new subscriptions is not covered. Saving `errno` and the callback's arguments are left out, and the four forms of `notify` are one.
- StrReplace.ReplaceMany: needles are not empty, as in the benchmark's table. The text is a value that is reassigned.
- LogSiteRing.SyntheticBinary: the byte layout of the sites and the statistics (`num_new_files_`, extra data bytes) are left out.
- ScopedGenerics.OwnershipIsSafe: changing the traits through the reference that `get_traits` returns is left out.
- The resource pool behind extended endpoints is a set of numbers that are handed out when not taken.
- The rest of turbo/algorithm/container.h, at_exit, fd_guard, log_severity and endian would only add easy members.
- Sockets, DNS, `/proc`, processes and the other benchmarks drive the operating system or code outside this repository's core.
