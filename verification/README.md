# Firefork, modelled and proved in Dafny

Firefork forks Firecracker microVMs from a snapshot. This project models the four parts of
it whose correctness is hardest to see from one function, and proves what they promise.

* **The pools** (`jails`, `vm`, `pool_machine`, `pool_ownership`, `pool_snapshots`,
  `pool_ledger`, `pool_forks`, `pool_refills`). The warm pool and the fork pool are one step machine: each
  goroutine is a program counter, a step is one critical section or one system call, any
  goroutine may step next and any system call may fail. Contexts may be cancelled at any
  time; the calls under them then fail, and the watcher of each process tied to one kills
  it at some later moment. A chroot is the files linked into it, each at the cleaned path
  of its key, in any order of the map. The theorems quantify over every run from a
  constructor. `warm_pool` and `fork_pool` hold the same code as classes that update
  `idle`, `closed`, `preload`, `live`, the counters and the result array in place; each
  method's effect is shown to be a run of the machine, so the theorems hold of the heap. The
  methods' contracts also say outright what they do and, on a host whose system calls do not
  fail for reasons of their own, when they must succeed.
* **The signed command exchange** (`utf8`, `json`, `json_parse`, `json_grammar`, `exchange`,
  `reader`). Go
  signs over one JSON text and sends another; the agent frames, parses, drops the tag,
  prints a third text and compares. The three printers, the parser, proved to read exactly
  the grammar of sections 2 to 7 of RFC 8259, UTF-8, the agent's receive loop and the reading half of `Call` are modelled;
  HMAC is a function.
* **The LRU directory cache** (`int64`, `cache_spec`, `cache`). A doubly linked list and a
  map into its nodes refine a recency sequence with int64 arithmetic and a directory tree.
* **The bundle store and the registry** (`bundles`, `store_machine`, `store`,
  `registry_machine`, `registry`, `template_key`). Multi-step writes whose last step
  commits, read back by multi-step readers: all interleavings, tampering with objects,
  failing calls and crash points.

`wrappers` and `tally` hold the option type and sums over goroutines.

## Where the code differs from what is said about it

The model follows the code. In each case a lemma gives the exact condition or a run.

* `size` is no cap on idle slots: drains add refills, as direct calls of `Refill` do, and
  the bound is size plus drains plus those calls (`RefillsAreConserved`).
* A fork in flight across `Shutdown` lands in the new live map and stays there, although
  Shutdown is documented to stop every live fork (`ForkInFlightOutlivesShutdown`,
  `ShutdownIsFinalIffNothingInFlight`).
* A preloaded slot resumes whatever snapshot it holds, not the one the request names, and
  a jail's extra files may shadow the snapshot of a cold fork. `forkOneJailed` merges the
  extras by their raw keys, but `PrepareChroot` links each at its cleaned path and in the
  random order of the map: an extra file under `memfile.bin`, `//memfile.bin`,
  `/./memfile.bin` or `/x/../memfile.bin` replaces the memory file whenever it is linked
  last (`PreloadedSlotIgnoresTheRequest`, `ColdForkRunsItsExtras`,
  `AnySpellingShadowsTheSnapshot`, `UncleanKeyShadowsTheSnapshot`, `RequestedSnapshotIff`).
* A fork may not outlive its call. `internal/fork/warmpool.go:328-333` gives unjailed warm
  slots the background context so that they outlive their spawner, but a cold fork and a
  jailed slot are tied to the context they were started under, and the server cancels that
  of a Fork call when the request is answered (`cmd/firefork-server/main.go:307-308`). The
  forks it just returned are then killed inside the live map, and so are jailed slots that
  the call's refills put in the pool (`ColdForkDiesWithItsContext`,
  `JailedPoolDiesWithItsContext`, `LiveForksRunTheirSnapshot`, `TakeHandsOutPreloadedSlots`).
* `docs/architecture/0003-vsock-hmac.md` says only the top level of a command is sorted. Go
  sorts the keys of nested maps as well, so the two canonical texts agree at every depth.
  They agree exactly on texts the Python printer leaves unescaped and Go does too
  (`CanonicalTextsAgreeIff`).
* The agent's test whether a command needs a tag hashes its name; a list or object as name
  raises an exception there, so such a command is never answered, signed or not
  (`AgentOnSignedWire`, `SignedCommandIsAcceptedIff`, `UnsignedCommandNeedsPing`).
* The cache keeps its budget in every run exactly for budgets below 2^62: at 2^62 two
  entries make the int64 byte count negative (`BudgetHoldsIff`, `BudgetBreaksAtTwo62`).
* `Insert` measures the directory before it takes the lock. If the directory is evicted in
  between, a resident entry has no directory; only the largest int64 as budget, under which
  nothing is ever evicted, rules that out (`InsertAgreesWithTreeIff`,
  `InsertRaceLosesDirectory`, `RaceIsHarmlessIff`).
* `ParseKey` is documented to refuse `..` in a part; it refuses only a leading dot
  (`InnerDotsAreAccepted`). The cache is stricter (`CacheIsStricterThanParseKey`).
* A compressed bundle whose manifest states 2^43 - 64 MiB or more gets a bound that wraps;
  at 2^43 - 64 it can be saved and never loaded (`CompressedLoadsIffWithinBound`).
* `docs/architecture/0001-snapshot-format.md` names `memfile.bin.zst`; the key the code
  builds ends in `memfile.zst`.
* A registry write that fails leaves the map ahead of the file
  (`FailedWriteLeavesMapAhead`).

## Model

| member | source | states |
|---|---|---|
| Jails.SameTarget | internal/fc/chroot.go:63 | A slash in front, a `.` component and a component that is left again do not change the path a key is linked at |
| Jails.LinkAllIff | internal/fc/chroot.go:62-90 | In whatever order the files are linked, all can be if and only if no path is the root or above it and none is below another; then exactly these paths hold files |
| Jails.EveryOrderCanBe | internal/fc/chroot.go:62 | Every order of the keys is among those a step can choose |
| Jails.LastKeyWins | internal/fc/chroot.go:78-83 | The file of any key can be the one left at its path, in some order |
| Vm.LayoutOrderIsNoMatter | internal/fork/warmpool.go:282-298 | Linking the two layout files into a slot's chroot gives the same in both orders |
| Vm.SlotTakesIffFits | internal/fork/warmpool.go:282-298 | A slot of a pool can be given a snapshot if and only if its jailer's extra files leave room for the two layout files |
| Vm.SlotPathsResolveToHost | internal/fork/warmpool.go:282-298 | The chroot paths handed to a jailed slot's socket lead back to the host snapshot, whatever the chroot held; load-then-resume and the combined call then run exactly it |
| PoolOwnership.ApplyKeepsOwned | internal/fork/warmpool.go:398-493 | Every step of every goroutine keeps each process with exactly one owner |
| PoolOwnership.EveryProcessHasOneOwner | internal/fork/pool.go:156-433 | In every reachable state each spawned process is once idle, or with one goroutine, or live, or killed once; none is lost or owned twice |
| PoolSnapshots.ApplyKeepsTame | internal/fork/pool.go:165-226 | Every step, cancellation and watcher kill keeps, for each slot, what its VM has loaded, its flag and the context it is tied to in line with who holds it |
| PoolSnapshots.PreloadNeverChanges | internal/fork/warmpool.go:202-231 | Over every run the pool's size, preload and jail stay what the constructor set, a closed pool stays closed and a context that is done stays done |
| PoolSnapshots.WatchersSettle | internal/fc/jailer.go:119-141 | From every state the watchers of done contexts can act, and all they change is that exactly the processes tied to those contexts are dead |
| PoolSnapshots.IdleSlotsHoldTheirSnapshot | internal/fork/warmpool.go:202-267 | Over every run an idle slot holds the preload, or nothing in a plain pool, until the context it is tied to is done, with the if and only if once the watchers have acted; in an unjailed pool always |
| PoolSnapshots.TakeHandsOutPreloadedSlots | internal/fork/warmpool.go:398-493 | Every slot Take returns from an ultra-warm pool is flagged, refilled slots included, and loaded from its preload; once the watchers have acted, if and only if the context it is tied to is not done; always in an unjailed pool |
| PoolSnapshots.LiveForksRunTheirSnapshot | internal/fork/pool.go:165-329 | Over every run a live fork runs one snapshot fixed by its path and its chroot until the context its process is tied to stops it; once the watchers have acted, if and only if that context is not done. A cold fork's chroot is its host files, linked in some order; it is tied to its own call's context, a warm fork from an unjailed pool to none |
| PoolSnapshots.ColdSnapIsLinked | internal/fork/pool.go:278-309 | What a jailed cold fork runs are the files linked at the two layout paths |
| PoolSnapshots.RequestedOnBothPaths | internal/fork/pool.go:165-309 | Under the caller's condition the warm path and the cold path, in every order of linking, lead to the requested snapshot |
| PoolSnapshots.FinishedShutdownKilledItsClaim | internal/fork/pool.go:334-372 | When a Shutdown is through, every fork it claimed is dead and out of the live map, and stopped + failed is their number |
| PoolLedger.RefillsAreConserved | internal/fork/warmpool.go:398-516 | idle + refills in flight + refills owed + refill failures + slots killed by Close = size + drain-triggered refills + direct calls of Refill, over every run; hence idle <= size + drains + those calls |
| PoolLedger.SuccessesAreDistinct | internal/fork/pool.go:223-225 | Two forks that returned success are different processes, and each is live, being torn down, or was killed exactly once |
| PoolLedger.ClosedPoolWindsDown | internal/fork/warmpool.go:427-516 | After Close every refill step strictly reduces the refill work pending, and nothing adds to it but a direct call of Refill, by seven steps |
| PoolLedger.ClosedPoolWorkIsBounded | internal/fork/warmpool.go:427-516 | The refill steps of any run of a closed pool are at most the work pending when it began, and seven for each direct call of Refill |
| PoolLedger.PendingWorkCanRun | internal/fork/warmpool.go:427-493 | While work is pending some goroutine can reduce it |
| PoolLedger.ClosedPoolStaysEmpty | internal/fork/warmpool.go:480-516 | A closed pool has no idle slot, in every reachable state |
| PoolLedger.QuietClosedPoolHoldsNothing | internal/fork/warmpool.go:398-516 | With no work pending after Close, Take always falls back and each process is dead, live, or held by a cold fork or a teardown |
| PoolForks.ForkReturnsTheRequestedSnapshot | internal/fork/pool.go:115-329 | Whatever happens before and after a Fork call, each of its successful forks that is live was made for its request and runs one snapshot until its context is done, the requested one under a condition on preload and request alone |
| PoolForks.RequestedSnapshotIff | internal/fork/pool.go:165-329 | For every pool and request: in all runs every running live fork of the request runs the requested snapshot, if and only if the preload, if any, is that snapshot and, where the jail can be filled at all, every host file whose key cleans to a layout path is the requested one |
| PoolForks.ColdForkRunsItsExtras | internal/fork/pool.go:278-329 | From every pool and for every order of linking, a run with a live cold fork that runs what the request's extra files leave at the layout paths |
| PoolForks.AnySpellingShadowsTheSnapshot | internal/fork/pool.go:283-291 | From every pool, for any key that cleans to a layout path, a run whose live cold fork runs that key's file |
| PoolForks.UncleanKeyShadowsTheSnapshot | internal/fc/chroot.go:62-83 | The same for a jail with one extra file under a key that is not the layout path but cleans to it: the fork runs that memory file with the requested state |
| PoolForks.ColdForkDiesWithItsContext | internal/fork/pool.go:292 | From every pool, a run in which a cold fork, jailed or not, is returned as a success and is dead in the live map once its call's context is cancelled |
| PoolForks.JailedPoolDiesWithItsContext | internal/fork/warmpool.go:372-383 | From every jailed pool, a run in which the constructor's context is cancelled, every slot is dead and still idle, and a Fork call takes one; that fork never turns to the cold path or succeeds in any continuation, and its own steps end in failure |
| PoolForks.DeadSlotNeverForks | internal/fork/pool.go:165-215 | A fork that holds a dead slot never returns a fork and never turns cold, in any continuation |
| PoolForks.ForkInFlightSucceeds | internal/fork/pool.go:156-329 | A fork in flight that can publish on the path it is on, and whose system calls succeed, ends up live, for its request, on the path the pool's state decides, whatever order its files are linked in |
| PoolForks.ForkInFlightCanSucceed | internal/fork/pool.go:156-329 | A fork in flight whose context is not done, whose process is not dead and whose files can be linked can end up live, whatever the pool holds |
| PoolForks.ShutdownIsFinalIffNothingInFlight | internal/fork/pool.go:334-372 | The map Shutdown emptied stays empty in every continuation without a Fork call, cancellations included, if and only if no fork in flight can still publish |
| PoolForks.PreloadedSlotIgnoresTheRequest | internal/fork/pool.go:174-178 | From every ultra-warm pool and for every request, a run in which the caller's fork runs the preload |
| PoolForks.ForkInFlightOutlivesShutdown | internal/fork/pool.go:334-346 | A run that ends with a live, running fork after Shutdown has finished |
| PoolRefills.CountersTell | internal/fork/warmpool.go:398-472 | Over every run the clock of the last refill failure is the clock at the latest step in which a refill failed, 0 if none did, and the three counters are the numbers of failed refills, slots taken and drained Takes |
| PoolRefills.StepStarts | internal/fork/pool.go:207-212 | Exactly which goroutines a step starts: one refill under its own context when a fork has used up a slot, one under none when a drained Take finds no failure less than 500 ms old, none at any other step |
| PoolRefills.DrainedTakeRefillsIff | internal/fork/warmpool.go:404-417 | Over every run a Take that finds an open pool empty starts a refill under no context if and only if none has failed or the latest failure is 500 ms old |
| PoolRefills.DrainRefillsThePool | internal/fork/warmpool.go:404-493 | From every reachable state in which an open pool is drained and no refill failed in the last 500 ms, a run in which the refill this starts puts a live slot into the pool while the fork goes on cold |
| PoolRefills.RefillSpawns | internal/fork/warmpool.go:314-383 | A refill gets a slot if and only if the calls succeed and, in a jailed pool, its context is not done and the files can be linked; the slot is tied to that context in a jailed pool and to none in an unjailed one |
| PoolRefills.RefillLoads | internal/fork/warmpool.go:461-472 | In every state a run can reach a refill loads its slot from the preload if the call succeeds under a live context, and otherwise counts the failure and kills the slot |
| PoolRefills.WarmLoadResumesIff | internal/fork/pool.go:193-199 | The combined call leaves a warm fork's VM running the request's snapshot at once, the plain one loaded and still to be resumed; under a context that is done both fail |
| PoolRefills.ColdLoadResumesIff | internal/fork/pool.go:238-308 | The same for a cold fork, which without a jail never uses the combined call |
| PoolRefills.ShutdownCountsOutcomes | internal/fork/pool.go:341-366 | Over every run a finished Shutdown reports as stopped the forks whose kill succeeded and as failed those whose kill did not |
| WarmPools.Host.PrepareChroot | internal/fc/chroot.go:42-101 | The loop over the map links the files one by one: if it succeeds, the chroot is what linking them in some order of all the keys gives, exactly the paths of the keys have been added, and each holds the file of a key with that path; where no system call fails it fails only in an order that leads nowhere |
| WarmPools.Host.SnapForSlot | internal/fork/warmpool.go:282-298 | An unjailed slot gets the host paths; a jailed one the layout paths with the two files linked, or nothing has changed |
| WarmPools.Host.Load | internal/fc/restore_socket.go:56-69 | A load that succeeds leaves an empty VM loaded from the files its paths resolve to, under a context that is not done; a failed one changes nothing, and has a reason where no system call fails |
| WarmPools.Host.Restore | internal/fc/restore_socket.go:16-51 | The load of a restore, resumed at once by the combined call |
| WarmPools.Host.Resume | internal/fc/restore_socket.go:74-83 | Resuming succeeds only on a loaded VM, which then runs what was loaded |
| WarmPools.NewWarmPool | internal/fork/warmpool.go:126-197 | Either a pool in an initial state of the machine with every slot idle, or none and every process it spawned is dead, killed once; every slot is tied to the caller's context if the pool is jailed and to none if not; where no system call fails there is a pool unless the size is below one or a jailed slot cannot start |
| WarmPools.NewUltraWarmPool | internal/fork/warmpool.go:202-212 | The same, with every slot loaded from the snapshot and flagged; a failed preload closes the pool |
| WarmPools.WarmPool.Preload | internal/fork/warmpool.go:217-267 | Empty paths and a second snapshot are refused without effect; otherwise the pool remembers the snapshot and the call fails exactly if some idle slot could not be loaded |
| WarmPools.WarmPool.Take | internal/fork/warmpool.go:398-423 | The last idle slot, or the reason there is none, and its counter; when the pool is drained exactly one goroutine is added, a Refill under no context, if no refill has failed or the last failure is 500 ms old, and none otherwise; the whole is a run of the machine |
| WarmPools.WarmPool.Refill | internal/fork/warmpool.go:427-493 | A new slot comes last in idle with the preload loaded and flagged, or the error is counted and the clock noted, or the pool was closed; a process that is not published is dead, killed once; the slot is tied to the context only in a jailed pool; where no system call fails the refill of an open pool succeeds under a live context if the jail has room; the whole is a run of the machine |
| WarmPools.WarmPool.Publish | internal/fork/warmpool.go:480-491 | The slot becomes the last idle one, or is killed in a closed pool |
| WarmPools.WarmPool.Close | internal/fork/warmpool.go:503-516 | The pool is closed and empty, each idle slot was killed once and no other process touched: the machine's close step |
| ForkPools.Pool.LiveRunsItsSnapshot | internal/fork/pool.go:165-226 | On the heap, a live fork of a reachable pool runs the snapshot its path and its chroot fix until the context it is tied to is done, was never killed by a pool and is no idle slot |
| ForkPools.Pool.Fork | internal/fork/pool.go:115-153 | The array is filled at every index, also on a context that is done before or cancelled on the way, which the error reports; its entries are how the call's goroutines ended, the live map gains exactly its successes, for this request, they are distinct, and what happens on the way includes cancelling any context and killing what is tied to it |
| ForkPools.Pool.ForkOne | internal/fork/pool.go:156-272 | On the last idle slot of an attached open pool, otherwise cold: the process becomes the one new live fork, running what was loaded or requested, or is dead; which refill is started and under which context; where no system call fails it succeeds if and only if its context is live and the slot can be restored or the jail filled |
| ForkPools.Pool.ColdFork | internal/fork/pool.go:228-329 | The cold path, jailed or not: a new process tied to the caller's context becomes a live fork, or is dead |
| ForkPools.Pool.Release | internal/fork/pool.go:400-433 | True exactly if the fork was live; it is then removed and killed once, by this call; a pool that was reachable stays so |
| ForkPools.Pool.Shutdown | internal/fork/pool.go:334-372 | The live map and the attached pool are swapped out, every fork in it and every idle slot is killed once, the pool closed and nothing else touched; stopped + failed is the number of forks claimed, none failed where no system call does; the whole is a run of the machine in any map order |
| Utf8.RoundTrip | images/agent.py:141-145 | Decoding what was encoded gives the text back |
| Utf8.EncodeInjective | internal/workload/vsock.go:202-218 | Different texts have different bytes |
| Utf8.DecodesIffEncoded | images/agent.py:144 | Bytes decode to a text if and only if they are its encoding; overlong forms, surrogates and stray bytes decode to nothing |
| Json.SortedKeysUnique | internal/workload/vsock.go:224-240 | A sorted list of a map's keys does not depend on the order of iteration |
| Json.LeIsLexicographic | internal/workload/vsock.go:229 | The order of keys: a prefix is less, otherwise the first character that differs decides |
| Exchange.ByteOrderIsCharOrder | internal/workload/vsock.go:229 | Go's order of the bytes of two keys is Python's order of their characters |
| Json.CanonicalTextsAgreeIff | internal/workload/vsock.go:224-266 | Go's and Python's canonical texts are equal if and only if the value is portable, nested arrays and objects included |
| JsonParse.LoadsInvertsPrint | images/agent.py:141-151 | The agent's parser reads back the value from any of the three printers' texts, with or without a newline |
| JsonParse.PrintIsInjective | internal/workload/vsock.go:224-266 | Equal texts come from equal values, for each of the three printers |
| JsonGrammar.LoadsReadsTheGrammar | images/agent.py:144 | A text loads as a value if and only if it spells a syntax tree of the JSON grammar with that value, whitespace anywhere between its parts and around it, in any spelling of its characters, the last of equal keys counting |
| Exchange.TextsAreSafe | internal/workload/vsock.go:231-239 | No printed text has a control character; Go's two have no line separators, the text that is sent no <, > or & either, Python's is printable ASCII |
| Exchange.WrittenAsItIsIff | internal/workload/vsock.go:231-239 | Exactly which characters each printer writes as they are; all others are escapes |
| Exchange.TextOfObject | internal/workload/vsock.go:246-266 | The text of an object has its members in the order of their keys, whatever order they were given in |
| Exchange.Handle | images/agent.py:130-159 | A line leads to one outcome in whatever chunks the receive loop gets it: too large past the limit, otherwise what handling the whole line gives |
| Exchange.StreamIsReadToItsNewline | images/agent.py:130-142 | For any stream: what is handled is all that was read up to the chunk with the first newline, or to the end, unless that exceeds the limit |
| Exchange.OtherLines | images/agent.py:141-150 | Nothing is answered if and only if nothing came; a line is bad JSON if and only if it parses to no value, and refused as no object if and only if it parses to another value |
| Exchange.AnyObjectIsDecided | images/agent.py:101-159 | For any line that parses to an object, whoever sent it: with a secret it is dispatched if and only if its auth field is a string equal to the tag of all its other members, and then exactly these are dispatched; with no secret always, unchanged; ping always; what raises and what is refused |
| Exchange.AnyLineIsDecided | images/agent.py:101-159 | The same on the receive loop, in any chunks |
| Exchange.ChunkingDoesNotMatter | images/agent.py:130-151 | A line within the limit is reassembled from any split; a longer one is refused in any split |
| Exchange.BodyHasNoNewline | internal/workload/vsock.go:87-105 | A sent body contains no raw newline |
| Exchange.WireParsesBack | internal/workload/vsock.go:87-105 | The agent decodes and parses the sent line to the sent value |
| Exchange.AgentOnSignedWire | images/agent.py:101-159 | What a signed command of any kind leads to: an exception if its name cannot be hashed, dispatch with the tag if it is ping, otherwise dispatch without the tag exactly if both sides compute the same tag, and refusal |
| Exchange.SignedCommandIsDispatched | internal/workload/vsock.go:202-218 | In any split, a signed command is refused as too large exactly past the limit; within it a portable one whose name can be hashed is accepted and exactly the caller's command minus any tag of its own is dispatched, ping with its tag |
| Exchange.SignedCommandIsAcceptedIff | images/agent.py:95-159 | Unless the two canonical texts of the command differ and have the same tag, it is accepted if and only if it is within the limit and ping, or portable with a name that can be hashed; the agent raises if and only if it is within the limit and the name cannot |
| Exchange.UnsignedCommandNeedsPing | images/agent.py:146-159 | With a secret loaded, an untagged command is refused unless it is ping, or raises if its name cannot be hashed |
| Exchange.SigningTwiceIsSigningOnce | internal/workload/vsock.go:202-218 | Signing a signed command gives the same result |
| Exchange.CanonicalBytesAreInjective | internal/workload/vsock.go:224-266 | Equal signed bytes imply equal commands |
| Exchange.SortStrings | internal/workload/vsock.go:224-232 | The gathered keys in ascending order |
| Exchange.CanonicalJson | internal/workload/vsock.go:224-257 | The buffer filled by hand equals the recursive printing of the whole object |
| Exchange.EncodeValue | internal/workload/vsock.go:258-266 | The encoder's newline is stripped and nothing else |
| Exchange.Sign | internal/workload/vsock.go:202-218 | The copy without the old tag, tagged |
| Reader.LineReader.ReadLine | internal/workload/vsock.go:68-113 | A buffered line read returns the first line of what is visible through the limit, whatever the sizes of the reads under it |
| Reader.AckGrammar | internal/workload/vsock.go:178-198 | An ack is accepted if and only if it is OK, a space, an int and trailing CRs and LFs |
| Reader.ReadExchange | internal/workload/vsock.go:68-113 | For any peer: a response is returned if and only if it is the complete line behind an accepted ack within the limit, and the limit is reported exactly when it cuts a line off; at most the limit plus one byte is read |
| Reader.CallIsDecided | internal/workload/vsock.go:68-198 | For any peer: a response is returned if and only if the bytes begin with a line of OK, a space, an int and line ends, and the response is the next complete line within the limit; the limit is reported if and only if it cuts a line off; all else fails |
| Reader.ResponseIsReturnedIff | internal/workload/vsock.go:90-113 | A response is returned if and only if ack and response together fit the limit |
| CacheSpec.KeyIsInjective | internal/snapshot/cache.go:24-80 | On accepted names the key determines name and version, and ParseKey finds them |
| CacheSpec.CacheIsStricterThanParseKey | internal/snapshot/cache.go:24-38 | The cache accepts a name if and only if ParseKey would and it has no backslash and no two dots in a row |
| CacheSpec.NoPathBelowAnother | internal/snapshot/cache.go:85-90 | Removing the directory of one accepted key removes that of another only if they are the same key |
| CacheSpec.EvictKeepsLongestFit | internal/snapshot/cache.go:163-179 | Eviction keeps the longest prefix of the recency list that fits, without wrap-around |
| CacheSpec.InsertKeepsGood | internal/snapshot/cache.go:111-146 | After an Insert bytes is the sum of the sizes and within budget, the inserted entry is in front, with its key, path and size, and behind it stays the longest prefix of the others that fits |
| CacheSpec.GetKeepsGood | internal/snapshot/cache.go:94-106 | A hit changes the order and nothing of the account |
| CacheSpec.GetMovesToFront | internal/snapshot/cache.go:94-106 | A Get hits if and only if the key is resident; then its entry comes first, the others keep their order and its path is returned; a miss changes nothing |
| CacheSpec.GetReturnsTheDirectory | internal/snapshot/cache.go:85-106 | The path a hit returns is the key's directory |
| CacheSpec.EntriesAreByLastUse | internal/snapshot/cache.go:94-179 | Over every run the resident keys are in the order of their last Get hit or Insert |
| CacheSpec.EvictedWasUsedLongestAgo | internal/snapshot/cache.go:136-179 | Over every run no operation drops an entry while it keeps one whose last use is older |
| CacheSpec.RunsStayInBudget | internal/snapshot/cache.go:94-179 | Over every run with a budget below 2^62 the account is right, within budget, and the next sum fits an int64 |
| CacheSpec.BudgetBreaksAtTwo62 | internal/snapshot/cache.go:136-145 | Two inserts that break any budget from 2^62 on |
| CacheSpec.BudgetHoldsIff | internal/snapshot/cache.go:111-146 | The budget holds over every run if and only if it is below 2^62 |
| CacheSpec.BytesAreTheSumWrapped | internal/snapshot/cache.go:94-179 | Over every run and with any budget, also where it breaks, the byte count is the sum of the resident sizes modulo 2^64 |
| CacheSpec.InsertAgreesWithTreeIff | internal/snapshot/cache.go:111-146 | An Insert leaves every resident directory on disk if and only if the inserted one is there once the lock is held |
| CacheSpec.InsertRaceLosesDirectory | internal/snapshot/cache.go:115-145 | From the empty cache, for every budget below the largest int64, the race of two Inserts that ends with a resident entry whose directory is gone |
| CacheSpec.RaceIsHarmlessIff | internal/snapshot/cache.go:111-179 | With callers that only insert populated directories and nobody else removing any, every resident directory is on disk in every run if and only if the budget is the largest int64 |
| CacheSpec.RunsAgreeWithTree | internal/snapshot/cache.go:94-179 | Over every run of careful calls every resident entry's directory is on disk |
| LruCache.List.Remove | internal/snapshot/cache.go:169-175 | Unlinking a node takes exactly that node out of the list |
| LruCache.List.PushFront | internal/snapshot/cache.go:141-142 | The new node comes first, the others keep their order |
| LruCache.List.MoveToFront | internal/snapshot/cache.go:104 | The node comes first, the others keep their order |
| LruCache.IndexedIsOnto | internal/snapshot/cache.go:99-105 | Every key of the map leads to a node of the list |
| LruCache.LocalCache.Lookup | internal/snapshot/cache.go:99-105 | A key is in the map exactly if the recency sequence has it, and leads to that entry's node |
| LruCache.LocalCache.Get | internal/snapshot/cache.go:94-106 | A hit exactly if the key is in the map; its node comes first in the list, the others keep their order, and its path is returned; the heap cache is then the recency sequence's |
| LruCache.LocalCache.Insert | internal/snapshot/cache.go:111-146 | The heap cache after Insert is the recency sequence's, for every outcome |
| LruCache.LocalCache.EvictOne | internal/snapshot/cache.go:169-179 | The node at the back leaves list, map, account and disk |
| LruCache.LocalCache.EvictFor | internal/snapshot/cache.go:136-167 | Both eviction loops evict exactly what the recency sequence evicts |
| LruCache.Drive | internal/snapshot/cache.go:94-179 | Over every run of Get and Insert calls on a new cache, rejected ones included, the heap cache is the recency sequence after the same run |
| TemplateKey.KeySplits | internal/template/registry.go:59 | A key determines its name and version when names have no slash |
| TemplateKey.ParseKeyInvertsKey | internal/template/key.go:16-37 | ParseKey returns a pair if and only if the text is that pair's key and both parts are acceptable |
| TemplateKey.InnerDotsAreAccepted | internal/template/key.go:28-35 | A key with two dots inside a part and a backslash parses |
| Bundles.KeysDiffer | internal/snapshot/manifest.go:68-84 | Keys of different kinds or of different name/version never coincide |
| Bundles.ManifestKeysCollideIff | internal/snapshot/manifest.go:68-70 | Manifest keys coincide if and only if name/version read the same; with slash-free names only for the same bundle |
| Bundles.MaxRawIsExactIff | internal/snapshot/store.go:255 | The decompression bound is memory plus 64 MiB if and only if the memory is between -2^43 - 64 and 2^43 - 65 MiB |
| Bundles.DestinationFilesDiffer | internal/snapshot/store.go:224-228 | The downloaded memfile is not written over the state file |
| Bundles.DecompressDecides | internal/snapshot/compress.go:74-114 | Under a bound below the largest int64 a file decompresses to a text if and only if its stream ends well and is no longer than the bound; each of the three errors has its exact condition |
| Bundles.LoadSucceedsIff | internal/snapshot/store.go:196-272 | An uninterrupted Load returns given files if and only if the manifest parses, both its objects are there, with verification both have its hashes, and a compressed memfile decodes to no more than the bound |
| Bundles.LoadFailsEarlyIff | internal/snapshot/store.go:204-228 | Each error before both files are there, with its exact condition |
| Bundles.LoadFailsLateIff | internal/snapshot/store.go:237-269 | Each error after that, with its exact condition: the memfile's hash decides first, the state's last |
| Bundles.LoadAfterSave | internal/snapshot/store.go:196-272 | A Load of what a Save left returns the original files exactly when they fit the bound, and otherwise which error |
| Bundles.CompressedLoadsIffWithinBound | internal/snapshot/store.go:252-259 | A compressed bundle loads if and only if its raw length is at most memory plus 64 MiB, up to 2^43 - 65 MiB; at the next value it never loads |
| Bundles.UnverifiedLoadMixesSaves | internal/snapshot/store.go:237-269 | Without verification a Load returns the memfile of one Save with the state of another; with it, it fails |
| StoreMachine.ApplyKeepsInv | internal/snapshot/store.go:82-271 | Every upload, download and tampering keeps each manifest, and each Load under way, backed by one Save |
| StoreMachine.FinishIsOneSave | internal/snapshot/store.go:237-269 | Matching hashes tie the downloaded memfile and state to the Save behind the manifest |
| StoreMachine.VerifyingLoadNeverMixesSaves | internal/snapshot/store.go:56-272 | Over every interleaving a verifying Load that succeeds returns memfile, state and manifest of one Save that put that manifest |
| StoreMachine.SaveAlone | internal/snapshot/store.go:56-184 | From any state a Save whose uploads succeed ends published, and the storage differs from before in its three objects only |
| StoreMachine.LoadAlone | internal/snapshot/store.go:196-295 | From any state a Load that nothing interrupts ends with what the storage holds, however many bytes a read returns |
| StoreMachine.OtherSavesNeverDisturb | internal/snapshot/store.go:56-184 | After any interleaving of Loads and of Saves of other bundles, complete or not, a saved bundle still loads to the same files |
| Stores.MockStorage.Get | internal/storage/mock.go:51-66 | Under a live context a fresh copy of the object if and only if it is there, counted; a missing key is an error of its own |
| Stores.MockStorage.GetRange | internal/storage/mock.go:78-91 | The bytes from the offset, cut at the end of the object; exactly when it is an error and exactly when a length that is negative or overruns int64 panics |
| Stores.MockStorage.Put | internal/storage/mock.go:108-119 | Under a live context the object becomes a copy of the value, otherwise nothing changes |
| Stores.MockStorage.PutStream | internal/storage/mock.go:122-129 | Under a live context the whole stream becomes the object, otherwise nothing changes |
| Stores.DecompressFileBounded | internal/snapshot/compress.go:74-114 | The copy loop through the limited reader returns the raw bytes up to exactly max and fails beyond, also at the largest int64 |
| Stores.Store.Save | internal/snapshot/store.go:56-184 | A Save succeeds if and only if it has name and version and its context lives through three uploads; state, memfile and manifest land in this order until one fails, under these keys and with these contents, and every field of the manifest says what was uploaded |
| Stores.Store.Load | internal/snapshot/store.go:196-272 | A Load is cut short if and only if its context ends before the last of the calls it takes; otherwise the result is the one read off the storage |
| Stores.SaveThenLoad | internal/snapshot/store.go:56-272 | The original files come back if and only if both contexts live long enough and the bundle, if compressed, fits its bound |
| RegistryMachine.ReflectedUnlessOverridden | internal/template/registry.go:104-154 | A replayed update shows unless a later one changed the same key |
| RegistryMachine.ApplyKeepsInv | internal/template/registry.go:104-182 | Every step and every crash keeps the file equal to the map after some number of the updates |
| RegistryMachine.FileIsACompleteEarlierMap | internal/template/registry.go:159-182 | At every moment, crashes and failed operations included, the file is a complete earlier map |
| RegistryMachine.FileEqualsMapWhenQuiet | internal/template/registry.go:104-182 | While no operation has failed and no call is between its map update and its persist, the file equals the map |
| RegistryMachine.AcknowledgedUpdatesSurvive | internal/template/registry.go:104-182 | A Put or Delete that returned success is on disk ever after, across crashes, unless a later update of its key is |
| RegistryMachine.PutReachesTheFile | internal/template/registry.go:104-182 | From any state a Put nobody holds up: in memory and in the file the row under name/version is the entry in every field but notes, of which the first 4096 bytes stay, and every other row is as before |
| RegistryMachine.DeleteReachesTheFile | internal/template/registry.go:142-182 | From any state a Delete nobody holds up takes exactly its row out of map and file |
| RegistryMachine.RefusedCallsChangeNothing | internal/template/registry.go:105-152 | A Put without name or version and a Delete of an absent row change nothing |
| RegistryMachine.FailedWriteLeavesMapAhead | internal/template/registry.go:171-173 | From any state, a run in which the failed write leaves the entry in memory and the file as it was |
| Registries.OrderIsUnique | internal/template/registry.go:125-139 | Only one list of given rows is in List's order, so map iteration does not show |
| Registries.SortRows | internal/template/registry.go:132-137 | The rows in order, each as often as before |
| Registries.GatherRows | internal/template/registry.go:128-131 | Each row of the map once |
| Registries.Registry.Open | internal/template/registry.go:62-101 | The entries of the file, none if there is no file |
| Registries.Registry.Persist | internal/template/registry.go:159-182 | By how many of the three file operations succeed: the file is the old one or the new one, whole, what the temporary file holds, and success exactly if all do |
| Registries.Registry.Put | internal/template/registry.go:104-115 | The row under name/version is the entry in every field but notes, of which the first 4096 bytes stay, and every other row is as before; success means the file is that map; without name or version nothing changes |
| Registries.PutThenGet | internal/template/registry.go:104-122 | A Get after a Put returns that row, and after a Put that returned success so does a registry opened on the file |
| Registries.Registry.Get | internal/template/registry.go:118-122 | The row under the key; with slash-free names a row of exactly that name and version |
| Registries.Registry.Delete | internal/template/registry.go:142-154 | True exactly if the row was there; exactly that row goes; an absent key leaves map and file alone; success means the file follows |
| Registries.Registry.List | internal/template/registry.go:125-139 | Every row once, names ascending and versions ascending within a name |

## Left out

- Firecracker itself, the SDK, jailer arguments and socket polling: spawn, load, resume, kill and directory removal are abstract steps that may fail. A process whose kill reports an error is taken as dead.
- PoolOwnership.EveryProcessHasOneOwner: rests, for unjailed cold forks, on the SDK leaving no process behind when `m.Start` fails under `fc.Restore`. The code here does not kill one then (`internal/fc/snapshot.go:121-123`, `internal/fork/pool.go:253-258`); only after a failed resume does it stop the VMM (`internal/fc/snapshot.go:128`). The machine's kill after a failed cold load stands for the SDK's.
- Jails: the host files named exist and the file system accepts their names; a file that hides the API socket, as one at `/run` would, is a spawn that may fail. ChrootBaseDir is an absolute cleaned path, no key names a UUID, and a chroot whose preparation failed, which nothing uses, is left as it was.
- Processes that die by themselves, which no code here arranges, panics inside `forkOne`, work directories and `CleanupChroot`: the claims are about processes.
- The SDK's code under `fc.Restore`: that the process it starts is tied to the context is read off the builder call at `internal/fc/snapshot.go:107-111`. A context that becomes done while a constructor runs is one cancelled just after it.
- UUIDs are fresh process numbers. A warm slot is its index in the table of processes, which also holds its flags; aliasing of slot pointers is equality of indices.
- WarmPools.Host: time spent, `SpawnCost`, `TakeStats` and logging are not modelled; the clock is a counter that events advance, and counters are unbounded. `reliable` says that no system call fails for a reason of its own; the code does not see it.
- WarmPools.NewWarmPool: begins on a host without processes, because processes are numbered from the pool's first; so does WarmPools.NewUltraWarmPool.
- ForkPools.Pool.Fork: on the heap the goroutines of a call run one after the other; between them any context may be cancelled and any watcher may act, but other callers' goroutines stand still. Their interleaving is the machine's, over whose runs the theorems speak.
- ForkPools.Pool: one warm pool per machine; attaching a second is not modelled. Option validation is left out.
- Several Preload calls: only the constructor calls Preload, so the machine starts after it.
- Reader.ReadExchange: dialling, deadlines and `decodeResponse` of the returned line are left out.
- Exchange.Handle: one connection; socket timeouts and what dispatch runs are left out. Python's recursion limit, and its refusal of integers above 4300 digits, are not modelled.
- Json: numbers are integers; floats, NaN, lone surrogates and Go strings that are not UTF-8 are left out. Portable values are those whose texts both printers escape alike.
- HMAC, SHA-256 and zstd internals, and the YAML and JSON encodings of manifest and registry: functions that round trip, and a hash without collisions.
- A Notes value that Put cuts inside a multi-byte character is altered by the registry's JSON encoding; the model keeps it as it is.
- LruCache.LocalCache: `container/list` is a null-terminated list without its sentinel; `DirSize` is a number given to Insert; Root is a cleaned prefix.
- LruCache.LocalCache.Insert: the mutex is the method's extent; two goroutines interleave call by call, and other changes to the tree between measuring and locking are the Populate and Vanish events of the specification.
- S3Storage, the transfer manager and local file errors: a download is cut short or delivers bytes of the object; local files do not change during a Save. A manifest whose keys are not of Save's form is not in storage.
- Registries.Registry: OpenRegistry's errors and its size limit, other processes writing the same file, `Chmod` modes and callers that keep changing an entry after Put are left out; `sort.Slice` is modelled by insertion.
- RegistryMachine: a rename is atomic and durable; the order in which a file system writes back is not modelled.
- The HTTP server, the command line tools, the builder, stale-directory sweep and percentile arithmetic: plumbing, or properties too easy to earn a place.
