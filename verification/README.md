# Verification of the plugin host, the wallet, the A2A server, the bridge and the runtime

This project models the parts of the repository whose behaviour depends on interleavings, on arithmetic
or on several functions at once, and proves what they promise. It verifies with Dafny 4.11:
`dafny verify dfyconfig.toml`.

Code that works by changing things step by step is modelled as classes and loops. Each such method is
proved equal to a function on values, or to be a run of a transition system, and the theorems are about
those functions and runs, over every input and every run.

**Plugin slots** (`SlotProtocol`, `SlotRuns`, `PluginSlots`). The drain protocol is a transition system
with one step per atomic access, any number of callers, a clock, and a drop of the management future at
each of its awaits. Each access is one sequentially consistent step. At most one reload or unload is in
flight for a slot. `PluginSlot` is the class of the source; between any two of its accesses `Interfere`
lets all other tasks take any steps they can.

**Registry and load order** (`PluginRegistries`, `DependencyGraph`, `TopologicalOrder`). Kahn's loop over
hash maps, whose iteration order is left open everywhere after the first sort. The in-degree counts a
repeated dependency twice, but finishing it decrements once; the failing set is characterised with
repetitions, together with the exact condition under which it is cycle detection. Nothing in the repository
registers plugins in a load order; `RegisterInOrder` is the sequence of calls that the two functions are
made for.

**Mnemonics** (`PositionalNumbers`, `BitRegrouping`, `Text`, `Wallet`, `MnemonicTheorems`). The two
regrouping loops with their 32-bit buffer, which is never masked. The hash is any function to 32 bytes
and the word list any 2048 distinct words. The packing is most significant bit first, as in the source;
nothing is claimed about other wallets.

**Transactions** (`MessagePack`, `Transactions`, `TransactionTheorems`). The writers follow the formats of
the MessagePack specification in their shortest form (positive fixint and uint, str, bin and map
families); the decoder is this project's own. Base32, the hash and the signature are parameters.

**A2A tasks** (`TaskStores`, `TaskIds`, `TaskLifecycle`, `TaskTheorems`) and **requests** (`HttpRequests`,
`HttpTheorems`). The store with eviction, for capacity at least 1. What a handler does under the
write lock is one step. A create draws its id in a step before that, and a worker has two.

**Bridge** (`LineFraming`, `PluginBridges`, `BridgeTheorems`, `ToolIndexTheorems`). The request table with
its timers, line framing, and the tool index. Event handlers run to completion; `JSON.parse` is any
function from lines to messages.

**Runtime** (`StateStores`, `RuntimeLoop`, `Runtimes`, `RuntimeTheorems`, `RuntimeEffects`,
`RuntimeQueue`). The event loop with its 256-slot queue. Handlers are any functions of the event, the snapshot and the time of the call;
the outcome of sends and the events other tasks inject at awaits come from an arbitrary environment. A log
records what happened, and the theorems read it. Two plugins with the same name share a namespace.

**Agent discovery** (`AgentDiscovery`). The pass over the chain's messages and the sort.

Where the code and its documentation differ, the model follows the code:

- The documented hot-reload sequence calls `shutdown()` on the old instance and recovers from a failing
  `init()`; the code does neither. `manifest` and `limits` stay those of the first load, which the
  documentation does not mention.
- It says that hot reload drops no request in flight. After 30 seconds the code swaps under the calls. It
  can do so exactly if some call holds a guard when the reload begins (`SwapUnderCallIff`).
- `unload` has no scope guard: a dropped unload leaves a registered slot that refuses calls
  (`AbandonedUnloadRefusesUntilReloaded`).
- A repeated dependency is reported as a cycle (`RepeatedDependencyBlocksWithoutCycle`); when the report
  is exact cycle detection is in `RemainderIsExactIff`, `RemainderExistsIff` and `TopologicalOrder`.
- The transaction specification says that transactions always carry 0 ALGO; one builder takes an amount.
  `params.fee` is never written: `fee` is `params.min_fee`.
- The lengths of strings and byte strings are cast to 32 bits, so a transaction decodes to its fields
  exactly below that size.
- Each seed is accepted from 256 phrases, which differ in the low byte of the 24th word
  (`AcceptedPhrases`).
- A request with bare line feeds loses the front of its body if the body contains CRLF CRLF.
- The bridge checks plugin ids against its pattern only in `invoke`; the tool index relies on the host
  sending colon-free ids (`ColonsBreakTheIndex`).
- The runtime waits for room in a queue that only it empties; a large enough poll batch stops it for good
  (`BatchBoundIsTight`, `LargeBatchGetsStuck`).

## Model

| member | source | states |
|---|---|---|
| `SlotProtocol.NextKeepsInv` | crates/corvid-plugin-host/src/registry.rs:59-163 | every atomic access of every caller and of the operation in flight, and every drop of its future, keeps the protocol invariant: the counter is the number of callers between increment and decrement, a drain ended by reading zero leaves no guard, and unless a deadline forced a swap every running call runs the current module |
| `SlotProtocol.RunKeepsInv` | crates/corvid-plugin-host/src/registry.rs:59-163 | the same for every interleaving of any length |
| `SlotProtocol.OccupantsUpdate` | crates/corvid-plugin-host/src/registry.rs:63-71 | a caller that moves changes the number of callers inside by exactly its own coming or going |
| `SlotRuns.CounterNeverUnderflows` | crates/corvid-plugin-host/src/registry.rs:63-66 | after every run `active_calls` equals the callers between their fetch_add and fetch_sub, so whoever decrements finds at least one |
| `SlotRuns.DrainedByZeroIsQuiet` | crates/corvid-plugin-host/src/registry.rs:96-120 | from the read of zero until ACTIVE is stored no CallGuard exists and the state is DRAINING |
| `SlotRuns.SwapNeverUnderACall` | crates/corvid-plugin-host/src/registry.rs:99-117 | the module only changes at the swap of a reload, and no guard is held then unless the deadline forced it |
| `SlotRuns.CallsRunCurrentModule` | crates/corvid-plugin-host/src/registry.rs:59-126 | from any reachable state until the next forced swap, a call runs the module the slot holds now unless it already ran another one at the start: so does every call granted since the last forced swap |
| `SlotRuns.DeadlineSwapsUnderCalls` | crates/corvid-plugin-host/src/registry.rs:102-117 | whenever some call holds a guard, there is a schedule of a reload that swaps the module while every guard is still held |
| `SlotRuns.SwapUnderCallIff` | crates/corvid-plugin-host/src/registry.rs:80-117 | the exact condition under which hot reload can fail its promise: a reload has a run that swaps under a call if and only if some call holds a guard when it begins |
| `SlotRuns.ReloadIsAllOrNothing` | crates/corvid-plugin-host/src/registry.rs:80-126 | a reload that is over left ACTIVE with the new module if it completed and with the old one if it was cancelled at any await; manifest and limits stay those of the first load in both cases |
| `SlotRuns.OperationIsBounded` | crates/corvid-plugin-host/src/registry.rs:97-138 | whatever the others do, one reload or unload makes at most 1805 accesses: the drain wait ends |
| `SlotRuns.OperationNeverStuck` | crates/corvid-plugin-host/src/registry.rs:98-111 | an operation in flight can always go on or is asleep until a time before the deadline plus one nap, and from the deadline on its next comparison ends the wait |
| `SlotRuns.ForcedAfterThirtySeconds` | crates/corvid-plugin-host/src/registry.rs:97-132 | an operation that gives up waiting does so no earlier than 30000 ms after it began, and one that is past its wait otherwise leaves nobody with a guard, until ACTIVE is stored or the slot is gone |
| `SlotRuns.NextKeepsWaiting` | crates/corvid-plugin-host/src/registry.rs:97-111 | each access keeps the start of the wait at or after the beginning of the operation, and a forced end 30000 ms after it |
| `SlotRuns.UnloadIsFinal` | crates/corvid-plugin-host/src/registry.rs:129-141 | after a completed unload no step of any run grants a guard, and the state stays UNLOADED |
| `SlotRuns.AbandonedUnloadRefusesUntilReloaded` | crates/corvid-plugin-host/src/registry.rs:196-210 | an unload dropped at an await has no scope guard: the slot stays registered, keeps its non-active state and grants nothing until another operation begins |
| `SlotRuns.Chain` | crates/corvid-plugin-host/src/registry.rs:80-126 | states that follow each other step by step are the run of those steps |
| `SlotRuns.UntouchedSlotRunsLoadedModule` | crates/corvid-plugin-host/src/registry.rs:38-46 | until the first reload or unload the slot is active with exactly the module, manifest and limits it was registered with |
| `SlotRuns.ActiveSlotGrants` | crates/corvid-plugin-host/src/registry.rs:59-72 | in an active slot an uninterrupted call gets its guard and the module, and dropping the guard undoes it exactly; in any other slot it changes nothing |
| `PluginSlots.PluginSlot.constructor` | crates/corvid-plugin-host/src/registry.rs:38-46 | a new slot is active, with no calls, and meets the invariant |
| `PluginSlots.PluginSlot.Interfere` | crates/corvid-plugin-host/src/registry.rs:59-141 | between two accesses any other tasks may take any steps the protocol allows; the invariant holds afterwards, and the task that waited finds its own place unchanged |
| `PluginSlots.PluginSlot.TryAcquire` | crates/corvid-plugin-host/src/registry.rs:59-72 | for every interference the call is a run of the protocol in which the caller's own steps are check, increment, re-check and, without a guard, back out; it stops after the check exactly if the slot was not active, and then or after backing out it holds nothing |
| `PluginSlots.PluginSlot.AcquireChecked` | crates/corvid-plugin-host/src/registry.rs:63-71 | the part after the first check: increment, re-check, and back out unless it grants a guard |
| `PluginSlots.PluginSlot.AcquireCounted` | crates/corvid-plugin-host/src/registry.rs:64-71 | the part after the increment: re-check, and back out unless it grants a guard |
| `PluginSlots.PluginSlot.DropCallGuard` | crates/corvid-plugin-host/src/registry.rs:159-163 | dropping a guard takes one off the counter, which stays non-negative, and changes nothing else |
| `PluginSlots.PluginSlot.Drain` | crates/corvid-plugin-host/src/registry.rs:97-111 | for every interference the drain loop terminates, and returns drained or, if the future was dropped, asleep; a forced end comes no earlier than 30000 ms after it began, any other end finds no guard |
| `PluginSlots.PluginSlot.DrainTurn` | crates/corvid-plugin-host/src/registry.rs:98-111 | one turn either reaches a verdict or has slept once more; a forced verdict comes no earlier than 30000 ms after the start of the wait |
| `PluginSlots.PluginSlot.WakeUp` | crates/corvid-plugin-host/src/registry.rs:110-110 | a sleep ends with the clock at or after its wake-up time |
| `PluginSlots.PluginSlot.DrainAndReload` | crates/corvid-plugin-host/src/registry.rs:80-126 | for every interference the method is a run of the protocol with exactly this reload in it, and ends ACTIVE with the new module, or the old one if dropped; if it completed, 30000 ms have passed or nobody holds a guard |
| `PluginSlots.PluginSlot.EndReload` | crates/corvid-plugin-host/src/registry.rs:84-125 | after the wait the reload ends ACTIVE: with the new module, or with the old one if the scope guard had to put ACTIVE back |
| `PluginSlots.PluginSlot.Activate` | crates/corvid-plugin-host/src/registry.rs:119-126 | the last store ends the reload with ACTIVE and the new module |
| `PluginSlots.PluginSlot.UnloadAndRemove` | crates/corvid-plugin-host/src/registry.rs:129-141 | for every interference the method is a run with exactly this unload in it, and ends removed and UNLOADED, or abandoned, registered and not active; if it completed, 30000 ms have passed or nobody holds a guard |
| `PluginSlots.PluginSlot.StoreAndRemove` | crates/corvid-plugin-host/src/registry.rs:203-206 | the end of an unload: UNLOADED is stored before the registry forgets the slot |
| `PluginRegistries.PluginRegistry.Register` | crates/corvid-plugin-host/src/registry.rs:178-188 | a taken id is refused and nothing changes; otherwise exactly this plugin is added, active with the module it was loaded with, and the others stay |
| `PluginRegistries.PluginRegistry.CheckDependencies` | crates/corvid-plugin-host/src/registry.rs:256-285 | succeeds exactly when every dependency is loaded and active; otherwise it reports the missing and the inactive ones in manifest order |
| `PluginRegistries.PluginRegistry.Reload` | crates/corvid-plugin-host/src/registry.rs:213-220 | while other tasks act on the registry and on the other slots, an unknown id is refused; otherwise the same slot is still registered and active with the new module, or the old one if dropped |
| `PluginRegistries.PluginRegistry.ReloadSlot` | crates/corvid-plugin-host/src/registry.rs:219-219 | by itself a reload changes no other slot and not the map |
| `PluginRegistries.PluginRegistry.OthersAct` | crates/corvid-plugin-host/src/registry.rs:178-220 | what other tasks may do meanwhile, any registration and any step of any other slot, keeps the registry valid and this slot untouched |
| `PluginRegistries.PluginRegistry.UnloadPlugin` | crates/corvid-plugin-host/src/registry.rs:196-210 | while other tasks act, an unknown id is refused; otherwise the plugin is no longer up, gone if the unload completed and still registered if it was dropped |
| `PluginRegistries.PluginRegistry.UnloadSlot` | crates/corvid-plugin-host/src/registry.rs:202-207 | by itself an unload removes at most its own slot and changes no other |
| `PluginRegistries.PluginRegistry.RegisterInOrder` | crates/corvid-plugin-host/src/registry.rs:178-188 | checking and then registering one plugin after another succeeds throughout if and only if the order is a load order, given that outside dependencies are up; then exactly these plugins came up, and earlier slots stay |
| `PluginRegistries.LoadOrdersPassEveryCheck` | crates/corvid-plugin-host/src/registry.rs:256-362 | given that outside dependencies are up, every check of such a sequence finds its dependencies if and only if the order is a load order |
| `PluginRegistries.OneCheck` | crates/corvid-plugin-host/src/registry.rs:256-267 | one check in the middle of such a sequence looks exactly at the dependencies inside the set |
| `TopologicalOrder.TopologicalOrder` | crates/corvid-plugin-host/src/registry.rs:291-362 | for every hash-map order: Ok is a permutation of the ids with each in-set dependency first, starting with the sorted independent plugins; Err names exactly the plugins with a dependency path into a cycle or a repeated dependency. It fails if and only if there is a cycle or a repetition; that verdict is cycle detection if and only if a repetition only occurs together with a cycle, and what it names is what depends on a cycle if and only if every plugin with a repetition does |
| `TopologicalOrder.Kahn` | crates/corvid-plugin-host/src/registry.rs:322-347 | the loop terminates with a sound order outside which nothing is ready |
| `TopologicalOrder.Turn` | crates/corvid-plugin-host/src/registry.rs:335-347 | one turn appends the head of the queue, keeps the degrees equal to the dependencies not yet accounted for, and only appends to the queue |
| `TopologicalOrder.Finish` | crates/corvid-plugin-host/src/registry.rs:338-346 | decrementing the dependents of a finished plugin never underflows, and enqueues exactly those that reach zero, once |
| `TopologicalOrder.BuildGraph` | crates/corvid-plugin-host/src/registry.rs:296-305 | the adjacency lists are those of the last manifest with each id, restricted to the ids in the set |
| `TopologicalOrder.InDegrees` | crates/corvid-plugin-host/src/registry.rs:308-320 | the in-degree is the length of the list, repetitions included |
| `TopologicalOrder.SortIds` | crates/corvid-plugin-host/src/registry.rs:328-331 | whatever order the ids come out of the map, the queue starts sorted |
| `TopologicalOrder.BelowIsLexicographic` | crates/corvid-plugin-host/src/registry.rs:331-331 | the order of the sort: a prefix comes first, otherwise the first difference decides |
| `TopologicalOrder.RepeatedDependencyBlocksWithoutCycle` | crates/corvid-plugin-host/src/registry.rs:316-346 | a dependency listed twice is reported as a cycle though there is none |
| `DependencyGraph.RemainingIsDoomed` | crates/corvid-plugin-host/src/registry.rs:349-359 | whenever nothing outside a sound order is ready, what remains is exactly what depends on a cycle or on a repeated dependency |
| `DependencyGraph.RemainderIsExactIff` | crates/corvid-plugin-host/src/registry.rs:316-359 | what remains is exactly what depends on a cycle if and only if every plugin with a repeated dependency does |
| `DependencyGraph.RemainderExistsIff` | crates/corvid-plugin-host/src/registry.rs:316-359 | something remains if and only if there is a cycle or a repeated dependency |
| `DependencyGraph.WithoutDuplicatesOnlyCyclesBlock` | crates/corvid-plugin-host/src/registry.rs:296-362 | in particular, with duplicate-free lists a plugin is named exactly if it has a dependency path into a cycle |
| `DependencyGraph.DegreeZeroIffReady` | crates/corvid-plugin-host/src/registry.rs:338-346 | a degree is zero exactly when every listed dependency is finished and the list has no repetition |
| `DependencyGraph.DegreeDrops` | crates/corvid-plugin-host/src/registry.rs:339-341 | finishing a plugin takes one off each dependent, however often it is listed |
| `DependencyGraph.UnfinishedIsDoomed` | crates/corvid-plugin-host/src/registry.rs:335-347 | if nothing in a set is ready, every dependency path in it can be followed into a cycle or a repetition |
| `DependencyGraph.PathDescends` | crates/corvid-plugin-host/src/registry.rs:335-347 | in a sound order every dependency path goes strictly towards the front |
| `DependencyGraph.LoadOrderMeans` | crates/corvid-plugin-host/src/registry.rs:296-362 | in terms of the manifests: each supplied id once, after all the supplied dependencies of the last manifest with that id |
| `DependencyGraph.LastManifestCounts` | crates/corvid-plugin-host/src/registry.rs:299-305 | of several manifests with one id the last one counts |
| `BitRegrouping.BytesTo11Bit` | src/wallet.rs:136-156 | for every input the unmasked 32-bit loop yields the base-2048 digits of the big-endian value shifted left by the padding |
| `BitRegrouping.BitsToBytes` | src/wallet.rs:159-183 | for every list of indices the result is the first 32 whole bytes of their value, or the number of bytes there are |
| `BitRegrouping.TakeBytes` | src/wallet.rs:160-171 | the loop yields the base-256 digits of the value without its incomplete last byte |
| `BitRegrouping.TakeAll` | src/wallet.rs:144-147 | the inner loop of both takes whole digits until fewer bits are left than one needs |
| `BitRegrouping.LastOne` | src/wallet.rs:150-153 | the remaining bits become one digit padded with zeros on the right |
| `BitRegrouping.DigitSurvivesTruncation` | src/wallet.rs:145-145 | a digit inside the low 32 bits is not affected by the high bits that shifts dropped |
| `BitRegrouping.Enter` | src/wallet.rs:142-143 | shifting in a byte or index keeps the buffer equal to the value truncated to 32 bits and leaves the digits already taken alone |
| `BitRegrouping.Leave` | src/wallet.rs:145-146 | the digit taken is the next one of the unbounded value |
| `BitRegrouping.FirstElevenBits` | src/wallet.rs:94-94 | the first eleven-bit group of 32 bytes is the first byte times 8 plus the top three bits of the second |
| `Wallet.SeedToMnemonic` | src/wallet.rs:84-99 | split at whitespace, the phrase has 25 words: those of the 24 eleven-bit groups of the seed, and that of the first eleven-bit group of the seed's hash |
| `Wallet.MnemonicToSeed` | src/wallet.rs:102-133 | every phrase gives the seed or the first error of the source: word count, unknown word with its position, checksum |
| `Wallet.FindWords` | src/wallet.rs:108-115 | the lookup loop gives all indices in order, each that of its word, or the first word that is not listed and its one-based position |
| `Text.SplitOfJoin` | src/wallet.rs:98-103 | splitting words joined by blanks at whitespace gives the words back |
| `MnemonicTheorems.MnemonicRoundTrip` | src/wallet.rs:84-133 | for every 32-byte seed, every hash function and every list of 2048 distinct words, decoding the mnemonic gives the seed back |
| `MnemonicTheorems.DecoderKernel` | src/wallet.rs:159-183 | two lists of 24 indices decode to the same seed if and only if the first 23 agree and the 24th agree in their top three bits |
| `MnemonicTheorems.ReencodingClearsLowByte` | src/wallet.rs:136-183 | encoding a decoded list gives it back with the low byte of the 24th index cleared |
| `MnemonicTheorems.AcceptedPhrases` | src/wallet.rs:102-133 | a phrase decodes to a seed if and only if it has 25 words, the first 23 are those of the seed's groups, the last is that of the first eleven bits of its hash, and the 24th agrees with the seed's last group in the top three bits |
| `MnemonicTheorems.RejectedPhrases` | src/wallet.rs:102-133 | a wrong word count is reported first, then exactly the first unlisted word with its position; a phrase with 25 listed words can only fail its checksum |
| `MnemonicTheorems.SeedIsHighPart` | src/wallet.rs:159-183 | the seed is the value of the 24 indices without its low eight bits |
| `PositionalNumbers.ValueOfDigits` | src/wallet.rs:136-183 | digits taken from a value that fits have that value |
| `PositionalNumbers.DigitsOfValue` | src/wallet.rs:136-183 | a bounded list of digits is what its value is written as |
| `MessagePack.RoundTrip` | src/transaction.rs:185-196 | every value whose lengths fit 32 bits is decoded back from its encoding, and what follows it is left over |
| `MessagePack.FieldsRoundTrip` | src/transaction.rs:58-85 | the same for the fields of a map, in order |
| `MessagePack.EncodingIsShortest` | src/transaction.rs:185-196 | bytes that decode to a value are at least as long as what the writers produce, and identical if as long |
| `MessagePack.HeadRoundTrip` | src/transaction.rs:185-196 | every head is read back with the number of bytes it took |
| `MessagePack.HeadIsShortest` | src/transaction.rs:185-196 | the head written is the only shortest one |
| `MessagePack.HeadFormats` | src/transaction.rs:185-196 | the format bytes and big-endian lengths of the MessagePack specification, byte for byte, for each range of each family |
| `Transactions.BuildPaymentTransactionWithAmount` | src/transaction.rs:42-88 | a bad address is refused, the sender's first; otherwise the bytes written field by field are a map, with nothing after it, of exactly these keys and values: `fee` the minimum fee, `fv`, `gen`, `gh`, `lv`, `rcv` the decoded receiver, `snd` the decoded sender, `type` "pay", and `amt` if it is not zero |
| `Transactions.BuildPaymentTransaction` | src/transaction.rs:94-150 | the same for a payment with a note: `fee` the minimum fee, `fv`, `gen`, `gh`, `lv`, `rcv` the decoded receiver, `snd` the decoded sender, `type` "pay", and `note` |
| `Transactions.CountOfAmountFields` | src/transaction.rs:54-56 | the header announces 9 fields with an amount and 8 without, and that many are written |
| `Transactions.CountOfNoteFields` | src/transaction.rs:109-111 | the header of a payment with a note announces the 9 fields written |
| `TransactionTheorems.AmountListedIffPositive` | src/transaction.rs:58-61 | `amt` is among the fields if and only if the amount is not zero |
| `TransactionTheorems.PaymentsAscend` | src/transaction.rs:53-147 | the keys of both payments strictly ascend |
| `TransactionTheorems.SortedFormIsUnique` | src/transaction.rs:53-147 | two ascending field lists with the same pairs are the same list |
| `TransactionTheorems.CanonicalForm` | src/transaction.rs:37-150 | bytes that decode to the same pairs in ascending order are never shorter, and byte-identical if as long: the encoding is canonical |
| `Transactions.AmountPaymentDecodes` | src/transaction.rs:42-88 | a payment decodes to exactly its fields if and only if its genesis id has fewer than 2^32 bytes |
| `Transactions.NotePaymentDecodes` | src/transaction.rs:94-150 | a payment with a note does if and only if its note has, too |
| `Transactions.AmountPairs` | src/transaction.rs:58-85 | what stands under which key in a payment |
| `Transactions.NotePairs` | src/transaction.rs:113-147 | what stands under which key in a payment with a note |
| `Transactions.AddressesAccepted` | src/transaction.rs:199-226 | an address decodes to a key if and only if it is the base32 form of the 32-byte key followed by the last four of the 32 bytes of the key's hash; it is refused as malformed or as of a wrong length exactly when it is |
| `TransactionTheorems.DistinctPaymentsDistinctBytes` | src/transaction.rs:37-150 | two payments of either kind have the same bytes if and only if they agree in everything but `params.fee`, which is never written |
| `TransactionTheorems.EnvelopeDecodes` | src/transaction.rs:156-181 | the envelope decodes to exactly two entries, its keys ascending: `sig`, the signature over "TX" and the raw bytes, and `txn`, the same map |
| `TaskStores.TaskStore.InsertTask` | src/a2a.rs:151-161 | the eviction loop and the insertion, for capacity at least 1 |
| `TaskStores.StoreRefinesLog` | src/a2a.rs:151-161 | after any insertions with fresh ids the store holds exactly the last `capacity` tasks of the log, under their ids, in their order |
| `TaskStores.InsertKeepsEnd` | src/a2a.rs:151-161 | one insertion keeps that relation |
| `TaskStores.ListIsNewestFirst` | src/a2a.rs:171-178 | listing gives the newest tasks of the log in reverse order, as many as asked for and kept |
| `TaskIds.TaskIdInjective` | src/a2a.rs:710-717 | two ids are equal only if both clock and counter are, so the counter alone keeps ids fresh |
| `TaskIds.DecimalInjective` | src/a2a.rs:716-716 | different numbers print differently |
| `TaskIds.DecimalReadsBack` | src/a2a.rs:716-716 | a number is printed in decimal, without leading zeros |
| `TaskLifecycle.NextIdIsFresh` | src/a2a.rs:371-371 | the next id drawn was never drawn before, inserted or not, whatever the clock says |
| `TaskLifecycle.NextKeepsInv` | src/a2a.rs:355-504 | draws of ids, insertions with their evictions in any order of the draws, both halves of every worker, and cancels keep: ids unique and inserted at most once, the store's order the end of the insertions, fields matching the state, states matching the worker's stage, and a task whose cancel was answered 200 cancelled |
| `TaskTheorems.ReachableTasks` | src/a2a.rs:355-504 | after every interleaving `completed_at` is set exactly in terminal states and `response` exactly in completed or failed ones |
| `TaskTheorems.DrawIsExact` | src/a2a.rs:710-717 | in every reachable state the id drawn is `task-<seconds>-<ids drawn before>`, never drawn before, and nothing else changes |
| `TaskTheorems.InsertIsExact` | src/a2a.rs:374-387 | in every reachable state the task inserted is pending with the message, the sender and the time of the create and no response; it takes the place of the oldest if the store is full, and no other task changes |
| `TaskTheorems.WorkStarts` | src/a2a.rs:461-470 | in every reachable state a queued task becomes running and nothing else changes; a cancelled one is never worked on |
| `TaskTheorems.ResultIsRecorded` | src/a2a.rs:483-504 | in every reachable state a result completes exactly the running task it belongs to, with that response; an error fails it, with "error: " and its text; both set the completion time; every other field and task stays, and so does a task cancelled meanwhile |
| `TaskTheorems.CancelIsExact` | src/a2a.rs:428-446 | in every reachable state a cancel of a pending or running task answers 200 and cancels exactly that task, now; an unknown id answers 404 and a finished task 409, and nothing changes |
| `TaskTheorems.ReachableStore` | src/a2a.rs:142-178 | after every interleaving of creates, workers and cancels the store has exactly the last `capacity` tasks inserted, and lists the newest ones, the latest first |
| `TaskTheorems.TerminalIsFinal` | src/a2a.rs:428-504 | a terminal task stays exactly as it is for as long as the store has it |
| `TaskTheorems.EvictedStaysOut` | src/a2a.rs:151-161 | an evicted id never comes back |
| `TaskTheorems.CancelSucceedsAtMostOnce` | src/a2a.rs:428-446 | cancel answers 200 at most once for each id |
| `TaskTheorems.FinishedIsNeverCancelled` | src/a2a.rs:428-504 | and never, before or after, for a task that completed or failed |
| `HttpRequests.ParseHttpRequest` | src/a2a.rs:595-636 | the line loop and the separator search, for every input |
| `HttpRequests.ReadHeaders` | src/a2a.rs:604-616 | headers up to the first empty line, lines without a colon skipped, and whether there was one |
| `HttpTheorems.ParserInvertsRequests` | src/a2a.rs:595-636 | every CRLF request of the form of sections 2.1, 3 and 5 of RFC 9112 is parsed to its method, its target up to the first `?`, its fields in order and its exact body, blank lines included |
| `HttpTheorems.BareLineFeedsNeedPlainBody` | src/a2a.rs:618-630 | the same request with bare line feeds is parsed to its meaning if and only if its body contains no CRLF CRLF |
| `HttpTheorems.HeadEndsAtBlankLine` | src/a2a.rs:608-627 | the first blank line the search finds is the one the line loop stopped at |
| `HttpTheorems.FieldParses` | src/a2a.rs:613-615 | a field line with any blanks and tabs around its value gives its name and value |
| `HttpTheorems.RefusedIffNoTarget` | src/a2a.rs:598-602 | an input is refused if and only if its first line has fewer than two words |
| `HttpTheorems.UnfinishedHeadHasNoBody` | src/a2a.rs:608-630 | a head that ends before its empty line gives all its fields and an empty body |
| `HttpTheorems.LineWithoutColonIsSkipped` | src/a2a.rs:613-615 | a line without a colon among the headers has no effect |
| `PluginBridges.PluginBridge.HandleData` | server/plugins/rust-bridge.ts:330-370 | a chunk over the limit drops the connection; otherwise the complete lines are handled in order and the rest is kept |
| `PluginBridges.PluginBridge.RejectPending` | server/plugins/rust-bridge.ts:150-153 | every pending request is rejected once, in order, and the table is empty |
| `PluginBridges.PluginBridge.RefreshPluginTools` | server/plugins/rust-bridge.ts:250-265 | the plugin's old tools go from all three places and the new ones are registered |
| `PluginBridges.PluginBridge.UnregisterAllTools` | server/plugins/rust-bridge.ts:282-289 | every registered name leaves the registry, and both indexes are emptied |
| `BridgeTheorems.EveryRequestSettlesOnce` | server/plugins/rust-bridge.ts:138-154 | over all orders of responses, late responses, timeouts, closes and disconnects a request settles at most once, and the pending ids are exactly the issued unsettled ones and exactly those with an armed timer |
| `BridgeTheorems.CloseSettlesEverything` | server/plugins/rust-bridge.ts:420-432 | after a close or a disconnect every request ever issued has settled exactly once |
| `BridgeTheorems.NextAccounts` | server/plugins/rust-bridge.ts:297-427 | every event keeps that account |
| `BridgeTheorems.ResponseSettlesItsRequest` | server/plugins/rust-bridge.ts:343-364 | after every run, a line that answers request `id` takes exactly that request out of the table and its timer with it, the others in order, and settles it with exactly that outcome; if it is not pending nothing happens |
| `BridgeTheorems.OtherLinesOnlyRefresh` | server/plugins/rust-bridge.ts:343-375 | a line that is no response refreshes the tools of the plugin it names, if it has a name and a list, and does nothing else |
| `BridgeTheorems.TimerSettlesItsRequest` | server/plugins/rust-bridge.ts:305-308 | a timer can fire exactly while its request is pending, and settles that one as timed out |
| `BridgeTheorems.RequestJoinsTheTable` | server/plugins/rust-bridge.ts:297-325 | a request joins the end of the table under a number never used before, with its timer; without a socket nothing changes |
| `BridgeTheorems.ClosingIsExact` | server/plugins/rust-bridge.ts:138-154 | a close and a disconnect reject every pending request once, in the order of the table, with the outcome that says which, and empty the table and the tool index |
| `BridgeTheorems.SettlementsHaveCauses` | server/plugins/rust-bridge.ts:297-427 | over every run, whatever settles a request is a received response line that names it and carries that outcome, its own timer, a close or a disconnect |
| `BridgeTheorems.ChunkingIsIrrelevant` | server/plugins/rust-bridge.ts:330-370 | while the buffer fits, the effect and the buffer depend only on the concatenated input: all complete lines, and the part after the last newline |
| `BridgeTheorems.OverflowDropsConnection` | server/plugins/rust-bridge.ts:333-337 | the connection survives a sequence of chunks if and only if the buffer never exceeds the limit |
| `BridgeTheorems.ConnectionStartsAfresh` | server/plugins/rust-bridge.ts:392-398 | a new connection starts at a line boundary whatever the old one left in the buffer, and keeps the table |
| `BridgeTheorems.OverflowIsExact` | server/plugins/rust-bridge.ts:333-337 | a chunk over the limit drops an open connection, hands over no line and touches no request and no tool |
| `LineFraming.FramingComposes` | server/plugins/rust-bridge.ts:339-342 | framing a text in two parts is framing it at once |
| `LineFraming.RestIsTheEnd` | server/plugins/rust-bridge.ts:339-342 | what stays in the buffer is the end of the input, right after its last newline |
| `LineFraming.LinesAndRestAreTheInput` | server/plugins/rust-bridge.ts:339-342 | the lines with their newlines and the rest are the input, and no line has a newline inside |
| `LineFraming.WrittenLinesComeBack` | server/plugins/rust-bridge.ts:339-342 | whatever lines and rest are written are read back |
| `ToolIndexTheorems.IndexAlwaysAgrees` | server/plugins/rust-bridge.ts:250-289 | with colon-free plugin ids, `registeredTools`, the union of `pluginToolsByPlugin` and the live names in the registry agree after every run |
| `ToolIndexTheorems.RefreshChangesOnlyItsPlugin` | server/plugins/rust-bridge.ts:250-265 | for every id a refresh replaces exactly the named plugin's tools |
| `ToolIndexTheorems.RefreshAgreesExactly` | server/plugins/rust-bridge.ts:250-265 | for every id a refresh keeps the three in agreement if and only if every name the plugin shares with another is registered again |
| `ToolIndexTheorems.ToolNamesKeepPluginsApart` | server/plugins/rust-bridge.ts:269-269 | without colons in the ids, a tool name belongs to one plugin and one tool |
| `ToolIndexTheorems.ColonsBreakTheIndex` | server/plugins/rust-bridge.ts:250-280 | with a colon in an id it does not: a refresh of one plugin unregisters a tool of another |
| `StateStores.StateStore.Get` | crates/nano-runtime/src/state.rs:30-32 | a value is found exactly if the plugin's own snapshot has it |
| `StateStores.StateStore.Remove` | crates/nano-runtime/src/state.rs:40-42 | a removal returns what was there and takes the key out |
| `StateStores.NamespacesAreSeparate` | crates/nano-runtime/src/state.rs:22-42 | writes and removals change the snapshot of no other plugin |
| `Runtimes.Runtime.AwaitOthers` | crates/nano-runtime/src/runtime.rs:54-81 | at an await other tasks may queue what there is room for |
| `Runtimes.Runtime.Send` | crates/nano-runtime/src/runtime.rs:187-193 | with room the event is queued; without, the loop waits for itself and is stuck |
| `Runtimes.Runtime.AddPlugin` | crates/nano-runtime/src/runtime.rs:66-76 | a plugin whose init failed leaves no trace; otherwise it is last in the list and PluginLoaded is sent |
| `Runtimes.Runtime.ExecuteAction` | crates/nano-runtime/src/runtime.rs:173-212 | one action under the plugin's name; a failed send emits nothing and does not stop the actions after it |
| `Runtimes.Runtime.DispatchEvent` | crates/nano-runtime/src/runtime.rs:145-170 | subscribed plugins in registration order, each with a snapshot taken after the actions of those before it |
| `Runtimes.Runtime.HandleAndExecute` | crates/nano-runtime/src/runtime.rs:154-168 | one delivery: snapshot, handler, and its actions in order, none if it failed |
| `Runtimes.Runtime.PollTransport` | crates/nano-runtime/src/runtime.rs:102-115 | one dispatch for each received message, none for a failed recv |
| `Runtimes.Runtime.ReceiveEvent` | crates/nano-runtime/src/runtime.rs:118-120 | the oldest queued event is dispatched |
| `Runtimes.Runtime.Run` | crates/nano-runtime/src/runtime.rs:84-133 | the loop, for every sequence of choices of its select, is the specified run |
| `RuntimeTheorems.StateIsIsolated` | crates/nano-runtime/src/runtime.rs:145-227 | after every run a name's namespace is the fold of the StoreState actions executed under that name, in order, and every delivery went to the plugin registered at its place and showed it exactly that fold at the time |
| `RuntimeTheorems.EventsReachTheirSubscribers` | crates/nano-runtime/src/runtime.rs:102-170 | what came to the loop is what its inputs and its queue brought; each message received, event taken and shutdown signal reached exactly the plugins loaded then that subscribe to it, in registration order, and every action they answered was executed once, in order, under their own name; a stuck loop has done a prefix of both |
| `RuntimeTheorems.ArrivalsAreDispatched` | crates/nano-runtime/src/runtime.rs:99-133 | the events dispatched are, in order and each once, the messages received, the events taken from the queue and the shutdown signals that the inputs brought; a stuck loop has dispatched a prefix |
| `RuntimeTheorems.EventsAreCaused` | crates/nano-runtime/src/runtime.rs:66-76 | every outgoing message was given to the transport, and the events the loop emitted are exactly, in order, the Custom, MessageSent and PluginLoaded events that its actions, the transport's answers and its loads call for; a stuck loop lacks the last one |
| `RuntimeTheorems.StepIsExact` | crates/nano-runtime/src/runtime.rs:66-133 | every step keeps the invariant and brings the loop exactly what its input says: a load, the messages of a poll, the oldest queued event, or a signal |
| `RuntimeTheorems.QueueLosesNothing` | crates/nano-runtime/src/runtime.rs:54-120 | what left the queue is what entered it, in order, but for what is still queued, and it never holds more than 256 |
| `RuntimeTheorems.RunKeepsInv` | crates/nano-runtime/src/runtime.rs:84-133 | all of this is an invariant of every run |
| `RuntimeTheorems.NotingKeepsSteady` | crates/nano-runtime/src/runtime.rs:145-212 | every single change of the state keeps its part that holds in the middle of a dispatch |
| `RuntimeEffects.SubscribedMeans` | crates/nano-runtime/src/event.rs:50-63 | a plugin subscribes to an event if and only if one of its subscriptions is for all events, for that sort of event, or for custom events of that name |
| `RuntimeEffects.SubscribersAre` | crates/nano-runtime/src/runtime.rs:148-153 | the deliveries due for an event are those to its subscribers, each once, in registration order |
| `RuntimeEffects.ActionEffect` | crates/nano-runtime/src/runtime.rs:173-212 | a message goes to the transport, and its answer becomes a MessageSent event with the same recipient and that id, behind everything queued; a value is stored under the plugin's own name and changes no other namespace; an event is queued as Custom with its kind and data; a log line does nothing |
| `RuntimeEffects.LoadEffect` | crates/nano-runtime/src/runtime.rs:66-76 | a load appends exactly the plugin and queues PluginLoaded with its name; a failed init appends nothing |
| `RuntimeEffects.ReplayIsLastStored` | crates/nano-runtime/src/runtime.rs:194-197 | under each key a namespace holds the value stored last under that name |
| `RuntimeEffects.NothingElseStored` | crates/nano-runtime/src/runtime.rs:194-197 | and it holds no key that was never stored under that name |
| `RuntimeEffects.BooksAreMeant` | crates/nano-runtime/src/runtime.rs:99-133 | what arrived are, in order, the messages received, the events taken and the shutdown signals, and what is to be sent are the messages among the executed actions |
| `RuntimeQueue.OnlyAnOverfullQueueBlocks` | crates/nano-runtime/src/runtime.rs:103-109 | a poll batch of any length over any plugins gets the loop stuck only if what was queued, what was injected meanwhile and what its actions emitted exceed 256 together |
| `RuntimeQueue.BatchFitsInQueue` | crates/nano-runtime/src/runtime.rs:103-201 | if other tasks inject at most `cap` events, a batch finishes when what is queued, `cap`, and messages times the subscribers' emitting actions per message come to at most 256 |
| `RuntimeQueue.BatchBoundIsTight` | crates/nano-runtime/src/runtime.rs:103-201 | with plugins that always emit their limit, no failing send and no injection it gets stuck if and only if that sum exceeds 256 |
| `RuntimeQueue.LargeBatchGetsStuck` | crates/nano-runtime/src/runtime.rs:54-201 | with one plugin that answers each message with one event, a first poll gets the loop stuck if and only if it returns more than 256 messages |
| `RuntimeQueue.DrainingNeedsNoRoom` | crates/nano-runtime/src/runtime.rs:118-120 | taking an event out never gets the loop stuck if the plugins emit at most one event in answer and nobody injects |
| `RuntimeQueue.DispatchFromSpends` | crates/nano-runtime/src/runtime.rs:145-201 | a dispatch emits at most the sum of its subscribers' limits, and the queue grows by no more than is emitted and injected |
| `AgentDiscovery.DiscoverAgents` | src/algorand.rs:459-516 | every participating address appears once, with the true sent and received counts, first and last rounds, and the time of the first message to reach the last round; the output descends by last round |
| `AgentDiscovery.Track` | src/algorand.rs:471-488 | one touch of one entry |
| `AgentDiscovery.SortedByLastSeen` | src/algorand.rs:513-514 | the entries of the map, each once, in descending order of last round, ties in any order |
| `AgentDiscovery.SeenIsFaithful` | src/algorand.rs:466-511 | the map after the pass has exactly the participants, each correctly summarised |
| `AgentDiscovery.SummaryIsUnique` | src/algorand.rs:380-389 | what a correct summary says leaves no choice |
| `AgentDiscovery.ReportAddsUp` | src/algorand.rs:469-511 | the sent counts sum to the number of messages, the received counts to those with a receiver |
| `AgentDiscovery.OrderMattersOnlyForTies` | src/algorand.rs:485-488 | an address's summary is independent of the order of the messages if and only if the messages at its last round agree on the time |
| `AgentDiscovery.ReportsAgree` | src/algorand.rs:459-516 | if a round determines its time, two orders of the same messages give the same summaries |

## Left out

- Acquire/release orderings weaker than sequential consistency, and clocks other than a monotone one.
- Overlapping management operations on one slot, for which the slot theorems do not hold, and task stores of capacity 0, whose insert does not terminate.
- HTTP clients, indexer, algod and hub polling, LLM and TTS backends, sockets: I/O around thin loops.
- Wasmtime, linker, sandbox and procedural macros; a compiled module is an identity.
- Ed25519, ChaCha20-Poly1305, Argon2id, SHA-512/256 and base32, which are parameters or absent.
- The SQLite stores, whose meaning is that of SQL.
- CLI, wizard, UI, configuration, manifest validation, URL filtering and authentication.
- `wordlist.txt` is not part of this model; the word list is a parameter with the properties the code needs.
- The wrap-around of counters (`active_calls`, the task counter, sent and received counts) at 2^64, which no run reaches.
- MessagePack formats that the writers never produce: signed integers, floats, arrays, nil, booleans, extensions.
- A create request that is not valid JSON is refused with 400 before it touches the store; only valid ones are steps.
- The hub's answer to a task is any result; its timeout field is not used by the code.
- The bridge without a tool registry, trust tiers and timeout lengths, reconnection with its backoff, and what JSON values mean.
- The awaits inside `refreshTools` of the bridge: clearing and registering are separate events of a run, so anything may come between them.
- Reading the module under its lock is one step of a caller; the lock itself is not modelled beyond that.
- Plugin contexts carry only the state snapshot; agent name, address and configuration are constants. `subscriptions()` is fixed for each plugin.
- `plugin.shutdown()` at the end of `run`, whose failures are only logged.
- The library sort of discovered agents is modelled by what it yields on values in arbitrary order, because the hash map leaves the order of ties open.
