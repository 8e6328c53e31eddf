# Verified models of Kaffe's runtime

Kaffe is a Java virtual machine written in C. This project models seven of its stateful cores in
Dafny and proves, for all inputs, all runs and all interleavings, what the rest of the machine
relies on.

* **Class loading by name** (`WaitGraph`, `ClassMapping`, `MappingRuns`, `MappingDiscipline`,
  `MappingLife`, `MappingWakeups`, `MappingFaults`, `NameDependency`). Each class entry goes through EMPTY, SEARCHING, LOADING, LOADED
  and DONE, driven by many threads. A list of registrations, walked before a thread goes to sleep,
  is to keep threads from waiting for each other in a circle. The threads are a state machine with
  one action per critical section; the walk, which reads entries it holds no lock on, takes one
  action per read. The list operations alone are also given as methods that relink its nodes.
* **Atomic operations in three layers** (`WordArith`, `AtomicOps`, `RetryLoops`, `HashedLocks`,
  `AtomicRuns`, `AtomicResults`). On 32-bit SPARC the retry loops run over a compare-and-exchange
  made of 64 spin locks that addresses share by hash. Each layer refines the next, and results about
  all callers together follow from the top one.
* **Counting semaphores** (`Semaphore`) from a mutex and a condition variable, with spurious wakeups
  and barging.
* **The class entry pool** (`ClassPool`, `LinkedChain`, `EntryTable`): the unlocked scan and locked
  re-check as a state machine of any number of threads, and the table itself, with the removal of a
  loader's entries, as chains of heap nodes whose links are changed in place.
* **The constant pool reader** (`ConstantPool`, `ConstantReader`, `ConstantRefs`, `ConstantCodec`,
  `ConstantInputs`): `ConstantReader` fills and rewrites the slot and tag arrays in place and is proved
  equal to the functions of `ConstantPool`; the others prove reference counts, the round trip of section
  4.4 of the Java Virtual Machine Specification, and which byte strings are accepted.
* **The native header generator** (`Mangling`, `Descriptors`, `NativeMethods`, `MethodRing`): the
  escaping of names of chapter 2 of the JNI specification, the walk over the descriptors of section
  4.3 of the Java Virtual Machine Specification, and the circular list of methods as heap nodes.
* **Argument marshalling** (`MarshalX86`, `MarshalPowerPC`): both passes over the arguments, writing
  register images and stack words into arrays.
* **Member access** (`AccessFlags`, `Access`): the nested superclass walks, equal to a closed form.

Several promises turn out not to hold of the code as it stands. For each of them the code is kept, a
lemma shows a failing case, and another one says exactly when the promise holds:

* a withdrawal removes by entry and may take another thread's registration instead of the caller's
  (`LostRegistrationDeadlocks`, `StaleRunLeads`, `StaleRegistrationRefuses`; exactly when, in
  `OwnSurvivesIff` and `ExactIffNothingStolen`); rules callers can keep to that rule it out are
  `GuardedRunsStayAcyclic` and `CarefulRunsNeverCircle`;
* the walk before a registration need not end (`TrapIsReached`, `RefusedRegistrationTraps`; exactly
  when it does, in `WalkEndsIff`);
* forcing a state on an entry can leave a union that does not match it (`TypedStepIff`,
  `ForcedLoadingMistypes`);
* a post at the maximum keeps the mutex, and a negative count is accepted (`LeaksIffPostAtMax`,
  `PostAtMaxIsReachable`, `RangeIffNotNegative`);
* a long or double in the last slot runs past the arrays (`LongInLastSlot`; exactly on which
  inputs, in `OutOfBoundsIff`);
* a closing parenthesis in a class name can stop the header generator (`ParenInName`; exactly which
  descriptors get through, in `PrintableIff`);
* a slash followed by a digit can make two native symbols equal (`SymbolsClashIff`,
  `SlashDigitClash`);
* on PowerPC the block is rounded down (`WritesFitIff`, `NineIntegersOverrun`).

`dafny verify dfyconfig.toml` checks everything.

## Model

| member | source | states |
|---|---|---|
| `ClassMapping.Find` | kaffe/kaffevm/classPool.c:209-222 | the registration returned belongs to the thread asked for; none is returned exactly when that thread has none |
| `ClassMapping.RemovesFirst` | kaffe/kaffevm/classPool.c:252-275 | removal leaves the list without its first registration on the mapping, or as it was |
| `ClassMapping.EntryStepKeepsInv` | kaffe/kaffevm/classPool.c:277-492 | any step by which a thread without a listed registration takes over, resets or completes an entry keeps the protocol's invariant, with walks in progress |
| `ClassMapping.BeginWalkKeepsInv` | kaffe/kaffevm/classPool.c:312-320 | registering and starting the walk keeps the invariant |
| `ClassMapping.CheckKeepsInv` | kaffe/kaffevm/classPool.c:236-244 | comparing the cursor's target with the walker keeps the invariant: a walk that has seen nothing still covers every way back to the walker |
| `ClassMapping.AdvanceKeepsInv` | kaffe/kaffevm/classPool.c:236-244 | so does moving the cursor, whatever other threads did between |
| `ClassMapping.DecideKeepsInv` | kaffe/kaffevm/classPool.c:236-250 | accepting a registration whose walk found nothing adds an edge and closes no circle |
| `ClassMapping.WithdrawKeepsInv` | kaffe/kaffevm/classPool.c:252-275 | a tidy withdrawal keeps the invariant |
| `ClassMapping.StepKeepsInv` | kaffe/kaffevm/classPool.c:209-492 | every action of every thread keeps the invariant, if withdrawals and registrations are tidy |
| `MappingRuns.WaitGraphStaysAcyclic` | kaffe/kaffevm/classPool.c:209-275 | in every tidy run, each thread is listed at most once and the graph from each accepted thread to the thread recorded in its mapping is acyclic; between walks that is the graph of the whole list |
| `MappingRuns.OwnSurvivesIff` | kaffe/kaffevm/classPool.c:252-275 | a caller's own registration survives its removal exactly when one on the same mapping stands before it |
| `MappingRuns.OncePerMappingIsTidy` | kaffe/kaffevm/classPool.c:252-275 | at most one registration per mapping makes withdrawals tidy |
| `MappingRuns.NoCircularWait` | kaffe/kaffevm/classPool.c:312-336 | when each withdrawal removes just its caller's registration, no threads ever wait in a circle |
| `MappingRuns.ExactIffNothingStolen` | kaffe/kaffevm/classPool.c:252-275 | with any number of registrations per mapping, a withdrawal removes its caller's registration and no other if and only if the caller's stands first among those on the mapping or, from an unregistered caller, there is none |
| `MappingRuns.RegisteredIff` | kaffe/kaffevm/classPool.c:312-336 | where withdrawals have been exact, those about to withdraw are registered unless they asked for an entry they load themselves |
| `MappingRuns.WalkIsBounded` | kaffe/kaffevm/classPool.c:225-250 | while other threads do whatever the locks let them, a walk still takes at most one step more than there are accepted registrations |
| `MappingRuns.RefusalIsJustified` | kaffe/kaffevm/classPool.c:225-250 | whatever other threads do meanwhile, a registration is refused only if the owner of its entry led to the caller when it registered |
| `MappingDiscipline.GuardedRunIsTidy` | kaffe/kaffevm/classPool.c:312-336 | registering only where nobody is registered, and never while a refusal is listed, makes a run tidy |
| `MappingDiscipline.GuardedRunsStayAcyclic` | kaffe/kaffevm/classPool.c:209-275 | in every such run the accepted registrations form no circle; between walks, with no refusal listed, neither do all registrations |
| `MappingDiscipline.CarefulRunIsExact` | kaffe/kaffevm/classPool.c:312-336 | asking, besides, for an entry one loads oneself only while nobody is registered on it makes every withdrawal exact |
| `MappingDiscipline.CarefulRunsNeverCircle` | kaffe/kaffevm/classPool.c:312-336 | in every such run no threads wait for each other in a circle |
| `MappingLife.DoneForever` | kaffe/kaffevm/classPool.c:277-492 | over every run DONE is never left and its word never changes |
| `MappingLife.SameClassForAll` | kaffe/kaffevm/classPool.c:277-462 | over every run, all callers given a class through one entry are given the same one |
| `MappingLife.HandedWhatWasReported` | kaffe/kaffevm/classPool.c:424-462 | when states are forced only where they suit, the class given out for an entry is the one last reported for it while it was searched for or loaded |
| `MappingLife.PreparedReportIsHandedOut` | kaffe/kaffevm/classPool.c:424-462 | once a prepared class is so reported, everybody who asks for the entry is given it, over every run |
| `MappingLife.UnpreparedReport` | kaffe/kaffevm/classPool.c:424-462 | a class reported before it is prepared is given to nobody until a state is forced |
| `MappingLife.LinkedIsHandedOut` | kaffe/kaffevm/classPool.c:464-492 | forcing a loaded entry to be done makes its class available to all who ask |
| `MappingLife.ResetReopens` | kaffe/kaffevm/classPool.c:464-492 | whoever first tries to load an entry after a reset becomes responsible for it |
| `MappingLife.PassesIff` | kaffe/kaffevm/classPool.c:277-422 | who asks for an entry gets past it if and only if it is done, or records the asker who was not loading it already |
| `MappingLife.OneSearcher` | kaffe/kaffevm/classPool.c:277-355 | while one thread searches for an entry, all others that search for it go to sleep, over every run |
| `MappingLife.TypedStepIff` | kaffe/kaffevm/classPool.c:464-492 | a step keeps every union matching its state if and only if it does not force an unsuitable state |
| `MappingLife.UnionMatchesState` | kaffe/kaffevm/classPool.c:277-492 | when states are forced only where they suit, searching and loading entries hold threads, loaded and done ones classes, and only classes are handed out |
| `MappingLife.ForcedLoadingMistypes` | kaffe/kaffevm/classMethod.c:201-203 | forcing LOADING on a loaded entry breaks that match |
| `MappingLife.LoadingIsExclusive` | kaffe/kaffevm/classPool.c:357-422 | until a load is reported or the entry reset, no second thread becomes responsible for it |
| `MappingLife.OneLoader` | kaffe/kaffevm/classPool.c:277-422 | over every run, of all threads that try to load an entry exactly one becomes responsible until the load is reported or the entry reset, and it is the one recorded |
| `MappingWakeups.NoWakeupIsLost` | kaffe/kaffevm/classPool.c:277-492 | over every run, no thread is left asleep without a broadcast since it fell asleep on an entry that is EMPTY or DONE |
| `MappingFaults.TrapIsReached` | kaffe/kaffevm/classPool.c:225-250 | a run from the start reaches the state in which a refused registration is still listed and a third thread walks |
| `MappingFaults.RefusedRegistrationTraps` | kaffe/kaffevm/classPool.c:225-250 | from there on, whatever any thread does, that walk never ends and the refused thread never withdraws |
| `MappingFaults.LostRegistrationDeadlocks` | kaffe/kaffevm/classPool.c:312-336 | a run with never more than one registration listed ends with two threads waiting for each other |
| `MappingFaults.StaleRunLeads` | kaffe/kaffevm/classPool.c:252-275 | a run from the start after which a woken thread is still registered |
| `MappingFaults.StaleRegistrationRefuses` | kaffe/kaffevm/classPool.c:225-250 | there another thread is refused although the thread it asks for waits for nothing |
| `NameDependency.DependencyList.FindNameDependency` | kaffe/kaffevm/classPool.c:209-222 | following the links gives the node of the thread's first registration, or null |
| `NameDependency.DependencyList.AddNameDependency` | kaffe/kaffevm/classPool.c:224-250 | the node is linked in front; on every list on which the walk ends, the call refuses if and only if the owner of the mapping leads over registered threads to the caller |
| `NameDependency.DependencyList.RemNameDependency` | kaffe/kaffevm/classPool.c:252-275 | the link that led to the first registration on the mapping leads past it, the list stays well formed, and no other registration is lost |
| `NameDependency.WalkDecides` | kaffe/kaffevm/classPool.c:236-248 | where the walk ends, its verdict is reachability from the owner |
| `NameDependency.WalkEndsIff` | kaffe/kaffevm/classPool.c:236-248 | for every list, the walk ends if and only if the owner of the mapping does not lead into a circle of registered threads |
| `RetryLoops.StepRefines` | config/katomic.h:180-315 | each step of a retry loop is the step in which its operation takes effect, or invisible |
| `HashedLocks.LockIndex` | config/sparc/atomic-sparc32.h:31-51 | every address has one of the 64 locks |
| `HashedLocks.AddressesShareALock` | config/sparc/atomic-sparc32.h:31-51 | distinct words do share locks |
| `HashedLocks.LocksInOrder` | config/sparc/atomic-sparc32.h:31-51 | the first 64 words have lock bytes 0 to 63 in order, and so have the first 64 pages |
| `HashedLocks.StepKeepsExclusion` | config/sparc/atomic-sparc32.h:31-51 | a lock byte is set exactly while one thread is between locking and unlocking it |
| `HashedLocks.StepKeepsFresh` | config/sparc/atomic-sparc32.h:53-77 | a value read under the lock is still in memory when the conditional write comes |
| `HashedLocks.StepRefines` | config/sparc/atomic-sparc32.h:53-77 | with any assignment of locks to addresses, the comparing step is one compare-and-exchange and all lock steps are invisible |
| `AtomicRuns.RunRefines` | config/sparc/common.h:21-32 | every interleaving of spinning, reading, writing, unlocking and retrying is a run of one-step operations with the same calls and returns in the same order |
| `AtomicRuns.Linearizable` | config/sparc/common.h:21-32 | from rest to rest, the answers of all callers are those of some one-after-the-other execution that also explains the memory; at every point of the run a front part of it holds what has returned and otherwise only calls still open, so what returned before a call comes before it |
| `AtomicResults.AdditionsAreConserved` | config/katomic.h:201-217 | any interleaving of additions leaves the word plus everything added, modulo its width |
| `AtomicResults.AdditionsAreChained` | config/katomic.h:201-217 | what one addition found plus its own value is what the next found, from the value before to the one left |
| `AtomicResults.IncrementsReturnDistinctValues` | config/katomic.h:201-217 | concurrent increments return each value from the first one on exactly once, up to wrap-around |
| `AtomicResults.DecrementsGrantWhatIsThere` | config/katomic.h:259-277 | of any number of decrements exactly as many succeed as the word allowed |
| `AtomicResults.DecrementsCountDown` | config/katomic.h:259-277 | the successful ones return each value from the first down to the one left once, the others what is left |
| `AtomicResults.NeverBelowZero` | config/katomic.h:259-277 | at no point of any run is the word below zero |
| `AtomicResults.ExchangesLoseNothing` | config/katomic.h:179-194 | the values put in, with the one there before, are the values returned, with the one left |
| `AtomicResults.OneClaimWins` | config/sparc/atomic-sparc32.h:53-77 | of any number of compare-and-exchanges of one value for others, exactly one succeeds if the word holds it; the word ends as that call's value, which all others report to have found. Otherwise none succeeds and the word stays |
| `AtomicResults.SuccessesAreChained` | config/sparc/atomic-sparc32.h:53-77 | of any compare-and-exchanges, the values successful ones put in, with the one before, are those successful ones found, with the one left |
| `AtomicResults.OneTestAndSetWins` | config/katomic.h:300-315 | of any number of test-and-sets of any bits of a word, exactly one of those of a clear bit finds it clear, and none of those of a set bit; all others return the bit, and in the end the bits are set that were set or called for |
| `Semaphore.CreateIff` | replace/semaphores.c:45-72 | counts above 32767 and shared semaphores are refused, any other count is stored |
| `Semaphore.CountIsExact` | replace/semaphores.c:74-134 | over every run, whenever the mutex is free, the value is the initial one plus the posts that have returned less the waits and trywaits that have returned with a unit |
| `Semaphore.StaysInRange` | replace/semaphores.c:74-134 | from a count that is not negative the value stays within 0 and 32767 |
| `Semaphore.CallsEndAsTheyShould` | replace/semaphores.c:74-134 | a thread back from all its calls has taken a unit with every wait, has taken one or failed with every trywait, and has put one in with every post |
| `Semaphore.RefusedOnlyWhenEmpty` | replace/semaphores.c:98-134 | a trywait fails, and a wait goes to sleep, only when the value is zero |
| `Semaphore.RangeIffNotNegative` | replace/semaphores.c:45-72 | the range holds over all runs if and only if the initial value is not negative |
| `Semaphore.NoWakeupIsLost` | replace/semaphores.c:74-113 | while a waiter sleeps unsignalled, units to take never outnumber the signalled waiters on their way |
| `Semaphore.LeaksIffPostAtMax` | replace/semaphores.c:74-96 | a call ends without the mutex given back if and only if it is a post at the maximum; then nothing moves again |
| `Semaphore.PostAtMaxIsReachable` | replace/semaphores.c:74-96 | such a post can come about |
| `ClassPool.StepGrows` | kaffe/kaffevm/classPool.c:44-119 | chains only ever grow at their end |
| `ClassPool.OneEntryPerClass` | kaffe/kaffevm/classPool.c:44-119 | however lookups interleave, there is one entry per name and loader, in its chain, and all callers get it |
| `ClassPool.EveryCallIsAnswered` | kaffe/kaffevm/classPool.c:62-119 | over every run, a thread back from its lookup has been given an entry for the name and loader it asked for |
| `ClassPool.OnlyWhatWasAsked` | kaffe/kaffevm/classPool.c:62-119 | entries and answers are only for names and loaders somebody asked for |
| `ClassPool.EntriesAreDistinct` | kaffe/kaffevm/classPool.c:83-92 | entries for different names or loaders are different objects |
| `ClassPool.LockIsGivenBack` | kaffe/kaffevm/classPool.c:91-118 | nobody is back from a lookup with the lock |
| `ClassPool.FoundWithoutLock` | kaffe/kaffevm/classPool.c:44-81 | looking up an entry that is there allocates nothing and takes no lock |
| `ClassPool.OneReferencePerEntry` | kaffe/kaffevm/classPool.c:79-118 | whenever the pool is unlocked it holds one reference per entry |
| `LinkedChain.Chain.Unlink` | kaffe/kaffevm/classPool.c:161-178 | storing a node's successor in the link that led to it, be that the head or a next pointer, leaves a well-formed chain without that node and with all others in order |
| `LinkedChain.Chain.Append` | kaffe/kaffevm/classPool.c:93-105 | storing a node in the link at the end leaves a well-formed chain with it behind the others |
| `EntryTable.Follow` | kaffe/kaffevm/classPool.c:93-102 | following the links finds the first entry for a name and loader, or the end, with the link that leads there |
| `EntryTable.Table.LookupInternal` | kaffe/kaffevm/classPool.c:44-60 | finds the entry of a name and loader if the table has one anywhere |
| `EntryTable.Table.Insert` | kaffe/kaffevm/classPool.c:88-118 | an entry is linked in at the end of its chain and its name referenced, unless one for its name and loader is there |
| `EntryTable.Table.Lookup` | kaffe/kaffevm/classPool.c:62-119 | returns the entry there, or links a new one in at the end of its chain, and keeps one reference per entry |
| `EntryTable.Purge` | kaffe/kaffevm/classPool.c:152-181 | unlinking through the link that leads to each entry leaves a chain of the other loaders' entries in order; the removed are counted and their references released |
| `EntryTable.Table.PurgeChain` | kaffe/kaffevm/classPool.c:151-181 | one chain of the table is purged; the other chains stay as they are |
| `EntryTable.Table.RemoveClassEntries` | kaffe/kaffevm/classPool.c:142-185 | every chain keeps exactly the other loaders' entries in order, and the number removed is returned |
| `EntryTable.RemovalIsExact` | kaffe/kaffevm/classPool.c:142-185 | nothing of the loader is left, everything else is, and a second removal finds nothing |
| `ConstantPool.PackRoundTrip` | kaffe/kaffevm/constants.h:60-82 | the accessor macros recover both halves of a packed slot, also in slots filled with the sign |
| `ConstantPool.PackIsSigned` | kaffe/kaffevm/constants.c:143-152 | the slot holds the halves as one signed 32-bit number, extended to the width of a slot |
| `ConstantReader.Reader.ReadEntry` | kaffe/kaffevm/constants.c:85-219 | one turn of the first loop, on the arrays, reads the constant the specification reads, fails where it fails, or comes to a write past the arrays |
| `ConstantReader.Reader.FillSlots` | kaffe/kaffevm/constants.c:85-221 | the first loop fills the arrays as specified, stops with the slots filled so far, or comes to a write past the arrays |
| `ConstantReader.Reader.ReleaseSlots` | kaffe/kaffevm/constants.c:212-219 | the failure path sets the size to zero and releases the slots read |
| `ConstantReader.Reader.PointAtNames` | kaffe/kaffevm/constants.c:226-248 | the second loop rewrites the slots in place as specified |
| `ConstantReader.Reader.ReadConstantPool` | kaffe/kaffevm/constants.c:50-250 | on any input the read ends as specified: untouched without a count, size zero and references returned on failure, both arrays, cursor and references on success; it succeeds exactly on serialisations and comes to a write past its arrays exactly on the inputs of `OutOfBoundsIff` |
| `ConstantRefs.ReferencesBalance` | kaffe/kaffevm/constants.c:101-248 | of every string a failed read gives back what it took; a successful one holds one reference per slot that points to it |
| `ConstantCodec.FirstPassFills` | kaffe/kaffevm/constants.c:85-221 | over a serialisation the first pass consumes exactly its bytes and fills exactly its slots |
| `ConstantInputs.FirstPassDecodes` | kaffe/kaffevm/constants.c:85-221 | whatever the bytes, a first pass that fills its arrays has gone over serialised constants that take all slots, and one that runs past them over constants of which a wide one starts in the last slot |
| `ConstantInputs.OutOfBoundsIff` | kaffe/kaffevm/constants.c:162-205 | over all byte strings, the reader runs past its arrays if and only if no slot is declared or serialised constants follow of which a long or double starts in the last declared slot |
| `ConstantInputs.LongInLastSlot` | kaffe/kaffevm/constants.c:162-177 | such an input: two slots declared, a long in the second |
| `ConstantInputs.AcceptsIff` | kaffe/kaffevm/constants.c:50-250 | over all byte strings, the reader succeeds if and only if they begin with a serialised pool of the declared count |
| `ConstantCodec.RoundTrip` | kaffe/kaffevm/constants.c:50-250 | reading a serialised pool succeeds, consumes exactly its bytes, and the slots decode through the macros to the constants written, class and string slots pointing at their names before or behind them |
| `Mangling.FprintfJni` | kaffe/kaffeh/support.c:306-339 | the loop prints the escape of the text up to the first closing parenthesis |
| `Mangling.EscapeTable` | kaffe/kaffeh/support.c:306-339 | the five escapes, and nothing else is escaped |
| `Mangling.EscapeConcat` | kaffe/kaffeh/support.c:306-339 | a text is printed part by part |
| `Mangling.UnescapeEscape` | kaffe/kaffeh/support.c:306-339 | reading a printed text back gives the text with slashes that look like escapes replaced |
| `Mangling.EscapedAlikeIff` | kaffe/kaffeh/support.c:306-339 | two texts are printed alike if and only if those replacements make them equal |
| `Mangling.PlainIsNormal` | kaffe/kaffeh/support.c:306-339 | without a slash followed by a digit there is nothing to replace |
| `Mangling.NameEndsAtSeparator` | kaffe/kaffeh/support.c:634-645 | the double underscore cannot be mistaken for part of a name: equal symbols have equal names and equal arguments |
| `Descriptors.TranslateSig` | kaffe/kaffeh/sigs.c:25-145 | the walk over the text gives the C type, end and word count of the specification, or aborts or runs off where it does |
| `Descriptors.TranslateArraySig` | kaffe/kaffeh/sigs.c:52-97 | the same for what follows a bracket |
| `Descriptors.Tables` | kaffe/kaffeh/sigs.c:52-125 | the letters, C types and word counts of the walk are those of the base types |
| `Descriptors.FlatAt` | kaffe/kaffeh/sigs.c:34-51 | in class names slashes and dollar signs become underscores, in place |
| `Descriptors.ConsumesOneType` | kaffe/kaffeh/sigs.c:25-145 | on a text that begins with a field type exactly that type is consumed, with its C type, and longs and doubles counted twice |
| `Descriptors.AcceptsIff` | kaffe/kaffeh/sigs.c:25-145 | a text begins with a field type if and only if it is accepted, is not void, and is not a nested array of an unknown element |
| `Descriptors.TranslatesIff` | kaffe/kaffeh/sigs.c:25-145 | a call gets through if and only if the text begins with a field type, is void, or is a nested array of an unknown element |
| `Descriptors.WalkArgs` | kaffe/kaffeh/support.c:655-669 | the argument loop ends where, and with the count and types, the specification says |
| `Descriptors.MethodDescriptor` | kaffe/kaffeh/support.c:655-669 | for every method descriptor the loop takes one turn per parameter, stops at the parenthesis and counts one more than the parameters' words |
| `NativeMethods.BuildIsOrderly` | kaffe/kaffeh/support.c:551-597 | after any sequence of insertions each native method is held once, equal names stand together, and exactly the overloaded ones are marked |
| `NativeMethods.InsertPlace` | kaffe/kaffeh/support.c:563-594 | an insertion leaves the others in their order, with the new method right behind the first of its name, or at the end |
| `NativeMethods.SymbolsClashIff` | kaffe/kaffeh/support.c:634-645 | two methods of a class get the same symbol if and only if names agree and arguments agree up to slashes that look like escapes |
| `NativeMethods.SymbolsDistinct` | kaffe/kaffeh/support.c:634-645 | with distinct names and arguments and no slash before a digit all symbols differ |
| `NativeMethods.SlashDigitClash` | kaffe/kaffeh/support.c:306-339 | without that condition they may not |
| `MethodRing.InsertBehind` | kaffe/kaffeh/support.c:567-581 | relinking four pointers leaves a circular doubly linked list with the node behind the other |
| `MethodRing.InsertAtEnd` | kaffe/kaffeh/support.c:588-594 | relinking before the start leaves one with the node at the end |
| `MethodRing.MethodList.FindNamed` | kaffe/kaffeh/support.c:563-586 | one turn round the ring finds the first method of a name or ends at the start |
| `MethodRing.MethodList.AddMethod` | kaffe/kaffeh/support.c:546-597 | the ring stays well formed and holds what the specified insertion gives |
| `MethodRing.MethodList.PrintAll` | kaffe/kaffeh/support.c:612-684 | each node is visited once, in order, and its prototype printed, up to the first descriptor on which the program aborts or reads past the text |
| `MethodRing.MethodList.FinishMethods` | kaffe/kaffeh/support.c:599-688 | if every descriptor gets through, the prototypes of all methods are printed and the ring is empty; otherwise those before the first that does not are printed |
| `MethodRing.DescriptorsPrintable` | kaffe/kaffeh/support.c:614-669 | every method descriptor, void or not, whose class names hold no closing parenthesis gets through, with one C type per parameter, the C type of its result, and static exactly if flag 8 is set |
| `MethodRing.SymbolText` | kaffe/kaffeh/support.c:634-645 | the symbol is the class, the escaped name and, for an overloaded method, the escaped parameter types |
| `MethodRing.PrintableIff` | kaffe/kaffeh/support.c:614-669 | a method descriptor gets through if and only if a type, void, or a nested array of an unknown element stands behind its first closing parenthesis, be that in a class name |
| `MethodRing.ParenInName` | kaffe/kaffeh/support.c:618-619 | with such a name the search for the end of the arguments stops inside it, and the program can abort |
| `MarshalX86.CountStack` | config/x86_64/sysdepCallMethod.h:65-86 | the first pass counts the arguments beyond six integers and eight floats |
| `MarshalX86.PlacesDiffer` | config/x86_64/sysdepCallMethod.h:65-135 | no two arguments share a register or stack word |
| `MarshalX86.IntegersInOrder` | config/x86_64/sysdepCallMethod.h:65-135 | of arguments that are neither floats nor doubles six are in registers and the rest on the stack, in order |
| `MarshalX86.FloatsInOrder` | config/x86_64/sysdepCallMethod.h:65-135 | of floats and doubles eight are in registers and the rest on the stack, in order |
| `MarshalX86.CallFrame.PutArgument` | config/x86_64/sysdepCallMethod.h:107-133 | one argument is stored where the counters point; a float on the stack changes only half a word |
| `MarshalX86.CallFrame.PutArguments` | config/x86_64/sysdepCallMethod.h:101-135 | section 3.2.3 of the System V AMD64 ABI finds every argument in its place, and as many stack words are written as were counted |
| `MarshalX86.Marshal` | config/x86_64/sysdepCallMethod.h:52-135 | both passes together, into a block of whole pairs of words large enough for them |
| `MarshalPowerPC.CountArguments` | config/powerpc/sysdepCallMethod.h:298-358 | the first pass counts registers and stack words as specified |
| `MarshalPowerPC.InBlock` | config/powerpc/sysdepCallMethod.h:360-384 | every argument lies in the stack or register areas |
| `MarshalPowerPC.NoSharing` | config/powerpc/sysdepCallMethod.h:360-458 | no two arguments share a word |
| `MarshalPowerPC.PairsAligned` | config/powerpc/sysdepCallMethod.h:395-443 | longs start in even registers; longs and doubles on the stack start on eight-byte boundaries |
| `MarshalPowerPC.IntsInOrder` | config/powerpc/sysdepCallMethod.h:298-358 | of ints eight are in registers, the rest in a stack word each |
| `MarshalPowerPC.LongsInOrder` | config/powerpc/sysdepCallMethod.h:298-358 | of longs four are in pairs of registers, the rest in two stack words each |
| `MarshalPowerPC.DoublesInOrder` | config/powerpc/sysdepCallMethod.h:298-358 | of doubles eight are in registers, the rest in two stack words each |
| `MarshalPowerPC.FloatsInOrder` | config/powerpc/sysdepCallMethod.h:298-358 | of floats eight are in registers, the rest in a stack word each |
| `MarshalPowerPC.LongClosesRegisters` | config/powerpc/sysdepCallMethod.h:335-347 | once a long finds no pair of registers, no later integer is in a register |
| `MarshalPowerPC.AreasInOrder` | config/powerpc/sysdepCallMethod.h:373-384 | stack arguments start two words below the block; integer registers, then float registers follow its stack words |
| `MarshalPowerPC.CalleeReads` | config/powerpc/sysdepCallMethod.h:387-458 | the callee gets every argument found in its place, floats in registers rounded back from doubles |
| `MarshalPowerPC.PutFloating` | config/powerpc/sysdepCallMethod.h:395-431 | aligning by the address keeps step with the first pass's aligning by the count, and the argument is stored in its place |
| `MarshalPowerPC.PutIntegral` | config/powerpc/sysdepCallMethod.h:433-456 | the same for integers and longs |
| `MarshalPowerPC.PutArguments` | config/powerpc/sysdepCallMethod.h:387-458 | from an eight-byte boundary the second pass uses exactly the registers and stack words counted, every argument is found in its place, and nothing outside the areas is written |
| `MarshalPowerPC.WritesFitIff` | config/powerpc/sysdepCallMethod.h:360-384 | every word written lies within the block's end if and only if nothing goes to the stack, the areas sum to a multiple of four, or the one word too many is an integer register skipped for a long |
| `MarshalPowerPC.NineIntegersOverrun` | config/powerpc/sysdepCallMethod.h:360-374 | nine integers write a word behind the block |
| `Access.FindSuperMethod` | kaffe/kaffevm/access.c:186-204 | the nested loops end, with the superclass if and only if some class above declares the slot |
| `Access.WalkForMethod` | kaffe/kaffevm/access.c:215-241 | the walk ends and succeeds if and only if one of the classes it should visit is open to the caller |
| `Access.CheckMethodAccess` | kaffe/kaffevm/access.c:206-246 | the check ends after one call of itself at most and equals the closed form |
| `Access.FindSuperField` | kaffe/kaffevm/access.c:248-258 | from a class the field walk tries it goes to the next class to try, and where it does not go on there is none above |
| `Access.WalkForField` | kaffe/kaffevm/access.c:269-284 | the same walk for fields |
| `Access.CheckFieldAccess` | kaffe/kaffevm/access.c:260-287 | the field check equals its closed form |
| `Access.PrivateFieldIff` | kaffe/kaffevm/access.c:260-287 | a private field is open to its own class alone |
| `Access.PublicFieldIff` | kaffe/kaffevm/access.c:118-179 | a public field is open to those to whom its class is: everyone, or its subclasses and its package |
| `Access.ProtectedFieldIff` | kaffe/kaffevm/access.c:118-179 | a protected field is open to the subclasses of its class and to its package |
| `Access.PackageFieldIff` | kaffe/kaffevm/access.c:118-179 | a field without a flag is open to its package |
| `Access.OwnFieldOpen` | kaffe/kaffevm/access.c:127-134 | a class may use its own fields |
| `Access.SamePackageIff` | kaffe/kaffevm/access.c:149-157 | classes are of one package if and only if their names agree up to where the package ends |
| `Access.MethodIff` | kaffe/kaffevm/access.c:118-246 | the same, flag by flag, for methods outside the vtable |
| `Access.PrivateMethodIff` | kaffe/kaffevm/access.c:206-246 | so is a private method outside the vtable |
| `Access.PublicMethodOpen` | kaffe/kaffevm/access.c:206-246 | a public method of a public class is open through every public class |
| `Access.InheritedPublic` | kaffe/kaffevm/access.h:107-113 | a public method of a class that is not public is open to everyone through a public subclass |
| `Access.InheritedProtected` | kaffe/kaffevm/access.c:206-246 | a protected virtual method is open to the subclasses of any class at or above its own that declares the slot |
| `Access.InheritedByPackage` | kaffe/kaffevm/access.h:86-106 | a virtual method is open to the package of any class at or above its own that declares the slot, though it be overridden in another package |

## Left out

- Deadlock freedom of class loading: threads waiting at classPool.c:310, 342 and 409 are never registered, so only circles of registered threads are excluded.
- Walking and counting the pool (`walkClassEntries`, `walkClassPool`, `statClass`, `statClassPool`): marking and statistics.
- EntryTable.Table: freed entries are simply no longer linked; the 256 heads are objects of their own.
- NameDependency.DependencyList.AddNameDependency: asks for a node that is not linked already. A thread whose registration outlived its wait would link the same node a second time; in `ClassMapping`, where registrations are values, it is listed twice. Tidy runs exclude it.
- Allocation failure, and the implementation of the locks, mutexes and condition variables.
- Barriers and memory order: steps are sequentially consistent. Other processors' atomic operations are not modelled.
- Semaphore: `repsem_getvalue`, `repsem_destroy` and error returns of the mutex calls.
- UTF-8 validity is a predicate of the bytes; interning is a multiset of references.
- The C types `jniType` prints, the layout of the printed text, and fixed-size text buffers: prototypes are records of unbounded texts.
- MethodRing.MethodList.AddMethod: the checks before it, that the class is the outermost and that the indexes name strings, only return early.
- ConstantReader.Reader.ReadConstantPool: stops at a write past the arrays; what the write would damage is not modelled.
- MethodRing.MethodList.FinishMethods: where the program aborts nothing is said of the ring; freed nodes are simply no longer listed.
- MarshalPowerPC.PutArguments: the stack memory around the block is unbounded; which writes stay in the block is `WritesFitIff`.
- Register-loading switches and the calls themselves, the Apple and soft-float branches.
- MarshalX86.CallFrame: stands for three local arrays.
- `checkAccessFlags` and the `instanceof` relation: the first is a list of independent tests, the second is a parameter.
