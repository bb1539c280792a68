# A verified model of the LAI AML interpreter

LAI executes AML, the byte code in which ACPI tables describe a machine (section 20.2 of the ACPI 6.3
specification). This project models the parts of LAI that are hard to get right and proves what they
promise, for all inputs, all schedules or all reachable states.

The project has five groups of modules.

* **The byte machine.** `Machine` gives one call of `lai_exec_process` as a transition function over the
  context, block, execution and operand stacks, for every opcode but VarPackage and BankField.
  `Interpreters` has the same code as an object with four growable stacks that its methods push, pop and
  update in place, proved equal to the transition function method by method, with room for every push.
  `StackInvariant`, `Locality`, `Calls`, `Containment` and `Halting` prove safety, isolation of calls and
  termination for *arbitrary bytes*. `Syntax` and `Evaluator` define a syntax tree, its encoding into bytes
  and a recursive big-step meaning that knows nothing of stacks. `Decoding`, `Simulation`, `Adequacy` and
  `Programs` prove that running the bytes is evaluating the tree. `OperatorMeaning` and
  `OperatorRefinement` say what the integer operators compute and what a store changes. `Examples` carries
  two methods from their bytes to their results.
* **Fields.** `Fields`, `FieldList` and `BufferFields`: bit ranges in operation regions and buffers.
* **The namespace.** `HashTables`, `Children`, `Namespace`, `Resolution`, `Paths`, `MethodList`: children
  tables, name resolution, paths, and the list of names a method has created.
* **Protocols.** `Mutexes` and `Events`: the compare-and-swap loops under every interleaving.
* **Values.** `Memory` (reference counts, deep copies and stores), `Numbers` (printing and reading
  integers), `Resources` (resource templates), `Stacks` (growable stacks).

`Bits`, `Outcomes`, `Names`, `Opcodes` and `Operators` are shared. Outcomes are explicit: a value, an API
error, a panic, a failed internal assertion, or a step that C leaves undefined.

In the byte machine integers, handles and the zeroed variable are computed. Of strings, buffers, packages,
unresolved names and references it knows the form and the size. What an operator makes of their contents,
what a field or the clock reads, and what the host does is not computed but taken from a list of *replies*,
one for each such step: a reply is a fault, or a result together with new values for the variables of the
calls in progress and for `Name()` objects, since references reach both. All results about the machine hold
for all lists of replies, so they hold for what the code computes. The contents themselves are the subject
of `Memory`, `Numbers`, `Fields`, `BufferFields` and `Resources`.

## What the proofs found

Where a property does not hold for the code as it is, the model keeps the code, and the lemmas give an input
and the exact condition under which the property holds.

* A locker that has seen the contended mutex value never loads the value again: it can get the mutex before
  its deadline exactly if it has not (`Mutexes.AcquiresUnlessStale`), and the mutex may be free meanwhile
  (`Mutexes.FreeMutexWithStaleLocker`).
* A waiter that has seen the waiters bit never completes before its deadline; with tokens to take, it can
  exactly if it has not (`Events.CompletesUnlessStale`, `Events.StaleWaiterWithToken`). Since the host is
  told to expect the constant of the mutex, waiters never sleep unless there are exactly three tokens
  (`Events.SleepsOnlyAtThreeTokens`, `Events.ParkedWithTokens`).
* Storing over a Name that holds a package loses a reference for every element of the source that points at
  something, so that it is never freed, and none if and only if there is no such element
  (`Memory.Heap.StorePackage`, `Memory.LosesString`). All other operations keep the counts equal to the
  number of slots (`Memory.Replay`).
* Falling off the end of a method panics exactly when some caller holds operands
  (`Adequacy.ImplicitReturnVerdict`).
* Names created in the bodies of Scope, Device and the like inside a method outlive the call; all others do
  not (`Calls.CallIsTransparent`, `Containment.CallRestoresNames`, `Examples.LeakingMethod`).
* `lai_read_buffer` is right for all buffers exactly at byte offsets
  (`BufferFields.ReadIsRightExactlyAtBytes`).
* A field access is undefined exactly when a whole 64-bit access unit lies inside the field
  (`Fields.ReadFieldInternal`, `Fields.WriteFieldInternal`).
* Reserving operand slots guarantees one free slot and no more (`Stacks.ReserveManySufficesExactly`).
* `lai_resolve_path` pads a short name segment at the end of the path, but reads a following dot as part
  of it (`Paths.PaddedExactlyWhen`).
* The interrupt lines 8 to 15 of a small IRQ descriptor are never reported
  (`Resources.SmallIrqsExactlyWhen`), those of a large one are read from the wrong place from number 63 on
  (`Resources.LargeIrqExactlyWhen`), and a fixed memory range of 2 GiB or more gets a wrong length
  (`Resources.MemoryRange`).
* Signed formats look at the low 32 bits only, also where a store to Debug prints a 64-bit integer
  (`Numbers.SignedIsRightExactly`).

## Model

| member | source | states |
|---|---|---|
| `Simulation.MachineRefinesEvaluator` | core/exec.c:1314-1337 | Running the encoded bytes of any program of the syntax, whatever the replies, reaches the value, the namespace or the fault the evaluator gives at any fuel; without a verdict at fuel n the machine makes at least n steps |
| `Simulation.MethodSim` | core/exec.c:1415-1452 | The same for a call in the middle of a run: the caller gets the value on its operand stack and its other stacks back |
| `Simulation.ExprSim` | core/exec.c:1918-2095 | Parsing and processing an encoded expression leaves its value, the updated variables and the position after it |
| `Simulation.ApplySim` | core/exec.c:1551-1578 | An operator item collects its operands from left to right, reduces them and leaves one result if one is wanted |
| `Simulation.CallSim` | core/exec.c:1579-1652 | A method invocation collects its arguments, runs the method and resumes after them |
| `Simulation.StmtsSim` | core/exec.c:1918-2481 | A statement list runs to its end, or a Break, Continue or Return unwinds exactly as the evaluator's control flow says |
| `Simulation.IfSim` | core/exec.c:1754-1790 | If/Else, with its two nested packages, runs the branch the predicate selects and continues after both |
| `Simulation.LoopSim` | core/exec.c:1722-1753 | While re-evaluates its predicate after every iteration and ends on zero, Break or Return |
| `Adequacy.HaltsIffDecided` | core/exec.c:1314-1337 | For a program that the evaluator never misreads at any fuel, the machine halts if and only if the evaluator reaches a verdict at some fuel |
| `Adequacy.VerdictIsTheResult` | core/exec.c:3709-3720 | Whenever the machine halts, its final state is the one of the evaluator's verdict |
| `Adequacy.VerdictIsUnique` | core/exec.c:1314-1337 | Two fuels with a verdict give the same verdict |
| `Adequacy.ImplicitReturnVerdict` | core/exec.c:1415-1452 | Falling off the end of a method panics if and only if a caller holds operands; otherwise zero is returned |
| `Adequacy.CallIgnoresPending` | core/exec.c:1415-1452 | If every method ends in Return on all paths, calls do not depend on what the callers hold |
| `Programs.ScopedHaltsIffDecided` | core/exec.c:1996-2095 | The same from a condition checked before the run: every call resolves to a method of the program with as many parameters, every other name to an object that is an integer, a handle or empty, and no name that the program declares occurs in another name |
| `Programs.EvaluateProgram` | core/exec.c:3658-3720 | The interpreter object, run on the bytes of such a program, declarations included, returns the evaluator's value, leaves its namespace and nothing on the stacks, or stops with its fault |
| `Programs.EvaluateAnything` | core/exec.c:3658-3726 | On any bytes that halt, the interpreter object returns an object, an error code, panics or runs into undefined behaviour; no internal assertion fails, those about the capacity of its stacks included; only a VarPackage or a BankField ends without an outcome |
| `Programs.SameResolution` | core/ns.c:281-349 | Neither stores nor declarations change what a name resolves to in which no declared segment occurs |
| `Interpreters.Interpreter.Step` | core/exec.c:1378-1790 | One call of lai_exec_process on the growable stacks does what the transition function says, faults included, for all items but VarPackage and BankField; every push has found the room that the code asserts |
| `Interpreters.Interpreter.ParseFieldList` | core/exec.c:2847-2977 | The loop over the FieldList of Field and IndexField installs its nodes in place and moves the pc |
| `Interpreters.Interpreter.ParseText` | core/exec.c:2243-2266 | The loop that looks for the end of a string, and what it does at the end of the block |
| `Interpreters.Interpreter.Return` | core/exec.c:1653-1721 | The loop that pops conditions and loops down to the method, hands over the value and cleans up |
| `Interpreters.Interpreter.Break` | core/exec.c:2416-2445 | The loop that pops conditions up to and including the innermost While |
| `Interpreters.Interpreter.Continue` | core/exec.c:2387-2415 | The loop that pops conditions down to the innermost While and moves to its end |
| `Interpreters.Interpreter.Execute` | core/exec.c:1314-1337 | The loop of lai_exec_run ends in the state of the iterated transition function |
| `Interpreters.Interpreter.Evaluate` | core/exec.c:3658-3736 | lai_eval_args, started at rest: the object of a Name() without arguments, the one result of a method, a type mismatch for anything else, a panic for an alias; after an error code the interpreter is at rest again |
| `Decoding.ReadEncodedLength` | core/exec.c:1339-1369 | lai_parse_varint reads back every encodable package length, in all four forms |
| `Decoding.ParseEncodedConstant` | core/exec.c:2111-2205 | Encoded integer constants of every width are parsed to their value |
| `Names.ParseEncodedName` | core/ns.c:153-204 | Parsing inverts encoding for every legal name wherever it stands in the code |
| `Resolution.Parse` | core/ns.c:153-204 | The loops over carets and segments compute the parsed name |
| `OperatorRefinement.ReductionMeaning` | core/exec.c:206-729 | For the operators on integers and the two stores, lai_exec_reduce_op computes the operator's result and stores one value per target, last target last |
| `OperatorMeaning.StoreChangesOnly` | core/exec-operand.c:201-368 | A store that succeeds is read back at its target, leaves every other variable and node, the tree and the per-method list as they were, and never turns an integer object into anything else, except by CopyObject |
| `OperatorMeaning.SameTreeResolves` | core/ns.c:281-401 | So no store changes what any name, old or to be created, denotes in any context |
| `OperatorMeaning.BitwiseMeaning` | core/exec.c:528-582 | And, Or, Xor, Nand and Nor act on every bit by their truth tables |
| `OperatorMeaning.ShiftMeaning` | core/exec.c:583-604 | Shifts move bits and fill with zeros below 64 and are undefined from 64 on |
| `OperatorMeaning.FindSetLeftMeaning` | core/exec.c:253-267 | The right-shift loop finds the highest set bit |
| `OperatorMeaning.FindSetRightMeaning` | core/exec.c:268-282 | The left-shift loop finds the lowest set bit |
| `StackInvariant.StepSafe` | core/exec.c:1378-1790 | For arbitrary bytes and arbitrary replies one step keeps the stack invariant: block and context stacks match the items that own them, frames are ordered, pending operands stay within the arity and are objects wherever the code asserts it, a package under construction is an operand of its item; no internal assertion fails |
| `StackInvariant.EvaluationIsSafe` | core/exec.c:3709-3714 | lai_eval_args on arbitrary bytes never fails an internal assertion, and when it ends exactly one operand is left and the other stacks are empty; only VarPackage and BankField are left out, and then the run has met one |
| `StackInvariant.PopulateIsSafe` | core/exec.c:3626-3655 | lai_populate on arbitrary bytes likewise, with no operand left |
| `StackInvariant.PendingWithinArity` | core/exec.c:1453-1652 | In every reachable state, the operands from the frame of a pending item up to the next frame above it are at most as many as the arity of the item: one for a buffer, a condition or a loop, two for a package, all of its table entry for an operator or a node, the callee and its arguments for a call |
| `StackInvariant.PendingIsTagged` | core/exec-operand.c:371-393 | Every operand of every pending item that is parsed as a value is an object, so that the assertions of lai_exec_get_objectref and lai_exec_get_integer hold |
| `Locality.StepLocal` | core/exec.c:1378-1790 | A step of a method on top of any caller is its step alone: it sees nothing below it on any stack, whatever it parses |
| `Locality.RunLocal` | core/exec.c:1314-1337 | So is its whole run, until it returns |
| `Locality.CallerKept` | core/exec.c:1314-1337 | Meanwhile the caller keeps its stacks; only replies, through references, change the values of its variables |
| `Locality.ResultIsObject` | core/exec.c:3709-3720 | What a method leaves on the operand stack is one object: the last assertion of lai_eval_args holds, whatever the bytes |
| `Calls.RunEffect` | core/exec.c:1645-1721 | A run keeps the caller's operands, and the names that no running method owns, until it leaks one |
| `Calls.CallIsTransparent` | core/exec.c:1686-1700 | A call of arbitrary code gives the caller its stacks back plus exactly one wanted result, and restores all children tables if and only if no step of it created a name in the body of a Scope, Device or the like |
| `Containment.CallRestoresNames` | core/exec.c:1428-1444 | A condition on the bytes of the methods alone, none of them behind the end of a method: no byte is the opcode of something with a body, and what has a length ends within the method. If it holds of the method and of all methods of the namespace, the call restores all children tables |
| `Containment.NothingLeaks` | core/exec.c:2487-2680 | Such code never leaves its method and never creates a name outside of one, at no step of any run |
| `Examples.LeakingMethod` | core/exec.c:76-83 | Twelve bytes that return zero and leave a node under the root behind |
| `Halting.StepShrinks` | core/exec.c:1378-1790 | Without While and calls every step on arbitrary bytes decreases the weight of remaining bytes and items |
| `Halting.MethodStops` | core/exec.c:3658-3720 | A method of n bytes stops within 3n + 2 steps unless it reaches a While or a call |
| `Halting.TableStops` | core/exec.c:3626-3655 | Loading a table of n bytes likewise |
| `Halting.MethodEnds` | core/exec.c:3658-3726 | Such a method ends within these steps, with one result and empty stacks, or with an error, a panic or undefined behaviour |
| `Fields.BufferPutAt` | core/opregion.c:18-30 | ORs exactly the given bits into exactly the given range |
| `Fields.BufferGetAt` | core/opregion.c:32-46 | Extracts exactly the bits of the range |
| `Fields.ReadFieldInternal` | core/opregion.c:441-468 | The access-unit loop collects the field's bits, for all offsets, sizes and widths, of a Field and of an IndexField; it is undefined exactly when a 64-bit unit lies inside the field |
| `Fields.WriteFieldInternal` | core/opregion.c:470-516 | The access-unit loop writes the source to the field, the update rule to the rest of the touched units and nothing elsewhere, of a Field and of an IndexField; which of the first unit, an unknown rule and a short source decides how it fails |
| `Fields.ReadField` | core/opregion.c:518-540 | A field of up to 64 bits reads as an integer, a longer one as a buffer, with exactly its bits |
| `Fields.WriteField` | core/opregion.c:542-559 | Writing an integer, a buffer or a string sets the field to its low bits; the exact outcome for every size, rule and source |
| `Fields.Region.Fetch` | core/opregion.c:400-420 | Reading a unit through the index and the data register reads the unit, if the index register can hold its offset |
| `Fields.WriteThenRead` | core/opregion.c:518-559 | After a write, under any update rule, a read returns the source's low bits |
| `Fields.WriteAndReadBack` | core/opregion.c:518-559 | Writing and reading back an integer returns it modulo two to the field size |
| `Fields.PreserveKeepsOthers` | core/opregion.c:470-516 | A Preserve write through one field leaves every disjoint field's value, whatever the two access widths |
| `Fields.OverwriteKeepsExactly` | core/opregion.c:470-516 | Under the other rules a disjoint field keeps its value if and only if all of its bits in the touched units already have the value of the filling |
| `FieldList.FieldsAreInstalled` | core/exec.c:2866-2907 | The loop over a FieldList succeeds if and only if the list can be read to its end and every field of it can be installed, and then it has installed exactly these fields in their order |
| `FieldList.NamesAreInstalled` | core/exec.c:2866-2907 | A list of single-segment names is installed if and only if no name occurs twice and none is taken in the scope; then every field is found under its name with its place and its flags |
| `FieldList.LayoutOfEncoded` | core/exec.c:2866-2907 | Reading an encoded list of reserved bits, access changes and named fields gives exactly the declared fields at their offsets with their flags |
| `FieldList.LayoutIsOrdered` | core/exec.c:2866-2907 | Named fields of one list come in order and never overlap |
| `FieldList.FieldsDoNotInterfere` | core/exec.c:2866-2907 | So a Preserve write through one never changes what another reads |
| `BufferFields.WriteBuffer` | core/exec-operand.c:396-421 | Exactly the bits of the buffer field change, to the low bits of the value; the exact condition for a too wide shift |
| `BufferFields.ReadBuffer` | core/exec-operand.c:424-446 | Which bit of the buffer ends up as which bit of the result, the missing shift included |
| `BufferFields.ReadIsRightExactlyAtBytes` | core/exec-operand.c:424-446 | Reading is right for all buffers if and only if the offset is a multiple of eight |
| `BufferFields.WriteAndReadBack` | core/exec-operand.c:396-446 | At byte offsets reading returns what was written |
| `HashTables.ChainIsExact` | core/util-hash.h:101-115 | The chain of a hash visits exactly the live entries with that hash, each once |
| `HashTables.HashTable.Grow` | core/util-hash.h:13-55 | Growing keeps all entries in their slots and rebuilds sound buckets |
| `HashTables.HashTable.Insert` | core/util-hash.h:57-90 | One new entry in a free slot, the others unchanged; the assertions about free slots and buckets cannot fail |
| `HashTables.HashTable.Advance` | core/util-hash.h:101-115 | The cursor moves to the next entry of the chain or to its end |
| `HashTables.HashTable.Remove` | core/util-hash.h:129-140 | Removes the entry under the cursor; the rest of the chain can still be visited |
| `HashTables.ProbesCover` | core/util-hash.h:84-89 | The first m probes of a table of m buckets reach every bucket |
| `Children.ChildTable.GetChild` | core/ns.c:142-151 | Looking up a child through the hash table is looking it up in a finite map |
| `Children.ChildTable.Install` | core/ns.c:80-97 | Installing adds to the map; a duplicate name is refused and changes nothing |
| `Children.ChildTable.Uninstall` | core/ns.c:108-131 | Uninstalling removes from the map; it panics if and only if the node is not a child, never because of a second occurrence |
| `Children.ProbesNeverOverflow` | core/util-hash.h:84-110 | The hashes of all names leave so much room below INT_MAX that no probe overflows in a table of up to 2 to the 25 buckets |
| `Children.UninstallAgrees` | core/ns.c:100-132 | The abstract namespace removes the same name from the same parent and leaves all other nodes' children |
| `Children.GetChildOf` | core/ns.c:142-151 | With one such table per node, looking a child up in the table of its parent is looking it up in the namespace |
| `Children.InstallUnder` | core/ns.c:56-98 | Installing a new node in the table of its parent is installing it in the namespace, refusals included |
| `Children.UninstallFrom` | core/ns.c:100-132 | Removing a node from the table of its parent is removing it from the namespace |
| `Children.OthersImplement` | core/ns.c:56-132 | Neither concerns the tables of the other nodes |
| `Resolution.Resolve` | core/ns.c:281-349 | The pointer walks of lai_do_resolve compute scope search, carets, descent and the final alias |
| `Resolution.ResolveNew` | core/ns.c:351-401 | The walk of lai_do_resolve_new_node computes parent and name, following aliases on the way |
| `Paths.StringifyPath` | core/ns.c:244-279 | The two passes of lai_stringify_node_path print the names from the root to the node |
| `Paths.StringifyName` | core/ns.c:206-242 | lai_stringify_amlname prints the name's text and never overruns its buffer |
| `Paths.FindPath` | core/ns.c:551-610 | The three loops of lai_resolve_path compute the resolution of a text |
| `Paths.PathRoundTrip` | core/ns.c:551-610 | Resolving the printed path of an attached node with legal names returns the node, from every context |
| `Paths.EncodedNameAgreesWithText` | core/ns.c:281-349 | For every legal name without scope search and without an alias before its last segment, resolving the bytes and resolving their text agree |
| `Paths.AliasOnTheWay` | core/ns.c:335-347 | With an alias before the last segment the encoded name denotes nothing |
| `Paths.CreationKeepsConsistent` | core/ns.c:351-401 | Creating a node by name keeps the namespace consistent: in particular no alias ever gets a child |
| `Paths.PaddedExactlyWhen` | core/ns.c:582-606 | A segment before a dot is read as its padded self if and only if it has four characters |
| `MethodList.LinkedList.Link` | core/util-list.h:19-26 | A new item becomes the last one of the ring |
| `MethodList.LinkedList.Unlink` | core/util-list.h:28-35 | The item leaves the ring, the others keep their order |
| `MethodList.Drain` | core/exec.c:1430-1444 | The clean-up loop takes every node once, in the order of creation, and leaves the list empty |
| `Mutexes.MutexIsSafe` | core/exec_impl.h:112-146 | Under every schedule at most one owner, LOCKED exactly when there is one, no assertion fails, and a parked thread has an owner with the contended bit or a pending wake |
| `Mutexes.StaleLockerStarves` | core/exec_impl.h:120-136 | A locker that has seen the contended value stays in the loop until its deadline, whatever the others do |
| `Mutexes.AcquiresUnlessStale` | core/exec_impl.h:112-136 | In every reachable state a thread in lai_mutex_lock has a schedule without its time-out that gives it the mutex if and only if the value it holds is not LOCKED with CONTENDED |
| `Mutexes.LockSucceedsUnlessContended` | core/exec_impl.h:112-136 | So a call of lai_mutex_lock can succeed before its deadline if and only if its first load does not find the mutex contended |
| `Mutexes.FreeMutexWithStaleLocker` | core/exec_impl.h:120-136 | Such a locker exists in a reachable state with a free mutex and no pending wake, and cannot get the mutex |
| `Events.TokensAreConserved` | core/exec_impl.h:154-221 | Under every schedule completed signals are successful waits plus discarded tokens plus the count, and the waiters bit never coexists with a count |
| `Events.StaleWaiterStarves` | core/exec_impl.h:154-177 | A waiter that has seen the waiters bit never completes before its deadline |
| `Events.CompletesUnlessStale` | core/exec_impl.h:154-177 | With a token available or to come, a waiter has a schedule without its time-out that gives it a token if and only if the value it holds is not the waiters bit |
| `Events.WaitSucceedsUnlessWaiters` | core/exec_impl.h:154-177 | So a call of lai_event_wait can succeed before its deadline if and only if its first load does not find the waiters bit |
| `Events.StaleWaiterWithToken` | core/exec_impl.h:154-177 | A reachable state with a token, nobody about to wake anyone, and a stale waiter that cannot take it |
| `Events.SleepsOnlyAtThreeTokens` | core/exec_impl.h:172-173 | The host is told to expect the constant 3: unless the count is exactly three at some time, no schedule ever parks a waiter |
| `Events.ParkedWithTokens` | core/exec_impl.h:172-173 | A reachable state with three tokens, all signals over, and a parked waiter |
| `Memory.Heap.Release` | core/variable.c:18-43 | Dropping a reference keeps every count equal to the number of slots; a head is freed when its count reaches zero, recursively, and this terminates for every graph of packages |
| `Memory.Heap.FreePackage` | core/variable.c:11-16 | Freeing a package finalizes all elements and leaves every other head with its remaining references |
| `Memory.Heap.Move` | core/variable.c:53-59 | The value changes its slot without a change of counts, the old value is released |
| `Memory.Heap.Assign` | core/variable.c:61-80 | The destination shares the source's head with one more reference, the old value is released |
| `Memory.Heap.Clone` | core/object.c:683-733 | The destination is a deep copy that shares no head with the source except through index references, the counts stay right, and it terminates, because no package contains itself |
| `Memory.Heap.StoreClone` | core/exec-operand.c:201-368 | Store and CopyObject put a deep copy into a variable, a Name or an element of a package, and no package gets to contain itself |
| `Memory.Heap.StorePackage` | core/exec-operand.c:160-180 | Storing over a Name that holds a package copies all elements and loses exactly one reference for every element of the source that points at something; so none is lost if and only if no element of the source points at anything |
| `Memory.Heap.Initialise` | core/exec.c:1506-1538 | An initializer of Package is put into its element; the package cannot contain itself |
| `Memory.Heap.Resize` | core/object.c:100-118 | The package gets the new size, elements cut off are released |
| `Memory.Heap.Index` | core/exec.c:714-756 | A reference into an object shares its head |
| `Memory.Replay` | core/variable.c:18-80 | From empty variables, after any sequence of creations, initializations, moves, assignments, clones, index references, stores, resizings and finalizations no package contains itself, and every count is the number of slots plus the references that stores over packages have lost |
| `Memory.LosesString` | core/exec-operand.c:160-180 | A store over a package, after which a string stays in use although all variables are finalized |
| `Numbers.FormatNumber` | core/vsnprintf.c:28-58 | The buffer is filled backwards with the digits in either case, cut at the length cap, then with padding, then with the sign; the smallest int is undefined |
| `Numbers.SignedIsRightExactly` | core/vsnprintf.c:28-58 | A signed 64-bit number is printed right if and only if it is not negative and its bit 31 is clear, or it lies above the smallest int |
| `Numbers.StringsAreComplete` | core/vsnprintf.c:60-190 | The formats used for integers are never truncated: sixteen hexadecimal or all decimal digits |
| `Numbers.MutateInteger` | core/object.c:641-660 | Reads up to sixteen hexadecimal digits of either case and stops at the first other character |
| `Numbers.ToInteger` | core/object.c:510-550 | Reads a decimal or 0x string, modulo 2^64, and refuses any other character |
| `Numbers.MutateRoundTrip` | core/object.c:445-454 | lai_mutate_integer undoes lai_mutate_string for every 64-bit integer |
| `Numbers.DecimalRoundTrip` | core/object.c:336-343 | lai_obj_to_integer undoes lai_obj_to_decimal_string for every 64-bit integer |
| `Resources.ConcatResources` | core/exec.c:807-849 | The copies and the checksum loop compute the concatenation of the two bodies, an end tag and a checksum; one-byte buffers are refused |
| `Resources.ConcatVisitsBoth` | helpers/resource.c:144-201 | Iterating the concatenation of two templates visits the first's descriptors, the second's, then the end tag; the bytes sum to zero |
| `Resources.ResourceView.Next` | helpers/resource.c:144-201 | One call of the iterator, with the fields it sets for each kind of descriptor |
| `Resources.ResourceView.NextIrq` | helpers/resource.c:276-309 | The next interrupt of a small or large descriptor, with the narrow mask and offset of the code |
| `Resources.SmallIrqsExactlyWhen` | helpers/resource.c:284-295 | All interrupts of a small descriptor are reported if and only if none is above line 7 |
| `Resources.LargeIrqExactlyWhen` | helpers/resource.c:296-306 | Interrupt k of a large descriptor is read from its place in all descriptors if and only if it is among the first 63 |
| `Resources.MemoryRange` | helpers/resource.c:187-193 | The base of a fixed memory range is right; the length is, exactly if it is below 2 GiB |
| `Stacks.Stack.Reserve` | core/exec_impl.h:227-244 | After reserving there is room for one item, and the contents are unchanged |
| `Stacks.OperandStack.ReserveMany` | core/exec_impl.h:398-406 | The capacity after reserving n operands |
| `Stacks.ReserveManySufficesExactly` | core/exec_impl.h:398-406 | n pushes are safe after reserving n, however full the stack is, if and only if n is at most one |

## Left out

* VarPackage and BankField. The machine stops there with the outcome `Unmodelled`, and the theorems about
  arbitrary bytes say that a run without an outcome has come to one of the two.
* The contents of strings, buffers, packages and references in the byte machine: they are replies, see above.
  Among these steps are Concat, Mid, Match, the conversions, ToBCD and FromBCD, SizeOf, ObjectType, DerefOf,
  RefOf, CondRefOf, Index, Notify, Sleep, Stall, Fatal, Acquire, Release, Wait, Signal, Reset and Timer.
- Simulation.MachineRefinesEvaluator: the syntax has the integer operators, stores, control flow, calls and Name(); where a name does not mean what the syntax tree says, for instance a variable name that resolves to a method, and where a reply would be needed, the evaluator gives no verdict. `Programs.Scoped` is a static condition that excludes both.
- Adequacy.HaltsIffDecided: assumes that the evaluator never misreads the program; `Programs.ScopedHaltsIffDecided` replaces this by a condition on the program and the namespace.
- OperatorRefinement.ReductionMeaning: not for the operators that take their result from a reply, nor for a store that follows a reference or converts to the type of its target.
- Interpreters.Interpreter.Step: not for the items of VarPackage and BankField.
- Interpreters.Interpreter.Execute: takes a ghost number of steps after which the machine has halted, because a loop that need not end cannot be stated otherwise; `Adequacy.HaltsIffDecided` and `Halting.MethodStops` say when there is one.
- Interpreters.Interpreter.Evaluate: the methods a host installs in place of AML code (`_OSI`, `_OS_`, `_REV`) are not run, neither from here nor by a call in AML code.
- Halting.MethodStops: a While or a call ends the claim; a loop need not end, and a method may call itself.
- Fields.ReadFieldInternal: the data register of an IndexField is as wide as the access, and what it selects is a memory no larger than the index register can address. A BankField writes its bank register first, which is not part of the model.
- Fields.WriteFieldInternal: likewise.
- Fields.Region.Fetch: the index and the data register are not themselves fields with units, flags and neighbours, as the code allows.
- Memory.Heap.Finalize: clears the slot before the recursion and not after it; nothing reads the slot in between.
- Mutexes.MutexIsSafe: only the owner unlocks. Progress is not claimed, since it does not hold.
* Allocation failure: every reservation succeeds. Pointers into a stack that are kept across its growth are
  not modelled.
* C integers used as program counters and sizes are unbounded; values are 64-bit words. A children table with
  more than 2 to the 25 buckets could overflow a probe (`Children.ProbesNeverOverflow`).
* Tracing, logging and all host I/O. An operation region is a byte memory with little-endian accesses; the
  PCI, port and embedded-controller spaces are not part of this model, nor is the evaluation of `_SEG`, `_BBN`
  and `_ADR` by an access to PCI configuration space.
* `ns_array`, the flat list of all nodes, and the iterators over it. A refused duplicate stays in that
  list; in the model it has no effect.
* String literals in formats.
* The deprecated `lai_read_resource`, and the drivers and helpers for timers, power management and PCI.
