# Verified model of the Cairo Native compiler and runtime

Cairo Native compiles Sierra, a linear language whose statements take variables out of a dictionary and put
results back, to blocks with arguments, and runs them against a runtime that keeps values in arenas. This
project models the parts of it where a mistake would be silent, and proves what they promise.
`dafny verify dfyconfig.toml` checks all of it.

- **The compiler** (`VarMaps`, `Sierra`, `Blocks`, `Lowering`, `Structure`, `Emission`, `Resets`,
  `Simulation`, `KeptEntry`, `Recursion`, `Compiler`, `WholeProgram`, `EntryLoop`, `Miscompiled`,
  `LoopExample`, `StraightLine`). Sierra functions are a machine over a dictionary of variables, compiled
  functions a machine over SSA registers; libfuncs are arbitrary meanings. The two passes are the worklist
  algorithms, deferral of returns included, and are proved against a description of the blocks they must make.
  The blocks return exactly what the function answers, with its tail call taken as a real recursion, and so do
  programs of functions that call each other. What the blocks of a function that loops back to its entry return
  is stated too, and for functions without a tail call exactly which of them are compiled right.
- **Marshalling** (`Bytes`, `Layouts`, `Padding`, `Memory`, `Values`, `Scalars`, `Parts`, `Marshal`, `Abi`,
  `Arguments`). Layouts of nested types; a byte heap whose allocator may put things anywhere; the writer, as
  methods that allocate and copy in the source's order; the reader, as a function that follows pointers. What
  is written is read back, and where every part of it lies is stated in plain numbers. Arguments are
  flattened to registers and stack on both architectures and understood again.
- **Arena data structures** (`Arrays`, `Dicts`). Growable arrays with snapshots and boxes into their buffers,
  and felt dictionaries, as classes whose methods refine operations on sequences and maps.
- **Protocols** (`Profile`, `Invocations`, `LockFiles`, `Starknet`). Profiled runs on many threads, nested
  invocations, compilations by many processes, and nested syscalls, with invariants over every run or tree and
  what a profiled run, a compilation and a syscall get done.
- **Smaller algorithms** (`Circuits`, `ByteArrays`, `Modular`, `SquareRoots`, `PrimeField`,
  `FieldArithmetic`). Gate scheduling, printing byte arrays, and multiplication and division without
  conversions; the modulus is proved to be a prime.

## Where the code does not do what one might expect

- A function that loops back to its own entry statement can be compiled wrongly when more variables are live
  there than the statement takes. If several branches lead there, the entry block jumps past the landing block
  and the landing block's arguments, which code after it reads, are not defined there. The generated module
  would be rejected for that; the block machine meets an operand only when it runs, so it shows the same fault
  as blocks that never return (`EntryLoop.NeverReturns`). If one branch leads there, the other variables are
  read from the entry's arguments whenever control comes back (`Simulation.BlocksReturn`). That is wrong for
  some meaning of the libfuncs exactly if some way round takes such a variable and the function can return
  (`Miscompiled.EntryExact`, `LoopExample.LoopMiscompiled`).
- A tail-recursive function gets well-formed returns exactly if it returns several values, none of size zero
  (`Lowering.TailReturnArity`).
- An array whose capacity is 2^31 or more cannot grow: doubling wraps 32 bits, and exactly then the next
  capacity does not hold one more element (`Arrays.NextCapacityGrows`).
- The refund of a squash is the number of accesses less the number of keys only while that is not negative. A
  dictionary that is passed in can have keys that are never accessed, and then less is given back than
  accesses were repeated (`Dicts.RefundExact`, `Dicts.RefundStops`).
- Deploying to an address that is in use fails, but its contract has the class of the failed attempt from then
  on (`Starknet.DeployedAlready`).
- The comment on `from_path` (src/executor/contract.rs:381-385) says that a lock file makes it return nothing.
  The code does not look for one, and neither does the model. The comment on `cairo_native__dict_get`
  (src/runtime.rs:340-345) speaks of a null pointer that is inserted; the code points into the element buffer.

## Model

| member | source | states |
|---|---|---|
| `StructurePass.GenerateFunctionStructure` | src/compiler.rs:1037-1180 | The first pass over a function's statements ends for every input; it succeeds exactly if some assignment of variables to statements is consistent, and then finds the reachable statements, what each one finds, how many branches lead to it, and whether exactly one tail call exists |
| `Sierra.Inconsistent` | src/compiler.rs:1037-1180 | No assignment of variables is consistent where a return leaves a variable or takes one that is not there, an operand is missing or taken twice, a result replaces a variable, or branches that meet bring different variables |
| `Lowering.LandingForTwo` | src/compiler.rs:1213-1250 | Exactly the statements that two different branches lead to get a landing block |
| `EmissionPass.GenerateCode` | src/compiler.rs:437-919 | The second pass ends, deferred returns included; it processes every reachable statement exactly once and emits the block, landing block and edges that the lowering asks for; it gives up only on a tail-recursive function without a return pointer |
| `EmissionPass.SomethingToDo` | src/compiler.rs:1301-1347 | As long as the tail call has not been emitted, some queued statement is not a deferred return, so deferral cannot go on forever |
| `EmissionPass.WaitingRotates` | src/compiler.rs:1338-1343 | Putting a deferred return at the bottom of the stack brings the top nearer to a statement that can be processed |
| `EmissionPass.SiteTest` | src/compiler.rs:553-562 | The test made at emission, that nothing is live after the arguments are taken, finds exactly the tail calls of the first pass |
| `Lowering.TailReturnArity` | src/compiler.rs:741-868 | A tail-recursive return passes as many values to the resumed block as that block takes exactly if the function returns several values, none of size zero |
| `Simulation.Steps` | src/compiler.rs:458-919 | One step of the function over its variables is matched by one to three steps of its blocks, through edges with and without landing blocks, the recursive call and both ways to return; live variables keep their values |
| `Simulation.Simulates` | src/compiler.rs:458-919 | Any number of steps of the function is matched by steps of its blocks |
| `Simulation.BlocksReturn` | src/compiler.rs:437-919 | The blocks return values exactly if the function returns them in the machine in which, on coming back to the entry statement, the variables which that statement does not take fall back to the latest call's arguments |
| `Blocks.CounterWraps` | src/compiler.rs:553-600 | The depth counter of compiled code is a 64-bit word: one call deeper than 2^64 - 1 starts it at zero again |
| `StraightLine.ChainReturns` | src/compiler.rs:458-919 | Libfuncs one after the other, each with one operand and one result: the function hands every one the value and the world that the one before gave, and returns the last, for any number of them |
| `StraightLine.OrderKept` | src/compiler.rs:458-919 | Operands, results and returned values keep their order, and a branch with a target leads there |
| `KeptEntry.KeptRun` | src/compiler.rs:437-455 | If no way round to the entry statement takes a variable which that statement leaves alone, nothing ever falls back, in recursive calls neither |
| `KeptEntry.SameReturns` | src/libfuncs.rs:366-398 | Then the blocks return values exactly if the function, run over its variable dictionary, returns them |
| `Recursion.EvalRuns` | src/libfuncs/function_call.rs:66-110 | Whatever the recursive definition of a function answers, the machine with a stack of callers finds, from any depth |
| `Recursion.RunEvals` | src/libfuncs/function_call.rs:66-110 | A run started at some depth that returns comes back at that depth with what the recursive definition answers |
| `Recursion.ReturnsAnswers` | src/compiler.rs:553-600 | Returning at the end of all recursion and answering by recursion are the same, at every depth |
| `Compiler.NothingStacked` | src/compiler.rs:1105-1110 | Without a tail call no caller is ever stacked |
| `Compiler.CompiledMeansSame` | src/compiler.rs:184-919 | Compiled blocks return exactly what the function answers, its tail call taken as a real recursion |
| `Compiler.CompiledMeansReset` | src/compiler.rs:437-919 | Compiled blocks of a function that loops back to its entry in any way return exactly what the machine with falling back returns |
| `Compiler.CompileFunc` | src/compiler.rs:184-919 | Compiling ends; a compiled function means the same as its source for every meaning of its libfuncs and on all arguments that do not recurse deeper than the counter counts, given that no way round to its entry takes a variable that the entry statement leaves alone and that its tail returns are whole; without the first proviso it means the same as the machine with falling back |
| `Compiler.NonRecursiveCountable` | src/compiler.rs:1105-1110 | A function without a tail call never exceeds the counter |
| `WholeProgram.ProgramPreserved` | src/compiler.rs:129-180 | Calls between functions, nested to any depth, give in the compiled program what they give in the source program |
| `WholeProgram.CallsAnswer` | src/compiler.rs:129-180 | A call gives, by its only branch, exactly the values and the world that the called function's recursion answers, and takes no branch if there is no answer |
| `WholeProgram.CompiledCallsReturn` | src/compiler.rs:129-180 | A compiled call gives exactly the values and the world that the called blocks return |
| `EntryLoop.NeverReturns` | src/compiler.rs:437-455 | When the entry block jumps past a landing block that has something to hand on, what comes after reads operands that nothing defines, and the source's module would be rejected; in the block machine, which only meets them when it runs, such blocks never return, on any arguments and for any meaning |
| `Miscompiled.LostShows` | src/compiler.rs:437-455 | A way round to the entry, outside recursive calls, that takes a variable which the entry statement leaves alone is miscompiled for some meaning, if the function can return |
| `Miscompiled.EntryExact` | src/compiler.rs:437-455 | A function without a tail call is compiled right for every meaning, argument and world if and only if its entry block jumps past nothing that is needed and no way round takes a variable that the entry statement leaves alone, or it cannot return |
| `LoopExample.LoopMiscompiled` | src/compiler.rs:437-455 | A loop of three statements that the compiler accepts and miscompiles, whatever it makes of it |
| `LoopExample.KeptLoopIsKept` | src/compiler.rs:437-455 | A loop with a variable that is live at the entry and not taken there, which meets the condition all the same |
| `Layouts.AlignUp` | src/types.rs:681-798 | Rounding up gives a multiple of the alignment, not below the size and less than one alignment above |
| `Layouts.AlignUpLeast` | src/types.rs:681-798 | Rounding up gives the least such multiple |
| `Layouts.LayoutOf` | src/types.rs:681-798 | Every nested type has a layout whose size is a multiple of its alignment |
| `Layouts.IntegerIsLeast` | src/utils.rs:192-210 | Integers up to 128 bits take the least power of two bytes and are aligned to it, wider ones just enough bytes aligned to 16 |
| `Layouts.ReprIsLeast` | src/utils/range_ext.rs:52-76 | A range is stored in the least number of bits that hold its offsets, and in at least one |
| `Layouts.AllocatedForChoice` | src/types.rs:800-855 | A type is passed through memory exactly if an enum with several variants is laid out somewhere inside it |
| `Layouts.TagBitsEnough` | src/types/enum.rs:208-216 | An enum's tag has enough bits for its variants, and less than twice as many values |
| `Layouts.MembersDisjoint` | src/types.rs:734-744 | Members of a struct are aligned, in bounds and do not overlap |
| `Layouts.StructPacked` | src/types.rs:731-744 | The first member of a struct is at its start, every next one at the first suitable offset after the one before, and size and alignment are the least that hold them |
| `Layouts.PayloadDisjoint` | src/types/enum.rs:208-236 | An enum's payload is aligned, in bounds and does not overlap its tag |
| `Layouts.EnumPacked` | src/types/enum.rs:208-236 | A payload is at the first suitable offset after the tag, and an enum's size and alignment are the least that hold its tag and every payload |
| `Layouts.ZstIsEmpty` | src/types.rs:594-679 | The types said to be of size zero are exactly those with an empty layout |
| `Layouts.CopiesDisjoint` | src/utils.rs:402-414 | Repeated layouts are aligned and do not overlap |
| `Layouts.EntryOffsets` | src/runtime.rs:414-441 | The pointer arithmetic on dictionary entries finds the fields of the tuple, whatever the value type |
| `Padding.AndHighMask` | src/utils.rs:355-377 | Masking off low bits rounds down |
| `Padding.PaddingIsLeast` | src/utils.rs:355-377 | The wrapping formula gives the distance to the next multiple of the alignment, for every length and alignment, also where it overflows |
| `Padding.PaddingMinimal` | src/utils.rs:355-377 | The padded length is aligned and no smaller padding aligns |
| `Padding.PaddingOverflows` | src/utils.rs:355-377 | If rounding up passes the word, the padding still leads to the next multiple, which is 2^64 |
| `Scalars.FeltRoundTrip` | src/values.rs:209-215 | A felt survives being written, masked to 252 bits and reduced |
| `Scalars.SintRoundTrip` | src/values.rs:480-510 | Signed integers survive two's complement |
| `Scalars.BoundedRoundTrip` | src/utils/range_ext.rs:52-76 | A bounded integer is found again from its offset in the range, also when the range begins below zero |
| `Scalars.ScalarThrough` | src/values.rs:149-157 | Snapshots and non-zero wrappers around a scalar, however many, change neither its slot nor its reading |
| `Values.FromPtrStable` | src/values.rs:595-931 | What can be read stays the same value whatever is allocated later |
| `Values.SameLayout` | src/values.rs:149-157 | A snapshot or non-zero type is laid out like the type inside |
| `Values.ReaderReads` | src/values.rs:595-931 | What compiled code can use, arrays with room for their capacity included, the reader reads as the same value |
| `Parts.IntegerRead` | src/values.rs:693-705 | An integer is the little-endian number of its own size in bytes, and a signed one less 2^bits from half of it on |
| `Parts.FeltRead` | src/values.rs:686-692 | A felt is the low 252 bits of 32 bytes, reduced, whatever the other bits are |
| `Parts.BoundedRead` | src/values.rs:868-879 | A bounded integer is the lower end plus the stored bits, in the field |
| `Parts.StructRead` | src/values.rs:759-786 | A struct reads as given values exactly if each of its members does at an address of its own |
| `Parts.EnumRead` | src/values.rs:722-758 | An enum reads as a variant exactly if the tag at its start says so and the payload reads at its offset |
| `Parts.ArrayRead` | src/values.rs:604-655 | An array reads as given elements, at least one, exactly if its header leads to a buffer in which each of them reads at its own address; compiled code also wants room for the capacity |
| `Parts.PointersRead` | src/values.rs:656-718 | Boxes and nullables read as what they point to, and only a nullable may be null |
| `Parts.RangeRead` | src/values.rs:900-926 | A range reads as two bounds exactly if each reads, one after the other |
| `Parts.DictRead` | src/values.rs:787-814 | A dictionary reads as a map exactly if every key's value reads at the key's place in the buffer |
| `Memory.Arena.Alloc` | src/runtime.rs:157-170 | An allocation is aligned, new and disturbs nothing, or there is none and nothing changes |
| `Marshal.ToPtr` | src/values.rs:165-592 | Writing a value for a type succeeds exactly for the values of the type unless memory runs out, disturbs nothing, and leaves the value readable from new memory alone, with every array inside it owning a buffer of at least its capacity |
| `Marshal.BoxToPtr` | src/values.rs:179-205 | A boxed payload is moved to room of its own and found through the slot |
| `Marshal.BoundedToPtr` | src/values.rs:216-263 | Exactly the values whose representative is in the range are written; an empty range, a value outside and another type are told apart |
| `Marshal.ArrayToPtr` | src/values.rs:269-316 | The buffer is allocated first, then each element is written and copied to its place; the header tells the buffer, which is new and has room for the capacity, and begin, end and capacity as zero, the number of elements and again that number |
| `Marshal.StructToPtr` | src/values.rs:317-357 | Members are written first and then copied to their offsets |
| `Marshal.EnumToPtr` | src/values.rs:358-396 | The tag and the payload are where reading looks for them |
| `Marshal.DictToPtr` | src/values.rs:397-449 | Every entry of the map is found under its key, in whatever order the entries were written |
| `Marshal.IntRangeToPtr` | src/values.rs:558-592 | Both bounds of a range are found |
| `Marshal.TagRoundTrip` | src/values.rs:722-758 | The tag found under the mask is the tag written, for every number of variants |
| `Marshal.Mismatch` | src/values.rs:309-316 | Values of another kind than the type belong to no type that resolves to it |
| `Marshal.ReadsBack` | src/values.rs:595-931 | The round trip: a value that was written reads back as itself in every later heap, by the reader and by compiled code |
| `Arrays.NextCapacityGrows` | src/libfuncs/array.rs:325-350 | The next capacity holds one more element exactly if doubling does not wrap 32 bits, and then it is twice the old one but at least 8 |
| `Arrays.AppendedInPlace` | src/libfuncs/array.rs:396-499 | Appending in place gives the old elements and the new one |
| `Arrays.AppendedToCopy` | src/libfuncs/array.rs:430-470 | Appending to a bigger copy gives the old elements and the new one |
| `Arrays.UnseenWrite` | src/libfuncs/array.rs:480-499 | A write past an owner's end changes nothing that a snapshot or box sees |
| `Arrays.DeriveSound` | src/libfuncs/array.rs:597-652 | A snapshot, slice or box made inside another one keeps every variable's meaning |
| `Arrays.Part` | src/libfuncs/array.rs:597-652 | A narrower view stands for the corresponding part of the elements |
| `Arrays.Store.Append` | src/libfuncs/array.rs:302-499 | Append refines sequence append for the owner and changes no other live variable; it stays in its buffer while there is room, and otherwise moves to one of twice the capacity, at least 8 |
| `Arrays.Store.NewArray` | src/libfuncs/array.rs:127-151 | A new array is empty |
| `Arrays.Store.PopFront` | src/libfuncs/array.rs:515-662 | Popping from the front splits the elements, or changes nothing if there are too few |
| `Arrays.Store.PopBack` | src/libfuncs/array.rs:515-662 | Popping from the back of a snapshot splits the elements, or changes nothing |
| `Arrays.Store.Get` | src/libfuncs/array.rs:668-749 | A box of the element at an index, exactly if the index is in bounds |
| `Arrays.Store.Slice` | src/libfuncs/array.rs:752-821 | A slice, exactly if its end is in bounds, for all 32-bit starts and lengths |
| `Arrays.Store.SpanFromTuple` | src/libfuncs/array.rs:162-211 | A span over a box stands for the elements of the box |
| `Arrays.Store.TupleFromSpan` | src/libfuncs/array.rs:214-299 | A box over a span, exactly if the lengths agree |
| `Arrays.Store.Len` | src/libfuncs/array.rs:824-845 | The length is the number of elements |
| `Arrays.Store.Unbox` | src/libfuncs/array.rs:597-652 | What a box holds when it is read is what it held when it was made |
| `Dicts.PlacesAreABijection` | src/runtime.rs:362-368 | Places are a bijection between the keys and the numbers below their count |
| `Dicts.StoredGet` | src/runtime.rs:370-391 | Growing the buffer keeps all stored values |
| `Dicts.FeltDict.constructor` | src/runtime.rs:322-338 | A new dictionary is empty and has no buffer |
| `Dicts.FeltDict.Given` | src/values.rs:397-449 | A dictionary passed in stands for the map it was made from and counts no accesses |
| `Dicts.FeltDict.Get` | src/runtime.rs:350-400 | A key keeps its place or gets the next one; a present key's place holds its value; the access is counted |
| `Dicts.FeltDict.Finalize` | src/libfuncs/felt252_dict_entry.rs:161-194 | Finalizing an entry updates the map at its key and nowhere else |
| `Dicts.FeltDict.Run` | src/libfuncs/felt252_dict_entry.rs:59-149 | Any sequence of reads and writes sees and leaves what a plain map would, and counts its accesses |
| `Dicts.SeesLastWrite` | src/libfuncs/felt252_dict_entry.rs:59-149 | Every access reads what was written to its key last, or the value the map began with, or zero |
| `Dicts.LastWriteStays` | src/libfuncs/felt252_dict_entry.rs:161-194 | Every key is left with what was written to it last, or as it was |
| `Dicts.WrittenKeys` | src/libfuncs/felt252_dict_entry.rs:161-194 | The keys after a run are the keys before it and those it touched |
| `Dicts.FeltDict.IntoEntries` | src/runtime.rs:403-453 | The entries array is the map in increasing order of keys, each value after a zero |
| `Dicts.FeltDict.Squash` | src/runtime.rs:481-537 | Squash refunds the accesses beyond the number of keys, none if there are not more accesses than keys, and takes 2 range checks, those of its keys and one for each such access |
| `Dicts.FirstKeyChecks` | src/runtime.rs:496-531 | The first key takes 3 range checks, or 2 if it does not fit 128 bits |
| `Dicts.SmallKeyChecks` | src/runtime.rs:496-531 | Where all keys fit 128 bits one more takes 3 more range checks |
| `Dicts.BigKeyChecks` | src/runtime.rs:496-531 | Where some key does not fit 128 bits one more key takes 6 more range checks |
| `Dicts.RefundExact` | src/runtime.rs:481-537 | A squash gives back the repeated accesses exactly if all keys the dictionary began with are accessed or none is accessed twice, and fewer otherwise |
| `Dicts.RefundStops` | src/runtime.rs:481-537 | A dictionary of two keys, one of which is accessed twice: nothing is given back |
| `Dicts.MadeAndSquashed` | src/runtime.rs:322-537 | Made from any map, accessed in any way and squashed: the values read, the gas given back and the range checks taken, in terms of the map and the accesses |
| `Profile.StepKeeps` | src/executor/libfunc_profile.rs:128-207 | Every step of every thread keeps the invariant on lock, depths, symbols and slots |
| `Profile.OneInside` | src/executor/libfunc_profile.rs:141-149 | In every interleaving at most one thread is inside, the one with the lock |
| `Profile.NeverWaitsForItself` | src/executor/libfunc_profile.rs:143-148 | A thread that waits for the lock does not have it |
| `Profile.SomebodyCanStep` | src/executor/libfunc_profile.rs:143-148 | No interleaving gets stuck: a waiting thread can go on, or the lock's holder can |
| `Profile.SymbolsFollowTheStack` | src/executor/libfunc_profile.rs:163-189 | Each library's symbol holds the id of its innermost live run, whose slot is there |
| `Profile.EverythingRestored` | src/executor/libfunc_profile.rs:220-246 | Whenever nobody is inside, after success, failure, panic or a missing symbol, symbols and slots are as at the start |
| `Profile.DepthCounts` | src/executor/libfunc_profile.rs:148-149 | A thread's depth is the number of its runs that entered and have not left |
| `Profile.RunBegins` | src/executor/libfunc_profile.rs:141-183 | A run that nobody disturbs takes the lock, the next id and a slot, and points the symbol at its id before the library's code runs |
| `Profile.RunEnds` | src/executor/libfunc_profile.rs:185-246 | When the code has succeeded, failed or panicked, symbol, slots, depth and lock are as before the run; unless it panicked the slot is emptied while the symbol still holds the id |
| `Invocations.Thread.Install` | src/executor.rs:381-398 | Installing a guard replaces the state and keeps all of it |
| `Invocations.Thread.DropGuard` | src/executor.rs:401-421 | Dropping a guard puts the state back, dropping this invocation's maps before its arena goes |
| `Invocations.Thread.Invoke` | src/executor.rs:381-421 | For every tree of nested invocations costs, counter, arena, registry and handler are afterwards as before, and the blake calls reported are those of the invocation's own code |
| `Invocations.TraceBalanced` | src/runtime.rs:322-338 | Every dictionary made in an invocation is made once and its map dropped exactly once; no other map is dropped |
| `Invocations.TraceOrderly` | src/executor.rs:401-421 | An invocation touches only its own, new dictionaries and arenas, and nothing happens in an arena after its release |
| `LockFiles.StepKeeps` | src/executor/contract.rs:773-800 | Every file operation of every process keeps the protocol's invariant |
| `LockFiles.OneHolder` | src/executor/contract.rs:197-201 | At most one process compiles to a path |
| `LockFiles.OnlyItsOwnLock` | src/executor/contract.rs:785-800 | What a process links into, renames or removes is the lock file it created |
| `LockFiles.OthersKeepTheLock` | src/executor/contract.rs:785-800 | A step that takes the lock file away is by its creator |
| `LockFiles.LoadersFindTheJson` | src/executor/contract.rs:353-400 | A visible library is whole and its json exists; a loader never finds the json missing |
| `LockFiles.Publishes` | src/executor/contract.rs:353-378 | A compilation that reaches the rename leaves a whole library beside its whole json, and no lock file |
| `LockFiles.CompilationPublishes` | src/executor/contract.rs:197-378 | Whatever other processes do in between, a process that finds no lock file and meets no error publishes the library |
| `LockFiles.CompilesAndLoads` | src/executor/contract.rs:197-400 | A process that finds no lock file and is not disturbed compiles, publishes and loads the library |
| `LockFiles.Loads` | src/executor/contract.rs:381-400 | A process that finds the library and a whole json loads it |
| `LockFiles.GivesUp` | src/executor/contract.rs:773-800 | A process that finds a lock file changes nothing; one that meets an error removes its lock file and nothing else |
| `Starknet.PerformRestores` | src/starknet_stub.rs:262-328 | After every syscall, at any nesting, contract and caller address are as before and deployed contracts have declared classes |
| `Starknet.PerformSpends` | src/starknet_stub.rs:1049-1079 | Gas never grows; a syscall that reaches contract code costs at least 51000, a deployment 70000; depth times 51000 is at most the gas |
| `Starknet.NestingIsBounded` | src/starknet_stub.rs:268-292 | Contract code is never nested deeper than the gas divided by 51000 |
| `Starknet.StorageReadsBack` | src/starknet_stub.rs:655-701 | What a contract writes is read back by it at that key and nowhere else |
| `Starknet.CalledCodeRuns` | src/starknet_stub.rs:615-653 | A called contract's code starts as that contract, with the calling contract as its caller and what is left after 51000 units of gas; the call's state, gas and result are what it ends with, addresses restored |
| `Starknet.LibraryCodeRuns` | src/starknet_stub.rs:585-613 | A library's code starts in the name of the contract that uses it, with the same caller |
| `Starknet.ConstructorRuns` | src/starknet_stub.rs:495-566 | A constructor starts as the new contract, deployed by then, with the deployer or zero as its caller; its failure is reported |
| `Starknet.PlainDeployment` | src/starknet_stub.rs:553-566 | A class without a constructor is deployed if there is no calldata, and otherwise nothing changes |
| `Starknet.DeployedAlready` | src/starknet_stub.rs:534-543 | Deploying to an address in use fails, but leaves the address with the new class |
| `Starknet.StepsInOrder` | src/starknet_stub.rs:262-300 | Code takes its steps in order, each on what the one before left |
| `Starknet.WhoseStorage` | src/starknet_stub.rs:680-701 | A called contract writes to its own storage and a library to that of the contract that uses it, and neither to any other |
| `Starknet.PlainSyscalls` | src/starknet_stub.rs:435-701 | What the syscalls that run no code answer, change and cost |
| `Starknet.Refusals` | src/starknet_stub.rs:495-653 | Out of gas, an undeclared class, a contract that is not deployed and an unknown entry point are told apart, and no code runs |
| `Starknet.Handler.Handle` | src/starknet_stub.rs:494-701 | The handler does what the specification of each syscall says; the class of a deployed contract is always found, and what is added back to the gas fits 64 bits because more was paid for the syscall |
| `Starknet.Handler.CallEntryPoint` | src/starknet_stub.rs:262-300 | A called entry point does what its specification says: its steps run, and the gas left is what it reports or what it was given |
| `Starknet.Handler.OpenCallerContext` | src/starknet_stub.rs:306-317 | Opening a context replaces the addresses and keeps them |
| `Abi.ScalarRoundTrip` | src/arch/aarch64.rs:21-173 | A scalar is found again in its register or on the stack, sign extension included |
| `Abi.LengthIsEnd` | src/arch/x86_64.rs:17-137 | Where arguments end depends only on the kinds of those before |
| `Abi.AllRoundTrip` | src/arch/x86_64.rs:17-137 | On either architecture every list of scalars is found again by its kinds, whatever follows |
| `Abi.WideNotSplit` | src/arch/x86_64.rs:78-127 | No value of 128 bits or more starts in the last register's slot or unaligned on the stack |
| `Abi.NarrowConvention` | src/arch/aarch64.rs:21-107 | Up to 64 bits: 8 bytes each on x86_64 and in aarch64's registers; on aarch64's stack the scalar's own size, at the next multiple of it; negative numbers in two's complement of what they take |
| `Abi.WideConvention` | src/arch/x86_64.rs:78-127 | From 128 bits on: where the buffer ends below byte 40 or 56, and after that at the next multiple of 16 |
| `Abi.Buffer.Push` | src/arch/aarch64.rs:17-173 | Each kind of scalar is appended in its place |
| `Abi.Buffer.Pad` | src/executor.rs:206-217 | The stack part is made a multiple of 16 bytes with fewer than 16 zeros at the end, so with as few as possible; without a stack part nothing changes |
| `Arguments.ToBytes` | src/arch.rs:57-191 | A composite argument is pushed as scalars and pointers of kinds that its type fixes, enough to understand the value again, exactly for the values that can be passed, unless memory runs out |
| `Arguments.UnderstoodStable` | src/arch.rs:57-191 | Scalars keep their meaning when more is allocated for later arguments |
| `Arguments.PassArguments` | src/executor.rs:155-217 | Gas, pointers, builtins and arguments of any types are pushed and padded, those without a size left out; the called function, which knows its parameters alone, finds every one of them, on either architecture, exactly if they can be passed and none is missing, unless memory runs out |
| `Arguments.ArgumentPlace` | src/executor.rs:165-205 | Every parameter with a size gets its own word or the next of the listed arguments; those without a size use up none |
| `Arguments.FieldsInOrder` | src/arch.rs:57-191 | Members of a struct are understood one after the other, each from where the one before it ends |
| `Arguments.ArrayToBytes` | src/arch.rs:57-100 | An array is passed as its new buffer, zero, its length and its length again as capacity, for which the buffer has room |
| `Arguments.PassedArrayOwns` | src/libfuncs/array.rs:396-437 | An array passed as an argument owns all of its buffer and shows its elements, as appending in place takes for granted |
| `ByteArrays.TrimmedFits` | src/runtime.rs:1000-1005 | Exactly the numbers that fit a length have no more bytes than that, and the rest are leading zeros |
| `ByteArrays.AsCairoShortStringEx` | src/runtime.rs:983-1020 | A word of a length shows all of its bytes, leading zeros included, exactly if it fits |
| `ByteArrays.AsCairoShortString` | src/runtime.rs:963-977 | A felt reads as text exactly if some first bytes are printable and all others are zeros, and then those first bytes are the text |
| `ByteArrays.TryFormatString` | src/runtime.rs:931-959 | A byte array is read exactly if one is there; otherwise the position stays |
| `ByteArrays.FormatNextItem` | src/runtime.rs:899-917 | A failed parse consumes only the first felt; a successful one all of the array |
| `ByteArrays.FormatForDebug` | src/runtime.rs:847-867 | Formatting ends on any felts: a single byte array is printed as it is, and otherwise every item on a line of its own |
| `ByteArrays.HexReads` | src/runtime.rs:920-928 | What is written in base 16 reads as the number again and has no leading zero |
| `ByteArrays.ShownAs` | src/runtime.rs:983-1020 | A byte is shown as itself if it is visible or white space, zero as an escape of its own, and any other as two digits that read as it |
| `ByteArrays.FeltsPrinted` | src/runtime.rs:847-867 | What is printed of a felt that is a short text, and of one that is not |
| `ByteArrays.ByteArrayPrinted` | src/runtime.rs:847-917 | What is printed of a byte array of two letters, alone and followed by a felt |
| `ByteArrays.SlicesPartition` | src/runtime.rs:847-852 | The slices that the items come from are not empty, follow each other and together are the input |
| `ByteArrays.SerializedParses` | src/runtime.rs:931-959 | A serialised byte array, wherever it stands, is read whole and shown byte by byte |
| `ByteArrays.PrintedAlone` | src/runtime.rs:852-856 | A serialised printable text that stands alone is printed exactly, with nothing around it |
| `ByteArrays.PrintsItself` | src/runtime.rs:931-959 | Printable text comes out as it went in, and the next item begins right after it |
| `Circuits.Statistics.AddCircuitGates` | src/statistics.rs:106-160 | Counting ends on any gates in range; wires are resolved from resolved ones; known wires are the given ones and one per gate counted; success uses all mul gates, and add gates are left only behind a blocked one |
| `Circuits.Statistics.UseAdds` | src/statistics.rs:118-138 | Add gates are used in order until one is blocked |
| `Circuits.ResolvedOnce` | src/statistics.rs:123-135 | No wire is resolved twice |
| `Circuits.CountsAddUp` | src/statistics.rs:106-160 | The four counters add up to the number of gates used |
| `PrimeField.DivisorsAreBig` | src/utils.rs:51-56 | Every divisor of the modulus but one is at least 2^126, because a residue whose 2^125th power is minus one has that many different powers |
| `PrimeField.ModulusIsPrime` | src/utils.rs:51-56 | The modulus is a prime |
| `PrimeField.HasInverse` | src/runtime.rs:108-128 | Every residue but zero has an inverse |
| `FieldArithmetic.MulMultiplies` | src/runtime.rs:97-106 | Multiplying representations multiplies values |
| `FieldArithmetic.MixedProduct` | src/runtime.rs:97-106 | With one operand read as a representation, the product's representation is the canonical product |
| `FieldArithmetic.MixedQuotient` | src/runtime.rs:121-128 | Exactly the canonical quotients are representations that divide back |
| `FieldArithmetic.QuotientIsUnique` | src/runtime.rs:121-128 | Every numerator has exactly one quotient by every divisor but zero |
| `FieldArithmetic.FromRawLeBytes` | src/runtime.rs:136-143 | Four reversed limbs are the number that the bytes stand for, for any 32 bytes |
| `FieldArithmetic.RawToLeBytes` | src/runtime.rs:147-154 | Written limb by limb, a representation gives its little-endian bytes |
| `FieldArithmetic.ThroughLimbs` | src/runtime.rs:136-154 | Reading any 32 bytes as limbs and writing the limbs gives the same bytes |
| `FieldArithmetic.Felt252Mul` | src/runtime.rs:97-106 | Canonical operands give the canonical product |
| `FieldArithmetic.Felt252Div` | src/runtime.rs:121-128 | Canonical operands and any divisor but zero give the canonical quotient, and there is no other |

## Left out

- Compiler.CompileFunc: on functions whose tail returns are not whole, or whose deferred returns own a landing block, only termination, the structure and the processing order are stated.
- Compiler.CompileFunc: the depth counter is taken modulo 2^64, so the equivalence is stated for runs that do not recurse deeper than that.
- Miscompiled.LostShows: for a function with a tail call whose ways round to the entry all go through that call, the condition is sufficient but not shown to be necessary; what its blocks return is stated exactly, run by run, by `Compiler.CompiledMeansReset`.
- Miscompiled.EntryExact: takes for granted two different values and infinitely many worlds, so that a meaning can tell the steps of a run apart.
- Per-libfunc lowering, except for calls and arrays: libfuncs are arbitrary meanings, and the edges they take are those of the compiler.
- Coupon calls, which are recognised as function calls too, and builtins of size zero among parameters and return types of compiled functions, apart from what they do to tail returns.
- Gas metadata, profiling frames, debug locations and trace dumps inside the compiler.
- Marshal.ToPtr: takes for granted what the writer's callers must provide: felts below the prime, scalars only in slots of their type, structs with all their fields, bounded integers that carry their type's range. A snapshot inside a snapshot and a non-zero wrapper hold only scalars.
- Marshal.ToPtr: every allocation has its padded size, although bytes31, wide bounded integers and enums are allocated unpadded and copied padded; the two arenas the writer uses are one address space.
- EC points and states, QM31, secp points, and the starknet wrappers around felts, in values and arguments; layout errors from sizes that do not fit the address space, which here are allocations that find no room.
- Arguments.PassArguments: the words that the caller does not give (the return pointer, gas, addresses of the handler and the builtin costs, zero for other builtins) are given with the parameters.
- Arguments.ToBytes: panics and errors for values that do not match their types are told apart only as far as a failure is one; bounded integers and integer ranges are not supported as arguments by the source either.
- Arrays.Store.Append: requires that a full array has a capacity below 2^31, because the source copies past its new buffer otherwise. Buffers are sequences in a field of the arena and pointers name a buffer and an index, so writes in place and aliasing are there, but not byte addresses.
- Dicts.FeltDict.Squash: counters and gas are natural numbers; that they fit 64 bits is left to the caller. The refund per access is a parameter, because its definition is not part of this model.
- Dicts.FeltDict.Get: the map grows whenever it is full and a key is new; how far is up to it.
- Profile.StepKeeps: poisoning of the slot table's own lock, after which a slot would stay, is not modelled. What a profile contains is not either.
- Invocations.Thread.Invoke: a panic inside an invocation ends its body early, which is the tree with a shorter body.
- LockFiles.StepKeeps: json that is being rewritten on a path that is already published can be read half-written; the model lets it, and claims only that it is not missing. Published files are not deleted by others.
- Starknet.PerformRestores: cheatcodes, which overwrite the addresses on purpose, are not part of this model, nor is rollback: an address that is already deployed has its class overwritten, as in the source.
- Starknet.PerformSpends: called code may not hand back more gas than it was given. The cost of an entry point and the address hash are parameters. Events, messages, block hashes, keccak, SHA and curve syscalls are left out: they only deduct gas and compute.
- Abi.AllRoundTrip: 256-bit integers are two 128-bit ones in a row; curve points are not modelled.
- ByteArrays.PrintsItself: for bytes that are not printable the text shows escapes and need not determine the bytes.
- Circuits.Statistics.AddCircuitGates: wires out of range, for which the source panics, are excluded.
- FieldArithmetic.Felt252Mul: operands that are not canonical are excluded, as the source documents; Montgomery multiplication and division themselves belong to a library and are modelled by what they compute.
- Square roots, Pedersen, Poseidon, keccak, SHA, curve arithmetic, caches, the fuzzer and the command line tools.
