# Pen: a verified model of its compiler and runtime

[Pen](https://pen-lang.org) is a parallel, functional language with reference counting, lazy thunks,
tagged variants and errors that are passed on with `?`. This project models the parts of its
implementation where correctness spans several functions, threads or languages, and proves what
those parts are for. `dafny verify dfyconfig.toml` checks everything.

## Parts

**Thunks** (`Thunk`, `ThunkInvariant`, `ThunkTheorems`, `ThunkValues`, `ThunkRuns`, `LocalThunk`). The entry functions of a thunk
are swapped in place while any number of threads call it. The model is a step system with one
program counter per thread and weak memory: a location keeps the history of its writes, a relaxed
load returns any write that is not older than what the thread knows, and only acquire and release
operations and the release sequence of the count carry knowledge over. A body may do anything but
call its own thunk. `ThunkValues` is the count of the value that is stored, and `LocalThunk` is the
single-threaded path, on a closure that is overwritten in place.

**Counts of foreign blocks** (`ArcMemory`, `ArcInvariant`, `ArcTheorems`, `ArcBlock`). Clone and drop
load the count and write it in separate steps. The same kind of weak memory, with a 64-bit word that
wraps around. `ArcBlock` is the class itself, on one thread.

**The heap of compiled code** (`Heap`, `HeapTheorems`, `HeapGraph`, `RecordHeap`). Ownership transfer
by clone, drop, allocation, field access, boxing, in-place update and synchronization. Specifications
are functions on memories, `RecordHeap` is the imperative code, and the theorems are about counts,
meanings, garbage, cycles and sharing.

**The compiler** (`Semantics`, `Ast`, `Hir`, `Mir`, `Fmm`, `AstLowering`, `AstTheorems`, `HirTypes`,
`Analysis`, `AnalysisTheorems`, `AnalysisErasure`, `AnalyzedPrograms`, `Erasure`, `Lowering`,
`Representation`, `LoweringTheorems`, `Simulation`, `FmmTheorems`, `Pipeline`, `Effects`, `BareErrors`).
Every language has an evaluator with early returns, a bound on nested calls and a trace of foreign
calls as the only effect; numbers are abstract. `Analysis` infers types, checks them, and inserts
coercions; unions keep their members in an order of types, which is a parameter. Each pass is proved
against the evaluators. `Pipeline.EndToEnd` joins them for typed programs, and `Pipeline.AcceptedRuns`
for sources. `Effects` is a program with foreign calls that early returns cut short.

**Downcasts, `go` and comprehensions** (`Downcasts`, `Spawn`, `LazyLists`, `Comprehensions`,
`ComprehensionTheorems`, `ComprehensionSimulation`). `Spawn` connects the compiled body of a spawned
thunk and the function that narrows its result with the theorems about thunks. Comprehensions become
loops over lazy lists; the functions of the prelude's list library are modelled as the nodes that they capture.

**Parser and formatter** (`Operators`, `Syntax`, `SyntaxTheorems`, `RoundTrip`, `Reprint`). Precedence
reduction, the token-level parser of prefix, infix and suffix operators, and the formatter's parentheses.

**Comments** (`Comments`, `Documents`, `Modules`, `Building`, `Formatter`, `ModuleFormatter`). The
formatter's methods over the whole syntax tree thread a buffer of comments, and a renderer puts them
into text, which a reader takes apart again.

## What the code does not do

These are results: each has a lemma that says exactly when the property holds, and one with an input
for which it does not.

- The value of a synchronized thunk is stored as it is. If it is counted locally, threads that clone and
  drop it at the same time lose updates of its count, and it is freed while it is referenced
  (`ThunkValues.ExactUnlessLocal`, `ThunkValues.LostUpdate`, `ThunkRuns.ClonesMeetDrops`).
- Record update stores field values as they are, too. A shared record with a single reference, updated in
  place with a local value, refers to a block that other threads count without atomic operations
  (`HeapGraph.UpdateKeepsSharedClosed`, `HeapGraph.UpdateCanShareLocal`).
- The argument of `go` is evaluated by the thunk. An error that it passes on with `?` does not leave the
  enclosing function but ends up in the thunk, where the returned function is stuck on it
  (`Spawn.SpawnPreservesMeaning`, `Spawn.SpawnedResultIsReturned`, `Spawn.EarlyReturnIsLost`).
- A function whose result type is just `error` may use `?`, but its early return is compiled to a variant.
  The type check of the mid level refuses such code (`lib/mir/src/analysis/type_check.rs:226-242`), so
  that a program which the analysis accepts cannot be compiled (`AnalyzedPrograms.AnalyzedIsTyped`,
  `BareErrors.EarlyReturnIsVariant`).
- The formatter drops parentheses around right operands of the same priority, around `!x` before `?`,
  and around operations before field accesses and calls, which changes the program
  (`RoundTrip.RoundTrips`, `Reprint.FormatterCounterexamples`).
- Formatting is therefore not idempotent when a field access or call follows a parenthesized operation
  (`Reprint.FormattingIsStable`, `Reprint.FormattingIsNotStable`).
- Comments of several lines that the formatter puts on one line are read as one comment
  (`ModuleFormatter.ReadsAsWritten`, `ModuleFormatter.MergesComments`).
- The last drain takes the comments before the largest line number, which no real file has
  (`ModuleFormatter.AllReachable`, `ModuleFormatter.LastLineIsLost`).

## Model

| member | source | states |
|---|---|---|
| ThunkInvariant.InitInv | lib/mir-fmm/src/entry_function.rs:128-257 | A synchronized thunk that nobody has called satisfies the protocol invariant, for any number of threads and handles |
| ThunkTheorems.StepInv | lib/mir-fmm/src/entry_function.rs:128-334 | Every atomic step of every entry function, of a body and of reference counting keeps the invariant, whichever stale write a relaxed load returns |
| ThunkTheorems.EntryOnlyAdvances | lib/mir-fmm/src/entry_function.rs:147-182 | Over every run the entry function moves only from initial to locked to normal |
| ThunkTheorems.EvaluatedOnce | lib/mir-fmm/src/entry_function.rs:150-191 | In every reachable state the body has run at most once, and at most one thread is between winning the lock and publishing |
| ThunkTheorems.ResultsAgree | lib/mir-fmm/src/entry_function.rs:191-251 | All results of all calls in all threads at all times are the one stored value, of the one run of the body |
| ThunkTheorems.WritesDoNotRace | lib/mir-fmm/src/entry_function.rs:193-223 | Whoever accesses the payload or the metadata without atomics does so while no other thread can write them |
| ThunkTheorems.ReadsAreFresh | lib/mir-fmm/src/entry_function.rs:269-287 | A normal entry call reads the winner's value and never an older payload, also when it arrived by the relaxed load after a failed exchange or through the locked entry function |
| ThunkTheorems.NeverCorrupted | lib/mir-fmm/src/entry_function.rs:184-251 | No step touches a freed block, misreads the payload, or frees the block between the overwriting of the payload and the switch of the entry function |
| ThunkTheorems.RunReleases | lib/mir-fmm/src/entry_function.rs:198-208 | Results stay as they are, and the environment's references to captured variables are only ever given up, never twice |
| ThunkTheorems.RunLedger | lib/mir-fmm/src/entry_function.rs:87-106 | Ledger of a whole run: every call consumes exactly one handle and gives one result, pending calls aside |
| ThunkTheorems.QuiescentOwnership | lib/mir-fmm/src/entry_function.rs:184-294 | When all calls have returned, the closure's count is the number of handles, the block is freed exactly if there are none, captured variables are released exactly once, and there is one reference to the value for every result and one for the payload |
| ThunkValues.CountIsExact | lib/mir-fmm/src/entry_function.rs:210-218 | The word that counts references to the stored value is exact in every state of every run, stale loads included, if the value is shared, static or uncounted, or if only one thread clones and drops it |
| ThunkValues.LostUpdate | lib/mir-fmm/src/reference_count/pointer.rs:34-48 | A local value, cloned by one thread while another one drops its result: an update is lost, and the value is freed while it is referenced |
| ThunkValues.ExactUnlessLocal | lib/mir-fmm/src/entry_function.rs:210-218 | The count is exact in all runs if and only if the value is not counted locally or there is one thread |
| ThunkRuns.ClonesMeetDrops | lib/mir-fmm/src/entry_function.rs:210-251 | The protocol reaches a state where one thread owns its result and another one is about to clone the stored value |
| ThunkTheorems.StepsDescend | lib/mir-fmm/src/entry_function.rs:302-334 | Apart from spinning, every step of a pending call strictly decreases a bounded rank |
| ThunkTheorems.EveryCallCanReturn | lib/mir-fmm/src/entry_function.rs:150-334 | No reachable state is stuck: every pending call can be brought to its return by a bounded number of steps of the lock holder and itself |
| LocalThunk.Cell.CallInitial | lib/mir-fmm/src/entry_function.rs:184-251 | The single-threaded initial entry function, in place, around a body that gives up what it is given and returns a value: environment loop, payload, metadata and entry function as the abstract call says |
| LocalThunk.Cell.CallNormal | lib/mir-fmm/src/entry_function.rs:259-300 | The single-threaded normal entry function returns the stored value and consumes one reference |
| LocalThunk.Cell.Call | lib/mir-fmm/src/call.rs:3-26 | A call dispatches on the entry function and does what the abstract call does |
| LocalThunk.Cell.Drop | lib/mir-fmm/src/closure/drop.rs:11-87 | The last reference runs the drop function of the current metadata, over the environment or over the value |
| LocalThunk.RunKeeps | lib/mir-fmm/src/entry_function.rs:184-300 | Over every sequence of clones, drops and calls: one run of the body, equal results, captured variables released exactly once, and exactly the results handed out and the stored one are referenced |
| ArcInvariant.StepInv | lib/ffi/src/arc/arc_block.rs:76-138 | Every load, read-modify-write and fence of clone, drop, synchronize and get_mut keeps the invariant, also between the relaxed load and the write |
| ArcTheorems.CountIsExact | lib/ffi/src/arc/arc_block.rs:76-112 | While references are left, the newest count encodes exactly their number, negated once shared, and is never the static value |
| ArcTheorems.DestroyedExactlyOnce | lib/ffi/src/arc/arc_block.rs:92-124 | The payload is destroyed at most once, and exactly once when no reference is left and no operation is under way |
| ArcTheorems.DestructionIsLast | lib/ffi/src/arc/arc_block.rs:106-124 | The thread that destroys has acquired every access of other threads, and nothing else can happen any more |
| ArcTheorems.NothingAfterDestruction | lib/ffi/src/arc/arc_block.rs:92-124 | After the free no step is possible, so none touches the count |
| ArcTheorems.GetMutIsExclusive | lib/ffi/src/arc/arc_block.rs:48-54 | A relaxed uniqueness test that succeeds has read the newest count and owns the only reference; on the newest count it succeeds if and only if there is one reference |
| ArcTheorems.StaticNeverChanges | lib/ffi/src/arc/arc_block.rs:8-11 | A static block is never written, destroyed or lent for mutation |
| ArcBlock.CountsAreDecoded | lib/ffi/src/arc/arc_block.rs:140-159 | The sign of the word tells the mode of counting and its value decides uniqueness, for every encoding within the width of the word |
| ArcBlock.CountsAreUnambiguous | lib/ffi/src/arc/arc_block.rs:8-11 | No word encodes two different numbers of references or modes |
| ArcBlock.ArcBlock.GetMut | lib/ffi/src/arc/arc_block.rs:48-54 | Lends the payload exactly if the block is not null and there is one reference |
| ArcBlock.ArcBlock.Clone | lib/ffi/src/arc/arc_block.rs:76-90 | One more reference; null and static blocks are left alone |
| ArcBlock.ArcBlock.Drop | lib/ffi/src/arc/arc_block.rs:92-124 | One reference fewer, and the block is freed with the last one |
| ArcBlock.ArcBlock.Synchronize | lib/ffi/src/arc/arc_block.rs:126-138 | The mode becomes shared with the same number of references; again, nothing changes |
| ArcBlock.AfterBalance | lib/ffi/src/arc/arc_block.rs:76-138 | After any operations the number of references is the balance of clones and drops |
| ArcBlock.Perform | lib/ffi/src/arc/arc_block.rs:76-138 | Any sequence of operations below the limit keeps the word exact and frees the block with its last reference |
| HeapTheorems.MeaningIsUnique | lib/mir-fmm/src/expression.rs:517-577 | A value on the heap denotes at most one tree |
| HeapTheorems.CloneAllKeeps | lib/mir-fmm/src/expression.rs:22-40 | Cloning adds exactly the owners that it hands out, and changes no value |
| HeapTheorems.DropAllKeepsExact | lib/mir-fmm/src/reference_count/pointer.rs:55-125 | Recursive drop terminates and leaves every count equal to the references that remain |
| HeapTheorems.DropAllKeepsMeaning | lib/mir-fmm/src/reference_count/pointer.rs:55-125 | Dropping leaves the values of all other owners as they are |
| HeapTheorems.AllocateKeeps | lib/mir-fmm/src/expression.rs:517-577 | Allocation turns ownership of fields into ownership of the record |
| HeapTheorems.AllocateMeans | lib/mir-fmm/src/expression.rs:517-577 | A new record denotes its fields |
| HeapTheorems.GetFieldCorrect | lib/mir-fmm/src/expression.rs:76-92 | Field access hands out an owned field, gives up the record, and keeps counts exact and other values unchanged |
| HeapTheorems.BoxRoundTrip | lib/mir-fmm/src/box_.rs:4-32 | Unboxing a new box gives back the value and the memory, counts included |
| HeapTheorems.UpdateRecordCorrect | lib/mir-fmm/src/expression.rs:93-203 | In place or on a copy, the update of a boxed record denotes the functional update, leaves all other owned values unchanged and keeps counts exact for kept, replaced and new fields |
| HeapTheorems.UpdateUnboxedCorrect | lib/mir-fmm/src/expression.rs:148-203 | The update of an unboxed record, likewise |
| HeapTheorems.GetUnboxedCorrect | lib/mir-fmm/src/reference_count/record.rs:149-169 | Field access to an unboxed record hands out an owned field and gives the other ones up |
| HeapGraph.AllocateAcyclic | lib/mir-fmm/src/expression.rs:517-577 | Allocation closes no cycle |
| HeapGraph.UpdateRecordAcyclic | lib/mir-fmm/src/expression.rs:93-203 | Record update, in place too, closes no cycle |
| HeapGraph.LiveIsReachable | lib/mir-fmm/src/reference_count/pointer.rs:55-125 | Every counted block is reachable from an owner: there is no garbage |
| HeapGraph.ReachableIsLive | lib/mir-fmm/src/reference_count/pointer.rs:55-125 | Everything reachable from an owner is live: nothing is freed too early |
| HeapGraph.NoLeaks | lib/mir-fmm/src/reference_count/pointer.rs:55-125 | Without owners only static blocks are left |
| HeapGraph.SynchronizeAllCloses | lib/mir-fmm/src/reference_count/pointer.rs:127-155 | Synchronization ends with values that are shared together with all they reach, whatever was shared before |
| HeapGraph.SharedReachesShared | lib/mir-fmm/src/reference_count/pointer.rs:127-155 | Where sharing is closed, whatever a shared block reaches, along any path, is shared |
| HeapGraph.SynchronizeCorrect | lib/mir-fmm/src/reference_count/pointer.rs:127-155 | Synchronizing keeps meanings and exact counts, and what is shared reaches shared blocks only |
| HeapGraph.UpdateKeepsSharedClosed | lib/mir-fmm/src/expression.rs:93-203 | Record update keeps shared blocks from reaching local ones if and only if it does not store a local value into a unique shared record in place |
| HeapGraph.UpdateCanShareLocal | lib/mir-fmm/src/expression.rs:173-203 | A concrete update after which a shared record refers to a locally counted one |
| RecordHeap.RecordHeap.Clone | lib/mir-fmm/src/reference_count/pointer.rs:6-53 | In place: increments a local count, decrements a shared one, leaves static blocks alone |
| RecordHeap.RecordHeap.Drop | lib/mir-fmm/src/reference_count/pointer.rs:55-125 | In place: the memory afterwards is that of the specified drop |
| RecordHeap.RecordHeap.DropContent | lib/mir-fmm/src/reference_count/record.rs:149-169 | The loop over fields, before the block is freed, has the effect of freeing first |
| RecordHeap.RecordHeap.Allocate | lib/mir-fmm/src/reference_count/heap.rs:3-25 | A new block with a unique local count |
| RecordHeap.RecordHeap.GetField | lib/mir-fmm/src/expression.rs:76-92 | Load, clone and drop in this order are the specified field access |
| RecordHeap.RecordHeap.Box | lib/mir-fmm/src/box_.rs:4-13 | A block of one field that owns the value |
| RecordHeap.RecordHeap.Unbox | lib/mir-fmm/src/box_.rs:15-32 | Load, clone and drop in this order are the specified unboxing |
| RecordHeap.RecordHeap.Synchronize | lib/mir-fmm/src/reference_count/pointer.rs:127-155 | Marking and then visiting the fields in order is the specified synchronization |
| RecordHeap.RecordHeap.UpdateRecord | lib/mir-fmm/src/expression.rs:93-200 | Both branches for boxed records, with their loops over replaced and kept fields, are the specified update |
| RecordHeap.RecordHeap.UpdateUnboxed | lib/mir-fmm/src/expression.rs:148-203 | The loop over the replaced fields of an unboxed record is the specified update |
| RecordHeap.RecordHeap.GetUnboxed | lib/mir-fmm/src/reference_count/record.rs:149-169 | Cloning a field and dropping all of them in order is the specified access |
| AstLowering.CompileBlock | lib/ast-hir/src/module.rs:105-120 | The loop over statements from the last to the first builds the nested lets that the specification says, or fails on exactly the same blocks |
| AstLowering.CompileIf | lib/ast-hir/src/module.rs:377-397 | The chain of branches becomes nested conditions, branch by branch |
| AstLowering.CompileExpression | lib/ast-hir/src/module.rs:122-375 | All expressions, failing exactly if a chain of conditions has no branch |
| AstTheorems.LowersBlock | lib/ast-hir/src/module.rs:105-120 | A block, from any statement on, evaluates like its nested lets: same value, effects and early return |
| AstTheorems.LowersChain | lib/ast-hir/src/module.rs:359-397 | A chain of conditions, from any branch on, evaluates like its nested conditions |
| AstTheorems.Lowers | lib/ast-hir/src/module.rs:122-375 | Lowered expressions do exactly what syntax trees do |
| Erasure.Erases | lib/hir/src/analysis/type_coercer.rs:13-29 | Inferred types and inserted coercions do not change what a program does |
| AnalysisTheorems.SortedIsUnique | lib/hir/src/analysis/type_canonicalizer.rs:72-113 | The members of a canonical union are listed in one way only, so that canonical types are compared by equality |
| AnalysisTheorems.UnionFacts | lib/hir/src/analysis/type_canonicalizer.rs:72-88 | The union of canonical types is canonical, subsumes all of them, and has exactly their members |
| AnalysisTheorems.DifferenceFacts | lib/hir/src/analysis/type_difference_calculator.rs:5-28 | What is left of a type is canonical, and has every member that has not been ruled out |
| AnalysisTheorems.InferAnnotates | lib/hir/src/analysis/type_inferrer.rs:69-504 | Inference annotates every part of an expression with the type that is extracted from it, canonically |
| AnalysisTheorems.ChecksExtract | lib/hir/src/analysis/type_extractor.rs:9-216 | The type that checking computes is the one that is extracted |
| AnalysisTheorems.BranchesCover | lib/hir/src/analysis/type_checker.rs:190-253 | The branches of an accepted type test, with the inferred type of the else branch, cover the tested type |
| AnalysisTheorems.Coerces | lib/hir/src/analysis/type_coercer.rs:73-556 | Coercions can be inserted into every expression that is checked, and make it typed, at the type that was checked, which the second check finds, too |
| AnalysisErasure.InferErases | lib/hir/src/analysis/type_inferrer.rs:69-504 | Inference adds nothing but annotations |
| AnalysisErasure.CoerceErases | lib/hir/src/analysis/type_coercer.rs:73-556 | Insertion of coercions adds nothing but coercions, and loses no argument of a call |
| AnalysisErasure.TypedReturns | lib/hir/src/analysis/try_operation_validator.rs:16-168 | Typed functions pass errors on only if they return variants that include errors |
| AnalyzedPrograms.SecondCheckPasses | lib/hir/src/analysis.rs:57-58 | The check after the insertion of coercions accepts what they have been inserted into |
| AnalyzedPrograms.AnalyzedIsTyped | lib/hir/src/analysis.rs:43-61 | An accepted program is typed after analysis, and erases to its source; typed exactly if no function whose result type is just error passes errors on |
| BareErrors.EarlyReturnIsVariant | lib/hir-mir/src/expression.rs:692-718 | Such a function is accepted, returns a plain error on its syntax tree, and a tagged one as code |
| Lowering.TagsAreUnique | lib/hir-mir/src/type_.rs:28-132 | Different concrete types have different tags |
| LoweringTheorems.SelectionAgrees | lib/hir-mir/src/expression.rs:61-104 | The first branch that accepts a value's type is the first alternative with its tag |
| LoweringTheorems.AlternativeBinds | lib/hir-mir/src/expression.rs:291-349 | An alternative binds the right representation: unwrapped for one type, still a variant for a union, unwrapped twice for functions, lists and maps |
| Simulation.SimulatesIfType | lib/hir-mir/src/expression.rs:61-104 | Type tests and the cases that they are compiled to agree, else branches included |
| Simulation.SimulatesCoerce | lib/hir-mir/src/expression.rs:205-259 | A coerced value is represented at the wider type |
| Simulation.SimulatesConstruct | lib/hir-mir/src/expression.rs:128-148 | Record construction evaluates every field once in source order and stores them in declared order; generated names capture nothing |
| Simulation.SimulatesUpdate | lib/hir-mir/src/expression.rs:163-188 | Record update replaces exactly the named fields |
| Simulation.SimulatesTry | lib/hir-mir/src/expression.rs:692-719 | The early return of an error and the unwrapped result of anything else |
| Simulation.SimulatesApply | lib/hir-mir/src/expression.rs:264-289 | Calls of represented functions agree, recursive and foreign ones included |
| Simulation.Simulates | lib/hir-mir/src/expression.rs:21-262 | Every well-typed expression and its compiled form have the same effects, represented results, the same early returns and the same number of nested calls; neither gets stuck |
| FmmTheorems.ComparesTags | lib/mir-fmm/src/expression.rs:312-363 | The disjunction of tag comparisons decides membership |
| FmmTheorems.LowersAlternatives | lib/mir-fmm/src/expression.rs:282-352 | The chain of tag comparisons takes the first alternative with the right tag |
| FmmTheorems.Downcasts | lib/mir-fmm/src/variant.rs:62-83 | Downcasting a variant gives its payload at a single type and the variant itself at the variant type |
| FmmTheorems.LowersTry | lib/mir-fmm/src/expression.rs:579-606 | The comparison with the error tag and the return instruction are the early return |
| FmmTheorems.Lowers | lib/mir-fmm/src/expression.rs:8-248 | Compiled code does what mid-level expressions do, whatever registers hold |
| Pipeline.SourceIsTyped | lib/ast-hir/src/module.rs:6-66 | Sources and their typed programs have the same results and effects |
| Pipeline.TypedIsLowered | lib/hir-mir/src/expression.rs:21-262 | Typed programs and mid-level programs agree on represented results |
| Pipeline.LoweredIsCompiled | lib/mir-fmm/src/expression.rs:8-248 | Mid-level programs and code agree |
| Pipeline.EndToEnd | lib/ast-hir/src/module.rs:105-120 | End to end: a function on plain values does on its syntax tree, statement by statement, exactly what its code does, foreign calls in the same order included, and never gets stuck |
| Pipeline.FrontIsTyped | lib/hir/src/analysis.rs:43-61 | The typed program of an accepted source is what the pipeline starts from, exactly if no function whose result type is just error passes errors on |
| Pipeline.AcceptedRuns | lib/hir/src/analysis.rs:43-61 | The whole compiler: a function on plain values of an accepted source does on its syntax tree exactly what its code does, with the types and coercions that analysis finds |
| Effects.SourceWrites | lib/ast-hir/src/module.rs:105-120 | A program with foreign calls: what follows an early return is not called, what follows its handler is |
| Effects.CodeWrites | lib/mir-fmm/src/expression.rs:579-606 | The code of this program makes exactly these foreign calls |
| Downcasts.DowncastNarrows | lib/hir-mir/src/downcast.rs:12-44 | A downcast succeeds if and only if the value is of the type, leaves it as it is and has no effects of its own |
| Downcasts.DowncastUndoesCoercion | lib/hir-mir/src/downcast.rs:12-44 | Coercion and downcast back change nothing |
| Downcasts.DowncastRepresents | lib/hir-mir/src/downcast.rs:28-43 | The compiled downcast gives the representation at the narrower type and is stuck exactly when the downcast is |
| Spawn.ResultsAreReturned | lib/mir-fmm/src/entry_function.rs:191-251 | What a call returns, a body has returned before |
| Spawn.BodyRepresents | lib/hir-mir/src/built_in_call.rs:113-137 | What the compiled body of the spawned thunk returns represents, at the any type, what the call of the spawned function results in, with the same effects |
| Spawn.ReturnedNarrows | lib/hir-mir/src/built_in_call.rs:145-166 | The compiled function that is returned, where the thunk is evaluated, yields the stored value at the original type if it is of that type, and is stuck otherwise |
| Spawn.SpawnPreservesMeaning | lib/hir-mir/src/built_in_call.rs:99-171 | In every run, in all threads, all calls of the returned function yield the result of the one evaluation of the spawned call, at its original type; an argument that returns early leaves its result to be narrowed |
| Spawn.NeverReturns | lib/hir-mir/src/expression.rs:692-718 | An expression without `?` outside its lambdas does not return early, whatever functions it calls |
| Spawn.SpawnedResultIsReturned | lib/hir-mir/src/built_in_call.rs:99-171 | If the argument of `go` has no `?` outside its lambdas, all calls of the returned function, in every run, yield the spawned function's own result |
| Spawn.EarlyReturnIsLost | lib/hir/src/analysis/try_operation_validator.rs:24-30 | An error that the argument of `go` passes on does not leave the enclosing function, and every call of the returned function is stuck |
| ComprehensionTheorems.ForcedUnrolls | packages/prelude/List.pen:49-55 | A lazy list unfolds to what its function returns |
| ComprehensionTheorems.ConcatenatedUnrolls | packages/prelude/List.pen:57-79 | A concatenation unfolds to the elements of the first list and then those of the second |
| ComprehensionTheorems.ListLoopUnrolls | lib/hir-mir/src/expression.rs:375-426 | The loop of a list comprehension, from any suffix on, unfolds to one element for every element, in order |
| ComprehensionTheorems.ListStepApplies | lib/hir-mir/src/expression.rs:388-415 | The shadowed names resolve to the same inner loop and to the rest of the list at every step |
| ComprehensionTheorems.MapLoopUnrolls | lib/hir-mir/src/expression.rs:491-625 | The loop of an iteration over a map unfolds to one element for every entry, in order |
| ComprehensionSimulation.SimulatesElements | lib/hir-mir/src/transformation/list_literal.rs:9-105 | List literals with single and spread elements unfold to their elements in order |
| ComprehensionSimulation.SimulatesIfList | lib/hir-mir/src/transformation/if_list.rs:11-121 | Deconstruction binds the downcast first element and the rest |
| ComprehensionSimulation.SimulatesListComprehension | lib/hir-mir/src/expression.rs:351-438 | A compiled list comprehension represents its list |
| ComprehensionSimulation.SimulatesMapComprehension | lib/hir-mir/src/expression.rs:440-489 | A compiled iteration over a map represents its list |
| ComprehensionSimulation.Simulates | lib/hir-mir/src/expression.rs:351-625 | Whenever an expression with comprehensions, nested in any way, has a value, its code has a representation of it |
| ComprehensionSimulation.ComprehensionMaps | lib/hir-mir/src/expression.rs:351-438 | Forced, a comprehension is its element expression mapped over its list in order |
| ComprehensionSimulation.IterationMaps | lib/hir-mir/src/expression.rs:440-625 | Forced, an iteration is its element expression mapped over the entries in order |
| ComprehensionSimulation.ComprehensionIsLazy | lib/hir-mir/src/expression.rs:351-438 | An element can be computed although others cannot |
| ComprehensionSimulation.ForcesOnly | lib/hir-mir/src/expression.rs:351-625 | A compiled list cannot be forced to more or fewer elements than the source has |
| ComprehensionSimulation.ForcesWithin | lib/hir-mir/src/expression.rs:351-625 | An element can be forced only at a position that the source has |
| ComprehensionSimulation.ForcesValue | lib/hir-mir/src/expression.rs:351-625 | An element cannot be forced to anything but the value of the source |
| Operators.ReduceKeepsOrder | lib/parse/src/operations.rs:11-49 | Reduction keeps operands and operators in their order |
| Operators.ReduceBalances | lib/parse/src/operations.rs:11-49 | Every operator on the left binds at least as tightly as its parent, every one on the right more tightly |
| Operators.RootIsLowest | lib/parse/src/operations.rs:17-49 | The root of such a tree is the last operator of the lowest priority |
| Operators.BalancedIsUnique | lib/ast/src/analysis.rs:26-39 | There is only one such tree for given operands and operators |
| Operators.ReduceInvertsReading | lib/parse/src/operations.rs:11-49 | Reading such a tree and reducing it gives it back |
| Operators.ReduceSplits | lib/parse/src/operations.rs:17-49 | Reduction splits at the last operator of the lowest priority |
| Syntax.ParsesOperations | lib/parse/src/parsers.rs:331-440 | The parser reads back every spelled sequence of operations, with prefix and suffix operators, calls and parentheses |
| Syntax.SpellIsInjective | lib/parse/src/parsers.rs:331-440 | No two sequences of operations are spelled alike |
| SyntaxTheorems.PrintsArranged | lib/format/src/lib.rs:565-602 | The formatter spells exactly its parenthesized arrangement |
| SyntaxTheorems.PrintedParses | lib/format/src/lib.rs:752-787 | Every formatted expression parses |
| RoundTrip.RoundTrips | lib/format/src/lib.rs:752-787 | Formatting and parsing give an expression back if and only if it is well-printed |
| Reprint.FormattingIsStable | lib/format/src/lib.rs:752-787 | Formatting twice gives the same text if and only if no field access or call follows a parenthesized operation |
| Reprint.WellPrintedSelects | lib/format/src/lib.rs:752-787 | What survives a round trip is formatted stably |
| Reprint.FormatterCounterexamples | lib/format/src/lib.rs:575-602 | Three expressions that formatting changes |
| Reprint.FormattingIsNotStable | lib/format/src/lib.rs:565-569 | An expression that is formatted differently when it is formatted again |
| Comments.Context.constructor | lib/format/src/context.rs:8-12 | Comments are sorted by line, keeping the order on a line |
| Comments.Context.DrainCommentsBefore | lib/format/src/context.rs:14-27 | Takes exactly the comments before a line, in order, and leaves the others |
| Comments.Context.DrainCurrentComment | lib/format/src/context.rs:29-34 | Takes the comments on a line |
| Comments.Context.PeekCommentsBefore | lib/format/src/context.rs:36-43 | Shows the comments before a line and takes none |
| Comments.SortIsStable | lib/format/src/context.rs:8-12 | The order of comments is by line and stable |
| Comments.SortIsUnique | lib/format/src/context.rs:8-12 | There is only one such order |
| Formatter.CompileExpression | lib/format/src/lib.rs:410-602 | Every expression's document holds its code and exactly the comments that it took from the buffer, in order |
| Formatter.CompileBlock | lib/format/src/lib.rs:351-395 | The same for blocks, with comments between statements |
| Formatter.CompileIfType | lib/format/src/lib.rs:629-664 | The same for type tests |
| Formatter.CompileList | lib/format/src/lib.rs:666-702 | The same for lists |
| Formatter.CompileMap | lib/format/src/lib.rs:704-750 | The same for maps |
| Formatter.CompileBinaryOperation | lib/format/src/lib.rs:752-787 | The same for operations and their parenthesized operands |
| ModuleFormatter.CompileFunctionDefinition | lib/format/src/lib.rs:209-228 | The same for function definitions |
| ModuleFormatter.Format | lib/format/src/lib.rs:12-58 | The comments in a module's document are its reachable comments, stably sorted by line: each once, none lost, none duplicated |
| ModuleFormatter.AllReachable | lib/format/src/lib.rs:836-843 | All comments are reachable if and only if none is on the last representable line |
| ModuleFormatter.LastLineIsLost | lib/format/src/lib.rs:836-843 | A comment on that line is not |
| Documents.RenderIsLegible | lib/format/src/ir/format.rs:11-78 | Rendering, with deferred line suffixes, never puts code into a comment or a comment into code; all comments are read but exactly those that are put after others on a line |
| ModuleFormatter.ReadsAsWritten | lib/format/src/ir/format.rs:11-78 | A reader of rendered text sees the document's code; it sees the document's comments, in order, if and only if every line has at most one |
| ModuleFormatter.FormatModule | lib/format/src/lib.rs:12-58 | A formatted module reads as its code, and as its reachable comments in order if and only if every line has at most one; the number of comments that are missed is that of those put after others |
| ModuleFormatter.MergesComments | lib/format/src/lib.rs:412-444 | The formatter on a call whose arguments are on two lines with a comment each: both comments are written, one is read |

## Left out

- Calling conventions, continuation-passing style, memory layouts and pointer casts: heap cells, tags and closures are abstract.
- Boxing of large record fields and payloads in `Fmm`: payloads are values; ownership of boxes is treated in `Heap`.
- Capture of free variables: closures in `Mir` and `Fmm` capture their whole environment, and storing captured variables into a closure is ownership like that of `Heap.Allocate`.
- Type aliases and references, which are resolved: sources have canonical types, records declare fields once, and constructions give them once.
- Validators that only reject programs: duplicate names, impossible records, private fields, unused errors.
- Analysis.Check: equality of numbers only, and no lists, maps or comprehensions; coercions between different list or map types are not included.
- The check of mid-level types, and of reference counts in mid-level code.
- Ids of types: the names of records that wrap functions, lists and maps are taken to be different for different types (`lib/hir/src/analysis/type_id_calculator.rs`).
- AstLowering.CompileExpression: lists, maps, their deconstruction and comprehensions are not included.
- AstTheorems.Lowers: the same.
- Simulation.Simulates: lists and maps are opaque, and thunks and equality of other values than numbers are not included.
- FmmTheorems.Lowers: cloning, dropping and synchronization of variables are not included; `Heap` treats ownership.
- FmmTheorems.Downcasts: payloads are not boxed.
- Erasure.Erases: relates programs with and without types and coercions; `Analysis` constructs the former.
- Pipeline.SourceIsTyped: takes a typed program as given; so does Pipeline.EndToEnd, whose source form is `Pipeline.AcceptedRuns`.
- Pipeline.EndToEnd: lists, maps and comprehensions are outside of the pipeline.
- Pipeline.AcceptedRuns: the same.
- RecordHeap.RecordHeap.Clone: speaks of numbers and modes of references; `ArcBlock.CountsAreDecoded` relates them to words.
- Foreign functions take and return values without structure, and functions that are exported to foreign languages are not included.
- Equality of values other than numbers, hashing, and functions that records derive.
- List and map literals, `IfList`, `IfMap` and comprehensions in the pipeline: lists and maps are opaque there, lists and comprehensions have their own model.
- ComprehensionSimulation.SimulatesIfList: types are erased, so that the downcast of a first element is a function that calls it.
- Comprehensions are treated in a pure language without `?`, where memoization of thunks cannot be observed; types are erased, so that downcasts of elements are functions that call elements.
- ComprehensionSimulation.Simulates: is about expressions that have values; compiled lists may have elements where the spine of the source list is infinite.
- Iteration over maps takes the entries in order of iteration as given; the hash tries of `packages/prelude/Map.pen` are not modelled.
- `race` and the runtime's scheduling of `go`: the runtime is taken to return the thunk that it was given.
- Spawn.ReturnedNarrows: an evaluated thunk is a function that returns what it has stored, as its normal entry function does; evaluation itself is the step system of `Thunk`.
- Thunk bodies that call their own thunk, which spin forever.
- ThunkTheorems.QuiescentOwnership: speaks of references to the stored value, not of the word that counts them, which is the subject of `ThunkValues`.
- ThunkTheorems.EveryCallCanReturn: says that every call can be finished by steps that exist; that the scheduler takes them is an assumption of the system.
- LocalThunk.Cell.RunBody: bodies give up the closure and the captured variables that they are given and return any value; what else they do is not modelled.
- Overflow of counts: fewer than 2^63 references, as `LIMIT` in `ArcMemory` says; compiled code does not check either.
- ArcTheorems.GetMutIsExclusive: on counts that are not the newest one, the test may fail although there is one reference.
- Numbers, strings and their escapes: numbers are abstract, strings are opaque.
- Characters: the parser works on tokens, so that runs of operator characters such as `!!` and `- -` are not treated; atoms stand for all expressions with their own delimiters.
- Sorting of imports by path and of their names, which are taken in sorted order, and the exact amount of indentation and blank lines: the text of a document is compared without layout and without separators after last elements.
- Positions, documentation comments, build tools, package management and the bindings of system libraries.
