# lGears: a verified model

lGears compiles Scheme to continuation-passing style, then to bytecode, and runs the bytecode on a virtual machine
with a generational copying collector. This project models five parts of it in Dafny and proves what they are for:

- **The collector** (`Heap*.dfy`, `Collector.dfy`). `HeapModel` is the heap on values and the collector as functions;
  `HeapInvariant`, `HeapScan` and `HeapCollect` carry the tri-colour invariant with its two grey queues through
  every step; `HeapTheorems` concludes that a collection keeps exactly the reachable object graph; `HeapBudget` and
  `HeapRuns` bound the spaces, characterise when a minor collection aborts and follow whole runs; `HeapLayout` ties the
  layout of blocks to the constructors and visitors that the runtime registers; `HeapReserve` is allocation and the
  reservation guarantee; `HeapCompact` the sliding compaction of the old space. `Collector` is the collector as it
  runs: a class over one array of cells with bump pointers, headers and forwarding words written in place. Each of its
  methods is proved equal to the specification function that the theorems are about.
- **The hash table** (`HashTable.dfy`), with linked nodes, resizing and its amortised cost. The collector's compaction
  uses it for its address map.
- **Conversion to continuation-passing style** (`Syntax.dfy`, `Cps.dfy`, `Cps*.dfy`, `ValueRelation.dfy`). `Meaning`
  gives source programs a direct-style meaning and converted programs a run that never returns, both with closures,
  native calls and a trace; values of the two are related through their environments. `Operators.dfy` says what the
  operators that all evaluators share compute: pairs, 61-bit arithmetic, comparison, bits, types, identity.
- **Compiler and virtual machine** (`Compiler.dfy`, `CompilerCorrect.dfy`, `Compilation.dfy`, `Machine.dfy`,
  `CodeSpec.dfy`, `CodeDepth.dfy`, `VmCorrect.dfy`, `VmReached.dfy`, `Interpreter.dfy`, `CompilerExact.dfy`,
  `CompilerTotal.dfy`, `CpsForm.dfy`, `CpsTotal.dfy`, `Discipline.dfy`, `Shadowing.dfy`). `CodeSpec` says when a code
  array implements an expression under static scoping. The compiler is proved to produce such code; `CompilerExact` and
  `CpsForm` say for exactly which programs, `CompilerTotal` and `CpsTotal` which programs compile at all. The interpreter
  is proved to run the code right, and `VmReached` describes every thread of every run. `Compilation` and `Interpreter`
  are the two as they run, with mutable records and an operand stack in one array.
- **Module files** (`Fasl.dfy`, `ModuleFile.dfy`, `Assembler.dfy`, `Loader.dfy`): writer and loader undo each other,
  on exactly the modules that the fields of the format hold.

`Chain.dfy` puts the last three together, from a source program to the outcome of the virtual machine.

A native function is a parameter of the evaluators: what it returns may depend on its arguments, as far as natives can
tell them apart, and on every native call before it. `None` stands for a C `FATAL` or `ASSERT`, a raised error, or a
Scheme `error` at compile time.

Four findings are results of the proofs. A full collection updates references in the old space twice, which is right
exactly where the new address of a block is not the old one of another that moved (`HeapFull.RemappedTwiceIff`). A
body in which an earlier atom is `eq?` to the last one loses everything in between (`CpsCorrect.ConversionMeansCut`
and `CpsEarlyTail`). A non-tail call of a parameter that has the name of a native function which leaves the
continuation alone is compiled as a call of the native function, so that its continuation gets no environment of its
own: the module is right exactly for programs without such a call (`Chain.CompiledRightIffSafe`, `Shadowing`). A
procedure with a bindmap but no bindings would not load as written (`ModuleRoundTrip`); the compiler never makes one
(`Chain.CompiledModuleLoads`).

`dafny verify dfyconfig.toml` checks the project.

## Model

| member | source | states |
|---|---|---|
| HeapModel.Mark | vm/heap.c:349-436 | marking one word takes the heap forward in the termination order: the free room of the target spaces shrinks, or the set of unmarked blocks does, or the heap is as it was; roots are untouched |
| HeapModel.ScanFuture | vm/heap.c:164-176 | the scan of `future_survived` ends although its bound `blocks` grows while it runs |
| HeapModel.ScanOld | vm/heap.c:193-204 | the scan of the old space ends although promotion lengthens it while it runs |
| HeapModel.Drain | vm/heap.c:255-273 | the loop over the two grey queues ends, with the remembered list empty |
| HeapInvariant.MarkKeeps | vm/heap.c:349-436 | one step of `heap_mark` keeps the collector's invariant: layout of the four spaces, every original block in place or imaged by its one copy, nothing copied that is not reachable, and the accounting of bytes; the word it stores is the updated reference |
| HeapScan.VisitKeeps | vm/heap.c:157-162 | visiting a block keeps the invariant, and changes only the words its visitor owns |
| HeapScan.VisitCovers | vm/heap.c:157-162 | tri-colour step: after a visit every live block is black or in one of the grey sets, newly queued blocks included |
| HeapScan.ScanFutureKeeps | vm/heap.c:164-176 | the cursor scan turns `future_survived` black while it feeds both queues |
| HeapScan.ScanOldKeeps | vm/heap.c:193-204 | the scan of the old space, which must find references into younger spaces without a write barrier |
| HeapScan.WalkListKeeps | vm/heap.c:178-186 | the walk over freshly promoted or marked blocks |
| HeapCollect.MarkRootsKeep | vm/vm.c:580-601 | the roots are updated one by one under the same invariant |
| HeapCollect.DrainKeeps | vm/heap.c:262-272 | when both queues are empty no live block is grey |
| HeapCollect.GcMainKeeps | vm/heap.c:255-273 | `heap_gc_main` as a whole keeps the invariant, finishes every root and leaves no grey block |
| HeapTheorems.CollectsExactly | vm/heap.c:255-273 | a block is forwarded or marked if and only if it is reachable from the roots; in a minor collection every block of the old space counts as a root |
| HeapTheorems.CollectionIsIsomorphism | vm/heap.c:255-310 | the renaming of reached blocks is injective, commutes with every root and every visited field, and keeps kind, size and payload; a pointer of a block into itself moves by as many words as the block does |
| HeapLayout.ConstructorsAreLegal | vm/vm.c:58-113 | the blocks of `env_new` and `closure_new`, and of the constructors of records, owned and shared strings, bytevectors, pairs and continuations, written out word by word, have the layout and the interior pointers that the collector relies on |
| HeapLayout.VisitorsSeeObjects | vm/vm.c:50-79 | the visitors pass on exactly the object words of those blocks: the objects in order and then the parent of an environment, the fields of a record, both parts of a pair, the environment of a closure, nothing of a string or bytevector |
| HeapLayout.InteriorIsFirstSlot | vm/vm.c:50-58 | `objects` and `fields` lead to the first visited slot above the head, and no slot lies between |
| HeapLayout.PointersLead | vm/struct.c:43-50 | in every well-formed heap `objects` and `fields` hold the address of word 3 of their own block, and owned strings and bytevectors that of word 2 |
| HeapTheorems.MinorCollectionSettles | vm/heap.c:164-204 | after the main pass of a minor collection no root and no slot of a kept block points into the fresh or the old survivor space |
| HeapTheorems.MarkingIsExact | vm/heap.c:367-412 | first pass of a full collection, remembered bits clear at the start: an old or generation-3 block is marked if and only if reachable, a younger one forwarded if and only if reachable |
| HeapTheorems.ReferencesStay | vm/heap.c:367-412 | in that pass, slots that refer to old or generation-3 blocks are left alone |
| HeapBudget.GcMainTotal | vm/heap.c:85-97 | if the survivors' words fit the survivor space and the veterans' words fit the old space, the main pass never runs out of memory |
| HeapRuns.VeteransFit | vm/heap.c:298-304 | promotion never exhausts the old space: generation-3 words fit what a minor collection leaves free there |
| HeapRuns.FullIsDueIff | vm/heap.c:298-304 | a full collection is due exactly when the old space has less room than a survivor space full of veterans could need |
| HeapRuns.MinorGcAbortsIff | vm/heap.c:85-97 | a minor collection aborts if and only if the reachable young blocks that are not promoted exceed the survivor space |
| HeapRuns.MinorGcKeepsWellFormed | vm/heap.c:275-310 | a minor collection keeps the heap well formed: spaces tiled by their blocks, ages, no marks, resolved references, and the full-collection flag raised exactly when the old space is tight |
| HeapRuns.MinorGcIsIsomorphism | vm/heap.c:275-310 | the object graph survives the whole of `heap_gc`, resets and the swap of the survivor spaces included, pointers of blocks into themselves keep their offset, and every block that is left is the image of a reachable one; the whole old space counts as roots |
| HeapRuns.MinorGcIsTransparent | vm/heap.c:275-310 | following any path of fields from any root before and after a collection meets corresponding blocks |
| HeapRuns.RunKeepsWellFormed | vm/heap.c:275-322 | the heap stays well formed over every run of allocations, stores, root changes and minor collections |
| HeapRuns.AgeCountsCollections | vm/heap.c:403-433 | over any run, a block's age is the number of collections it survived since allocation, and it is in the old space from the fourth on |
| HeapReserve.Reservation | vm/heap.c:330-335 | after `heap_require_blocks`, the next `count` allocations of that size trigger no collection and disturb no block, provided the request fits the fresh space at all |
| HeapReserve.RequireBlocksCollectsIff | vm/heap.c:330-335 | `heap_require_blocks` leaves a heap with more than enough room alone; otherwise it collects, and then the fresh space is empty, unless the survivors do not fit |
| HeapReserve.HeapAllocSucceedsIff | vm/heap.c:312-322 | `heap_alloc` succeeds if and only if the block fits at once, or the survivors fit the survivor space and the block fits an empty fresh space |
| HeapReserve.HeapAllocGives | vm/heap.c:312-322 | after `heap_alloc` the last block of the fresh space is new and holds exactly the data; everything else is the old heap or, if it had to collect, the renamed reachable graph of the old heap |
| HeapReserve.AllocAllFits | vm/heap.c:58-81 | bump allocation: free space, header count and layout after any number of fitting allocations |
| HeapCompact.CompactionIsCorrect | vm/heap.c:211-253 | compaction leaves exactly the marked blocks, contiguous from the start of the old space, in address order, unchanged but for the cleared mark; the address map is right; free space is the size minus the live words; the blocks of the other spaces are still there, unchanged, and there are no more |
| HeapCompact.MovedKeepsOrder | vm/heap.c:234-247 | the address map preserves address order, so it is injective |
| HeapCompact.SlideIsSlid | vm/heap.c:237-246 | no move damages a block that has not moved yet |
| HeapFull.CompactionKeepsReachable | vm/heap.c:275-285 | marking and compaction one after the other: the old space then holds exactly its reachable blocks, in their order, contiguous from its start and with their contents |
| HeapFull.RemappedOnce | vm/heap.c:371-387 | a reference to a marked block, updated once through the address map, leads to that block |
| HeapFull.SlidesDown | vm/heap.c:234-247 | compaction moves blocks down, and leaves a marked block where it is if and only if no dead block lies below it |
| HeapFull.RemappedTwiceIff | vm/heap.c:255-273 | the second main pass visits a compacted block through the old space and again through the remembered list; updating a reference twice is right if and only if its new address was not that of a marked block with a dead block below |
| HeapFull.RemappedTwiceBreaks | vm/heap.c:237-246 | a heap in which it is wrong: three blocks, the first dead and as large as the second; the reference to the third ends at the second |
| Collector.Memory.constructor | vm/heap.c:46-52 | the initial memory represents the empty heap |
| Collector.Memory.MarkWord | vm/heap.c:349-436 | the word-level `heap_mark`, with headers, copies and forwarding words written in place, does to the represented heap what the specification function does, and fails exactly when it fails |
| Collector.Memory.VisitHdr | vm/heap.c:157-162 | the visitors, slot by slot in place, re-basing first |
| Collector.Memory.ScanReferences | vm/heap.c:164-176 | the cursor loop over `future_survived`, walking headers |
| Collector.Memory.ScanOldSpace | vm/heap.c:193-204 | the header walk over the old space, whose end moves |
| Collector.Memory.ScanRemembered | vm/heap.c:178-186 | the walk over the remembered list and its `forget` |
| Collector.Memory.MainPass | vm/heap.c:255-273 | `heap_gc_main` in place |
| Collector.Memory.Collect | vm/heap.c:275-310 | `heap_gc` without a full collection, in place; equal to the specification that the theorems above are about |
| Collector.Memory.SpaceAlloc | vm/heap.c:58-81 | `space_alloc` in the fresh space |
| Collector.Memory.Alloc | vm/heap.c:312-322 | `heap_alloc`: at most one collection, then a second try; the address returned is that of the last block of the fresh space, which holds exactly the data |
| Collector.Memory.Require | vm/heap.c:330-335 | `heap_require_blocks` |
| Collector.Memory.MoveCells | vm/heap.c:104-107 | `memmove` downwards, overlapping or not, is a block copy |
| Collector.Memory.CompactOld | vm/heap.c:211-253 | `heap_gc_old` in place; the hash table it returns holds exactly the address map of the specification |
| HashTable.SpacedPrimesClosest | vm/hash.c:73-83 | the smallest listed prime above the number, or the largest one |
| HashTable.Table.constructor | vm/hash.c:85-95 | an empty table is valid and maps nothing |
| HashTable.Table.LookupNode | vm/hash.c:151-177 | the link found leads to the one node of the key, or to the end of its chain |
| HashTable.Table.Lookup | vm/hash.c:179-185 | lookup agrees with the finite map the table represents, up to `equal` |
| HashTable.Table.Insert | vm/hash.c:187-207 | insert refines map update: an existing entry keeps its key and hands its old value to `destroy_val`, a new one is counted, and resizing changes the contents not at all; each insert is a step of the run below, so a table only inserted into stays within its bounds |
| HashTable.Table.Resize | vm/hash.c:115-139 | every node is relinked exactly once, into bucket `key_hash % new_size` |
| HashTable.Table.Destroy | vm/hash.c:97-113 | what is passed to `destroy_val`: the stored values in chain order, each as often as the table's map holds it |
| HashTable.Table.KeyInItsBucket | vm/hash.c:151-158 | every entry is in the chain of its key's hash modulo the size |
| HashTable.Table.PassesEachEntry | vm/hash.c:97-113 | the chains hold each entry of the map exactly once |
| HashTable.EachValueOnce | vm/hash.c:187-207 | over any run of inserts every stored value is either still held by one entry or was handed to `destroy_val` once, by overwriting |
| HashTable.InsertsAreAmortised | vm/hash.c:141-149 | over any run of inserts, of new keys and of keys that are there, the shrinking branch never fires, a resize more than triples the size unless it ends at the largest prime, the load stays below three until then, and all resizes together relink at most 3/2 of the nodes present |
| CpsCorrect.ConvertOk | scheme/compiler/cps.scm:82-147 | the code for `e` with rest `res` runs to `res` with `name` bound to the value of `e`, or passes the value to the continuation `name`, after the same native calls; only names generated for it are bound on the way |
| CpsCorrect.ConvertIf | scheme/compiler/cps.scm:97-116 | conditionals, with the join point `lname` when there is a rest |
| CpsCorrect.GlueOk | scheme/compiler/cps.scm:121-147 | the elements of a combination are computed left to right although the code is built from the last to the first |
| CpsCorrect.ApplyOk | scheme/compiler/cps.scm:53-59 | a converted procedure, given a continuation, returns to it what the source procedure returns |
| CpsCorrect.SeqOk | scheme/compiler/cps.scm:149-166 | bodies: all expressions but the last are run for their calls only, up to the first one `eq?` to the last |
| CpsCorrect.ConversionMeansCut | scheme/compiler/cps.scm:191-192 | for every program: converted, it exits with the value that its cut computes, after the same native calls in the same order, whatever the native functions return; before that it only runs. The cut is the program without what follows, in a body, an expression `eq?` to the last one |
| CpsCorrect.CutIffUntidy | scheme/compiler/cps.scm:152-166 | the cut is the program itself if and only if no body has an expression `eq?` to its last one before it |
| CpsCorrect.ConversionPreservesMeaning | scheme/compiler/cps.scm:191-192 | so conversion preserves the meaning of those programs |
| CpsFaithful.ConversionPreservesDivergence | scheme/compiler/cps.scm:191-192 | if the cut does not end within `n` nested calls, the converted program does not end within `n` calls |
| CpsFaithful.ConversionIsFaithful | scheme/compiler/cps.scm:191-192 | where the cut raises no error the converted program raises none and exits with nothing but the cut's value and calls |
| CpsEarlyTail.EarlyTailCuts | scheme/compiler/cps.scm:152-166 | the code of a body with such an expression is that of the shorter body |
| CpsEarlyTail.SameObjectIff | scheme/compiler/cps.scm:154-155 | which nodes are `eq?`: equal variables, and literals whose values `$eq?` is certain to find equal |
| CpsEarlyTail.EarlyTailDropsCall | scheme/compiler/cps.scm:154-162 | a program, for any native function, whose call is lost this way |
| CompilerState.CompileRaises | scheme/compiler/compiler.scm:174-192 | a frame is marked for the heap if and only if a lambda expression inside its procedure uses one of its variables, in the sense of static scoping |
| CompilerCode.EnvBindOk | scheme/compiler/compiler.scm:100-118 | `env-bind` yields an index whose binding names the frame depth and slot asked for; bindings are empty if and only if the bindmap is |
| CompilerCode.LookupOk | scheme/compiler/compiler.scm:174-192 | `env-lookup` finds the slot that static scoping means: local, bound, or a native function |
| CompilerCode.CompileOk | scheme/compiler/compiler.scm:303-344 | the code of an expression implements it inside any procedure, and earlier code and tables stay valid as later ones are added |
| CompilerCode.CompileIfOk | scheme/compiler/compiler.scm:219-227 | relative jumps lead exactly to the else branch and past it |
| CompilerCode.CompileLamOk | scheme/compiler/compiler.scm:213-217 | the procedure of a lambda expression is stored under the index its code loads, with the right header |
| CompilerCode.CompileCallOk | scheme/compiler/compiler.scm:229-259 | calls: arguments, then the operator; lambda expressions that are called at once, or passed as continuation to a native function, are loaded as bare functions |
| CompilerCode.StartCompileOk | scheme/compiler/compiler.scm:145-347 | the module of a closed program implements it: every procedure, and the entry point |
| CompilerTotal.CompileSucceedsIff | scheme/compiler/compiler.scm:303-344 | whatever was compiled before, `compile` raises no error if and only if every variable is bound by an enclosing procedure or names a native function, operators have their arity, literals are characters, numbers, strings or booleans, rest parameters are named, and no call is empty or a call of a variable without arguments |
| CompilerTotal.StartCompileSucceedsIff | scheme/compiler/compiler.scm:145-347 | the same for a whole module |
| CpsTotal.ConvertDefined | scheme/compiler/cps.scm:82-147 | converted code compiles if and only if its rest does and the source, as far as conversion keeps it, has no unknown variable and no unknown literal |
| CpsTotal.ConvertedCompilableIff | scheme/compiler/cps.scm:191-192 | the same for a converted program, whose generated names are all bound |
| CompilerPool.NothingTwice | scheme/compiler/compiler.scm:100-157 | no constant of a module, and no binding or frame of a procedure, is listed twice |
| Compilation.Record.Bind | scheme/compiler/compiler.scm:100-118 | `env-bind` updating the record |
| Compilation.Compilation.Constant | scheme/compiler/compiler.scm:150-157 | `make-const` updating the pool: a constant that is there already keeps its index |
| Compilation.Compilation.PushCode | scheme/compiler/compiler.scm:169-172 | `push-code` |
| Compilation.Compilation.Lookup | scheme/compiler/compiler.scm:174-192 | `env-lookup` walking the parent records and marking one of them |
| Compilation.Compilation.Compile | scheme/compiler/compiler.scm:303-344 | `compile` with its side effects on records and pools equals the specification function, errors included |
| Compilation.Start | scheme/compiler/compiler.scm:145-347 | `start-compile` |
| Discipline.ConvertTail | scheme/compiler/cps.scm:82-147 | converted code uses continuations as continuations only: they are called with one value or passed first, and are never values of the program |
| Discipline.ConvertedIsSteady | vm/vm.c:408-430 | so in every run of a converted program native functions hand on to closures or to `__exit`, whatever they return, and their results do not pile up |
| CpsForm.ConvertDirect | scheme/compiler/cps.scm:82-147 | converted programs have the form the compiler's shortcuts need: operators are ready or lambda expressions |
| CompilerExact.CompiledRightIff | scheme/compiler/compiler.scm:229-259 | when the compiler is right: the module implements the program, for some assignment of sources to procedures, if and only if no call of a parameter is mistaken for that of the native function that the parameter hides. The code may load a bare function as continuation only where static scoping means a native function |
| CompilerExact.ModulePaired | scheme/compiler/compiler.scm:100-129 | in every compiled module, of whatever program, each procedure has both bindings and a bindmap or neither |
| CpsShortcut.ConvertRisk | scheme/compiler/cps.scm:82-147 | converted code has a mistaken call exactly where the source, cut, calls a parameter with the name of such a native function other than in tail position; the branches of a conditional are tail positions |
| Chain.CompiledRightIffSafe | scheme/compiler/compiler.scm:229-238 | so a converted and compiled program is implemented by its module if and only if the source makes no such call |
| Chain.ProgramCompilesIff | scheme/compiler/compiler.scm:174-192 | a source program gives a module if and only if what conversion keeps of it has no unknown variable and no unknown literal |
| Shadowing.HidingBreaks | scheme/compiler/compiler.scm:229-238 | what such a call can lead to, for any of the native functions in question: the source computes a pair, the machine stops with a null environment |
| VmFrames.FindIsLookup | scheme/compiler/compiler.scm:57-70 | static scoping over the enclosing parameter lists and the run-time environment agree on every variable |
| VmFrames.DisplayFinds | vm/vm.c:81-90 | `env_display` never reaches null for an enclosing procedure whose frame is on the heap, and ends at its frame |
| VmFrames.FramesDecrease | vm/vm.c:61-90 | the chain of frames is strictly decreasing in depth |
| VmFrames.VariableIsRead | vm/vm.c:333-335 | `LOAD_LOCAL` and `LOAD_BIND` read the variable that static scoping means, from the stack, from the innermost frame or through the bindmap |
| VmExpressions.ExpressionOk | vm/vm.c:333-348 | running the code of an expression that calls nothing, conditionals included, inside any surrounding code pushes exactly its value, stops right behind it and changes nothing else of the thread |
| VmExpressions.OperationOk | vm/vm.c:465-577 | an operator replaces its operands by its value |
| OperatorLaws.OperateIffAccepts | vm/vm.c:465-577 | exactly which operands each operator accepts: pairs for `$car` and `$cdr`, fixnums for arithmetic and comparison, no zero divisor, for `$eq?` one whose word determines it |
| OperatorLaws.PairLaws | vm/vm.c:526-551 | `$car` and `$cdr` give back what `$cons` was given, and consing the parts of a pair gives the pair; nothing but a pair is taken apart |
| OperatorLaws.ArithmeticLaws | vm/vm.c:502-518 | each arithmetic result is the one 61-bit number congruent to the mathematical result modulo 2^61 |
| OperatorLaws.DivisionTruncates | vm/vm.c:510-512 | quotient and remainder are the only q and r with a = b*q + r, r smaller than b in size and zero or of the sign of a |
| OperatorLaws.ComparisonLaws | vm/vm.c:489-500 | `$<`, `$>` and `$=` are the three exclusive cases of the order of numbers |
| OperatorLaws.BitwiseLaws | vm/vm.c:520-524 | every bit of `$and`, `$ior` and `$xor` is that of the operands' bits, with the topmost of 61 as the sign |
| OperatorLaws.TestLaws | vm/vm.c:553-577 | each type test is true of exactly the values of its type, and of no other |
| OperatorLaws.IsListIff | vm/primitives.h:47-48 | the lists are what consing some values in front of the empty list makes |
| OperatorLaws.TruthLaws | vm/vm.c:473-487 | `$not` is true of false alone; `$eq?` decides equality, in either order, when a word determines one of the values |
| OperatorLaws.DatumValIff | vm/module.c:165-225 | a constant becomes the one value that is this constant, part by part |
| OperatorLaws.ObservationTells | vm/primitives.c:23-60 | a constant without native functions in it looks like no other value: what natives can tell of it determines it |
| OperatorLaws.NativeKinds | scheme/compiler/primitives-info.scm:36-70 | of the native functions all return to their continuation but `__exit` and the three that may change it |
| VmEntry.SwallowBinds | vm/vm.c:159-171 | surplus arguments become the list that the rest parameter names |
| OperatorLaws.ListOrder | vm/vm.c:159-171 | element k of a list is the `$car` after k times `$cdr`, and after the last there is the empty list |
| OperatorLaws.BindOrder | vm/vm.c:159-171 | parameters take the arguments in order, and a rest parameter the list of those left over, in order; exactly the numbers of arguments that are accepted |
| VmEntry.BindEnvsOk | vm/vm.c:92-99 | every frame that a compiled bindmap names exists when its procedure is entered |
| VmEntry.EnterOk | vm/vm.c:153-198 | after `enter_interp` the thread is in the frame that the parameters describe, on the stack or on the heap, in the environment the closure was made in |
| VmEntry.StackIsBounded | vm/vm.c:173-197 | after every entry of a compiled procedure, whatever was on the stack, it holds at most twice the frame plus the bindmap; arguments and bindmap are disjoint and inside it |
| CodeDepth.PeakIsNeed | vm/vm.c:313-348 | the most operands an expression ever has on the stack, the larger branch of a conditional counting, is what a scan of its code adds up to |
| CodeShape.FlowOk | vm/vm.c:333-577 | wherever an instruction of compiled code leads, forward jumps included, the operands are those of that position: what it takes off is there and of a kind it can handle, and bare functions go nowhere but into calls |
| VmReached.ModuleThreads | vm/vm.c:245-577 | every thread of every run of a compiled module, whatever becomes of the run, is in a procedure, its frame the one static scoping means, every frame of its bindmap found by `env_display`, and arguments, bindmap and exactly the operands of its position one above the other; or it is calling one. Its stack is at most twice the frame, the bindmap, the operands and one more |
| VmReached.LoadFindsVariable | vm/vm.c:440-463 | in every such thread `LOAD_LOCAL` and `LOAD_BIND` find the variable that static scoping means |
| VmReached.PopsStayAbove | vm/vm.c:343-348 | in every such thread no instruction pops below the level at which its procedure was entered |
| VmReached.OnlyErrorsStop | vm/vm.c:333-577 | inside a procedure such a thread stops for nothing but an operator's error and a full stack |
| VmReached.CallEnters | vm/vm.c:153-198 | a procedure called with arguments that it takes is entered, every frame that its bindmap names found |
| VmRuns.DirectOk | vm/vm.c:350-352 | a bare function stands for the closure over the environment the thread keeps |
| VmRuns.CallOk | vm/vm.c:354-357 | a compiled call dispatches its procedure with its arguments, bare functions only where they mean the same |
| VmRuns.EnterBuiltinOk | vm/vm.c:408-430 | a native function's result is pushed and its continuation called in the same environment |
| VmRuns.Simulates | vm/vm.c:245-577 | the interpreter mirrors a run of the program in continuation-passing style: same end, same calls, no error and no stack overflow while the program runs, provided no native function hands a native function to a native continuation |
| VmRuns.ModuleRunsAsProgram | vm/vm.c:299-312 | the same for a whole module, started the way `eval_thread` starts it |
| Machine.InterpretSteps | vm/vm.c:330-331 | the interpreter's outcome does not depend on where a run is cut |
| Interpreter.Vm.constructor | vm/vm.c:298-306 | first-time initialisation |
| Interpreter.Vm.CopyDown | vm/vm.c:184-188 | the `memcpy` that collapses the operand stack |
| Interpreter.Vm.InitBindmap | vm/vm.c:92-99 | `bindmap_init` above the stack |
| Interpreter.Vm.Enter | vm/vm.c:153-198 | `enter_interp` updating stack, environment and bindmap in place |
| Interpreter.Vm.Dispatch | vm/vm.c:358-430 | one turn of `dispatch_func` |
| Interpreter.Vm.Execute | vm/vm.c:332-577 | one instruction |
| Interpreter.Vm.Eval | vm/vm.c:245-577 | the main loop over one operand stack equals the abstract machine that the theorems are about |
| Chain.CompilationPreservesMeaning | scheme/compiler/compiler.scm:345-347 | source to machine: if the cut of a program computes a value, the compiled program exits the virtual machine with the same value, as far as native functions can tell, after the same native calls |
| Chain.CompilationPreservesDivergence | vm/vm.c:330-331 | a program whose cut does not end keeps the machine running without an error |
| Chain.CompilationIsFaithful | vm/vm.c:245-577 | where the cut of the source raises no error the machine raises none and exits with nothing but its value and calls |
| Chain.ProgramThreads | vm/vm.c:245-577 | so in every run of a compiled program the machine keeps to static scoping and to the operands of its code, whatever becomes of the run |
| Chain.CompiledModuleLoads | vm/module.c:276-299 | a compiled module, of whatever program, goes through its file unchanged if and only if the fields of the file and of the loader hold it: bindings and bindmap are empty together |
| Chain.BuildAndRun | vm/vm.c:637-644 | convert, compile, write, load and run, all by the in-place methods: exactly when there is a module and a file, and the guarantee of the theorems end to end when the widths suffice |
| Bytes.FromToBytes | scheme/compiler/fasl.scm:133-136 | little-endian integers come back |
| Fasl.PairPrepare | scheme/compiler/fasl.scm:157-166 | the prepared elements are together smaller than the pair, so that writing ends |
| Fasl.ReadDatum | vm/module.c:165-225 | reading a datum consumes at least its type byte |
| FaslRoundTrip.PreparedIsRebuilt | vm/module.c:195-210 | consing up the elements of a pair written tail-first makes the pair again, for proper and improper lists |
| FaslRoundTrip.DatumRead | scheme/compiler/fasl.scm:168-200 | reading what was written for any datum, with any bytes behind it, gives the datum as the loader keeps it and leaves exactly those bytes; it fails exactly when an unknown static is inside |
| FaslRoundTrip.LoadedIffSurvives | vm/module.c:165-225 | a datum is kept unchanged if and only if its texts have no zero byte, its statics are known and its fixnums have 61 bits |
| FaslWidths.WrittenIffWritable | scheme/compiler/fasl.scm:168-200 | a datum is written if and only if its texts have at most 254 byte characters, its vectors at most 255 elements, its characters 16 bits and its numbers 64; and the number of bytes it takes |
| FaslWidths.Layout | scheme/compiler/opcode.scm:60-71 | the bytes of each kind of datum: type, lengths, terminators, little-endian numbers |
| FaslWidths.DatumRoundTrip | vm/module.c:165-225 | so a datum whose parts fit their fields is written, and comes back unchanged, whatever follows it, if and only if it survives loading |
| ModuleFile.DecodeOpcode | scheme/compiler/opcode.scm:28-58 | instructions come back from their code and argument |
| ModuleWidths.OpcodeIsPosition | scheme/compiler/opcode.scm:28-58 | an operation code is the position of the instruction's name in `oplist`, and the argument of a type test that of the test in `type-tests` |
| ModuleRoundTrip.ProcedureRead | vm/module.c:261-305 | header, bindings, bindmap and code of a procedure come back, any bytes behind it |
| ModuleWidths.AssembledIff | scheme/compiler/fasl.scm:207-241 | a module is assembled if and only if it has at most 255 constants, all writable, and every count, size and argument fits its field |
| ModuleWidths.ModuleHeader | vm/module.c:40-44 | where the size of the constants, the numbers of constants and procedures and the entry point stand in the file |
| ModuleWidths.ProcedureHeader | vm/module.c:29-38 | where the eight fields of a procedure's header stand, and how many bytes the procedure takes |
| ModuleWidths.LoadsAsAssembled | vm/module.c:239-306 | a module goes through its file unchanged if and only if it can be written, its constants survive, frame sizes and bindings fit signed 16-bit fields, and no procedure has a bindmap without bindings |
| Loader.Cursor.Datum | vm/module.c:165-225 | `fasl_read_datum` over a moving cursor |
| Loader.Cursor.PairDatum | vm/module.c:195-210 | its loop for pairs |
| Loader.Cursor.Function | vm/module.c:261-305 | one turn of the loop of `module_parse` |
| Loader.Load | vm/module.c:239-306 | `module_parse` |
| Assembler.StringToCbv | scheme/compiler/fasl.scm:139-146 | `string->cbv` filling its byte vector; it fails exactly on texts that the length byte cannot count |
| Assembler.Prepare | scheme/compiler/fasl.scm:158-166 | the loop of `pair-prepare` |
| Assembler.Port.PutDatum | scheme/compiler/fasl.scm:168-200 | `put-object` on a port |
| Assembler.AssembleCode | scheme/compiler/fasl.scm:77-126 | `assemble-code` filling its byte vector at running offsets |
| Assembler.WriteModule | scheme/compiler/fasl.scm:207-241 | `assemble`, the header written last |

## Left out

Collector:

- The second main pass of a full collection as a whole: it visits each compacted block twice, once through the old-space
  scan and once through the remembered list filled during compaction, so a slot can be remapped twice. Marking,
  compaction and one remapping are proved right, and HeapFull.RemappedTwiceIff says exactly when two are.
- Remembered bits across several full collections: marking assumes they are clear at the start.
- Roots of the virtual machine: the collector has an explicit list of root words, and the interpreter works on values.
  Whether every live value is a root at each allocation is not part of this model.
- Addresses count 8-byte words and a pointer is held as its block's header address. The number of slots of an
  environment or record is derived from its block size. Adjacent spaces may be anywhere as long as they do not overlap.
- HeapCompact.CompactionIsCorrect: like HeapFull.CompactionKeepsReachable does not cover a heap whose old space was never
  allocated; a full collection is scheduled only once it exists (vm/heap.c:302-304).
- HeapReserve.Reservation: like the other theorems about allocation says nothing of a heap in which a full collection
  is due, because that collection is not modelled to its end; does not model the overflow of `size*count` in C `int`
  arithmetic either.
- HashTable.InsertsAreAmortised: does not model the overflow of `3 * nnodes`.

Source language and conversion:

- `set!`, `define`, `begin` in value position and internal defines: a ready tail discards a pending rest, and `begin`
  forms can reach the compiler unspliced. Hence no `SET_LOCAL`, `SET_BIND` and no frame larger than its arguments.
- `$not`, whose result is not retagged. Operators that the machine applies to values of the wrong kind without a check
  (arithmetic and comparison on anything but fixnums), and `eq?` on two heap objects, are errors here.
- Order of errors: ready operands are computed when a combination is entered, so an operator's error may come after
  native calls that the source would not have reached. Programs that raise errors are outside the theorems.
- CpsCorrect.ConversionPreservesMeaning: requires that no body has an expression `eq?` to its last one before it;
  CpsCorrect.ConversionMeansCut has no such condition and says what happens otherwise.
- Generated names are a kind of their own here; in the original a program could spell one.
- `apply`, `call/cc`, `load-library` and exception handlers: these change the continuation. Native functions return
  data, not procedures of the program: `list`, `struct-ref` and the like are given no procedures that come back.
- Mutation of data: `struct-set!`, `string-set!`, `string-copy!` and `bytevector-u8-set!` have no effect on values here; a
  native function's result may depend on their calls.
- The `list` mark and length kept in pairs: `list?` looks at the whole list here.
- Operations with other than their number of operands are refused here; the compiler ignores surplus operands.
- The order in which Scheme evaluates the arguments of `map`, `append` and `let*`-free forms is taken to be the one that
  generates names as written in Cps and Compiler; other orders only number names and constants differently.

Machine and files:

- Chain.CompilationPreservesMeaning: like the other theorems of Chain speaks of the program's cut, and of programs that
  are not risky (Chain.CompiledRightIffSafe: of the others there is no module that implements them), and requires that
  the stack of 512 slots holds twice the frame, the bindmap, the operands and one more for each procedure.
- VmRuns.Simulates: for modules that do not come from a converted program, requires that a native function whose
  continuation is a native function is handed no native function, because results pile up on the stack otherwise.
- VmReached.ModuleThreads: bounds the stack while native functions call each other only if none returns a native function.
- `bindmap_init` does not check the operand stack for overflow; here it fails instead of writing past it.
- Machine.Dispatch: one module only; functions of other modules and continuation objects do not occur.
- Debug symbols, tracing, `mmap`, threads, timing and printing.
- Fasl.ReadDatum: refuses records of other types than `vector`, which the writer never makes, and a pair without
  elements, for which the original returns an uninitialised word.
- ModuleFile.ReadShort: refuses sizes of 2^15 and more, which the original reads as negative.
- The source optimiser, the analyser, the macro expander, the reader and the printers.
