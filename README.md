# A verified model of the WebPPL core

WebPPL is a probabilistic programming language embedded in JavaScript. Its
runtime executes a CPS-transformed program and hands every random choice and
every factor to an inference coroutine. This project models in Dafny the
sequential components inside that runtime:

- the vendored `js-priority-queue`: binary heap, sorted array and paged B-heap
  strategies, and the counting wrapper;
- the execution trace, incremental-MH snapshots, cache statistics and master
  lists, the ELBO dependency graphs, baselines and mapData stacks, and parameter
  and gradient dictionaries;
- the interval parser, the type predicates, both parser-combinator libraries,
  the stack-trace parser and the error helpers;
- the compiler passes over a small JavaScript syntax tree: linearisation, both
  CPS transforms, `match`/`returnify`, free variables, the AD operator table and
  the caching predicate;
- the discrete combinatorics of the distribution modules, the regeneration and
  particle index rules, and the enumeration queue disciplines;
- esmangle's `stringRepeat`/`deepCopy` and node predicates, the vines demo's
  image packing, meshes, geometry and future scheduling, the LDA experiment's
  data handling, and the notebook editor's file and block operations.

Each JavaScript file has its own module. Code that changes state in place
(queues, traces, snapshots, meshes, the editor) is modelled by classes whose
methods state their whole new state. Pure code is modelled by functions, with
the properties the code promises proved as lemmas. Where a loop computes a
value, a method with the loop is proved equal to a specification function.

Conventions:
- JavaScript numbers that accumulate (weights, scores, baselines) are `real`;
  IEEE rounding is not modelled. Integer-valued numbers are `int`, and
  32-bit truncation is written out where the code relies on it (`>>` in
  `toBinaryArray`, `ToInt32` in `stringRepeat`, `1 << shift` in the B-heap).
- A thrown error is `Err(message)` of a `Result`; `undefined` is `None`.
- Random draws, `Math.random()`, clocks and `gensym` counters are parameters.
- Shared JavaScript behaviour is modelled once: `split`/`join`/`indexOf`
  (JsString, JsSearch), the special number values (JsNum), insertion-ordered
  objects (Dict), the syntax tree (JsAst) and 31-bit bitwise operators (Bits).
- The functions that src/dists.ad.js and src/erp.ad.js copy from each other and
  from the distribution modules are modelled once:
  - `lnfactExact` (src/dists.ad.js:1164) by Binomial;
  - `allDiscreteCombinations` (src/dists.ad.js:1107, src/erp.ad.js:897) and
    `buildHistogramFromCombinations` (src/dists.ad.js:1120, src/erp.ad.js:910)
    by Multinomial;
  - `discreteSample` (src/dists.ad.js:1272, src/erp.ad.js:1046) by Discrete;
  - `fact` (src/dists.ad.js:1134) by Numeric.
- The strategies bundled in node_modules/js-priority-queue/priority-queue.js
  are the same code as the separate strategy files. The bundle's
  `PriorityQueue` defaults are modelled by `AbstractPriorityQueue.NewPriorityQueue`.
- The categorical table of src/erp.ad.js:1113-1118 is built as `Erp.TableUpTo` describes.
- The older src/parser-combinator.js shares `finish`, `zero`, `item`, `result`,
  `bind`, `star` (the loop of `rep`), `maybe`, `apply`, `single` and `not` with
  src/analysis/parser-combinator.js up to the order of the continuation's
  arguments. It is modelled by ParserCombinator plus LegacyParserCombinator's
  binary `or` and its `seq`.
- `freeVars` in src/freevars.js never consults `bound`, and it is modelled that way.


## Model

| member | source | states |
|---|---|---|
| Comparators.DefaultCompareIsComparator | node_modules/js-priority-queue/js/PriorityQueue/BinaryHeapStrategy.js:13-15 | the strategies' default comparator `a - b` is a total preorder and orders integers ascending |
| Comparators.BundleDefaultCompareMeaning | node_modules/js-priority-queue/priority-queue.js:386-388 | the bundle's default `(a\|\|0)-(b\|\|0)` is a total preorder, orders present numbers ascending and treats a missing one as 0 |
| AbstractPriorityQueue.Build | node_modules/js-priority-queue/js/PriorityQueue/AbstractPriorityQueue.js:11-20 | a missing strategy, then a missing comparator, is reported with the source's message (through `CheckOptions`); otherwise the array and binary-heap strategies always succeed and the B-heap strategy succeeds exactly when the page size (0 meaning 512) is a power of two from 4 on; a success is a fresh, valid queue of the requested strategy and comparator whose strategy holds exactly the initial values |
| AbstractPriorityQueue.NewAsWritten | node_modules/js-priority-queue/js/PriorityQueue/AbstractPriorityQueue.js:11-20 | the constructor as written: the B-heap strategy succeeds exactly when the page size (0 meaning 512) is a power of two, as `BHeapStrategy.js` checks it; on success the counter is 0 whatever the initial values are, while the strategy holds all of them |
| AbstractPriorityQueue.InitialValuesLost | node_modules/js-priority-queue/js/PriorityQueue/AbstractPriorityQueue.js:19-30 | a queue built from one initial value answers 'Empty queue' to `dequeue` while its strategy still holds that value |
| AbstractPriorityQueue.New | node_modules/js-priority-queue/js/PriorityQueue/AbstractPriorityQueue.js:11-20 | the corrected constructor: the B-heap strategy succeeds exactly when the page size (0 meaning 512) is a power of two from 4 on; on success the counter equals the number of initial values and the strategy's element count |
| AbstractPriorityQueue.PowerFromFour | node_modules/js-priority-queue/js/PriorityQueue/BHeapStrategy.js:16-24 | for every page size other than 1 and 2, the page-size check as written (any power of two) and the corrected one (a power of two from 4 on) accept the same sizes |
| AbstractPriorityQueue.InitialValuesKept | node_modules/js-priority-queue/js/PriorityQueue/AbstractPriorityQueue.js:28-34 | with the corrected counter, the initial value comes back out of `dequeue` |
| AbstractPriorityQueue.PriorityQueue.Queue | node_modules/js-priority-queue/js/PriorityQueue/AbstractPriorityQueue.js:22-26 | the counter and the strategy's count each grow by one, the contents gain the value, and a counter in step with the strategy stays in step |
| AbstractPriorityQueue.PriorityQueue.Dequeue | node_modules/js-priority-queue/js/PriorityQueue/AbstractPriorityQueue.js:28-34 | at counter 0: 'Empty queue' and nothing changes; otherwise the counter drops by one and the result is a minimum of the old contents, removed from them |
| AbstractPriorityQueue.PriorityQueue.Peek | node_modules/js-priority-queue/js/PriorityQueue/AbstractPriorityQueue.js:36-41 | 'Empty queue' at counter 0, otherwise a held element no greater than every held element |
| AbstractPriorityQueue.WithDefaults | node_modules/js-priority-queue/priority-queue.js:383-390 | a missing strategy becomes the binary heap and a missing comparator the bundle's `(a \|\| 0) - (b \|\| 0)`; given ones are kept, and the result always passes the checks |
| AbstractPriorityQueue.NewPriorityQueue | node_modules/js-priority-queue/priority-queue.js:383-390 | `new PriorityQueue(options)`: defaults, then the constructor as written: counter 0, contents the initial values; no missing-option error, and the only failure is a B-heap page size that is not a power of two |
| ArrayStrategy.BinarySearchForIndexReversed | node_modules/js-priority-queue/js/PriorityQueue/ArrayStrategy.js:10-23 | on a descending array the bisection returns the insert position (every element before it compares `>= 0` against the value, every one after it `< 0`), and it equals the linear reference scan |
| ArrayStrategy.LinearInsertPositionCorrect | node_modules/js-priority-queue/js/PriorityQueue/ArrayStrategy.js:10-23 | the linear reference scan finds an insert position on every descending array |
| ArrayStrategy.InsertKeepsDescending | node_modules/js-priority-queue/js/PriorityQueue/ArrayStrategy.js:33-38 | splicing the value in at its insert position keeps the array descending |
| ArrayStrategy.SortThenReverse | node_modules/js-priority-queue/js/PriorityQueue/ArrayStrategy.js:29-30 | `sort(comparator).reverse()` of the initial values is descending and a permutation of them |
| ArrayStrategy.LastIsMin | node_modules/js-priority-queue/js/PriorityQueue/ArrayStrategy.js:40-46 | the last element of a descending array is no greater than any element |
| ArrayStrategy.ArrayStrategy.constructor | node_modules/js-priority-queue/js/PriorityQueue/ArrayStrategy.js:25-31 | the data is the initial values sorted and reversed, a descending permutation of them |
| ArrayStrategy.ArrayStrategy.Queue | node_modules/js-priority-queue/js/PriorityQueue/ArrayStrategy.js:33-38 | the new data is the old data with the value spliced in at an insert position; the multiset gains the value and the data stays descending |
| ArrayStrategy.ArrayStrategy.Dequeue | node_modules/js-priority-queue/js/PriorityQueue/ArrayStrategy.js:40-42 | empty: `undefined` and no change; otherwise the last element is popped, and it is a minimum of the old contents |
| ArrayStrategy.ArrayStrategy.Peek | node_modules/js-priority-queue/js/PriorityQueue/ArrayStrategy.js:44-46 | `undefined` on an empty array, otherwise the last element, a minimum |
| ArrayStrategy.TiesGoAfter | node_modules/js-priority-queue/js/PriorityQueue/ArrayStrategy.js:14-20 | a value is placed after every element equal to it, so equal elements are dequeued newest first |
| BinaryHeap.RootIsMinOfAll | node_modules/js-priority-queue/js/PriorityQueue/BinaryHeapStrategy.js:48-50 | in heap order the root is no greater than any element |
| BinaryHeap.LastToRoot | node_modules/js-priority-queue/js/PriorityQueue/BinaryHeapStrategy.js:37-46 | moving the last element to the root drops exactly the old root and breaks heap order only below the root |
| BinaryHeap.BinaryHeapStrategy.constructor | node_modules/js-priority-queue/js/PriorityQueue/BinaryHeapStrategy.js:11-19 | the data is a heap-ordered permutation of the initial values |
| BinaryHeap.BinaryHeapStrategy.Heapify | node_modules/js-priority-queue/js/PriorityQueue/BinaryHeapStrategy.js:21-29 | bubbling up each index in turn leaves the data heap-ordered and a permutation of what it was |
| BinaryHeap.BinaryHeapStrategy.Queue | node_modules/js-priority-queue/js/PriorityQueue/BinaryHeapStrategy.js:31-35 | one element more, the multiset gains the value, heap order kept |
| BinaryHeap.BinaryHeapStrategy.Dequeue | node_modules/js-priority-queue/js/PriorityQueue/BinaryHeapStrategy.js:37-46 | empty: `undefined` and no change; otherwise the old root, a minimum, is returned and removed from the multiset, and heap order is kept |
| BinaryHeap.BinaryHeapStrategy.Peek | node_modules/js-priority-queue/js/PriorityQueue/BinaryHeapStrategy.js:48-50 | `undefined` on an empty heap, otherwise the root, a minimum |
| BinaryHeap.BinaryHeapStrategy.BubbleUp | node_modules/js-priority-queue/js/PriorityQueue/BinaryHeapStrategy.js:52-66 | a prefix heap-ordered except at the position is heap-ordered afterwards; the multiset and everything past the prefix are unchanged |
| BinaryHeap.BinaryHeapStrategy.SwapUpKeepsOrder | node_modules/js-priority-queue/js/PriorityQueue/BinaryHeapStrategy.js:56-60 | one swap with the parent moves the single heap violation up to the parent |
| BinaryHeap.BinaryHeapStrategy.BubbleDown | node_modules/js-priority-queue/js/PriorityQueue/BinaryHeapStrategy.js:68-91 | a heap broken only at the position is heap-ordered afterwards, with the same multiset |
| BinaryHeap.BinaryHeapStrategy.BubbleDownStep | node_modules/js-priority-queue/js/PriorityQueue/BinaryHeapStrategy.js:72-88 | one pass stops when no child is strictly smaller, with the heap whole, or swaps with the smaller child and moves the violation there |
| BinaryHeap.BinaryHeapStrategy.ChildrenNotSmaller | node_modules/js-priority-queue/js/PriorityQueue/BinaryHeapStrategy.js:81-87 | when neither child is strictly smaller the violation disappears |
| BinaryHeap.BinaryHeapStrategy.SwapDownKeepsOrder | node_modules/js-priority-queue/js/PriorityQueue/BinaryHeapStrategy.js:81-85 | swapping with the smaller child moves the violation down to that child |
| BinaryHeap.DrainAll | node_modules/js-priority-queue/js/PriorityQueue/BinaryHeapStrategy.js:37-46 | dequeuing a heap built from the values until empty yields a sorted permutation of them |
| BinaryHeap.InitialValuesExample | node_modules/js-priority-queue/spec/helpers/StrategyHelper.js:27-30 | the shared test's initial values 5, 2, 3, 4, 1, 6, 7 come out as 1 to 7 |
| BHeapLayout.Parent | node_modules/js-priority-queue/js/PriorityQueue/BHeapStrategy.js:80-90 | the parent of every slot from 2 on is a smaller slot, at least 1, so `_bubbleUp` climbs toward the root |
| BHeapLayout.PageZero | node_modules/js-priority-queue/js/PriorityQueue/BHeapStrategy.js:82 | a slot is on page 0 exactly when it is below the page size, and every slot is its page's first slot plus its offset |
| BHeapLayout.ParentAsWrittenIsParent | node_modules/js-priority-queue/js/PriorityQueue/BHeapStrategy.js:80-90 | the three branches of `_bubbleUp`'s bit arithmetic compute the page-and-offset parent, for every page size of at least 4 |
| BHeapLayout.InPageParent | node_modules/js-priority-queue/js/PriorityQueue/BHeapStrategy.js:83 | inside a page, the parent of offset k is offset k/2 of the same page |
| BHeapLayout.BottomRowParent | node_modules/js-priority-queue/js/PriorityQueue/BHeapStrategy.js:85-87 | slots 0 and 1 of a later page hang below the bottom-row slot that owns the page |
| BHeapLayout.ChildMasks | node_modules/js-priority-queue/js/PriorityQueue/BHeapStrategy.js:106-108 | the masks `_bubbleDown` tests mean: offset below 2, page beyond 0, offset in the bottom row |
| BHeapLayout.BottomRowChild | node_modules/js-priority-queue/js/PriorityQueue/BHeapStrategy.js:109-111 | the bit trick for the bottom row yields the page whose first two slots are the children |
| BHeapLayout.ChildrenAsWrittenAreChildren | node_modules/js-priority-queue/js/PriorityQueue/BHeapStrategy.js:106-116 | the three branches of `_bubbleDown`'s bit arithmetic compute the page-and-offset children, for every page size of at least 4 |
| BHeapLayout.ChildrenAbove | node_modules/js-priority-queue/js/PriorityQueue/BHeapStrategy.js:106-116 | both children of a slot come after it |
| BHeapLayout.ParentOfChild | node_modules/js-priority-queue/js/PriorityQueue/BHeapStrategy.js:80-116 | each computed child of a slot has that slot as its computed parent |
| BHeapLayout.ChildOfParent | node_modules/js-priority-queue/js/PriorityQueue/BHeapStrategy.js:80-116 | every slot from 2 on is a computed child of its computed parent |
| BHeapLayout.ParentChildAgree | node_modules/js-priority-queue/js/PriorityQueue/BHeapStrategy.js:80-116 | c is a child of i exactly when i is the parent of c: the two step functions describe one tree |
| BHeapLayout.PageSizeOneParentOfTwo | node_modules/js-priority-queue/js/PriorityQueue/BHeapStrategy.js:80-90 | with page size 1 the parent formula maps slot 2 to slot 2 itself |
| BHeapLayout.PageSizeTwoMismatch | node_modules/js-priority-queue/js/PriorityQueue/BHeapStrategy.js:80-116 | with page size 2 slot 4's parent is slot 3, but slot 3's only computed child is slot 5 |
| BHeapStrategy.Slots | node_modules/js-priority-queue/js/PriorityQueue/BHeapStrategy.js:73-75 | the view of slots 0..length reads each slot through its page and offset |
| BHeapStrategy.RootIsMinOfAll | node_modules/js-priority-queue/js/PriorityQueue/BHeapStrategy.js:60-62 | in a heap slot 1 is not greater than any other used slot, so it is a minimum of the elements |
| BHeapStrategy.SwapPermutes | node_modules/js-priority-queue/js/PriorityQueue/BHeapStrategy.js:94-95 | exchanging two used slots keeps every slot filled and the multiset of elements unchanged |
| BHeapStrategy.SlotsAfterWrite | node_modules/js-priority-queue/js/PriorityQueue/BHeapStrategy.js:64-71 | a write changes the written slot of the view and no other |
| BHeapStrategy.LastToRoot | node_modules/js-priority-queue/js/PriorityQueue/BHeapStrategy.js:48-58 | moving the last value into slot 1 removes exactly the old root's value and breaks the order only below slot 1 |
| BHeapStrategy.ParentBelow | node_modules/js-priority-queue/js/PriorityQueue/BHeapStrategy.js:91-93 | when the parent is strictly smaller, stopping leaves a heap |
| BHeapStrategy.SwapUpKeepsOrder | node_modules/js-priority-queue/js/PriorityQueue/BHeapStrategy.js:94-98 | one swap of `_bubbleUp` moves the one place where order may fail from a slot to its parent |
| BHeapStrategy.SwapDownKeepsOrder | node_modules/js-priority-queue/js/PriorityQueue/BHeapStrategy.js:117-142 | one swap of `_bubbleDown` moves the one place where order may fail from a slot to the chosen child |
| BHeapStrategy.ChildrenNotSmaller | node_modules/js-priority-queue/js/PriorityQueue/BHeapStrategy.js:117-142 | when no child is strictly smaller, stopping leaves a heap |
| BHeapStrategy.ChildrenOf | node_modules/js-priority-queue/js/PriorityQueue/BHeapStrategy.js:106-116 | the computed children are the only slots whose parent is the given slot, both come after it, and both have it as parent |
| BHeapStrategy.BHeapStrategy.constructor | node_modules/js-priority-queue/js/PriorityQueue/BHeapStrategy.js:11-39 | starts empty with the given comparator and page size `2^shift`, then queues the initial values, so the heap holds exactly them and length is their count |
| BHeapStrategy.BHeapStrategy.Read | node_modules/js-priority-queue/js/PriorityQueue/BHeapStrategy.js:73-75 | succeeds exactly when the slot's page exists, and then returns that slot |
| BHeapStrategy.BHeapStrategy.Write | node_modules/js-priority-queue/js/PriorityQueue/BHeapStrategy.js:64-71 | pages are added up to the slot's page and no further; afterwards the slot holds the value and every other slot is as before (helper `EmptyPage`) |
| BHeapStrategy.BHeapStrategy.SwapSlots | node_modules/js-priority-queue/js/PriorityQueue/BHeapStrategy.js:94-95 | the two writes of a swap step change exactly the two slots and keep the multiset of elements |
| BHeapStrategy.BHeapStrategy.Queue | node_modules/js-priority-queue/js/PriorityQueue/BHeapStrategy.js:41-46 | length grows by one, the elements gain exactly the value, and heap order holds |
| BHeapStrategy.BHeapStrategy.Dequeue | node_modules/js-priority-queue/js/PriorityQueue/BHeapStrategy.js:48-58 | returns the old slot 1, a minimum, removes exactly it, length drops by one and heap order holds |
| BHeapStrategy.BHeapStrategy.Peek | node_modules/js-priority-queue/js/PriorityQueue/BHeapStrategy.js:60-62 | is an error exactly when no page was ever written; on a non-empty heap returns slot 1, a minimum |
| BHeapStrategy.BHeapStrategy.BubbleUp | node_modules/js-priority-queue/js/PriorityQueue/BHeapStrategy.js:77-100 | restores heap order after a value is placed at a slot and keeps the multiset of elements |
| BHeapStrategy.BHeapStrategy.BubbleUpStep | node_modules/js-priority-queue/js/PriorityQueue/BHeapStrategy.js:91-98 | one pass either stops on a heap or moves the value to the parent, a smaller slot, leaving order broken only there |
| BHeapStrategy.BHeapStrategy.BubbleDown | node_modules/js-priority-queue/js/PriorityQueue/BHeapStrategy.js:102-145 | restores heap order after a value is placed at a slot and keeps the multiset of elements |
| BHeapStrategy.BHeapStrategy.BubbleDownStep | node_modules/js-priority-queue/js/PriorityQueue/BHeapStrategy.js:117-142 | one pass either stops on a heap or moves the value to the smaller child, a later slot, leaving order broken only there |
| BHeapStrategy.BHeapStrategy.PickOfOne | node_modules/js-priority-queue/js/PriorityQueue/BHeapStrategy.js:131-139 | with one child in the heap: stop on a heap, or swap with the child when it is strictly smaller |
| BHeapStrategy.BHeapStrategy.PickOfTwo | node_modules/js-priority-queue/js/PriorityQueue/BHeapStrategy.js:117-130 | with two children: swap with the smaller (the first on a tie) when it is strictly smaller than the value, otherwise stop on a heap |
| BHeapStrategy.PageShift | node_modules/js-priority-queue/js/PriorityQueue/BHeapStrategy.js:19-24 | succeeds exactly when the page size is a power of two, returning its exponent; otherwise the constructor's error message |
| BHeapStrategy.ShiftOneIsPow2 | node_modules/js-priority-queue/js/PriorityQueue/BHeapStrategy.js:19-21 | up to 30, JavaScript's `1 << shift` is 2 to the shift |
| BHeapStrategy.PageShiftNeverEnds | node_modules/js-priority-queue/js/PriorityQueue/BHeapStrategy.js:19-21 | for a page size above 2^30, `1 << shift` stays below it for every shift, so the loop never ends |
| BHeapStrategy.CreateBHeapAsWritten | node_modules/js-priority-queue/js/PriorityQueue/BHeapStrategy.js:16-24 | as written: 0 means 512, and every power of two is accepted, page sizes 1 and 2 included |
| BHeapStrategy.CreateBHeap | node_modules/js-priority-queue/js/PriorityQueue/BHeapStrategy.js:11-39 | corrected: accepts exactly powers of two of at least 4 (0 means 512) and then builds a valid heap holding exactly the initial values |
| Trace.AddressMapStep | src/trace.js:114 | registering one more choice sets exactly that choice's address |
| Trace.RegisterAll | src/trace.js:114 | the `forEach` of `upto` builds the address map of the choices registered in order |
| Trace.AddressMapIsLast | src/trace.js:114 | an address is a key exactly when some choice has it, and then it maps to the last choice with that address |
| Trace.AddressMapSize | src/trace.js:144 | with distinct addresses the map has one key per choice, the count `checkConsistency` compares with length |
| Trace.Trace.constructor | src/trace.js:8-22 | a new trace keeps the store and address and has no choices, an empty address map, length 0, score 0 and no factors, and is consistent |
| Trace.Trace.Fresh | src/trace.js:24-27 | a new empty trace for the same store and base address |
| Trace.ChoiceAtIndexIsFound | src/trace.js:29-35 | in a trace kept by its own methods with one choice per address, `findChoice` of the address of the choice at an index gives that same choice back |
| Trace.Trace.SaveContinuation | src/trace.js:37-41 | sets the store and continuation and nothing else |
| Trace.Trace.AddChoice | src/trace.js:53-83 | appends a record holding the score and factor count from before the call, maps the address to it, adds one to length and the choice score to the score, leaves the factors' part of the score unchanged and keeps consistency for a new address (helper `ScoreAllFactors`) |
| Trace.Trace.Complete | src/trace.js:95-101 | fails, changing nothing, when a value is set; otherwise stores the value and clears continuation and store so the trace is complete; choices, score and length stay |
| Trace.Trace.Upto | src/trace.js:107-120 | fails unless i < length; otherwise a new trace holding the first i choices, their address map, length i, and the score and factor count recorded by choice i |
| Trace.Trace.Copy | src/trace.js:122-135 | a new trace with equal choices, address map, length, score, factors, value, continuation and store, valid and consistent when the original is |
| Trace.ValidIsConsistent | src/trace.js:137-149 | a trace kept by its own operations with one choice per address passes the choice checks of `checkConsistency` |
| Trace.FindChoiceIsLatest | src/trace.js:33-35 | `findChoice` finds an address exactly when a choice has it, and returns the latest choice made there (helper `Trace.FindChoice`) |
| IncrementalMH.Coroutine.RestoreStackUpTo | src/inference/incrementalmh.js:1062-1069 | the node stack becomes the chain of parents from the root down to the node, in that order; touched nodes are unchanged |
| IncrementalMH.Touch | src/inference/incrementalmh.js:42-47 | a node without a snapshot is registered with the coroutine once and gets the snapshot `{reachable: true}`; a node with one is left as it is |
| IncrementalMH.UpdatePropertyAsWritten | src/inference/incrementalmh.js:49-54 | as written: the property is set, and the old value is saved unless the snapshot already holds a truthy value for it, so a saved falsy value is overwritten |
| IncrementalMH.FalsyOriginalLost | src/inference/incrementalmh.js:49-54 | updating a property whose original is 0 twice and restoring yields the intermediate value 5, not 0 |
| IncrementalMH.UpdateProperty | src/inference/incrementalmh.js:49-54 | corrected: the old value is saved only when the snapshot has no entry for the property, so a restore still yields the values from before the first update |
| IncrementalMH.SaveThenSet | src/inference/incrementalmh.js:49-54 | saving a value before its first update and then updating leaves what a restore produces unchanged |
| IncrementalMH.FalsyOriginalKept | src/inference/incrementalmh.js:49-54 | with the corrected update the original 0 comes back after two updates and a restore |
| IncrementalMH.HasSnapshotForProperty | src/inference/incrementalmh.js:56-59 | true only when a snapshot exists and holds the property |
| IncrementalMH.RestoreSnapshot | src/inference/incrementalmh.js:61-66 | every saved property is written back over the current ones and the snapshot is dropped |
| IncrementalMH.WriteBack | src/inference/incrementalmh.js:62-64 | the loop writes each saved property back, so the properties become the old ones overridden by the snapshot |
| IncrementalMH.DiscardSnapshot | src/inference/incrementalmh.js:68-70 | the snapshot is dropped and the properties are kept |
| IncrementalMH.StoresEqual | src/inference/incrementalmh.js:285-296 | true exactly when both stores hold the same value for every key of either |
| IncrementalMH.SameViewSymmetric | src/inference/incrementalmh.js:285-296 | the store comparison is symmetric |
| IncrementalMH.DistParamsEqual | src/inference/incrementalmh.js:198-222 | true exactly when the objects are identical or every key of the first holds a number or array equal to the second's |
| IncrementalMH.DistParamsEqualOneSided | src/inference/incrementalmh.js:198-222 | the parameter test is one-sided: `{a:1}` against `{a:1,b:2}` passes, the reverse does not |
| IncrementalMH.NotifyChildChanged | src/inference/incrementalmh.js:507-519 | every child after the changed one is touched and marked unreachable; the children up to it are unchanged |
| IncrementalMH.MarkFrom | src/inference/incrementalmh.js:513-517 | the loop marks every node from the start position on and no other |
| IncrementalMH.MarkUnreachable | src/inference/incrementalmh.js:514-515 | touching a node and clearing its reachable flag changes only that property |
| IncrementalMH.FindNode | src/inference/incrementalmh.js:1020-1046 | nothing before initialisation; otherwise found exactly when a child at or after `nextChildIdx` has the address, the first such is returned and swapped into position `nextChildIdx`; when nothing is found the children are unchanged |
| IncrementalMH.CacheAdapter.constructor | src/inference/incrementalmh.js:667-675 | keeps the three thresholds; no ids, no statistics, nothing marked |
| IncrementalMH.CacheAdapter.Id | src/inference/incrementalmh.js:677-685 | the id is the address's last `_`-separated segment, and it is memoised for the address |
| IncrementalMH.CacheAdapter.GetStats | src/inference/incrementalmh.js:687-695 | the id's statistics, created as `{shouldCache: true, hits: 0, total: 0}` on first use and left alone otherwise |
| IncrementalMH.CacheAdapter.ShouldCache | src/inference/incrementalmh.js:697-699 | true for an id never seen, otherwise its stored flag |
| IncrementalMH.CacheAdapter.Register | src/inference/incrementalmh.js:701-722 | a hit adds one to hits and total, a miss one to total; the id is marked exactly when the node is not the root, the iteration fuse is spent, total reaches the fuse length and the hit rate is below the minimum |
| IncrementalMH.CacheAdapter.Adapt | src/inference/incrementalmh.js:724-750 | caching is switched off for exactly the marked ids, every other statistic is kept, and the marks are cleared |
| IncrementalMH.ArrayDistMasterList.constructor | src/inference/incrementalmh.js:561-563 | an empty list with nothing saved |
| IncrementalMH.ArrayDistMasterList.AddDist | src/inference/incrementalmh.js:570-572 | appends the node |
| IncrementalMH.ArrayDistMasterList.RemoveDist | src/inference/incrementalmh.js:574-578 | touches the node and marks it unreachable; the list itself changes at `postProposal` |
| IncrementalMH.ArrayDistMasterList.PreProposal | src/inference/incrementalmh.js:580-582 | saves a copy of the list |
| IncrementalMH.ArrayDistMasterList.PostProposal | src/inference/incrementalmh.js:584-588 | keeps exactly the reachable nodes |
| IncrementalMH.ArrayDistMasterList.GetRandom | src/inference/incrementalmh.js:590-593 | for a draw in [0, 1): a node of the list, undefined exactly when it is empty |
| IncrementalMH.ArrayDistMasterList.RestoreOnReject | src/inference/incrementalmh.js:595-597 | the list goes back to the one saved by `preProposal` (helper `OldSize`) |
| IncrementalMH.KeepReachable | src/inference/incrementalmh.js:585-587 | the filter keeps the reachable nodes and only them |
| IncrementalMH.HashtableDistMasterList.constructor | src/inference/incrementalmh.js:600-605 | an empty table, empty logs and a count of 0 |
| IncrementalMH.HashtableDistMasterList.AddDist | src/inference/incrementalmh.js:610-615 | puts the node under its address, logs it as added and adds one to the count |
| IncrementalMH.HashtableDistMasterList.RemoveDist | src/inference/incrementalmh.js:617-622 | removes the address, logs the node as removed and subtracts one from the count |
| IncrementalMH.HashtableDistMasterList.PreProposal | src/inference/incrementalmh.js:624-628 | remembers the count and starts empty logs |
| IncrementalMH.HashtableDistMasterList.RestoreOnReject | src/inference/incrementalmh.js:634-647 | restores the count, and when the log explains the table, the table is exactly the one from `preProposal` again |
| IncrementalMH.HashtableDistMasterList.ClearAdded | src/inference/incrementalmh.js:637-641 | the first loop deletes every added address |
| IncrementalMH.HashtableDistMasterList.PutBackRemoved | src/inference/incrementalmh.js:642-646 | the second loop puts the removed nodes back, the oldest removal winning on a repeated address |
| IncrementalMH.UndoLog | src/inference/incrementalmh.js:634-647 | deleting the added addresses and putting back the removed nodes gives back the table from before the proposal |
| ElboGraph.InitialWeight | src/inference/elbograph.js:7-68 | the root, join and split nodes start at weight 0; in debug mode sample and factor nodes start at 1 |
| ElboGraph.AddToParentsCounts | src/inference/elbograph.js:83-85 | the `forEach` over the parents adds the weight to each index once per occurrence in the parent list |
| ElboGraph.PropagateWeights | src/inference/elbograph.js:70-87 | the in-place pass leaves the weights the recursive definition gives for visiting nodes last to 1 |
| ElboGraph.PropagateMeaning | src/inference/elbograph.js:70-87 | after the pass every node holds its own weight plus what its children pushed, split nodes rescaled first |
| ElboGraph.RootCollectsAll | src/inference/elbograph.js:70-87 | in a parent-before-child chain without split nodes the root ends with the sum of all local weights |
| ElboGraph.RootNeverPushes | src/inference/elbograph.js:72-73 | the loop stops before node 0: changing the root's weight changes its own result by as much and nothing else |
| ElboGraph.SplitCountsJoinOnce | src/inference/elbograph.js:75-82 | when the batch is the whole data set, the rescaled split weight counts the join's weight once |
| ElboGraph.GenerateDot | src/inference/elbograph.js:101-121 | the output is `digraph {`, the rendered lines of every node joined by newlines, and `}` |
| ElboGraph.CollectLines | src/inference/elbograph.js:104-119 | the first loop gathers each node's shape, label and edge lines, node by node |
| ElboGraph.RenderLines | src/inference/elbograph.js:89-99 | each gathered line is rendered as its text |
| ElboGraph.DotEdgesAreLinks | src/inference/elbograph.js:116-118 | the output has exactly one edge line per (parent, node) link, in node order |
| Elbo2.PropagateDependencies | src/inference/elbo2.ad.js:131-144 | the in-place pass, last node down to 1, leaves every node's deps as its own deps united with those of all its children (helper `InitialDeps`) |
| Elbo2.FinalDepsScored | src/inference/elbo2.ad.js:135-144 | every dependency of a node is a sample or factor node at or after it |
| Elbo2.ChildDepsInclude | src/inference/elbo2.ad.js:140-142 | a child's final deps are contained in each parent's, so deps only grow |
| Elbo2.DepsReachRoot | src/inference/elbo2.ad.js:135-144 | every node's final deps are contained in the root's |
| Elbo2.RootDependsOnAll | src/inference/elbo2.ad.js:135-144 | after propagation the root depends on exactly the sample and factor nodes |
| Elbo2.OwnDependency | src/inference/elbo2.ad.js:88 | a sample or factor node stays among its own final deps |
| Elbo2.PropagatedDepsPass | src/inference/elbo2.ad.js:194-213 | the deps computed by `propagateDependencies` never make `buildObjective` throw (helper `CheckDeps`) |
| Elbo2.ElboIsMinusWeights | src/inference/elbo2.ad.js:238-244 | the reported elbo is minus the sum of the sample and factor nodes' weights |
| Elbo2.SameElboAsFirstEstimator | src/inference/elbo2.ad.js:238-244 | on a chain where every node has one parent, the elbo equals minus the root's weight after the first estimator's weight propagation |
| Elbo2.BatchMultiplier | src/inference/elbo2.ad.js:407 | the batch factor is never negative, 1 for an empty batch |
| Elbo2.EnterBatch | src/inference/elbo2.ad.js:405-415 | the pushed entry records the node before the mapData and a fresh join, and keeps the enclosing multiplier when the batch size is 0 |
| Elbo2.Estimate.constructor | src/inference/elbo2.ad.js:282-294 | an estimate starts with only the root as the current node and a stack holding multiplier 1 |
| Elbo2.Estimate.Push | src/inference/elbo2.ad.js:347-348 | a node is appended below the current node and becomes the current node |
| Elbo2.Estimate.Sample | src/inference/elbo2.ad.js:338-348 | logp, logq and logr are scaled by the multiplier; the error names the first of them that is not finite and adds no node, otherwise one sample node is added |
| Elbo2.Estimate.Factor | src/inference/elbo2.ad.js:376-382 | the score is scaled by the multiplier; a non-finite one throws and adds no node; otherwise a factor node with the second of its two ids is added and becomes current |
| Elbo2.Estimate.MapDataFetch | src/inference/elbo2.ad.js:384-418 | returns the memoised batch indices and pushes the current node, a join and the multiplier scaled by length over batch size |
| Elbo2.Estimate.MapDataEnter | src/inference/elbo2.ad.js:420-424 | each observation starts from the node recorded before the mapData |
| Elbo2.Estimate.MapDataLeave | src/inference/elbo2.ad.js:426-432 | the current node becomes a parent of the join node on top of the stack |
| Elbo2.Estimate.MapDataFinal | src/inference/elbo2.ad.js:434-443 | pops the stack and appends the join node as current, linked to the node before the mapData when it has no parents |
| MiniBatch.FloorIndex | src/inference/elbo.ad.js:318-320 | `Math.floor(u * n)` for a draw in [0, 1) is a valid index |
| MiniBatch.BatchIndices | src/inference/elbo.ad.js:318-320 | one in-range index per draw |
| MiniBatch.FetchIndices | src/inference/elbo.ad.js:310-325 | a memoised address returns its stored indices and changes nothing; otherwise null exactly when the batch is the whole data set, else batchSize in-range indices, and the result is memoised |
| MiniBatch.SameBatchAcrossSamples | src/inference/elbo2.ad.js:386-403 | after one fetch, any later fetch at the same address returns the same batch whatever it draws, and a fetch elsewhere keeps the memo |
| ElboBaselines.MeanIsAverage | src/inference/elbo.ad.js:210-218 | the running mean kept per address is the average of the weights folded in |
| ElboBaselines.Accumulate | src/inference/elbo.ad.js:210-218 | the first weight at an address gives `{n: 1, mean: w}`; other addresses are untouched |
| ElboBaselines.AccumulateKeeps | src/inference/elbo.ad.js:210-218 | every update keeps each address's mean equal to the average of the weights seen there |
| ElboBaselines.BlendBaselines | src/inference/elbo.ad.js:235-245 | each address seen this step blends its mean into its baseline with the decay, or adopts the mean when new; other baselines are kept |
| Elbo.AppendPlain | src/inference/elbo.ad.js:259-266 | appending a sample or factor node under the current node keeps parents before children and the open batches intact |
| Elbo.OpenBatch | src/inference/elbo.ad.js:327-342 | a new split node and its stack entry keep the graph and the stack consistent |
| Elbo.PushEmpty | src/inference/elbo.ad.js:343-346 | the `null` pushed for an empty batch keeps the stack consistent |
| Elbo.AddJoinParent | src/inference/elbo.ad.js:357-365 | adding a parent to the innermost join keeps every batch open |
| Elbo.PopEmpty | src/inference/elbo.ad.js:367-374 | popping the `null` of an empty batch keeps the stack consistent |
| Elbo.CloseBatch | src/inference/elbo.ad.js:367-374 | closing a batch appends its join node and points its split node at it, changing no other node |
| Elbo.CloseKeeps | src/inference/elbo.ad.js:367-374 | closing a non-empty batch keeps the graph and stack consistent |
| Elbo.ElboState.constructor | src/inference/elbo.ad.js:129-141 | a graph holding only the root (weight 0) with an empty mapData stack of multiplier 1 |
| Elbo.ElboState.ClosedIsWellFormed | src/inference/elbo.ad.js:143-145 | when no batch is open the graph passed to `propagateWeights` is well formed |
| Elbo.ElboState.ComputeBaseline | src/inference/elbo.ad.js:196-233 | 0 when averaging is off; otherwise the weight is folded into this step's mean for the address and the stored baseline, or 0.99 times the weight, is returned |
| Elbo.ElboState.UpdateBaselines | src/inference/elbo.ad.js:235-245 | baselines gain the addresses seen this step, each blended with the decay, and keep the others |
| Elbo.ElboState.Push | src/inference/elbo.ad.js:265-266 | appends a node below the current node with its initial weight and makes it current |
| Elbo.ElboState.Sample | src/inference/elbo.ad.js:247-271 | a non-finite target score throws first, then a non-finite guide score, adding no node; otherwise one sample node with weight logq - logp (1 in debug mode) |
| Elbo.ElboState.Factor | src/inference/elbo.ad.js:294-304 | a non-finite score throws and adds no node; otherwise a factor node with weight -score (1 in debug mode) |
| Elbo.ElboState.MapDataFetch | src/inference/elbo.ad.js:306-349 | memoised batch indices; for a positive batch size a split node and a stack entry with multiplier length/batchSize times the enclosing one, for size 0 a `null` entry and no node |
| Elbo.ElboState.MapDataEnter | src/inference/elbo.ad.js:351-355 | each observation starts from the split node |
| Elbo.ElboState.MapDataLeave | src/inference/elbo.ad.js:357-365 | the current node becomes a parent of the innermost join node |
| Elbo.ElboState.MapDataFinal | src/inference/elbo.ad.js:367-374 | pops the stack; a non-empty batch's join node is appended and becomes current, an empty batch changes nothing |
| ParamStruct.AddAll | src/params/struct.js:12-21 | the keys of `g` then the new keys of `h` in order; a shared key holds the sum, any other the tensor of the side that has it (helper `TensorAdd`) |
| ParamStruct.DivideIsScale | src/params/struct.js:23-35 | dividing by s is multiplying by 1/s (helpers `TensorScale`, `TensorDiv`) |
| ParamStruct.ScalingKeepsKeys | src/params/struct.js:23-35 | `mulEq` and `divEq` keep the keys and their order |
| ParamStruct.NormSqScale | src/params/struct.js:37-44 | scaling every tensor by s scales the squared norm by s*s |
| ParamStruct.ClipReachesThreshold | src/params/struct.js:46-51 | clipping a dictionary whose norm exceeds the threshold leaves its norm exactly the threshold |
| ParamStruct.Select | src/params/struct.js:59-65 | exactly the keys of `h`, in its order, each holding `g`'s tensor under that key |
| ParamStruct.NormSquared | src/params/struct.js:37-44 | the loop sums the squares of every entry of every tensor |
| ParamStruct.Params.AddEq | src/params/struct.js:12-21 | in place, the dictionary becomes `AddAll` of itself and `h`; tensors are copied as values, the sharing with `h` is not modelled (see Left out) |
| ParamStruct.Params.MulEq | src/params/struct.js:23-28 | in place, every tensor is multiplied by s |
| ParamStruct.Params.DivEq | src/params/struct.js:30-35 | in place, every tensor is divided by s |
| ParamStruct.Params.Clip | src/params/struct.js:46-51 | scales by threshold/norm when the given norm exceeds the threshold, otherwise changes nothing |
| ParamStruct.Params.DeepCopy | src/params/struct.js:53-57 | a new dictionary with equal keys, order and tensors |
| ParamStruct.CopyIsIndependent | src/params/struct.js:53-57 | updating the deep copy in place leaves the original unchanged |
| ParamGrad.FirstMismatch | src/paramgrad.js:17-27 | the first shared name whose arrays differ in length, where `addEq`'s assertion fails, or the end when there is none |
| ParamGrad.AddAll | src/paramgrad.js:15-28 | the names of `g` then the new names of `h`; a shared name holds the position-wise sums, any other the array of the side that has it (helper `ArrayAdd`) |
| ParamGrad.NormSqScale | src/paramgrad.js:48-57 | scaling every tensor by s scales the squared norm by s*s (helpers `ScaleArray`, `DivideArray`) |
| ParamGrad.ClipReachesThreshold | src/paramgrad.js:59-65 | the closing assertion of `clip` holds: after clipping, the norm is exactly the threshold |
| ParamGrad.NormSquared | src/paramgrad.js:48-57 | the nested loops sum the squares of every entry of every tensor of every array |
| ParamGrad.AddArrays | src/paramgrad.js:23-25 | the inner loop of `addEq` adds position by position |
| ParamGrad.ScaleArrayInPlace | src/paramgrad.js:33-35 | the inner loop of `mulEq` scales position by position |
| ParamGrad.DivideArrayInPlace | src/paramgrad.js:42-44 | the inner loop of `divEq` divides position by position |
| ParamGrad.AddKey | src/paramgrad.js:17-27 | one name: its length check passes exactly when the name is new or the lengths agree, and then it is added |
| ParamGrad.Params.AddEq | src/paramgrad.js:15-28 | succeeds exactly when no shared name has arrays of different lengths; the names before the first failing one are added in place; arrays are copied as values, the sharing with `h` is not modelled (see Left out) |
| ParamGrad.Params.MulEq | src/paramgrad.js:30-37 | in place, every tensor of every array is multiplied by s |
| ParamGrad.Params.DivEq | src/paramgrad.js:39-46 | in place, every tensor of every array is divided by s |
| ParamGrad.Params.Clip | src/paramgrad.js:59-65 | scales by threshold/norm when the norm exceeds the threshold, after which the squared norm is the threshold squared; otherwise nothing changes |
| ParamGrad.Params.Copy | src/paramgrad.js:67-72 | a new dictionary with equal names, arrays and tensors |
| ParamGrad.Params.DeepCopy | src/paramgrad.js:74-78 | a new dictionary with equal names, arrays and tensors |
| ParamGrad.DeepCopyIsIndependent | src/paramgrad.js:74-78 | updating the deep copy in place leaves the original unchanged |
| ParamsTable.Registry.constructor | src/params/params.js:11 | the module starts with no local table |
| ParamsTable.Registry.Sync | src/params/params.js:32-46 | no parameters from the store throws and keeps the table; an incremental sync assigns the fetched keys into the table (and into nothing when there is no table yet); any other sync replaces the table |
| ParamsTable.Registry.GetTable | src/params/params.js:52-54 | `get` returns the local table as it is |
| ParamsTable.Registry.SetTable | src/params/params.js:64-72 | after the store call the table is the parameters given |
| ParamsTable.Registry.Register | src/params/params.js:75-119 | a name seen in this execution returns its cached parameters and changes nothing; a name in the table is fetched from it; otherwise `getParams` runs and its result is stored under the name, which is a TypeError when there is no table; every success is remembered as seen |
| NumberText.TrimStart | src/math/interval.js:32 | `parseFloat` starts after the leading white space: a suffix of the text not starting with a space |
| NumberText.LeadingDigits | src/stacktrace.js:28-29 | `parseInt` reads the longest run of digits at the start |
| NumberText.NumToString | src/math/interval.js:16-18 | the text an end point is printed as is never empty and never holds a comma, so `parse`'s split finds only `toString`'s comma |
| NumberText.DigitsOfNat | src/math/interval.js:16-18 | reading back the printed digits of a natural number gives the number |
| NumberText.ParseFloatDigits | src/math/interval.js:32 | `parseFloat` of a run of digits, with or without a minus sign, is its value |
| NumberText.ParseFloatInt | src/math/interval.js:32 | `parseFloat(String(i))` is i for every integer |
| NumberText.ParseFloatPosInf | src/math/interval.js:32 | `parseFloat` of text starting `Infinity` is +Infinity |
| NumberText.ParseFloatNegInf | src/math/interval.js:32 | `parseFloat` of text starting `-Infinity` is -Infinity |
| NumberText.ParseFloatNumToString | src/math/interval.js:16-18 | `parseFloat(String(x))` gives back every integral or infinite x |
| NumberText.ParseFloatSkipsSpace | src/math/interval.js:32 | the space `toString` writes before the upper end does not change what `parseFloat` reads |
| NumberText.ParseIntNat | src/stacktrace.js:28-29 | `parseInt` of a number's digits followed by a non-digit is the number |
| MathInterval.InnerOfBracketed | src/math/interval.js:32 | `str.slice(1, -1)` of a bracketed text gives back the text between the brackets |
| MathInterval.ParseAll | src/math/interval.js:32 | `map(parseFloat)` reads each part |
| MathInterval.FromEndPoints | src/math/interval.js:31-46 | success needs two non-NaN end points, an opening `[`/`(` and a closing `]`/`)`, records which ends are open, and has low <= high; two end points or a bad bracket fail with 'Failed to parse', good text with low > high with 'Invalid interval' |
| MathInterval.CheckIsBothEnds | src/math/interval.js:50-74 | the four closures of `check` all test the lower end and the upper end, open or closed as the interval says |
| MathInterval.CheckRejectsNaN | src/math/interval.js:50-74 | NaN is in no interval, since every comparison with it is false |
| MathInterval.EndPointMembership | src/math/interval.js:55-70 | an end point belongs to the interval exactly when its end is closed |
| MathInterval.UnboundedHoldsFinite | src/math/interval.js:10 | an interval that is not bounded holds every finite number |
| MathInterval.FiniteEndsExcludeInfinity | src/math/interval.js:50-74 | an interval with finite ends holds neither infinity |
| MathInterval.ToStringParts | src/math/interval.js:13-21 | `toString` writes the bracket for each end, the low end, `, ` and the high end |
| MathInterval.EndPointsOfToString | src/math/interval.js:32 | splitting `toString`'s text at the comma and reading both parts gives the two end points, for integral or infinite ends |
| MathInterval.ParseToString | src/math/interval.js:13-46 | `parse(interval.toString())` gives back the same ends and the same open flags, for integral or infinite ends with low <= high |
| Types.NamedIntervalsParse | src/types.js:160-172 | the interval texts of the named instances parse to the intended intervals |
| Types.NamedIntervalTexts | src/types.js:160-172 | `toString` writes those intervals back as the same texts |
| Types.AnyChecksAll | src/types.js:28-34 | `any` accepts every value |
| Types.IntChecksIntegersFrom | src/types.js:36-47 | `int(low)` holds exactly the finite integers at or above low (helper `MakeInt`) |
| Types.IntNarrows | src/types.js:43-45 | a higher lower bound admits fewer integers |
| Types.NamedIntsNest | src/types.js:157-159 | positive ints lie within non-negative ones, which lie within unbounded ones; no infinity is an int; 0 is non-negative but not positive |
| Types.ArrayAcceptsEmpty | src/types.js:62-71 | `array(t)` accepts the empty array and rejects every value that is not an array |
| Types.ArrayOfConcat | src/types.js:67-69 | an array passes `array(t)` exactly when both its parts do, since `every` checks each element |
| Types.VectorOrRealArrayIsUnion | src/types.js:98-110 | `vectorOrRealArray` accepts exactly what the bounds-checked vector type or the real-array type accepts |
| Types.ProbabilityArrayIsNonNegativeRealArray | src/types.js:133-143 | a probability array is a non-negative real array whose sum is within 1e-8 of one |
| Types.ProbabilityArrayElements | src/types.js:133-143 | the elements of a probability array are finite and non-negative |
| Types.ProbabilityArrayExamples | src/types.js:133-143 | `[]` and `[0.999]` are not probability arrays, `[1]` and `[0.4, 0.6]` are |
| Types.PosDefMatrixIsSquare | src/types.js:112-118 | `posDefMatrix` checks only that the value is a square matrix |
| Types.RealInfinities | src/types.js:49-60 | the unbounded reals hold every finite number and no infinity; the extended reals hold both infinities; NaN and strings are rejected |
| Types.BoundsCheckedData | src/types.js:79-131 | a bounds-checked vector or tensor holds no element outside its interval |
| Types.NamedDescriptions | src/types.js:49-71 | descriptions show only bounded intervals: 'real', 'real [0, 1]', 'real (0, Infinity)', 'int (>=0) array' (helper `AppendInterval`) |
| ParserCombinator.ZeroLaws | src/analysis/parser-combinator.js:16-18 | `zero` is the unit of `or` and absorbs `bind`: `or` of `zero` followed by ps behaves as `or(ps)`, `bind(zero, f)` fails, and `rep(zero)` succeeds with nothing in place |
| ParserCombinator.ItemIsSingle | src/analysis/parser-combinator.js:20-27 | `item` is `single` of the test that accepts every node as itself: it fails exactly at the end of the input and otherwise yields the node there and moves one step on |
| ParserCombinator.FinishAtEnd | src/analysis/parser-combinator.js:3-14 | `finish(v)` succeeds exactly at the end of the input, with v and without consuming |
| ParserCombinator.BindResult | src/analysis/parser-combinator.js:29-49 | `result` succeeds in place with its value, so `bind(p, result)` behaves as p |
| ParserCombinator.RepNeverFails | src/analysis/parser-combinator.js:51-63 | `rep` never fails: when p fails it succeeds with the empty list |
| ParserCombinator.RepIsGreedy | src/analysis/parser-combinator.js:51-63 | `rep(p)`'s values are p's successive results, taken until p fails |
| ParserCombinator.RepTerminates | src/analysis/parser-combinator.js:51-63 | `rep` of a parser that always consumes reaches an end |
| ParserCombinator.RepItemTakesRest | src/analysis/parser-combinator.js:51-63 | `rep(item)` yields every remaining node in order and stops at the end |
| ParserCombinator.SeqIsChain | src/analysis/parser-combinator.js:65-82 | `seq(ps)` succeeds with xs exactly when each parser of ps succeeds in turn from where the previous stopped, producing xs |
| ParserCombinator.ChainLength | src/analysis/parser-combinator.js:65-82 | a successful `seq(ps)` yields one value per parser |
| ParserCombinator.OrIsFirstNonFailure | src/analysis/parser-combinator.js:100-117 | `or(ps)` fails exactly when every parser fails, and otherwise returns the reply of the first one that does not fail |
| ParserCombinator.OrEmptyFails | src/analysis/parser-combinator.js:102-105 | `or([])` fails |
| ParserCombinator.MaybeFallsBack | src/analysis/parser-combinator.js:84-90 | `maybe(p, x)` never fails; when p fails it yields x without consuming, otherwise p's reply |
| ParserCombinator.SingleConsumesOne | src/analysis/parser-combinator.js:118-126 | `single(test)` succeeds exactly when a node is left and the test accepts it, consuming that one node |
| ParserCombinator.NotFlips | src/analysis/parser-combinator.js:128-136 | `not(test)` accepts exactly what the test rejects, with the value 42 |
| ParserCombinator.ApplyMaps | src/analysis/parser-combinator.js:92-98 | `apply(p, f)` succeeds exactly when p does, with the same position and f of p's value |
| LegacyParserCombinator.OrPairIsOr | src/parser-combinator.js:88-94 | the older binary `or(p, q)` is the list `or` of p and q |
| LegacyParserCombinator.SeqAsWrittenSkipsParsers | src/parser-combinator.js:53-70 | as written, `seq([item])` started at position 1 of `[1, 2]` stops at once with `[]`, where the intended `seq` yields `[2]` |
| LegacyParserCombinator.SeqAsWrittenRunsOffTheList | src/parser-combinator.js:53-70 | as written, `seq([result(0)])` on empty input calls a parser past the end of the list (a TypeError), where the intended `seq` yields `[0]` |
| LegacyParserCombinator.SeqAsWrittenAgreesOnOneNodeEach | src/parser-combinator.js:53-70 | started at the beginning with each parser taking one node, the older `seq` agrees with the corrected one |
| Stacktrace.DisplayName | src/stacktrace.js:96 | the name printed for a frame is never empty: a missing or empty name prints as `(unknown)` |
| Stacktrace.GetLastEvalTrace | src/stacktrace.js:51-59 | the result is absent exactly when no frame is an eval frame, and otherwise is the first eval frame |
| Stacktrace.LocationOfPosition | src/stacktrace.js:24-31 | a `file:line:column` text with natural line and column reads back as that file, line and column |
| Stacktrace.InLastParentheses | src/stacktrace.js:25 | the text between the last `(` and the final character is the position written inside the parentheses |
| Stacktrace.FileDetailsOfFormatted | src/stacktrace.js:24-31 | `getFileDetails` of a frame printed by `formatOriginalPosition` gives back its file, line and column |
| Stacktrace.FunctionNameAfterAt | src/stacktrace.js:33-40 | the function name is the text between the first `at ` and the next space |
| Stacktrace.FunctionNameOfFormatted | src/stacktrace.js:33-40 | `getFunctionName` of a printed frame is the printed name, when that name holds no space |
| Stacktrace.ParseLineOfFormatted | src/stacktrace.js:110-116 | `parseLine` of a frame printed by `formatOriginalPosition` (line 94-98) recovers the location and the name |
| Stacktrace.BetweenLastCommaAndParen | src/stacktrace.js:13 | the eval position is read between the last `, ` and the last `)` |
| Stacktrace.EvalDetailsOfLine | src/stacktrace.js:7-22 | a line containing `eval at` that ends in `, file:line:column)` is an eval frame with that eval location |
| Stacktrace.TypeAndMessageOfHeader | src/stacktrace.js:42-49 | a header `type: message` splits into the type and the message up to any further `: ` |
| Stacktrace.TypeWithoutMessage | src/stacktrace.js:42-49 | a header without `: ` is all type, and the message is undefined |
| Stacktrace.ParseOfLines | src/stacktrace.js:101-108 | `parse` takes type and message from the first line and parses every further line into one frame, in order |
| ErrorStack.AddressRoundTrip | src/errors/errors.js:16-24 | the stack of an address built from call-site ids is those ids, each with its `_` back, innermost first |
| ErrorStack.AddressExample | src/errors/errors.js:16-24 | the address `_1_2` gives the stack `_2`, `_1` |
| ErrorStack.KnownEntries | src/errors/errors.js:26-40 | the WebPPL call stack holds only ids the address map knows, each as the entry built from its location, never more entries than ids |
| ErrorStack.KnownEntriesAppend | src/errors/errors.js:28-39 | mapping and filtering distributes over concatenation of id stretches |
| ErrorStack.KnownEntriesSingle | src/errors/errors.js:29-39 | one id gives its entry when the map knows it and is dropped otherwise |
| ErrorStack.AllKnownKept | src/errors/errors.js:26-40 | when every call site is known, the call stack has one entry per call site |
| ErrorStack.ExtendErrorLastWins | src/errors/errors.js:8-14 | extending an already extended error gives what one extension with the later arguments gives: the last handler's source map and call stack win, the message is kept, and a thrown non-`Error` stays as it is |
| ErrorStack.FirstWebppl | src/errors/errors.js:67 | `_.findIndex`: -1 exactly when no entry is a WebPPL one, otherwise the first WebPPL entry |
| ErrorStack.FilterJsStackTrace | src/errors/errors.js:51-69 | the result is a prefix of the stack: the whole stack when no entry is WebPPL, otherwise up to and including the first WebPPL entry |
| ErrorStack.FilterIdempotent | src/errors/errors.js:51-69 | trimming a trimmed stack changes nothing |
| ErrorStack.FilterGensymIdempotent | src/errors/errors.js:71-73 | filtering a name twice is filtering it once (helper `FilterGensym`) |
| ErrorDisplay.RepeatStringCopies | src/errors/node.js:17-19 | `repeatString(c, count)` is count - 1 copies of c (the separators between count holes), and empty for count 0 (helper `Holes`) |
| ErrorDisplay.PadWidth | src/errors/node.js:21-29 | a present string padded with a non-empty padding comes out exactly as wide as the padding |
| ErrorDisplay.PadLeft | src/errors/node.js:24-25 | left padding puts the end of the padding in front of a short string and keeps the last characters of a long one |
| ErrorDisplay.PadRight | src/errors/node.js:26-27 | right padding puts the start of the padding after a short string and keeps the first characters of a long one |
| ErrorDisplay.EmptyPadLeft | src/errors/node.js:24-25 | left padding with the empty padding keeps the whole string (`slice(-0)` is the whole string) |
| ErrorDisplay.ArrowShape | src/errors/node.js:31-33 | the arrow under column `length` is two spaces, `length` dashes, a caret and a newline, `length + 4` characters in all |
| ErrorDisplay.FindWhere | src/errors/node.js:87 | `_.findWhere`: absent exactly when no entry matches, otherwise the first matching entry |
| ErrorDisplay.FindEntryByFileName | src/errors/node.js:86-88 | the first entry from the given file, absent exactly when no entry comes from it |
| ErrorDisplay.FindNonNativeEntry | src/errors/node.js:90-94 | the first non-native entry; the assertion fails exactly when every entry is native |
| Linearize.HasReturnReaches | src/transforms/linearize.js:12-28 | `hasReturn` holds exactly when a `return` is reachable through blocks, `if` branches and programs (an independent inductive definition) |
| Linearize.IfReaches | src/transforms/linearize.js:17-19 | the `if` case of that equivalence: a return in either branch |
| Linearize.AnyReturnReaches | src/transforms/linearize.js:15 | `body.some(hasReturn)` agrees with the reachability definition over a list |
| Linearize.ReturnInEither | src/transforms/linearize.js:15 | a `return` occurs in a + b exactly when it occurs in a or in b |
| Linearize.ReturnInTail | src/transforms/linearize.js:15 | a list headed by statements without `return` holds one exactly when its tail does |
| Linearize.SingleStatement | src/transforms/linearize.js:49-50 | the one-statement lists built for the branches of a returning `if` reduce to that statement in front of the continuation |
| Linearize.LinearizeNothing | src/transforms/linearize.js:69-71 | linearising no statements gives no statements |
| Linearize.LinearizeAppend | src/transforms/linearize.js:30-36 | linearising a + b is linearising b first and then a in front of the result, with errors passed through |
| Linearize.ShiftedSequence | src/transforms/linearize.js:30-36 | linearising a + b from a position inside a goes through b first |
| Linearize.SuffixSequence | src/transforms/linearize.js:30-36 | linearising from position j is linearising the suffix from j |
| Linearize.SuffixFrom | src/transforms/linearize.js:30-36 | linearising from position i is linearising the suffix from any j <= i at position i - j |
| Linearize.BlockFlattened | src/transforms/linearize.js:38-40 | a block is flattened into the list around it |
| Linearize.ReturnDropsRest | src/transforms/linearize.js:56-58 | `return e` becomes `e;` and every statement after it is dropped, once those statements linearise without error |
| Linearize.MissingElseIsEmpty | src/transforms/linearize.js:42-44 | an `if` without `else` is linearised as one whose `else` is the empty statement |
| Linearize.ReturningIfTakesContinuation | src/transforms/linearize.js:46-51 | an `if` with a return in a branch copies the continuation into both branches and ends the list |
| Linearize.PlainIfKept | src/transforms/linearize.js:52-54 | an `if` without returns stays in place, followed by the rest |
| Linearize.StatementKinds | src/transforms/linearize.js:58-65 | empty, expression and declaration statements keep their place; any other unhandled kind fails with `linearize: unrecognized node` |
| Linearize.StatementLinear | src/transforms/linearize.js:30-67 | a statement linearised in front of a linear continuation leaves a linear list |
| Linearize.SequenceLinear | src/transforms/linearize.js:30-67 | a linearised sequence in front of a linear continuation is linear |
| Linearize.NoReturnInLinear | src/transforms/linearize.js:12-28 | `hasReturn` is false for every statement of a linear list |
| Linearize.LinearizeIsLinear | src/transforms/linearize.js:69-71 | a successful `linearize` leaves only `if`, empty, expression and declaration statements at the top level, none of which has a reachable `return` |
| Syntax.Match | src/syntax.js:44-53 | the result of the first clause that does not fail, or the fallback when every clause fails (helper `Clause`) |
| Syntax.InProgram | src/syntax.js:64-77 | a program of one expression statement gets f applied to that expression (errors passed through); any other node goes to `failSafe('inProgram', fail)` (helper `FailSafe`) |
| Syntax.ReturnifySeq | src/syntax.js:93-121 | a successful `returnify` keeps the length and every statement but the last |
| Syntax.Returnify | src/syntax.js:93-121 | on the array itself: success exactly when the value-level `returnify` succeeds, the array then holding its result, and left unchanged on an exception |
| Syntax.ReturnifyLastReturns | src/syntax.js:98-117 | a rewritten last statement returns on every path it rewrote |
| Syntax.ReturnifySeqEnds | src/syntax.js:93-121 | a successfully returnified non-empty list ends in a returning statement |
| Syntax.ReturnifyLastFixed | src/syntax.js:98-117 | rewriting an already rewritten statement changes nothing |
| Syntax.ReturnifySeqFixed | src/syntax.js:93-121 | `returnify` is idempotent |
| Syntax.ExpressionBecomesReturn | src/syntax.js:105-107 | an expression statement at the end becomes a `return` of its expression, the front untouched |
| Syntax.Thunkify | src/syntax.js:139-154 | a program becomes one expression statement holding a function of no arguments whose body is the returnified program body; errors pass through; any other node goes to `failSafe('thunkify', fail)` |
| Syntax.ThunkifyFitsInProgram | src/syntax.js:64-77 | a thunkified program is one `inProgram` accepts, and its function's body ends in a return |
| CpsTransform.Fresh | src/syntax.js:9-14 | a fresh name is `_`, then the requested name, then at least one more character (the counter) |
| CpsTransform.Zip | src/transforms/cps.js:211-214 | with as many keys as values, one `init` property per key and value, in order |
| CpsTransform.AllPrimitiveAppend | src/transforms/cps.js:51-80 | the calls of a + b are all primitive exactly when those of a and those of b are |
| CpsTransform.AtomicMeansPrimitiveCalls | src/transforms/cps.js:51-80 | whenever `isAtomic` answers, it is true exactly when every call made while evaluating the node (outside nested functions) has a primitive callee (helper `Both`) |
| CpsTransform.PairMeans | src/transforms/cps.js:55-56 | the binary-node case of that meaning |
| CpsTransform.AllAtomicMeans | src/transforms/cps.js:53-54 | `elements.every(isAtomic)` means that every call in the elements is primitive |
| CpsTransform.AllPropertiesMeans | src/transforms/cps.js:69-72 | the object-expression case: every call in the keys and values is primitive |
| CpsTransform.CpsOfAtom | src/transforms/cps.js:134-138 | a name or a literal becomes `k(node)` and draws no fresh name |
| CpsTransform.AtomizeAtomic | src/transforms/cps.js:82-90 | an atomic expression that is not a function is handed to the meta-continuation unchanged |
| CpsTransform.AtomizeFromAtoms | src/transforms/cps.js:119-129 | the atomising loop over names and literals hands the same list, in order, to the meta-continuation |
| CpsTransform.AtomizeStarAtoms | src/transforms/cps.js:116-132 | `atomizeStar` keeps names and literals in order and draws no fresh name for them |
| CpsTransform.CallRule | src/transforms/cps.js:160-175 | a call on names and literals: a name callee (not primitive) gives `callee(k, args)`; a method callee on a name (primitive) gives `k(callee(args))` |
| CpsTransform.LogicalRule | src/transforms/cps.js:186-199 | `a \|\| b` becomes `a ? k(a) : k(b)`, `a && b` becomes `a ? k(b) : k(a)`, any other logical operator is an error |
| CpsTransform.ConditionalRule | src/transforms/cps.js:176-182 | a conditional calls the continuation in both branches, through k itself when k is a name, otherwise through a fresh `k` name bound by an applied function (line 41-49) |
| CpsTransform.CpsFunctionShape | src/transforms/cps.js:36-39 | `cpsFunction` keeps the function's name and puts a fresh continuation parameter in front of the parameters, its body one expression statement |
| CpsTransform.EmptySequence | src/transforms/cps.js:241-244 | an empty statement list passes `undefined` to the continuation |
| CpsLegacy.Gensym | src/cps.js:17-19 | a generated name is `_`, then the requested name, then the counter |
| CpsLegacy.ConvertToStatementIdempotent | src/cps.js:21-29 | `convertToStatement` keeps a statement, wraps an expression and rejects anything else; whatever it accepts comes back a statement, which converting again leaves unchanged |
| CpsLegacy.BuildReturn | src/cps.js:45-58 | a result is always a return statement; it fails exactly for statements other than blocks, expression statements and returns, whose applied-closure path recurses without end |
| CpsLegacy.BuildFunc | src/cps.js:37-43 | an anonymous function with the given parameters, whose body is the block's statements, or a return of an expression |
| CpsLegacy.CpsAtomic | src/cps.js:60-73 | the fresh-name counter never goes back |
| CpsLegacy.Finish | src/cps.js:88-146 | the final step of each sequence rule: the counter never goes back |
| CpsLegacy.CpsSequence | src/cps.js:75-85 | the counter never goes back while each node is bound to a fresh `s` name |
| CpsLegacy.CpsVariableDeclaration | src/cps.js:207-221 | the counter never goes back |
| CpsLegacy.CpsConditional | src/cps.js:149-162 | the two names `cont` and `test` are drawn, so the counter moves on by at least two |
| CpsLegacy.CpsIf | src/cps.js:164-177 | as for a conditional, at least two names are drawn |
| CpsLegacy.CpsMember | src/cps.js:189-204 | the object is always named, so at least one name is drawn |
| CpsLegacy.Cps | src/cps.js:223-279 | the counter never goes back |
| CpsLegacy.CpsProgram | src/cps.js:233-234 | a program is put in CPS as a program |
| CpsLegacy.CpsReturn | src/cps.js:236-237 | a return statement stays a return statement |
| CpsLegacy.CpsExpressionStatement | src/cps.js:239-240 | an expression statement stays an expression statement |
| CpsLegacy.CpsDeclarations | src/cps.js:247-250 | the counter never goes back |
| CpsLegacy.CpsCall | src/cps.js:116-122 | the counter never goes back |
| CpsLegacy.CpsUnary | src/cps.js:124-134 | the counter never goes back |
| CpsLegacy.CpsBinary | src/cps.js:136-147 | the counter never goes back |
| CpsLegacy.CpsAtomicCall | src/cps.js:242-245 | the counter never goes back |
| CpsLegacy.NamesCons | src/cps.js:80-83 | the first name, then the names after it (helper `Names`) |
| CpsLegacy.SequenceOfAtoms | src/cps.js:81-83 | the nested binding functions around a call are a call |
| CpsLegacy.AtomRule | src/cps.js:242-245 | a name or a literal is passed to the continuation unchanged, drawing no name |
| CpsLegacy.FunctionRule | src/cps.js:60-66 | a function loses its name and keeps its parameters after a fresh continuation parameter `k` |
| CpsLegacy.EmptyBodyOverflows | src/cps.js:87-92 | a function with an empty body sends `cpsSequence` into a recursion that never ends |
| CpsLegacy.FinalErrorPropagates | src/cps.js:75-85 | in every rule but the block rule, when the final step fails the whole sequence fails |
| CpsLegacy.AtomSequence | src/cps.js:75-85 | over atoms, each value is bound to its fresh `s` name by an applied one-parameter function, and the final step gets all those names |
| CpsLegacy.AtomSequenceStep | src/cps.js:80-83 | one step of that binding, given the rest of the sequence |
| CpsLegacy.PrimitiveCallRule | src/cps.js:94-103 | a call through a member expression on atoms passes `op(names)` to the continuation |
| CpsLegacy.CompoundCallRule | src/cps.js:105-114 | any other call on atoms calls the callee's name with the continuation in front of the arguments' names |
| CpsLegacy.CompoundSequence | src/cps.js:105-114 | the compound final step over the sequence of callee and arguments |
| CpsLegacy.CompoundUnfold | src/cps.js:105-114 | a compound application is a sequence of the callee and then the arguments |
| CpsLegacy.BinaryRule | src/cps.js:136-147 | a binary expression of atoms always has the two names its assertion expects |
| CpsLegacy.PairSequence | src/cps.js:136-147 | the binary final step over the two operands |
| CpsLegacy.BinaryUnfold | src/cps.js:136-147 | a binary expression is a sequence of its two operands |
| CpsLegacy.ConditionalRule | src/cps.js:149-162 | a conditional of atoms binds the continuation once, to the `cont` name drawn first, and both branches call that name |
| CpsLegacy.DeclarationCount | src/cps.js:247-250 | a declaration list that does not hold exactly one declarator fails the assertion |
| CpsLegacy.MissingElseFails | src/cps.js:258-259 | an `if` without `else` fails, because `cps(null)` reads a property of null |
| FreeVars.ThenOkEmpty | src/freevars.js:16-18 | starting from an empty list leaves the next result as it is |
| FreeVars.ThenAssociates | src/freevars.js:18 | two lists concatenated in front of a result can be joined first (helper `Then`) |
| FreeVars.FreeVarsSeq | src/freevars.js:14-24 | the imperative loop over the statements, with its copy of `bound` grown at each declaration, gives the statement-list result of `freeVars` |
| FreeVars.IdentifierAlwaysFree | src/freevars.js:40-41 | a name is reported whether or not it is bound |
| FreeVars.BoundIgnored | src/freevars.js:26-78 | the `bound` list never changes the result (it is passed down but never consulted) |
| FreeVars.OthersIgnoreBound | src/freevars.js:26-78 | the kinds without children lists give results independent of `bound` |
| FreeVars.DeclBoundIgnored | src/freevars.js:50-51 | the declaration case of that independence |
| FreeVars.CallBoundIgnored | src/freevars.js:53-58 | the call case of that independence |
| FreeVars.ConditionalBoundIgnored | src/freevars.js:60-64 | the conditional case of that independence |
| FreeVars.AllBoundIgnored | src/freevars.js:54-68 | mapping over children is independent of `bound` |
| FreeVars.SeqBoundIgnored | src/freevars.js:14-24 | the statement-list loop is independent of `bound` |
| FreeVars.SeqIsConcatenation | src/freevars.js:14-24 | a statement list gives what its statements give, one after the other |
| FreeVars.ReportedAreMentioned | src/freevars.js:26-78 | every reported name occurs in the tree as an identifier (outside member expressions) |
| FreeVars.DeclReportedAreMentioned | src/freevars.js:50-51 | the declaration case of that fact |
| FreeVars.CallReportedAreMentioned | src/freevars.js:53-58 | the call case of that fact |
| FreeVars.ConditionalReportedAreMentioned | src/freevars.js:60-64 | the conditional case of that fact |
| FreeVars.AllReportedAreMentioned | src/freevars.js:54-68 | names reported by the children occur in the children |
| FreeVars.SeqReportedAreMentioned | src/freevars.js:14-24 | names reported by a statement list occur in its statements |
| FreeVars.MapThenFlatten | src/freevars.js:54-68 | `_.flatten(_.map(children, freeVars))` succeeds exactly when every child does and gives their lists in order |
| FreeVars.UnknownKinds | src/freevars.js:75-77 | any other kind, such as an `if` statement or a binary operator, throws `freeVars: unknown node type` |
| AdTransform.Rules | src/transforms/ad.js:6-33 | a rule exists only for unary and binary expressions: exactly unary `+`, `-` and the twelve arithmetic, comparison and equality binary operators |
| AdTransform.RuleIsScalarName | src/transforms/ad.js:11-28 | every rule names `ad.scalar.` followed by a name without a dot |
| AdTransform.FoldExtendsChain | src/transforms/ad.js:40 | folding more identifiers onto a member chain with `memberExpression` extends the chain |
| AdTransform.FoldStep | src/transforms/ad.js:40 | one step of the fold moves the first piece onto the chain |
| AdTransform.ParseJoin | src/transforms/ad.js:37-41 | `parse` of pieces joined by dots is the left-nested member chain of the pieces, so `a.b.c` is `(a.b).c` (helper `Identifiers`) |
| AdTransform.ParsePartsChain | src/transforms/ad.js:38-40 | the identifiers reduced with `memberExpression` form the chain of the pieces |
| AdTransform.ParseTwo | src/transforms/ad.js:35-41 | `parse('a.b')` is the member access `a.b` |
| AdTransform.ParseThree | src/transforms/ad.js:35-41 | `parse('a.b.c')` is `(a.b).c` |
| AdTransform.ParseScalar | src/transforms/ad.js:37-41 | the callee for `ad.scalar.f` is `(ad.scalar).f` |
| AdTransform.AdScalar | src/transforms/ad.js:36 | `parse('ad.scalar')` is the member access `ad.scalar` |
| AdTransform.RewriteOperator | src/transforms/ad.js:62-65 | an operator with a rule becomes a call of `ad.scalar.f` on its operands, so `rewrite`'s `Unexpected node type` branch is never reached from the visitor |
| AdTransform.InplaceOperatorHasRule | src/transforms/ad.js:54-56 | the operator of an in-place assignment, without its `=`, has a binary rule, so the expansion is rewritten in turn |
| AdTransform.PrefixHasRule | src/transforms/ad.js:71 | the first character of `+=`, `-=`, `*=`, `/=` is an operator with a rule |
| AdTransform.Enter | src/transforms/ad.js:60-79 | the visitor's replacement: a rewrite when a rule applies, otherwise `x op= y` expanded to `x = x op y`, otherwise `Math.p` as `ad.scalar.p`, otherwise the node unchanged |
| AdTransform.MathRewrite | src/transforms/ad.js:74-78 | `Math.f` becomes `ad.scalar.f`, and a computed `Math[e]` becomes the fixed member `ad.scalar.e` |
| Caching.ShouldCacheAsWritten | src/transforms/caching.js:34-46 | as written: an error exactly when `isPrimitive` throws; caching exactly for a non-primitive callee that is not a name found in the table, where the lookup also finds the members every object inherits (`toString`, `constructor`, ...) |
| Caching.InheritedNameNotCached | src/transforms/caching.js:42 | a function the program names after an inherited member is never cached, although it is no known distribution |
| Caching.ShouldCache | src/transforms/caching.js:13-46 | as intended: caching exactly for a non-primitive callee that is not one of the thirteen known names; an error exactly when `isPrimitive` throws (helper `Syntax.IsPrimitive`) |
| Caching.AgreesOffInherited | src/transforms/caching.js:34-46 | the two agree on every callee not named after an inherited member |
| Caching.FactorNotCached | src/transforms/caching.js:13-27 | each known name, such as `factor`, is never cached |
| Caching.Exit | src/transforms/caching.js:48-59 | a call to cache becomes `incrementalize(callee, [args])`; an error in `isPrimitive` passes through; anything else is kept |
| Caching.UnwrapExit | src/transforms/caching.js:48-59 | unwrapping what `exit` gives recovers the node, cached or not |
| Caching.CachedCallKeepsParts | src/transforms/caching.js:52-55 | a cached call keeps its callee and its arguments, in order, inside the wrapper |
| Numeric.ReduceIsSum | src/math/numeric.ad.js:17-27 | the `reduce` without a start value (from the first element) and the one from 0 give the same sum |
| Numeric.UnliftedSum | src/math/numeric.ad.js:17-27 | `_sum` agrees with `sum` (line 12-15), including 0 for the empty array |
| Numeric.SumToPrefix | src/math/numeric.ad.js:12-15 | a prefix of a longer array sums as it does alone |
| Numeric.SumConcat | src/math/numeric.ad.js:12-15 | the sum of a concatenation is the sum of the parts |
| Numeric.Product | src/math/numeric.ad.js:29-36 | the `for` loop computes the product of all elements, 1 for the empty array |
| Numeric.ProductWithZero | src/math/numeric.ad.js:29-36 | a zero anywhere in the product makes it zero |
| Numeric.Factorial | src/math/numeric.ad.js:38-46 | n! is at least 1 |
| Numeric.Fact | src/math/numeric.ad.js:38-46 | the `while` loop computes x! for every natural x, and 1 for every x up to 1 (negative ones included) |
| Numeric.FactorialIsProduct | src/math/numeric.ad.js:29-46 | n! is the product of 1, 2, ..., n, so `fact` agrees with `product` over them (helper `OneTo`) |
| Numeric.FactorialStep | src/math/numeric.ad.js:41-44 | one more loop step multiplies by n |
| Numeric.ProdOneToStep | src/math/numeric.ad.js:29-36 | the product of 1, ..., n is n times the product of 1, ..., n - 1 |
| Numeric.ProductPrefix | src/math/numeric.ad.js:32-34 | arrays that agree on a prefix have the same running product over it |
| Numeric.LogAddExp | src/math/numeric.ad.js:75-86 | a -Infinity operand gives back the other one, and two finite operands give a finite result |
| Numeric.LogAddExpCommutes | src/math/numeric.ad.js:75-86 | `logaddexp` is symmetric in its operands |
| Numeric.LogAddExpAtLeastMax | src/math/numeric.ad.js:81-85 | when `log(1 + exp(d))` is non-negative, the result is at least the larger operand |
| Discrete.PickFromIsSampled | src/dists/discrete.ad.js:16-22 | the search from index i on gives the first index whose running sum exceeds x, or the last index, given that no earlier running sum exceeds x |
| Discrete.PickIsSampled | src/dists/discrete.ad.js:14-22 | the inverse-CDF search meets its characterisation: the first index whose running sum exceeds x, else the last index (-1 for no weights) |
| Discrete.SampledIsUnique | src/dists/discrete.ad.js:14-22 | that characterisation fixes one index |
| Discrete.Sample | src/dists/discrete.ad.js:11-23 | `sample` for the draw u returns the index the characterisation names for x = u times the `_sum` of the weights |
| Discrete.AccumulateUntil | src/dists/discrete.ad.js:15-22 | the loop that grows `probAccum` returns the first index whose running sum exceeds x, else k - 1 |
| Discrete.SampleInRange | src/dists/discrete.ad.js:14-22 | for a non-empty weight array the index lies in [0, k) |
| Discrete.PickIn | src/dists/discrete.ad.js:14-22 | the picked index of a non-empty weight array, as a valid index |
| Discrete.ZeroWeightOnlyByFallback | src/dists/discrete.ad.js:17-22 | for a draw x >= 0, an index of weight 0 is only ever returned through the fallback `k - 1` |
| Discrete.UnitDrawPicksPositiveWeight | src/dists/discrete.ad.js:11-23 | a draw in [0, 1) over weights of positive total never reaches the fallback, so it never returns an index of weight 0 |
| Discrete.InSupportIffInRange | src/dists/discrete.ad.js:45-47 | `inSupport` accepts exactly the members of the support (helper `Support`) |
| Discrete.Score | src/dists/discrete.ad.js:39-43 | -Infinity outside the support; inside it, the log of the weight over the total, and -Infinity for a weight of 0 |
| Binomial.LogsSplit | src/dists/binomial.ad.js:94-97 | a range of logarithms splits at any point into two adjacent ranges |
| Binomial.LnFactExact | src/dists/binomial.ad.js:10-24 | a negative argument throws `lnfactExact called on negative argument x`; otherwise the loop gives log x! (0 for 0 and 1) |
| Binomial.CountOf | src/dists/binomial.ad.js:71 | a value `score` accepts is a whole count between 0 and n |
| Binomial.SmallerLarger | src/dists/binomial.ad.js:83-92 | m and o are the smaller and the larger of v and n - v, and add up to n |
| Binomial.PermutationsOfLarger | src/dists/binomial.ad.js:79-97 | the logarithms of o + 1, ..., n less log m! are the log binomial coefficient log(n! / (v! (n - v)!)) |
| Binomial.Score | src/dists/binomial.ad.js:66-103 | -Infinity for anything but a whole count in [0, n]; otherwise the log binomial coefficient plus v log p plus (n - v) log(1 - p), a zero count contributing 0 |
| Binomial.LogsAbove | src/dists/binomial.ad.js:94-96 | the `for` loop sums log(o + 1) + ... + log(n) |
| Binomial.ImpossibleSuccess | src/dists/binomial.ad.js:99-102 | with p = 0 any success is impossible: the score is -Infinity rather than NaN |
| Binomial.NoSuccessIsFinite | src/dists/binomial.ad.js:100-101 | with p = 0 and no successes the score is finite: the zero count contributes 0, not 0 times -Infinity |
| Binomial.CountIffInSupport | src/dists/binomial.ad.js:71 | `score`'s guard accepts exactly the members of the support (helper `Support`) |
| Multinomial.IndexList.constructor | src/dists/multinomial.ad.js:52 | the list `got` starts empty |
| Multinomial.IndexList.Push | src/dists/multinomial.ad.js:66 | `got.push(i)` appends i |
| Multinomial.IndexList.Pop | src/dists/multinomial.ad.js:68 | `got.pop()` removes and returns the last index |
| Multinomial.AllDiscreteCombinations | src/dists/multinomial.ad.js:60-71 | the recursive search lists the combinations extending `got` from position `pos` and leaves `got` as it found it |
| Multinomial.CombinationsExactly | src/dists/multinomial.ad.js:60-71 | the combinations listed are exactly the extensions of `got` to k indices below d that never decrease from `pos` on |
| Multinomial.BranchesExactly | src/dists/multinomial.ad.js:65-69 | the loop from index i on lists exactly the extensions whose next index is at least i |
| Multinomial.CombinationsFromEmpty | src/dists/multinomial.ad.js:52 | `allDiscreteCombinations(n, ps, [], 0)` lists exactly the non-decreasing index sequences of length n |
| Multinomial.Histogram | src/dists/multinomial.ad.js:73-84 | as evidently intended: position j holds the count of state j, 0 for a state not drawn |
| Multinomial.TotalOfBump | src/dists/multinomial.ad.js:81 | raising one count by one raises the total by one |
| Multinomial.TotalSame | src/dists/multinomial.ad.js:81 | equal counts, equal totals |
| Multinomial.HistogramSum | src/dists/multinomial.ad.js:73-84 | the d counts sum to the number of samples |
| Multinomial.AllZero | src/dists/multinomial.ad.js:76-79 | the default histogram of zeros totals zero |
| Multinomial.InsertByKey | src/dists/multinomial.ad.js:82 | a stable insertion into keys in string order adds one key |
| Multinomial.KeyOrder | src/dists/multinomial.ad.js:82 | `_.sortBy` by key lists the d states in the string order of their keys |
| Multinomial.HistogramAsWritten | src/dists/multinomial.ad.js:73-84 | as written: position p holds the count of the state whose key comes p-th in string order |
| Multinomial.InsertLast | src/dists/multinomial.ad.js:82 | a key no smaller than every key listed goes last |
| Multinomial.DigitKey | src/dists/multinomial.ad.js:82 | the key of a one-digit state is its digit |
| Multinomial.FewStatesInOrder | src/dists/multinomial.ad.js:82 | up to ten states, string order of the keys is numeric order |
| Multinomial.AsWrittenAgreesUpToTen | src/dists/multinomial.ad.js:73-84 | up to ten states, the histogram as written is the intended one |
| Multinomial.KeyOfTen | src/dists/multinomial.ad.js:82 | the key `10` sorts after `0` and `1` and before `2` |
| Multinomial.ElevenStatesOrder | src/dists/multinomial.ad.js:82 | with eleven states the order is 0, 1, 10, 2, ..., 9 |
| Multinomial.StateTenMisplaced | src/dists/multinomial.ad.js:73-84 | one draw of state 10 among eleven states lands at position 2 instead of position 10 |
| Multinomial.RisingIsBelow | src/dists/multinomial.ad.js:65 | the indices of a rising combination stay below d |
| Multinomial.HistogramOf | src/dists/multinomial.ad.js:53 | each combination's histogram has d counts summing to n |
| Multinomial.Support | src/dists/multinomial.ad.js:50-56 | as intended: one histogram per combination of n draws, each of d counts summing to n |
| Multinomial.HistogramOfAsWritten | src/dists/multinomial.ad.js:53 | as written, one combination's histogram; it is the intended one up to ten states |
| Multinomial.SupportAsWritten | src/dists/multinomial.ad.js:50-56 | as written: as many histograms as combinations, each of d counts, and the intended support up to ten states |
| Multinomial.SingleDrawBranches | src/dists/multinomial.ad.js:65-69 | with one draw, the combinations are the single states in order |
| Multinomial.SupportAsWrittenMisplacesTen | src/dists/multinomial.ad.js:50-56 | with one draw from eleven states, the support as written puts the draw of state 10 at position 2 of its histogram |
| Multinomial.PickedStates | src/dists/multinomial.ad.js:21-23 | the states the n draws pick, in draw order, all below d |
| Multinomial.PickedState | src/dists/multinomial.ad.js:22 | the state one draw picks is `discrete.sample`'s index for it |
| Multinomial.SampleState | src/dists/multinomial.ad.js:22 | the discrete sampler's index for the draw, as a valid state |
| Multinomial.PickedStatesStep | src/dists/multinomial.ad.js:21-23 | one more draw appends its state |
| Multinomial.Sample | src/dists/multinomial.ad.js:18-25 | `sample` has one count per state, each counting how often the discrete sampler picked that state, and the counts total n |
| Multinomial.HistogramStep | src/dists/multinomial.ad.js:22 | one more draw of state x raises the count of x by one and no other |
| Multinomial.LnFacts | src/dists/multinomial.ad.js:45 | one `lnfact` per state |
| Multinomial.Score | src/dists/multinomial.ad.js:37-49 | -Infinity unless the counts sum to n; otherwise `lnfact(n) - sum(x) + sum(y)` |
| Multinomial.SumWithNegInf | src/dists/multinomial.ad.js:48 | a sum of finite numbers and -Infinities is -Infinity as soon as one term is |
| Multinomial.SumFiniteOrNegInf | src/dists/multinomial.ad.js:48 | such a sum is finite or -Infinity |
| Multinomial.SumOfFinite | src/dists/multinomial.ad.js:48 | a sum of finite numbers is finite |
| Multinomial.TermsNeverNaN | src/dists/multinomial.ad.js:46 | the terms of well-formed counts are finite or -Infinity, never NaN, even for a zero probability with a zero count |
| Multinomial.ImpossibleStateTerms | src/dists/multinomial.ad.js:46-48 | a positive count of a state of probability 0 makes the terms sum to -Infinity |
| Multinomial.ImpossibleStateScores | src/dists/multinomial.ad.js:37-49 | counts summing to n that give a state of probability 0 a positive count score -Infinity |
| MultivariateBernoulli.Bits | src/dists/multivariateBernoulli.ad.js:61-64 | one bit per coordinate, least significant first |
| MultivariateBernoulli.BitsEncode | src/dists/multivariateBernoulli.ad.js:58-66 | for 0 <= x < 2^length the bits are 0s and 1s and stand for x |
| MultivariateBernoulli.BitsDecode | src/dists/multivariateBernoulli.ad.js:58-66 | every binary vector is the encoding of the number it stands for, which is below 2^length |
| MultivariateBernoulli.BitsInjective | src/dists/multivariateBernoulli.ad.js:58-66 | different numbers below 2^length have different encodings |
| MultivariateBernoulli.ToBinaryArray | src/dists/multivariateBernoulli.ad.js:58-66 | as intended: the assertion passes exactly for 0 <= x < 2^length, and then the result is the little-endian binary encoding of x |
| MultivariateBernoulli.ToInt32 | src/dists/multivariateBernoulli.ad.js:63 | the 32-bit conversion `>>` applies first yields a signed 32-bit integer |
| MultivariateBernoulli.JsRem2 | src/dists/multivariateBernoulli.ad.js:62 | `x % 2` keeps the sign of x |
| MultivariateBernoulli.BitsAsWritten | src/dists/multivariateBernoulli.ad.js:61-64 | as written: `x % 2`, then `x >> 1` with its 32-bit truncation, one per coordinate |
| MultivariateBernoulli.ToBinaryArrayAsWritten | src/dists/multivariateBernoulli.ad.js:58-66 | as written: the same assertion, then the bits as the loop computes them |
| MultivariateBernoulli.AsWrittenAgreesBelow31 | src/dists/multivariateBernoulli.ad.js:63 | below 2^31 the shift does not truncate, so the two encodings agree |
| MultivariateBernoulli.Pow2Add | src/dists/multivariateBernoulli.ad.js:51 | 2^(a + b) is 2^a times 2^b |
| MultivariateBernoulli.TwoTo31 | src/dists/multivariateBernoulli.ad.js:63 | 2^31 and 2^32 written out |
| MultivariateBernoulli.Pow2Monotone | src/dists/multivariateBernoulli.ad.js:59 | 2^a <= 2^b when a <= b |
| MultivariateBernoulli.Pow2Below31 | src/dists/multivariateBernoulli.ad.js:59 | every length up to 31 keeps its numbers below 2^31 |
| MultivariateBernoulli.AsWrittenAgreesUpTo31 | src/dists/multivariateBernoulli.ad.js:58-66 | up to 31 coordinates the encoding as written is the intended one |
| MultivariateBernoulli.NegativePowerFits | src/dists/multivariateBernoulli.ad.js:63 | -2^j fits in 32 bits for j <= 31 |
| MultivariateBernoulli.NegativePowerTopBit | src/dists/multivariateBernoulli.ad.js:61-64 | shifting -2^j keeps a negative power of 2, down to -1, whose remainder is -1 |
| MultivariateBernoulli.TopBitOf32 | src/dists/multivariateBernoulli.ad.js:58-66 | with 32 coordinates, 2^31 and above encode as written with a top bit of -1 instead of 1 |
| MultivariateBernoulli.PowerTopBit | src/dists/multivariateBernoulli.ad.js:58-66 | the top bit of 2^j among j + 1 bits is 1 |
| MultivariateBernoulli.BitVector | src/dists/multivariateBernoulli.ad.js:53 | a bit vector as a `[d, 1]` tensor holding the bits as numbers |
| MultivariateBernoulli.BitVectorInjective | src/dists/multivariateBernoulli.ad.js:53 | different bit vectors give different tensors |
| MultivariateBernoulli.SupportDistinct | src/dists/multivariateBernoulli.ad.js:48-55 | no vector occurs twice in the support (helper `Support`) |
| MultivariateBernoulli.SupportIsBinaryVectors | src/dists/multivariateBernoulli.ad.js:48-55 | the support is exactly the set of vectors of d 0s and 1s |
| MultivariateBernoulli.ScoreAsserting | src/dists.ad.js:285-298 | the older copy fails its assertion exactly for a value of the wrong shape and otherwise agrees with the newer score |
| MultivariateBernoulli.TermOfBit | src/dists/multivariateBernoulli.ad.js:21-25 | a coordinate of 1 contributes log p and one of 0 contributes log(1 - p) |
| MultivariateBernoulli.TermsOfBits | src/dists/multivariateBernoulli.ad.js:21-25 | the sum of the terms of a bit vector is the log probability of its bits |
| MultivariateBernoulli.TermsOfData | src/dists/multivariateBernoulli.ad.js:21-25 | the same for any data holding the bits as numbers |
| MultivariateBernoulli.TermsStep | src/dists/multivariateBernoulli.ad.js:21 | one more finite term adds its value to a finite sum |
| MultivariateBernoulli.FiniteTermOfBit | src/dists/multivariateBernoulli.ad.js:22-25 | inside (0, 1), the term of a bit is the finite log of its probability |
| MultivariateBernoulli.ScoreOfBinaryVector | src/dists/multivariateBernoulli.ad.js:11-26 | every member of the support scores the log of the product of its coordinates' probabilities (helper `Score`) |
| MultivariateBernoulli.ImpossibleCoordinate | src/dists/multivariateBernoulli.ad.js:22-25 | a 1 at a coordinate of probability 0 is impossible: its term is -Infinity |
| MultivariateBernoulli.SampleBits | src/dists/multivariateBernoulli.ad.js:40-42 | the sampled coordinates are 0s and 1s, one per probability |
| MultivariateBernoulli.Sample | src/dists/multivariateBernoulli.ad.js:35-44 | the `while (n--)` loop fills the vector from the last coordinate down, 1 where the draw is below the probability |
| MultivariateBernoulli.SampleInSupport | src/dists/multivariateBernoulli.ad.js:35-55 | every sample is in the support |
| Dists.FirstInvalidType | src/dists.ad.js:168-174 | the first parameter whose declared type is not a type, or -1 when every declared type is one |
| Dists.Methods | src/dists.ad.js:212-213 | the prototype's methods: those of every mixin and those of the options |
| Dists.MakeDistributionType | src/dists.ad.js:143-222 | `name` and then `params` are required; every declared parameter type must be a type, named in the error; `sample` and then `score` must be defined; it succeeds exactly when all of these hold |
| Dists.CheckParamsOk | src/dists.ad.js:185-200 | the parameter check passes exactly when every parameter is present and passes its type |
| Dists.CheckParamsNamesFirst | src/dists.ad.js:185-200 | when it fails, it names the first parameter that is missing or ill typed, with the matching message |
| Dists.Construct | src/dists.ad.js:180-205 | missing parameters are an error when the type declares any; construction succeeds exactly when each declared parameter is present and well typed, and keeps the parameters |
| Dists.ToJson | src/dists.ad.js:124-128 | `toJSON` gives an object with the two distinct keys `probs` and `support` |
| Dists.DeserializeToJson | src/dists.ad.js:90-128 | reading back the JSON form of a finite-support distribution gives the categorical distribution over its support (helpers `Deserialize`, `Numbers`) |
| Dists.RandomIntegerScore | src/dists.ad.js:350-354 | -log n for a whole number in [0, n), -Infinity otherwise |
| Dists.InSupportIffInRange | src/dists.ad.js:767-769 | `inDiscreteSupport` holds exactly for the members of `_.range(n)` (helper `Range`) |
| Dists.RandomIntegerScoreOnSupport | src/dists.ad.js:341-358 | the score is finite exactly on the support and the same for every member of it |
| Dists.RandomIntegerSample | src/dists.ad.js:347-349 | `Math.floor(u * n)` lies in [0, n) for a draw in [0, 1) |
| Dists.SampleInSupport | src/dists.ad.js:347-357 | a draw in [0, 1) samples a member of the support |
| Dists.MarginalSamplesSupport | src/dists.ad.js:1294-1308 | a marginal that passes the constructor's normalisation assertion (the probabilities summing to 1 within 1e-8) is never empty, its support lists one value per entry, and every draw samples a value of that support (helpers `Probs`, `Values`) |
| Dists.PickedOutcome | src/dists.ad.js:1309-1323 | the entry the draw picks is the inverse-CDF index over the probabilities |
| Dists.MarginalSample | src/dists.ad.js:1309-1323 | an empty table fails; otherwise the value of the first entry whose running sum exceeds the draw, else of the last entry |
| Dists.MarginalSampleInSupport | src/dists.ad.js:1309-1331 | every sample is a value of the support |
| Dists.MarginalScore | src/dists.ad.js:1324-1328 | a value without an entry scores -Infinity |
| Dists.ScoreOfOutcome | src/dists.ad.js:1324-1328 | an outcome with positive probability scores the log of its probability |
| Dists.ScoreOutsideSupport | src/dists.ad.js:1324-1328 | a value no entry serialises to scores -Infinity |
| Erp.WithParameters | src/erp.js:69-81 | the copy's sampler, scorer and (exactly when there is one) support ignore the parameters they are called with and use the fixed ones; the copy is not parameterized and keeps the name |
| Erp.WithParametersSerializeable | src/erp.js:69-85 | fixing the parameters makes an ERP serialisable exactly when it has a support |
| Erp.NewErpNotSerializeable | src/erp.js:67 | an ERP built without its own `parameterized` flag inherits `true`, so it is never serialisable (line 83-85) (helper `NewErp`) |
| Erp.BinomialSupport | src/erp.js:404-406 | `_.range(n).concat([n])`: 0, 1, ..., n |
| Erp.TableUpTo | src/erp.js:567-568 | the table after n values: a key is present exactly when some value among the first n serialises to it, and holds the last such value with its probability |
| Erp.TableStep | src/erp.js:568 | writing one more value keeps that description true |
| Erp.KeyAbsentSplit | src/erp.js:568 | a key is absent from n values exactly when it is absent from the first n - 1 and the n-th does not serialise to it |
| Erp.DistinctKeysTable | src/erp.js:567-568 | with distinct serialisations, every value's entry is its own |
| Erp.DuplicateKeepsLast | src/erp.js:568 | a value listed twice keeps only the probability of its last listing |
| Erp.CategoricalScore | src/erp.js:575-578 | a value no listed value serialises like scores -Infinity |
| Erp.CategoricalScoreOfListed | src/erp.js:575-578 | with distinct serialisations, a listed value of positive probability scores the log of its probability |
| Erp.CategoricalSample | src/erp.js:569-571 | the only value when there is one; otherwise the value at the index `multinomialSample(ps)` picks; always a listed value, and none for no values |
| Erp.IndexOf | src/erp.js:589 | `_.indexOf`: the first position of x, -1 exactly when it does not occur |
| Erp.Selected | src/erp.js:587-595 | the first value serialising like `params[0]`, -1 exactly when there is none or no parameter |
| Erp.SelectsFirstMatch | src/erp.js:587-595 | the selected ERP belongs to the first value that serialises like the parameter (helpers `SelectErp`, `Stringified`) |
| Erp.UnmatchedParameterScoresNegInf | src/erp.js:602-609 | a parameter no value serialises like scores -Infinity for every value |
| Erp.MultiplexAgrees | src/erp.js:597-613 | the multiplexed ERP's `sample`, `score` and `support` agree on the ERP they use: when `sample`'s assertion fails, no ERP is selected, every value scores -Infinity and `support` throws; otherwise all three delegate to the selected ERP (chosen by `SelectErp`, the first value that serialises like the parameter) |
| Erp.StripErp | src/erp.js:679 | `key.replace(/ERP$/, '')` removes a trailing `ERP` and nothing else |
| Erp.StripErpOfSuffixed | src/erp.js:679 | a key ending in `ERP` loses exactly that suffix |
| Erp.SetErpNames | src/erp.js:676-683 | every ERP among the exports is named after its key without the trailing `ERP`; keys, order and every other export are unchanged |
| Erp.NamedAfterKey | src/erp.js:676-683 | an ERP exported as `<name>ERP` is named `<name>` |
| ErpAd.IsParamsIff | src/erp.ad.js:93-95 | `isParams` holds exactly for plain objects and tensors: not arrays, lifted numbers, null or primitives |
| ErpAd.Owner | src/erp.ad.js:159-160 | the last layer among the first n that has property k, -1 when none has it |
| ErpAd.ExtendOwner | src/erp.ad.js:159-160 | copying each layer's own properties in turn leaves each property with the value of the last layer that has it |
| ErpAd.MakeErpType | src/erp.ad.js:138-171 | the name is required; `sample` and then `score` must be truthy on the prototype; it succeeds exactly then, keeping the name and the parent, and its prototype provides what the options, mixins and parent provide |
| ErpAd.OptionsWin | src/erp.ad.js:160 | a method given in the options wins over every mixin and the parent, even when its value is falsy |
| ErpAd.OnlyMethodsPicked | src/erp.ad.js:155-160 | a property no mixin has, and that the options lack or that is no method name, comes from the parent (helper `Pick`) |
| ErpAd.BaseProvidesNoSampler | src/erp.ad.js:48-72 | with no mixins and no `sample` among the options, the ERP base prototype supplies none and the type is refused |
| ErpAd.Deserialize | src/erp.ad.js:85-91 | the same test as the distribution module's `deserialize`, with a message naming an ERP |
| Header.FirstReaching | src/header.js:338-346 | the first index from i on whose running sum reaches x, every earlier one falling short; the length when none reaches it |
| Header.MultinomialSampleAsWritten | src/header.js:335-347 | for the draw u, the first index whose running sum reaches u times the total, or the array's length |
| Header.AccumulateUntil | src/header.js:339-346 | the loop returns the first index whose running sum reaches x, or the length |
| Header.ReachingStep | src/header.js:340-345 | one iteration: index j is returned when its running sum reaches x, else the search goes on |
| Header.ZeroDrawPicksZeroWeight | src/header.js:344 | a draw of exactly 0 returns index 0 whatever its weight, the case the FIXME note names |
| Header.CorrectedSkipsZeroWeight | src/header.js:344 | the inverse-CDF sampler of the distribution modules never returns a zero-weight first index for that draw |
| Header.AsWrittenInRange | src/header.js:335-347 | over non-negative weights and a draw in [0, 1), a non-empty array never falls through to `theta.length`; an empty one returns 0 |
| Header.FirstNamed | src/header.js:797-801 | the first index whose entry has the name, none earlier having it; -1 exactly when no entry has it |
| Header.FindChoice | src/header.js:793-803 | `undefined` without a trace; otherwise the first entry with the name, or `undefined` when none has it |
| Header.FindChoiceIsFirstMatch | src/header.js:797-802 | the entry found has the name and no earlier one does; none found exactly when no entry has it |
| Header.Address | src/header.js:1422-1428 | one number per `_`-separated segment after the first, each as `parseInt` reads it |
| Header.GetAddress | src/header.js:1422-1428 | `getAddress` returns exactly that address |
| Header.ParseEach | src/header.js:1424-1426 | the loop replaces every segment by the number parsed from it |
| Header.AddressOfNumbers | src/header.js:1422-1428 | an address written as `_` before each of some numbers reads back as those numbers |
| Header.AddWeight | src/header.js:551-555 | the marginal after an exit keeps its keys distinct |
| Header.AddWeightAccumulates | src/header.js:551-555 | the key's probability grows by the weight from its old value or from 0; a new key keeps the value it was first seen with; every other key is unchanged |
| Header.AddWeightTwice | src/header.js:551-555 | two exits with the same value add both weights |
| Header.Enumerate.constructor | src/header.js:462-469 | score 0, an empty queue and marginal, no completed paths, and the defaulted bound `maxExecutions \|\| 1000` (through `MaxExecutions`, never 0) |
| Header.Enumerate.NextInQueue | src/header.js:492-504 | the state taken is the queue strategy's next one and its score becomes the path's; an empty queue fails reading `score` of `undefined` |
| Header.Enumerate.Sample | src/header.js:507-531 | without a support function it throws the message; otherwise each support value is queued in order with the path's score plus its score and extra score, then the next state is taken |
| Header.SuccessorsSnoc | src/header.js:520-528 | one more support value adds one state at the end (helper `Successors`) |
| Header.DepthFirstTakesLastValue | src/header.js:579-584 | with `enuFilo`'s stack the last support value is explored first |
| Header.BreadthFirstTakesWaiting | src/header.js:587-592 | with `enuFifo`'s queue a state already waiting goes before every new value |
| Header.Enumerate.Factor | src/header.js:533-537 | the path's score grows by the factor; nothing else changes |
| Header.Enumerate.Exit | src/header.js:548-571 | the path's `exp(score)` is added under the value's key and the count grows; it goes on exactly when the queue is non-empty and the count is below the bound |
| Header.Enumerate.Record | src/header.js:550-558 | the bookkeeping of an exit: the weight goes into the marginal and the count grows by one |
| EnumQueue.LessTransitive | src/inference/enumerate.ad.js:198-200 | the score order the likely-first queue uses is transitive |
| EnumQueue.Best | src/inference/enumerate.ad.js:196-202 | a waiting state that no other waiting state outscores |
| EnumQueue.DeqIndex | src/inference/enumerate.ad.js:195-225 | the position taken lies within the queue |
| EnumQueue.Deq | src/inference/enumerate.ad.js:195-225 | one state is taken and the rest stay, as a multiset; likely first takes a state of highest score |
| EnumQueue.DepthFirstIsLastInFirstOut | src/inference/enumerate.ad.js:203-212 | `push`/`pop`: the state pushed last comes out and the queue is as before (helper `Enq`) |
| EnumQueue.BreadthFirstIsFirstInFirstOut | src/inference/enumerate.ad.js:214-223 | `push`/`shift`: the oldest state comes out and a new one waits behind the rest |
| EnumQueue.DepthFirstReverses | src/inference/enumerate.ad.js:203-212 | two states pushed come out depth first in reverse order |
| EnumQueue.BreadthFirstKeepsOrder | src/inference/enumerate.ad.js:214-223 | two states pushed come out breadth first in the same order |
| EnumerateAd.StrategyDefaults | src/inference/enumerate.ad.js:40 | with neither strategy nor bound the search is depth first; without a known name it is likely first exactly under a finite bound given; a known name always wins (helpers `NamedStrategy`, `DefaultStrategy`, `MaxExecutions`) |
| EnumerateAd.GetComplexity | src/inference/enumerate.ad.js:146-155 | the loop returns the number of nodes of the search tree whose levels branch as the sizes say |
| EnumerateAd.ComplexityExtend | src/inference/enumerate.ad.js:150-153 | one more level of size k adds the deepest level's nodes times k |
| EnumerateAd.ComplexityAtLeastDepth | src/inference/enumerate.ad.js:146-155 | when every level has a value the tree has more nodes than levels |
| EnumerateAd.UniformComplexity | src/inference/enumerate.ad.js:146-155 | b-way branching at each of n levels gives (b^(n+1) - 1) / (b - 1) nodes |
| EnumerateAd.AggregateAdd | src/aggregation/ScoreAggregator.ad.js:29-38 | a score of -Infinity leaves the marginal as it was; otherwise the key is present; keys stay distinct |
| EnumerateAd.AggregateAddBin | src/aggregation/ScoreAggregator.ad.js:29-38 | a new value's bin holds exactly its score and the value; a known value's bin holds the `logaddexp` of old and new scores, keeping its value; other keys are unchanged |
| EnumerateAd.AggregateAll | src/aggregation/ScoreAggregator.ad.js:29-38 | the marginal after all completed paths keeps its keys distinct |
| EnumerateAd.EmptyIffAllImpossible | src/inference/enumerate.ad.js:183-185 | the marginal is empty exactly when every completed path had score -Infinity, the case reported as all paths having probability zero |
| EnumerateAd.GetSupportModes | src/inference/enumerate.ad.js:75-93 | `getSupport` in the two modes: for a distribution with a finite support both modes agree; outside probe mode a success always carries a support, so a path never ends for lack of one; in probe mode the only refusal is an empty support |
| EnumerateAd.ProbeQuit | src/inference/enumerate.ad.js:159-170 | only the first path in probe mode quits: with no sampled levels as continuous, otherwise with the complexity when it exceeds the probe bound |
| EnumerateAd.NoProbeNoQuit | src/inference/enumerate.ad.js:159 | outside probe mode the check never quits |
| EnumerateAd.SmallTreeGoesOn | src/inference/enumerate.ad.js:165-169 | a probe bound at least the tree's size lets the search go on |
| EnumerateAd.Enumerate.constructor | src/inference/enumerate.ad.js:17-47 | the options' probe and bound, the chosen strategy's empty queue, score 0, an empty marginal, counter 1, the first trace with no levels |
| EnumerateAd.Enumerate.NextInQueue | src/inference/enumerate.ad.js:56-63 | the strategy's next state is taken, its score becomes the path's, and probe mode counts one more evaluation |
| EnumerateAd.Enumerate.Exit | src/inference/enumerate.ad.js:157-191 | probe mode may quit first; otherwise the path's score goes into its value's bin and the count grows; the next state resumes while one waits and the count is below the bound; at the end an empty marginal is an error and otherwise the marginal is returned |
| EnumerateAd.Enumerate.Record | src/inference/enumerate.ad.js:171-175 | the path's score goes into its value's bin and one more path has completed |
| EnumerateAd.Enumerate.Factor | src/inference/enumerate.ad.js:115-123 | the score grows by the factor; a path whose score becomes -Infinity exits with `undefined` |
| EnumerateAd.Enumerate.Sample | src/inference/enumerate.ad.js:95-113 | a refused support fails with its message; in probe mode with no support the path exits; otherwise the first trace records the support size, every value is queued in order with the path's score plus its score, and the next state resumes |
| EnumerateAd.Enumerate.Enqueue | src/inference/enumerate.ad.js:106-109 | the queue grows by one state per support value, in order |
| EnumerateAd.SuccessorsSnoc | src/inference/enumerate.ad.js:106-109 | one more support value adds one state at the end (helper `Successors`) |
| MhKernel.Proposable | src/inference/mhkernel.js:167-171 | exactly the indices from the boundary up whose distribution is not continuous, in increasing order |
| MhKernel.Draw | src/inference/mhkernel.js:189-194 | `Math.floor(u * n)` for a draw in [0, 1) is an index below n |
| MhKernel.SampleRegenChoiceAny | src/inference/mhkernel.js:192-195 | -1 exactly when no choice lies past the boundary; otherwise an index from the boundary to the end |
| MhKernel.SampleRegenChoiceDiscrete | src/inference/mhkernel.js:187-190 | -1 exactly when every choice past the boundary is continuous; otherwise a discrete choice past it |
| MhKernel.RegenChoiceIsUniformPick | src/inference/mhkernel.js:173-195 | `numRegenChoices` counts exactly the candidates drawn from, and the draw picks the candidate at `floor(u * n)`, or -1 when there is none (helper `Range`) |
| MhKernel.EveryCandidateReachable | src/inference/mhkernel.js:189-194 | each of the n candidates is picked for some draw in [0, 1) |
| MhKernel.NothingToPropose | src/inference/mhkernel.js:48-54 | the kernel continues with the old trace at once exactly when there is no candidate |
| MhKernel.CountAccepted | src/inference/mhkernel.js:153 | no more proposals are accepted than were made |
| MhKernel.InfoCounts | src/inference/mhkernel.js:150-156 | over a run of steps the total grows by the steps and the accepted count by the accepted steps, so the rate stays in [0, 1] (helper `FinishInfo`) |
| MhKernel.RunStart | src/inference/mhkernel.js:48-59 | no regeneration point exactly when there is no candidate; otherwise a candidate |
| MhKernel.MHKernel.constructor | src/inference/mhkernel.js:24-46 | the options and the old trace's score and info are kept, and no continuation is saved yet; it is reached only once the old trace passed the `-Infinity` check, which permissive mode skips (`CheckOldTrace`) (helper `RunOptions`) |
| MhKernel.MHKernel.Factor | src/inference/mhkernel.js:61-73 | a factor of -Infinity rejects at once and changes nothing; otherwise it is counted and added, and reaching the exit factor saves the continuation and exits early |
| MhKernel.MHKernel.AddChoiceToTrace | src/inference/mhkernel.js:121-130 | the choice's score is added, and a trace score of -Infinity rejects the proposal |
| MhKernel.MHKernel.Exit | src/inference/mhkernel.js:132-143 | the proposal is accepted exactly when the draw is below the acceptance probability, and the new trace is continued with |
| MhKernel.ImpossibleFactorRejects | src/inference/mhkernel.js:61-65 | a rejection by an impossible factor counts one more proposal and no more acceptances (helper `MHKernel.FinishWith`) |
| ParticleFilter.CopyOfRunning | src/inference/particlefilter.js:16-30 | `copyParticle` drops only `completed`: a copy of a running particle equals it, copying twice is copying once, and the same holds for `copyParticles` over a whole array |
| ParticleFilter.IndexOfRunning | src/inference/particlefilter.js:112-114 | the first running particle at or after the start; -1 exactly when there is none |
| ParticleFilter.LastIndexOfRunning | src/inference/particlefilter.js:122-124 | the last running particle; -1 exactly when there is none |
| ParticleFilter.NextRunning | src/inference/particlefilter.js:116-120 | a running particle; -1 exactly when none runs |
| ParticleFilter.NextRunningIsNearest | src/inference/particlefilter.js:116-120 | the nearest running particle after the active one when there is one, otherwise the first running one |
| ParticleFilter.AllAdvancedIff | src/inference/particlefilter.js:126-128 | all particles have advanced exactly when no running particle comes after the active one |
| ParticleFilter.DrawnIndex | src/inference/particlefilter.js:162 | the index drawn lies within the particles |
| ParticleFilter.RetainedSize | src/inference/particlefilter.js:148-156 | ⌊w⌋ running copies are kept of each particle |
| ParticleFilter.RetainTotalBelowSum | src/inference/particlefilter.js:148-156 | no more copies are kept than the expected weights add up to |
| ParticleFilter.ResampledShape | src/inference/particlefilter.js:130-177 | after resampling every particle runs and has the average weight; when the expected weights add up to the number of particles, the number of particles is kept |
| ParticleFilter.BumpInPlace | src/inference/particlefilter.js:210 | the entry with the key has its count raised, in place; every other entry is unchanged |
| ParticleFilter.HistAddDistinct | src/inference/particlefilter.js:206-210 | counting a value keeps keys distinct: a known key stays put and a new one is appended with count 1 |
| ParticleFilter.TotalIsSum | src/inference/particlefilter.js:203-211 | the running total is the sum of the counts |
| ParticleFilter.BumpCounts | src/inference/particlefilter.js:210 | raising a count adds 1 to the total |
| ParticleFilter.HistAddCounts | src/inference/particlefilter.js:206-210 | each value counted adds exactly 1 to the total |
| ParticleFilter.HistOfCounts | src/inference/particlefilter.js:203-211 | the counts add up to the number of values counted |
| ParticleFilter.HistOfStep | src/inference/particlefilter.js:203-211 | one more value adds one to the total |
| ParticleFilter.HistOfDistinct | src/inference/particlefilter.js:203-211 | no two entries of the histogram share a key |
| ParticleFilter.HistOfParticles | src/inference/particlefilter.js:200-212 | the histogram has distinct keys and its counts add up to the number of particles (helpers `KeysOf`, `ValuesOf`) |
| ParticleFilter.Count | src/inference/particlefilter.js:203-211 | the counting loop builds exactly that histogram |
| ParticleFilter.Filter.constructor | src/inference/particlefilter.js:36-72 | numParticles particles at the program's start with weight and score 0 and no value; `strict` and `saveHistory` default to true and `justSample` to false |
| ParticleFilter.Filter.Run | src/inference/particlefilter.js:74-77 | the first particle starts; with no particles reading it fails |
| ParticleFilter.Filter.Sample | src/inference/particlefilter.js:79-83 | only the active particle's score changes, growing by the sampled value's score |
| ParticleFilter.Filter.ResampleParticles | src/inference/particlefilter.js:130-177 | the history is saved before and after; an average weight of -Infinity throws in strict mode, else only resets the weights; otherwise the particles are the fresh ones then the retained ones, all with the average weight (helpers `Copies`, `Residuals`, `Fresh`, `WithWeight`) |
| ParticleFilter.Filter.SetWeights | src/inference/particlefilter.js:171 | the loop resets every weight |
| ParticleFilter.Filter.RetainCopies | src/inference/particlefilter.js:146-156 | the loop keeps ⌊w⌋ copies of each particle in turn and records the fractional parts |
| ParticleFilter.Filter.DrawNew | src/inference/particlefilter.js:158-164 | the loop draws the new particles |
| ParticleFilter.Filter.Factor | src/inference/particlefilter.js:85-106 | the active particle's weight and score grow and it waits at its continuation; unless it was the last running one the next running particle goes on; otherwise the particles are resampled and the first running one goes on, or strict mode fails on weight -Infinity |
| ParticleFilter.Filter.Exit | src/inference/particlefilter.js:179-195 | the active particle keeps its value and completes; the next running particle goes on, and when there is none the filter finishes |
| ParticleFilter.Filter.FinalOutcome | src/inference/particlefilter.js:197-227 | the normalisation constant is the first particle's weight; the histogram has distinct keys and counts every particle unless only samples are wanted, when the particles are returned instead; the history is kept when saved |
| ParticleFilter.Filter.Finish | src/inference/particlefilter.js:197-227 | `finish()` returns exactly that outcome |
| EsmangleCommon.ArrayLastAndEmpty | node_modules/esmangle/lib/common.js:80-86 | an array is empty exactly when it has no last element; after a push the pushed element is last (helpers `ArrayLast`, `ArrayLastIs`) |
| EsmangleCommon.ToInt32 | node_modules/esmangle/lib/common.js:91 | `num \|= 0` yields a signed 32-bit integer |
| EsmangleCommon.ToInt32Small | node_modules/esmangle/lib/common.js:91 | a count below 2^31 passes through unchanged |
| EsmangleCommon.RepeatLength | node_modules/esmangle/lib/common.js:88-98 | k copies of s have length k·\|s\| |
| EsmangleCommon.RepeatAdd | node_modules/esmangle/lib/common.js:88-98 | a + b copies are a copies followed by b copies |
| EsmangleCommon.RepeatDoubled | node_modules/esmangle/lib/common.js:91 | h copies of the doubled string are 2h copies of the string |
| EsmangleCommon.RepeatHalved | node_modules/esmangle/lib/common.js:91-95 | n copies are the low bit's copy followed by n/2 copies of the doubled string |
| EsmangleCommon.RepeatStep | node_modules/esmangle/lib/common.js:91-95 | one pass of the loop keeps `result` followed by n copies of `str` fixed |
| EsmangleCommon.StringRepeat | node_modules/esmangle/lib/common.js:88-98 | the result is `str` repeated `num \| 0` times, none when that is not positive |
| EsmangleCommon.RepeatNonPositive | node_modules/esmangle/lib/common.js:88-98 | counts that are not positive, or that wrap to negative 32-bit values, give the empty string |
| EsmangleCommon.Visible | node_modules/esmangle/lib/common.js:123-127 | only properties of the record whose key does not start with `__` are kept |
| EsmangleCommon.VisibleKeepsAll | node_modules/esmangle/lib/common.js:123-137 | every property whose key does not start with `__` is kept |
| EsmangleCommon.CopyEach | node_modules/esmangle/lib/common.js:127-137 | one copied property per property |
| EsmangleCommon.CopyEachAt | node_modules/esmangle/lib/common.js:128-136 | the j-th copied property has the j-th key and a copy of its value |
| EsmangleCommon.DeepCopyIsClean | node_modules/esmangle/lib/common.js:120-142 | no `__` key survives at any depth |
| EsmangleCommon.DeepCopyOfClean | node_modules/esmangle/lib/common.js:120-142 | a value with no `__` key inside copies to an equal value |
| EsmangleCommon.VisibleAt | node_modules/esmangle/lib/common.js:124-126 | a kept property's key does not start with `__` |
| EsmangleCommon.VisibleOfClean | node_modules/esmangle/lib/common.js:123-138 | with no `__` key every property is kept, in order |
| EsmangleCommon.VisibleStep | node_modules/esmangle/lib/common.js:123-138 | one more property is kept exactly when its key does not start with `__` |
| EsmangleCommon.CopyEachSnoc | node_modules/esmangle/lib/common.js:136 | copying one more property appends its copy |
| EsmangleCommon.DeepCopyIdempotent | node_modules/esmangle/lib/common.js:120-142 | copying a copy changes nothing |
| EsmangleCommon.DeepCopyShape | node_modules/esmangle/lib/common.js:120-142 | an array copies to an array of the same length, an object to one with the kept keys in order |
| EsmangleCommon.CopyProps | node_modules/esmangle/lib/common.js:121-140 | the loop fills the result with exactly the deep copy's properties |
| EsmangleCommon.CopyVisibleIsDeepCopy | node_modules/esmangle/lib/common.js:121-140 | copying the kept properties one by one gives the deep copy's properties |
| EsmangleCommon.CopyVisibleIsCopyEach | node_modules/esmangle/lib/common.js:121-140 | copying the kept properties one by one copies each kept property |
| EsmangleCommon.VisibleWithin | node_modules/esmangle/lib/common.js:123-127 | a kept property is a property of the record |
| EsmangleCommon.CopyValue | node_modules/esmangle/lib/common.js:129-135 | a property value is replaced by its deep copy |
| EsmangleCommon.DeepCopyTop | node_modules/esmangle/lib/common.js:120-142 | an array or object is deep-copied; a value with no enumerable keys copies to `{}` |
| EsmangleCommon.MayBeCompletionValue | node_modules/esmangle/lib/common.js:163-194 | the walk from the innermost ancestor outward answers exactly `MayBeCompletion`: not an expression statement, or no ancestor on the path is a function or a statement list whose last statement is not the path down |
| EsmangleCommon.NonExpressionMayBeCompletion | node_modules/esmangle/lib/common.js:166-168 | a statement that is not an expression statement may be the completion value |
| EsmangleCommon.FunctionAncestorStops | node_modules/esmangle/lib/common.js:174-176 | a function anywhere above an expression statement stops it |
| EsmangleCommon.NotLastStops | node_modules/esmangle/lib/common.js:178-189 | a block, program or switch case whose last statement is not the path down stops it |
| EsmangleCommon.LastOfProgramMayBeCompletion | node_modules/esmangle/lib/common.js:178-183 | the last statement directly in a program may be the completion value |
| EsmangleCommon.NegateInvolutive | node_modules/esmangle/lib/common.js:221-248 | negation undoes itself and turns a negative value, -0 included, into one that is not negative and not NaN |
| EsmangleCommon.IsNegativeCases | node_modules/esmangle/lib/common.js:221-223 | NaN, +Infinity and +0 are not negative; -Infinity and -0 are |
| EsmangleCommon.GenerateFromValueRoundTrip | node_modules/esmangle/lib/common.js:295-311 | the node generated for any value (NaN as `0/0`, a negative as a unary minus, `undefined` as `void 0`, otherwise a literal) evaluates back to that value |
| EsmangleCommon.GeneratedLiteralsAreNonNegative | node_modules/esmangle/lib/common.js:295-311 | a generated number literal is never NaN or negative; a unary minus is generated only for a negative number, around a literal that is not negative |
| EsmangleCommon.CanExtractIffMeaningKept | node_modules/esmangle/lib/common.js:313-346 | a sequence's last expression can be extracted exactly when that cannot change the meaning: no direct `eval`, no lost receiver, no unresolved name under a call or `typeof`, no reference under `delete` or an update |
| EsmangleCommon.OtherParentsExtract | node_modules/esmangle/lib/common.js:345 | under any other parent the last expression can always be extracted |
| VinesImage.NumBytes | demos/vines/js/utils.js:156 | `Math.ceil(n / 8)`: the fewest bytes that hold n bits |
| VinesImage.SameCountBound | demos/vines/js/utils.js:67-73 | the agreement count is at most the number of pixels |
| VinesImage.SameCountSelf | demos/vines/js/utils.js:67-73 | an image agrees with itself on every pixel |
| VinesImage.SameAsWhiteIsUnfilled | demos/vines/js/utils.js:60-105 | agreement with an all-white image plus the filled count is the number of pixels |
| VinesImage.MirrorPixels | demos/vines/js/utils.js:116-123 | pixel x of row y and its mirror lie inside the buffer, and one more step of the row adds 1 exactly when they differ |
| VinesImage.RowInside | demos/vines/js/utils.js:118-119 | every row of the image lies inside the buffer |
| VinesImage.RowDistBound | demos/vines/js/utils.js:116-124 | a row has at most one mismatch per compared pixel |
| VinesImage.MirrorDistBound | demos/vines/js/utils.js:115-125 | the total mismatch is at most half the width times the rows |
| VinesImage.RowDistZero | demos/vines/js/utils.js:116-124 | a mirror-symmetric row has no mismatch |
| VinesImage.MirrorDistZero | demos/vines/js/utils.js:115-125 | a mirror-symmetric image has no mismatch |
| VinesImage.SymmetryScoreRange | demos/vines/js/utils.js:110-127 | the score is NaN exactly when no pixel pair is compared; otherwise it lies in [0, 1], and it is 1 for a mirror-symmetric image |
| VinesImage.ScoreInUnit | demos/vines/js/utils.js:126 | one minus a fraction of at most one lies in [0, 1] |
| VinesImage.Covered | demos/vines/js/utils.js:166-167 | how many of byte j's pixels come before pixel i, at most 8 |
| VinesImage.Encode | demos/vines/js/utils.js:154-171 | the packed form of n pixels takes `ceil(n / 8)` bytes |
| VinesImage.Partial | demos/vines/js/utils.js:161-169 | the bytes once some pixels are packed keep that size |
| VinesImage.PartialZero | demos/vines/js/utils.js:157-160 | before packing every byte is 0 |
| VinesImage.ShiftReadsBit | demos/vines/js/utils.js:178 | `(b >> r) & 1` reads bit r |
| VinesImage.ShiftedBit | demos/vines/js/utils.js:168 | `bit << r` is the mask of bit r or 0 |
| VinesImage.BitOfOrMask | demos/vines/js/utils.js:168 | `\|=` with the mask sets bit s and leaves every other bit |
| VinesImage.BitOfZero | demos/vines/js/utils.js:159 | a zero byte has no bit set |
| VinesImage.PackFromBit | demos/vines/js/utils.js:161-169 | bit r of a byte holding k pixels is set exactly when r < k and that pixel is dark |
| VinesImage.EncodeBit | demos/vines/js/utils.js:161-169 | bit i % 8 of byte i / 8 is set exactly when r, g and b of pixel i are all below 128, little-endian within the byte |
| VinesImage.Decode | demos/vines/js/utils.js:172-186 | four bytes per pixel |
| VinesImage.DecodedByteAt | demos/vines/js/utils.js:175-184 | a pixel whose bit is set is black, one whose bit is clear is white, and alpha is always 255 |
| VinesImage.Binarised | demos/vines/js/utils.js:154-186 | the image a round trip can keep has four bytes per pixel |
| VinesImage.RoundTrip | demos/vines/js/utils.js:154-186 | decoding the packed form gives the image binarised: black where dark, white elsewhere, opaque |
| VinesImage.RoundTripBinary | demos/vines/js/utils.js:154-186 | on an image already binarised the round trip is the identity |
| VinesImage.PackStep | demos/vines/js/utils.js:161-169 | one pass of the packing loop sets pixel i's bit in byte i / 8 and changes no other byte |
| VinesImage.ImageData2D.constructor | demos/vines/js/utils.js:29 | a new image has no pixels |
| VinesImage.ImageData2D.FillWhite | demos/vines/js/utils.js:51-59 | every byte becomes 255; the buffer is replaced exactly when the dimensions change |
| VinesImage.ImageData2D.NumSameBinary | demos/vines/js/utils.js:60-74 | an error exactly when the dimensions differ; otherwise the number of pixels on which both agree about being empty |
| VinesImage.ImageData2D.NumFilled | demos/vines/js/utils.js:98-105 | the number of pixels whose red channel is not 255 |
| VinesImage.ImageData2D.BinaryBilateralSymmetryScore | demos/vines/js/utils.js:110-127 | one minus the fraction of left-half pixels that differ from their mirror image |
| VinesImage.ImageData2D.RowMismatches | demos/vines/js/utils.js:116-124 | the inner loop counts the mismatches of row y |
| VinesImage.ImageData2D.ToBinaryByteArray | demos/vines/js/utils.js:154-171 | the packed form of the image |
| VinesImage.ImageData2D.FromBinaryByteArray | demos/vines/js/utils.js:172-186 | the image takes the new dimensions and exactly the decoded pixels |
| VinesImage.ImageData2D.WritePixels | demos/vines/js/utils.js:175-184 | the loop writes all four bytes of every pixel, so the whitening before leaves no trace |
| VinesImage.ImageData2D.WritePixel | demos/vines/js/utils.js:180-183 | one pass writes pixel i's four bytes from its bit and keeps every other byte |
| VinesMesh.JoinValid | demos/vines/js/render.js:180-190 | appending keeps every index pointing at a vertex, and each appended index at the vertex it named before |
| VinesMesh.OffsetOffset | demos/vines/js/render.js:187 | shifting by m and then by n shifts by m + n (helper `Offset`) |
| VinesMesh.JoinAssociative | demos/vines/js/render.js:180-190 | appending is associative, so the vines can be appended one at a time |
| VinesMesh.JoinEmpty | demos/vines/js/render.js:137-190 | the empty mesh is a unit of appending on both sides |
| VinesMesh.AppendAllValid | demos/vines/js/render.js:630-633 | appending valid meshes one after another gives a valid mesh |
| VinesMesh.CopyVecs | demos/vines/js/render.js:147-152 | `copyvecs` appends src to dst, in order |
| VinesMesh.PushOffset | demos/vines/js/render.js:185-188 | the loop pushes other's indices shifted by the old vertex count |
| VinesMesh.Mesh.constructor | demos/vines/js/render.js:137-144 | a new mesh has four empty arrays |
| VinesMesh.Mesh.Copy | demos/vines/js/render.js:153-159 | the indices become a copy of other's, while other's vertices, uvs and normals go onto the end of this mesh's own |
| VinesMesh.Mesh.Clone | demos/vines/js/render.js:162-164 | a new mesh with the same contents |
| VinesMesh.Mesh.Append | demos/vines/js/render.js:180-190 | vertices, uvs and normals concatenated, other's indices pushed shifted by the old vertex count |
| VinesMesh.VineIndices | demos/vines/js/render.js:470-475 | six indices for each pair of consecutive points |
| VinesMesh.VineShape | demos/vines/js/render.js:428-478 | n points give 2n vertices, uvs and normals and 6(n-1) indices, each naming one of the vine's vertices |
| VinesMesh.AccLengths | demos/vines/js/render.js:435-442 | the accumulated length up to every point, starting from 0 |
| VinesMesh.Params | demos/vines/js/render.js:444-451 | each point's parameter, and the texture coordinates of both edges interpolated between v0 and v1 |
| VinesMesh.Strip | demos/vines/js/render.js:453-468 | both edges of the strip at every point at the given depth, offset by half the interpolated width along the normal, and their outward normals |
| VinesMesh.QuadIndices | demos/vines/js/render.js:470-475 | the last loop yields exactly the vine's index list |
| VinesMesh.Vine | demos/vines/js/render.js:428-478 | `vine` builds exactly the vine mesh its four loops describe |
| VinesMesh.Billboard | demos/vines/js/render.js:481-494 | the unit quad centred at the origin, with its four texture corners, no normals and two triangles |
| VinesMesh.BillboardValid | demos/vines/js/render.js:491-492 | the billboard's six indices all name one of its four corners |
| VinesMesh.Push | demos/vines/js/render.js:609-612 | the window of ancestors ends with the node just visited and holds at most two |
| VinesMesh.SegmentCount | demos/vines/js/render.js:585-619 | from the root with no ancestors, every node below the root gives exactly one vine |
| VinesMesh.SegmentCountFrom | demos/vines/js/render.js:613-615 | the children from i on give one vine per node below them |
| VinesMesh.Insert | demos/vines/js/render.js:622-629 | inserting a piece into a depth-sorted list keeps it sorted and adds exactly that piece |
| VinesMesh.InsertBehind | demos/vines/js/render.js:622-629 | a shallower head stays in front of the insertion into the rest |
| VinesMesh.InsertAbove | demos/vines/js/render.js:622-629 | a permutation of pieces all at least as deep as d stays at least as deep as d |
| VinesMesh.SortByDepth | demos/vines/js/render.js:622-629 | the sort by depth gives a sorted permutation of the vines |
| VinesMesh.AppendSorted | demos/vines/js/render.js:620-634 | the vines sorted by depth and then appended one by one into a new mesh, back to front |
| VinesMesh.AppendAllStep | demos/vines/js/render.js:631-633 | appending one more mesh extends the joined mesh by it |
| VinesGeo.Ordinal | demos/vines/js/render.js:506-512 | the number of branches before position p, at most p |
| VinesGeo.Positions | demos/vines/js/render.js:544 | one listed position per branch before p |
| VinesGeo.PositionsAreBranches | demos/vines/js/render.js:538-544 | the k-th listed geo is a branch with k branches before it, and listed positions increase |
| VinesGeo.BranchesListed | demos/vines/js/render.js:538-544 | every branch is listed at its ordinal |
| VinesGeo.IndexOf | demos/vines/js/render.js:571 | `indexOf`: the first index holding x, and -1 exactly when none does |
| VinesGeo.ListedIndex | demos/vines/js/render.js:571 | looking a geo up in the branch list finds its ordinal exactly when it is a branch, and -1 otherwise |
| VinesGeo.DepthsIncrease | demos/vines/js/render.js:514-542 | later branches are drawn nearer, every depth strictly inside (-1, 1) |
| VinesGeo.MapDepthMonotone | demos/vines/js/render.js:514-522 | `mapdepth` is increasing and sends the padded ends to -1 and 1 |
| VinesGeo.BoardsAroundParent | demos/vines/js/render.js:545-560 | a leaf is drawn behind the branch it hangs from, a flower in front of it |
| VinesGeo.SweepErrorIffBad | demos/vines/js/render.js:525-564 | the sweep fails exactly on an unrecognised type or a leaf or flower without a parent |
| VinesGeo.LastRoot | demos/vines/js/render.js:529-537 | a root exactly when some branch has no parent: the last one, with no depth and no children |
| VinesGeo.Nodes | demos/vines/js/render.js:538-543 | one tree node per branch |
| VinesGeo.NodesAt | demos/vines/js/render.js:538-543 | node k has branch k's end point and width, at layer k's depth, with no children yet |
| VinesGeo.ChildrenUpTo | demos/vines/js/render.js:567-574 | the children linked so far come from the branches before i |
| VinesGeo.ChildrenExactlyOnce | demos/vines/js/render.js:567-574 | every branch is a child exactly where its slot says, and children are listed in increasing order |
| VinesGeo.ChildrenStep | demos/vines/js/render.js:573 | one more branch linked keeps both properties |
| VinesGeo.ObjDataFails | demos/vines/js/render.js:498-580 | the conversion fails exactly on an unrecognised type, a leaf or flower without a parent, or a branch whose parent is not a listed branch |
| VinesGeo.ObjDataShape | demos/vines/js/render.js:498-580 | on success one node per branch, each at its layer's depth, each branch the child of exactly its parent's node, and of the root when it has none |
| VinesGeo.SweepErrorPersists | demos/vines/js/render.js:525-564 | once the sweep has failed it fails with the same error whatever follows |
| VinesGeo.FailedSweep | demos/vines/js/render.js:525-564 | a failure on a prefix is the failure of the whole sweep |
| VinesGeo.Layers | demos/vines/js/render.js:505-512 | the first sweep gives each branch the number of branches before it |
| VinesGeo.SweepStep | demos/vines/js/render.js:525-564 | one iteration fails exactly when the prefix it completes is bad, and otherwise extends the state |
| VinesGeo.Sweep | demos/vines/js/render.js:525-564 | the second sweep fails with the first bad geo's error, and otherwise builds the nodes, the root and the billboards |
| VinesGeo.LinkedUpTo | demos/vines/js/render.js:567-574 | linking keeps the number of nodes |
| VinesGeo.LinkedStep | demos/vines/js/render.js:567-574 | linking branch i pushes it onto its parent's node when that is listed, and otherwise leaves the nodes |
| VinesGeo.LinkedChildren | demos/vines/js/render.js:567-574 | node k keeps everything but gains, in order, exactly the branches linked under it |
| VinesGeo.SlotBelow | demos/vines/js/render.js:571-572 | a branch is linked only under a listed branch |
| VinesGeo.ParentIndex | demos/vines/js/render.js:570-572 | `indexOf` decides where a branch is linked: the root without a parent, nowhere when the parent is not listed |
| VinesGeo.Link | demos/vines/js/render.js:566-574 | the third sweep fails with a TypeError exactly when some parent is not listed; otherwise every node is pushed onto its parent's node or the root |
| VinesGeo.Geo2ObjData | demos/vines/js/render.js:498-580 | `geo2objdata` returns exactly `ObjDataOf` |
| VinesFutures.Split | demos/vines/js/futures.js:14 | `a.split('_')` gives at least one piece |
| VinesFutures.SplitJoin | demos/vines/js/futures.js:14 | one more piece than there are underscores, none holding one, and joining them with `_` gives the address back |
| VinesFutures.SplitJoinUnderscore | demos/vines/js/futures.js:14 | the same for an address ending in an underscore |
| VinesFutures.SplitJoinOther | demos/vines/js/futures.js:14 | the same for an address ending in another character |
| VinesFutures.JoinExtendLast | demos/vines/js/futures.js:14 | a character added to the last piece is added to the end of the joined address |
| VinesFutures.NewFuture | demos/vines/js/futures.js:11-14 | the future keeps its creation address and its depth is the number of address pieces |
| VinesFutures.MakeFutureExtends | demos/vines/js/futures.js:16 | every earlier future stays at its place and exactly one is added (helper `MakeFuture`) |
| VinesFutures.PolicyNamed | demos/vines/js/futures.js:36-113 | exactly the six policy names are known |
| VinesFutures.PolicyIsKept | demos/vines/js/futures.js:116-134 | after `setFuturePolicy(name)` succeeds (exactly for the six known names), `ensurePolicy` keeps that policy and `future` queues a call exactly when the name is not `immediate` |
| VinesFutures.EnsurePolicyIdempotent | demos/vines/js/futures.js:125-129 | ensuring a policy twice is ensuring it once, and the queue is never touched |
| VinesFutures.ScheduleFutureQueues | demos/vines/js/futures.js:131-134 | `future` either leaves the queue as it was (the immediate policy runs the call at once) or puts the call at the end of the queue, and the store always has a policy afterwards |
| VinesFutures.MaxDepth | demos/vines/js/futures.js:81-84 | the `Math.max` loop from 0 gives a depth no future exceeds and, on a non-empty list, one some future has |
| VinesFutures.Deepest | demos/vines/js/futures.js:85 | exactly the futures of that depth, in queue order |
| VinesFutures.DeepestNonEmpty | demos/vines/js/futures.js:81-85 | a non-empty queue always has a deepest future to pick |
| VinesFutures.Choose | demos/vines/js/futures.js:52-111 | the future a policy picks is one of the queue's |
| VinesFutures.ChooseDeepest | demos/vines/js/futures.js:78-90 | uniformFromDeepest picks only a future of maximum depth |
| VinesFutures.DeepestReachable | demos/vines/js/futures.js:86-88 | every deepest future can be the one picked |
| VinesFutures.IndexOf | demos/vines/js/futures.js:24 | the first index holding the future |
| VinesFutures.Remove | demos/vines/js/futures.js:24-26 | `slice` and `splice(i, 1)` leave a copy with that one future less |
| VinesFutures.RemoveAt | demos/vines/js/futures.js:24-26 | removing the future at position i removes exactly that position |
| VinesFutures.DrainUnfold | demos/vines/js/futures.js:21-32 | one turn with the first draw, then the rest |
| VinesFutures.DrainAt | demos/vines/js/futures.js:21-32 | the turn with draw i, then the draws after it |
| VinesFutures.DrainDone | demos/vines/js/futures.js:31 | an empty queue runs nothing more |
| VinesFutures.DrainStopsEarlyOnlyWhenEmpty | demos/vines/js/futures.js:21-32 | stopping before the draws run out means the queue is empty |
| VinesFutures.DrainRunsAll | demos/vines/js/futures.js:21-32 | when no future queues others, each queued future runs exactly once and the queue ends empty |
| VinesFutures.DrainRunsAllStep | demos/vines/js/futures.js:23-29 | one such turn, given what the rest does |
| VinesFutures.LifoRunsReversed | demos/vines/js/futures.js:50-55 | under lifo with nothing queued on the way, futures run last-queued first |
| VinesFutures.LifoRunsReversedStep | demos/vines/js/futures.js:52-54 | one lifo turn runs the last future before the rest in reverse |
| VinesFutures.LifoTurn | demos/vines/js/futures.js:52-54 | a lifo turn takes the last future off the queue |
| VinesFutures.FifoRunsInOrder | demos/vines/js/futures.js:58-63 | under fifo with nothing queued on the way, futures run in the order they were queued |
| VinesFutures.RunTurn | demos/vines/js/futures.js:23-29 | one turn takes the chosen future off the queue and queues what it creates |
| VinesFutures.DrainTurn | demos/vines/js/futures.js:23-29 | one pass of the loop leaves the same eventual queue and run order |
| VinesFutures.DrainQueue | demos/vines/js/futures.js:21-32 | the loop gives exactly the drained queue and the futures run, ending empty when it stops early |
| VinesFutures.FinishAllFutures | demos/vines/js/futures.js:20-34 | under the immediate policy nothing happens; otherwise the queue is drained under the policy, which is kept |
| Lda.Entry.constructor | experiments/lda.js:27 | a `[word, count]` entry holds the word and the count it is built with |
| Lda.DocWords | experiments/lda.js:42-45 | the word of each entry of a document, in order |
| Lda.DocCounts | experiments/lda.js:27 | the count of each entry of a document, in order |
| Lda.WordTable | experiments/lda.js:41-45 | the words of every document, document by document |
| Lda.CountTable | experiments/lda.js:27 | the counts of every document, document by document |
| Lda.DistinctWords | experiments/lda.js:46-51 | the distinct words are exactly the words seen, each listed once |
| Lda.Position | experiments/lda.js:46-52 | the first place of a word in the distinct words, which holds it |
| Lda.PositionInPrefix | experiments/lda.js:46-49 | seeing more words never changes the number a word already got |
| Lda.DistinctExtends | experiments/lda.js:41-54 | the distinct words of a prefix come first among those of the whole |
| Lda.DistinctStep | experiments/lda.js:46-51 | a word seen again adds nothing; a new word is appended |
| Lda.VocabEntries | experiments/lda.js:50 | entry t of the new vocabulary is the old entry of the t-th distinct word |
| Lda.IndexMapPositions | experiments/lda.js:38-49 | the word index map holds exactly the distinct words, each at its place |
| Lda.TrackStep | experiments/lda.js:44-52 | one loop step keeps map, counter and new vocabulary in step with the words seen |
| Lda.NewPosition | experiments/lda.js:48 | a new word takes the next free number `currIdx++` |
| Lda.Kept | experiments/lda.js:35 | `slice().splice(0, n)` keeps n documents when n is in range, never more than there are |
| Lda.RemapEntry | experiments/lda.js:44-52 | one entry's word is renumbered to its place among the distinct words; its count is untouched |
| Lda.RemapDoc | experiments/lda.js:42-53 | every entry of one document is renumbered, earlier numbers are kept, counts are untouched |
| Lda.RemapNext | experiments/lda.js:41-53 | renumbering document i extends the invariant of the outer loop to i + 1 documents |
| Lda.RemapFrom | experiments/lda.js:41-54 | the outer loop from document i on reaches the invariant for all documents |
| Lda.RemapDocs | experiments/lda.js:38-54 | each word becomes its place among the distinct words in visiting order; the new vocabulary lists their old entries |
| Lda.FlattenHas | experiments/lda.js:41-45 | every word of the first k documents is among the words visited |
| Lda.Numbering | experiments/lda.js:46-52 | the numbers handed out are the places of the words among the distinct words |
| Lda.KeepFirst | experiments/lda.js:35 | the kept documents share no entry and the dropped ones lie outside their entries |
| Lda.Subsample | experiments/lda.js:34-56 | the first n documents, renumbered 0, 1, ... by first appearance, with the reduced vocabulary; the dropped documents are unchanged |
| Lda.Compacted | experiments/lda.js:36-54 | new numbers index the new vocabulary, which names the old word, and distinct words get distinct numbers |
| Lda.DecimalOfNat | experiments/lda.js:24-26 | `+` reads the decimal text of a natural number back as the number |
| Lda.Empty | experiments/lda.js:16-18 | n empty documents |
| Lda.TokenRows | experiments/lda.js:23 | one token row per line |
| Lda.IntToStringChars | experiments/lda.js:23-26 | an integer's text is a minus sign followed by its digits |
| Lda.NumberOfInt | experiments/lda.js:24-26 | `+` reads an integer's text back as the integer |
| Lda.NoSeparators | experiments/lda.js:23 | an integer's text contains no space and no line break |
| Lda.TokensOfEntry | experiments/lda.js:23 | the data line of a pair splits on spaces into its three tokens |
| Lda.RowOf | experiments/lda.js:23-27 | the tokens of a pair's data line push that pair onto its document |
| Lda.ReadRow | experiments/lda.js:23-27 | three tokens naming a document in range, a word and a count push the 0-based pair onto that document |
| Lda.FillSnoc | experiments/lda.js:20-29 | reading one more line applies it to the documents read so far |
| Lda.FillAppend | experiments/lda.js:20-29 | reading a then b reads b from where a left off |
| Lda.FillEntry | experiments/lda.js:20-29 | one more data line adds its pair to its document |
| Lda.FillDoc | experiments/lda.js:20-29 | the data lines of a document add its pairs to it, in order |
| Lda.FillTable | experiments/lda.js:16-29 | the data lines of the first k documents, read into empty documents, rebuild them |
| Lda.PlaceRow | experiments/lda.js:27 | filling row k - 1 extends the rebuilt prefix by one document |
| Lda.TokenRowsAppend | experiments/lda.js:20-23 | lines are tokenised one by one |
| Lda.DocTokens | experiments/lda.js:20-23 | a document's data lines tokenise into its rows and contain no line break |
| Lda.TableTokens | experiments/lda.js:20-23 | the data lines of the first k documents tokenise into their rows and contain no line break |
| Lda.DecodeEncode | experiments/lda.js:13-31 | reading a docword file written from some documents gives those documents back |
| Lda.BlankLineSkipped | experiments/lda.js:22 | empty lines among the data lines change nothing |
| Lda.FailStays | experiments/lda.js:27 | once a line fails, later lines change nothing |
| Lda.RowsSnoc | experiments/lda.js:20-23 | the rows of k + 1 lines are those of k lines and the next |
| Lda.PushApart | experiments/lda.js:27 | pushing a fresh entry keeps the documents free of shared entries |
| Lda.PushFootprint | experiments/lda.js:27 | pushing an entry adds it, and nothing else, to the documents' entries |
| Lda.PushHolds | experiments/lda.js:27 | pushing an entry adds its word and count to the document's row |
| Lda.ReadLine | experiments/lda.js:21-28 | one data line updates the documents as the reading function says, or reports its error; tokens are read as integers only (see Left out) |
| Lda.LoadDocwords | experiments/lda.js:13-31 | succeeds exactly when the file reads, then the documents hold what it reads, in fresh entries; otherwise the error; header and tokens are read as integers only (see Left out) |
| Lda.EmptyDocuments | experiments/lda.js:16-18 | n empty documents |
| Lda.EmptyHolds | experiments/lda.js:16-18 | empty documents share nothing and hold the empty table |
| Lda.ReadLines | experiments/lda.js:19-29 | the data lines read as the reading function says, stopping at the first bad line with its error; a non-integer word or count counts as bad here (see Left out) |
| Lda.FailRest | experiments/lda.js:27 | a failure on line k is the failure of the whole file |
| Lda.RowWords | experiments/lda.js:45 | the words of a row of pairs |
| Lda.TableWords | experiments/lda.js:45 | the words of every row |
| Lda.WordsHeld | experiments/lda.js:41-45 | documents that hold a table have its words |
| Lda.HoldsPrefix | experiments/lda.js:35 | the first k documents hold the first k rows |
| Lda.Defined | experiments/lda.js:9-11 | each vocabulary line is one entry |
| Lda.LoadDataAsWritten | experiments/lda.js:58-69 | without nSubsample the call fails; with it, it succeeds exactly when the docword file reads |
| Lda.LoadData | experiments/lda.js:58-69 | succeeds exactly when the docword file reads; without nSubsample returns the vocabulary lines and the documents, with it the kept documents and the vocabulary of their distinct words |
| Lda.KeptWords | experiments/lda.js:35-45 | the words visited in the kept documents are those of the first k rows |
| Lda.FlattenPrefix | experiments/lda.js:41-45 | visiting the first k rows sees only those rows |
| Lda.FlattenAgree | experiments/lda.js:41-45 | rows that agree on the first k give the same words visited |
| Lda.FloorPick | experiments/lda.js:84 | `Math.floor(Math.random() * n)` is a place among n |
| Lda.CeilPick | experiments/lda.js:87 | `Math.ceil(Math.random() * w)` lies in 0..w and is at least 1 unless the draw is 0 |
| Lda.Removed | experiments/lda.js:86 | `splice(k, 1)` drops place k and keeps the others |
| Lda.RemovedKeeps | experiments/lda.js:86 | the pool stays free of repeats and below nWords, without the drawn word |
| Lda.WordPool | experiments/lda.js:80-82 | the pool is the words 0 .. nWords - 1 in order |
| Lda.DrawKeeps | experiments/lda.js:83-90 | an entry drawn keeps the state of the inner loop |
| Lda.DrawEntry | experiments/lda.js:84-89 | one pass adds one entry, keeps the loop state and never raises the words left, lowering them unless the draw is 0 |
| Lda.GenDoc | experiments/lda.js:78-91 | a completed document is a synthetic document of nWordsPerDoc words; with nonzero draws it takes at most two per word and completes when enough draws remain |
| Lda.SynthVocab | experiments/lda.js:73-75 | the vocabulary is the nWords generated names in order |
| Lda.GenSynthData | experiments/lda.js:71-94 | nWords names and nDocs synthetic documents; with enough nonzero draws it always completes |
| Lda.Indexed | experiments/lda.js:97-99 | the pairs `[i, wordDistrib[i]]` in index order |
| Lda.Insert | experiments/lda.js:100 | inserting a pair adds exactly it |
| Lda.SortByProb | experiments/lda.js:100 | the sort keeps the pairs as a multiset |
| Lda.SortRanked | experiments/lda.js:100 | pairs in index order sort by decreasing probability, equal ones by index |
| Lda.Ranking | experiments/lda.js:97-100 | one sorted pair per probability |
| Lda.RankingSpec | experiments/lda.js:97-100 | the sorted list is ranked and holds each index once with its probability |
| Lda.RankedDistinct | experiments/lda.js:100 | a ranked list of pairs fixed by their index repeats no index |
| Lda.TopWords | experiments/lda.js:101 | `splice(0, n)` keeps n pairs when n is in range |
| Lda.TopWordsSpec | experiments/lda.js:96-103 | the kept pairs are distinct indices with their probabilities, in decreasing order, and none left out outscores one kept |
| Lda.TopWordsAll | experiments/lda.js:101 | with n at least the number of words every index is kept |
| Lda.Label | experiments/lda.js:101-103 | each kept pair is labelled with its vocabulary entry |
| Lda.SummarizeWordDistrib | experiments/lda.js:96-104 | the vocabulary entry and probability of each kept pair, in order |
| Editor.HasMax | src/index.js:25 | a non-empty set of keys has a largest element |
| Editor.Max | src/index.js:25 | `_.max` of a non-empty collection is one of its elements and no element exceeds it |
| Editor.NextIntegerKey | src/index.js:20-29 | the result is above every key and is not a key; it is 0 or one more than a key, so it is the largest key plus one |
| Editor.InsertByKey | src/index.js:141 | inserting into the sorted list adds one element |
| Editor.InsertByKeyHas | src/index.js:141 | inserting adds exactly the new block and keeps every other |
| Editor.OrderedBlockList | src/index.js:129-144 | one listed block per block of the map |
| Editor.InsertOrdered | src/index.js:140-141 | the stable sort keeps blocks of equal key in the order `_.values` lists them, by increasing id |
| Editor.OrderedSpec | src/index.js:129-144 | every block of the map is listed once, tagged with its id, in display order |
| Editor.OrderedUnique | src/index.js:141 | two lists in display order with the same elements are the same list |
| Editor.First | src/index.js:141 | the head of a display-ordered list comes before every other element |
| Editor.Rest | src/index.js:141 | past its head a display-ordered list holds the other elements, still ordered |
| Editor.OrderedListOf | src/index.js:129-144 | any display-ordered list of exactly the map's blocks is the ordered block list |
| Editor.SameElements | src/index.js:129-144 | two lists of exactly the map's blocks have the same elements |
| Editor.MapOfHas | src/index.js:422-427 | with no id listed twice the rebuilt map holds exactly the listed blocks under their ids |
| Editor.OrderedIds | src/index.js:135-141 | ids in a display-ordered list of the blocks of one map differ |
| Editor.MapOfList | src/index.js:422-427 | a display-ordered list of exactly the map's blocks rebuilds that map |
| Editor.MapOfOrdered | src/index.js:399-427 | rebuilding from the ordered block list gives the map back |
| Editor.NextOrderingKey | src/index.js:355-362 | above every ordering key; 0 with no block, otherwise one more than some block's key |
| Editor.Ids | src/index.js:136 | the ids of a list, in order |
| Editor.FindId | src/index.js:402 | the first place holding the id, or -1 when none does |
| Editor.RekeyKeeps | src/index.js:407-415 | exchanging two ordering keys keeps ids, kinds, contents, every other block and distinct keys |
| Editor.MoveFails | src/index.js:397-430 | `moveBlock` throws exactly for an unknown id moved "down" when there are blocks |
| Editor.MoveKeeps | src/index.js:397-430 | a move keeps the ids, kinds and contents and keeps ordering keys distinct |
| Editor.MoveAtEdge | src/index.js:405-419 | at the top moving up, at the bottom moving down, or in an unknown direction, nothing changes |
| Editor.StrictKeys | src/index.js:141 | with distinct keys, keys strictly increase along the display order |
| Editor.Exchanged | src/index.js:405-416 | the display list with places j and j + 1 exchanged has the same length |
| Editor.ExchangedSorted | src/index.js:405-416 | with strictly increasing keys the exchanged list is still in display order |
| Editor.ExchangedHas | src/index.js:405-427 | the exchanged list holds exactly the blocks of the map with the two keys exchanged |
| Editor.ExchangedOrdered | src/index.js:405-427 | exchanging neighbours' keys yields a display-ordered list of the new map with their places exchanged |
| Editor.SwapPlacesIn | src/index.js:405-427 | with distinct keys, exchanging neighbours' keys exchanges their places and nothing else moves |
| Editor.IdsExchange | src/index.js:405-416 | the ids of a list whose places j and j + 1 hold each other's ids |
| Editor.MoveInUp | src/index.js:405-410 | moving up the block at place i > 0 exchanges it with the block before it |
| Editor.MoveInDown | src/index.js:411-416 | moving down the block at place i < length - 1 exchanges it with the block after it |
| Editor.MoveUpPlaces | src/index.js:397-430 | with distinct keys, "up" exchanges a block with the one shown before it |
| Editor.MoveDownPlaces | src/index.js:397-430 | with distinct keys, "down" exchanges a block with the one shown after it |
| Editor.AppendOrdered | src/index.js:364-372 | a block with a key above all others appended to the display order keeps it ordered |
| Editor.AddDistinct | src/index.js:364-372 | a new key above all others keeps the keys distinct |
| Editor.AddShownLast | src/index.js:351-373 | the added block is shown last, after the others in their order, and keys stay distinct |
| Editor.WithoutSpec | src/index.js:391-395 | dropping a block keeps the others, in their order |
| Editor.RemoveShown | src/index.js:391-395 | after `removeBlock` the remaining blocks are shown in their old order |
| Editor.SwapKeys | src/index.js:405-416 | exchanging two ordering keys in the display list keeps its ids in place |
| Editor.MapOfUpdate | src/index.js:422-427 | changing one listed block changes that id's block in the rebuilt map |
| Editor.SwapRebuilds | src/index.js:405-427 | rebuilding after the exchange in the list exchanges the two blocks' keys in the map |
| Editor.Rebuild | src/index.js:422-427 | the loop puts each listed block back under its id, giving the rebuilt map |
| Editor.MovedBlocks | src/index.js:397-430 | the body of `moveBlock` computes the move the specification function describes |
| Editor.MovedUpIn | src/index.js:405-410 | the "up" branch computes the move |
| Editor.MovedDownIn | src/index.js:411-416 | the "down" branch computes the move, or throws for a missing id |
| Editor.SwapAt | src/index.js:407-409 | the exchange through `tmp` exchanges the two ordering keys |
| Editor.NamesPassAsWritten | src/index.js:321 | a name with a non-digit character passes the check as written unless it is "length" or inherited |
| Editor.IndexNameRejected | src/index.js:321 | with only the default file, the check as written refuses "0", which no file is called |
| Editor.SameNameAccepted | src/index.js:321 | with only the default file, the check as written accepts a second "Default" |
| Editor.LiterateEditor.constructor | src/index.js:224-240 | the default file with its two blocks, selected, markdown output closed |
| Editor.LiterateEditor.LoadFile | src/index.js:274-280 | an existing file becomes selected; any other id changes nothing |
| Editor.LiterateEditor.RenameFile | src/index.js:282-297 | the default file is refused with an alert; an empty or cancelled answer is ignored; otherwise only the selected file's name changes |
| Editor.LiterateEditor.DeleteFile | src/index.js:299-310 | the default file is refused with an alert; otherwise the selected file is removed and the default selected |
| Editor.LiterateEditor.CreateFile | src/index.js:312-333 | a blank name and a name in use are refused with their alerts; otherwise a new empty file under the next id is selected and its name differs from every other |
| Editor.LiterateEditor.CreateFileAsWritten | src/index.js:312-333 | as written, refuses exactly the names that are index strings below the file count, "length" or inherited |
| Editor.LiterateEditor.UpdateBlocks | src/index.js:338-345 | only the selected file's blocks are replaced; distinct keys keep the state valid |
| Editor.LiterateEditor.AddBlock | src/index.js:364-373 | a block with the next id and next ordering key is added and shown last |
| Editor.LiterateEditor.AddCodeBlock | src/index.js:375-377 | an empty code block is added |
| Editor.LiterateEditor.AddTextBlock | src/index.js:379-381 | a text block with the placeholder text is added |
| Editor.LiterateEditor.UpdateBlockContent | src/index.js:383-389 | only the block's content changes; for an unknown id it throws and nothing changes |
| Editor.LiterateEditor.RemoveBlock | src/index.js:391-395 | only the given id leaves the selected file and the rest keep their order |
| Editor.LiterateEditor.MoveBlock | src/index.js:397-430 | the selected file's blocks become the move's result; when it throws, nothing changes |
| Editor.LiterateEditor.ToggleMarkdownOutput | src/index.js:432-438 | the markdown output flag flips and nothing else changes |

## Left out

Preconditions and contracts stated more narrowly than the code behaves:

- MathInterval.ParseToString: the round trip `parse(toString(I)) == I` is proved only when both ends are `NumberText.Printable` (integral or infinite, not NaN), because `NumberText.NumToString` models `String(x)` only for those values.
- NumberText.ParseFloatNumToString: the same restriction to `Printable` values. For other finite values `NumToString` writes a fixed decimal form with up to 20 fractional digits, and it never uses the exponent forms JavaScript writes for |x| >= 1e21 or for non-zero |x| < 1e-6 ("1e+21", "1e-7").
- BHeapStrategy.BHeapStrategy.Dequeue: requires length > 0. The wrapper `AbstractPriorityQueue.PriorityQueue.Dequeue` checks this before it calls the strategy; on an empty heap BHeapStrategy.js either throws a TypeError (`_memory[0]` is undefined) or returns a stale slot and sets length to -1, and neither is modelled.
- BHeapStrategy.PageShift: requires pageSize <= 2^30. For a larger page size the loop `while ((1 << shift) < pageSize)` never ends, because `1 << 31` is negative and `1 << 32` is 1; `BHeapStrategy.PageShiftNeverEnds` proves that no shift exits the loop.
- BHeapStrategy.CreateBHeapAsWritten: requires pageSize <= 2^30, for the same reason.
- BHeapStrategy.CreateBHeap: requires pageSize <= 2^30, for the same reason.
- AbstractPriorityQueue.Build: requires pageSize <= 2^30 when the B-heap strategy is chosen, for the same reason.
- AbstractPriorityQueue.NewAsWritten: requires pageSize <= 2^30, for the same reason.
- AbstractPriorityQueue.NewAsWritten: requires a B-heap page size other than 1 and 2; the source accepts those two (BHeapStrategy.js:16-24) and then builds a heap whose parent and child links disagree (see the Findings row for that file), which the heap model cannot represent.
- AbstractPriorityQueue.New: requires pageSize <= 2^30, for the same reason.
- AbstractPriorityQueue.NewPriorityQueue: requires pageSize <= 2^30, for the same reason.
- AbstractPriorityQueue.NewPriorityQueue: requires a B-heap page size other than 1 and 2, for the reason given for NewAsWritten.
- Comparators.IsComparator: every queue strategy (ArrayStrategy, BinaryHeap, BHeapStrategy) and the wrapper AbstractPriorityQueue require a comparator whose sign flips when its arguments are swapped and whose "not greater" is transitive. js-priority-queue runs with any function, but its ordering promises mean nothing without this.
- EsmangleCommon.DeepCopyTop: requires the object not to be a string. `deepCopy` of a string iterates its indices with for-in (`deepCopy("ab")` gives `{0: 'a', 1: 'b'}`), which is not modelled.
- IncrementalMH.ArrayDistMasterList.RestoreOnReject: requires a list saved by `preProposal`. Without one the code assigns `undefined`, which is not modelled.
- ParamStruct.Params.DivEq: requires s != 0; division by zero gives infinities or NaN, which tensors of reals do not have.
- ParamGrad.Params.DivEq: requires s != 0, for the same reason.
- ParamStruct.Params.Clip: requires normOfG != 0 when normOfG exceeds the threshold, for the same reason (this only excludes a negative threshold).
- ParamGrad.Params.Clip: requires the norm it is given to be the true norm of the gradient (non-negative, its square the sum of squares), which every caller passes; the final assertion of `clip` is then proved.
- ParamStruct.Params.AddEq: for a key that only `h` has, struct.js:15 stores `h`'s own tensor object in `g`, so a later in-place `mulEq`, `divEq`, `addEq` or `clip` of `g` also changes `h`. Tensors are values here, so that sharing is not modelled: the model's `h` never changes.
- ParamGrad.Params.AddEq: for a name that only `h` has, paramgrad.js:18 stores `h`'s own array of tensors in `g`, shared with `h` from then on. The sharing is not modelled, for the same reason.
- Lda.NumberOf: `+s` is modelled only for blank text (0) and decimal integers with an optional sign and surrounding white space. Decimal fractions ("1.0", "2.5"), exponents ("1e3") and hexadecimal ("0x10") are numbers to JavaScript but `None` here, as is text that converts to NaN; document entries hold integers, so a NaN or fractional word or count cannot be stored.
- Lda.ReadLine: a line whose word or count token is not an integer (such as "1 x 3", or "1 2" with no count) fails with `NotANumber` ("NaN entry"), while lda.js:24-27 pushes the pair with NaN or the fractional value and reads on. A document token such as "1.0" fails with `NoSuchDocument` here but is document 0 in lda.js. The model promises the source's result only for lines whose three tokens are integers.
- Lda.ReadLines: stops at the first line whose word or count is not an integer, where lda.js pushes the NaN pair and reads on; for files whose tokens are integers it agrees with lda.js.
- Lda.LoadDocwords: a file with a non-integer word or count fails with "NaN entry", an error lda.js:13-31 never raises. A header such as "2.5" makes 0 documents here, where `i < numDocs` makes 3 in lda.js. The documents are exactly those of lda.js for files whose header and tokens are integers (`Lda.DecodeEncode` covers every file written from documents).
- Lda.LoadDataAsWritten: it inherits the restriction of Lda.LoadDocwords: the "NaN entry" failure and integer-only token reading.
- Lda.LoadData: the same restriction, inherited from Lda.LoadDocwords.
- ParamGrad.Params.Copy: the copy shares its tensors with the original; tensor objects are values here, so aliasing between them is not modelled.
- CpsLegacy.Cps: its own ensures says only that the fresh-name counter does not decrease. The output trees are pinned down by the rule lemmas (`PrimitiveCallRule`, `CompoundCallRule`, `PairSequence` and the others), for operands that are atoms.
- CpsTransform.Cps: every function of the transform carries a recursion bound `fuel` and gives an error when it runs out. What the JavaScript does on a tree deeper than the bound (unbounded recursion) is not modelled.
- EnumQueue.Best: of several states with the same score the earliest is taken. The tie order of the `priorityqueuejs` heap that enumeration uses is not modelled.
- EnumQueue.Deq: the same tie order is not modelled.
- EnumerateAd.Enumerate.NextInQueue: requires a waiting state, which every caller has just checked.
- ParticleFilter.Filter.ResampleParticles: the numbers of copies of each particle come from draws given as a parameter, and the average weight is a parameter, because it is a `logsumexp` of floating-point weights.

Code that is not modelled:

- `processSourceMap` and `getSourceMappedStackTrace` (src/stacktrace.js:61-92, 118-126), `sourceMapJsStackTrace` and `recoverStack` in src/errors.js: they need a source-map consumer.
- `getContextMessage`, `showError` and `codeForEntry` of the error display: they write coloured text to the terminal.
- The wrapper `makeDistributionType` puts around `score` to check its arguments (src/dists.ad.js:156-166): it works on `arguments`.
- `Trace.continue` (src/trace.js:43): it calls a continuation, and continuations are tokens here.
- `errorIfNotInterval` in src/types.js: it only throws.
- `gensym` in src/util.js: the counter it keeps is a parameter of the passes that draw names.
- src/builders.js is not part of this model; the member expressions built by the passes are not computed (`a.b`).
- `sampleWithFactor` (src/inference/enumerate.ad.js:125-144, src/inference/enumerate.js:97-116): it runs a CPS score function.
- src/inference/enumerate.js is covered by the model of src/inference/enumerate.ad.js, with which it shares the queue and probe logic.
- MH kernel proposals: `resample`/`sample` with drift kernels, the acceptance probability and the query table of `finish` are not modelled; draws and the acceptance probability are parameters.
- Particle filter: the unqualified `multinomialSample` (src/inference/particlefilter.js:162) is read as the distribution module's; the `finish()` after `factor` (particlefilter.js:97-98) is unreachable; `copyParticle` drops `completed`, as the code does.
- esmangle: RegExp copies, `sameValue`, `isIdentifier` (from esutils), `moveLocation`, `deleteLocation`, `convertToEmptyStatement`, `delegateVariableDeclarations` (which need estraverse and escope) and the other node predicates.
- VinesFutures.Choose: the random policies take the draw as an index modulo the number of futures; the sampling done by `randomIntegerERP` and `discreteERP`, and the `exp` weights of the depth-weighted policy, are not modelled.
- Vines image: canvas I/O, the weighted and percent scores, `binaryFilledBilateralSymmetryScore` and `toTensor`.
- Vines mesh: `transform` and the GL buffers; curve points and the curve's length function are parameters, so `bezier` and `controlPoints` are not modelled.
- Editor: React rendering, `localStorage`, markdown output rendering, `toggleSize`, and `window.prompt`/`alert`, whose answers are parameters or return values.
- LDA experiment: reading the file is a text parameter, the `Math.random` draws are parameters and `gensym` names are a function parameter.
- IncrementalMH.CacheAdapter.Register: `registerHit` and `registerMiss` are one method with a hit flag; the `removeFromCache` tree surgery of the adaptive cache is not modelled.
- The global node id counter of the ELBO graphs (elbograph and elbo2) is a parameter `firstId` of their constructors; the elbo2 factor node takes two ids, as the code does.
- Params.sync when `_params` is undefined: only the incremental update of a defined table is modelled.
- Floating-point rounding, I/O, timers, concurrency and the asynchronous parameter store throughout.

## Findings

| source | as written | input that shows it | evidently intended | confidence | as-written member | corrected member |
|---|---|---|---|---|---|---|
| node_modules/js-priority-queue/js/PriorityQueue/AbstractPriorityQueue.js:11-20 | the constructor hands `initialValues` to the strategy but sets `length = 0` | `new PriorityQueue({initialValues: [1]})`, then `dequeue()` throws 'Empty queue' although the strategy holds 1 | `length` starts at the number of initial values | not executed | AbstractPriorityQueue.NewAsWritten, AbstractPriorityQueue.InitialValuesLost | AbstractPriorityQueue.New, AbstractPriorityQueue.InitialValuesKept |
| node_modules/js-priority-queue/js/PriorityQueue/BHeapStrategy.js:16-24 | every power of two is accepted as a page size, 1 and 2 included, though the page layout (lines 80-116) needs at least 4 | pageSize 1: the parent of slot 2 is slot 2, so `_bubbleUp` never ends; pageSize 2: the parent of 4 is 3 but the children of 3 are 5 and 5 | page sizes below 4 are refused | not executed | BHeapStrategy.CreateBHeapAsWritten, BHeapLayout.PageSizeOneParentOfTwo, BHeapLayout.PageSizeTwoMismatch | BHeapStrategy.CreateBHeap |
| src/dists.ad.js:1120-1131 | `_.sortBy(hist, (v, k) => k)` orders the histogram by its keys as strings; the copies at src/erp.ad.js:910-921 and src/dists/multinomial.ad.js:73-84 do the same (the last under lodash 3, the only version with `.object()`, whose `sortBy` passes the key) | samples [10] over 11 states: the count of state 10 lands at position 2, after "1" and before "2" | counts in numeric order of the state index | not executed | Multinomial.HistogramAsWritten, Multinomial.StateTenMisplaced, Multinomial.SupportAsWritten, Multinomial.SupportAsWrittenMisplacesTen | Multinomial.Histogram, Multinomial.Support |
| src/dists/multivariateBernoulli.ad.js:58-66 | `toBinaryArray` shifts with `x >> 1`, which truncates x to a signed 32-bit integer | x = 2^31 with 32 coordinates: the top bit comes out -1 | the little-endian binary digits of x for any number of coordinates | not executed | MultivariateBernoulli.BitsAsWritten, MultivariateBernoulli.TopBitOf32 | MultivariateBernoulli.Bits, MultivariateBernoulli.ToBinaryArray, MultivariateBernoulli.AsWrittenAgreesUpTo31 |
| src/inference/incrementalmh.js:49-54 | `updateProperty` saves the original value only when no saved value is truthy, so a falsy original is overwritten by the next update | a property 0, updated to 5 and then to 7, then restored: it becomes 5 | the value before the first update is kept and restored | not executed | IncrementalMH.UpdatePropertyAsWritten, IncrementalMH.FalsyOriginalLost | IncrementalMH.UpdateProperty, IncrementalMH.FalsyOriginalKept |
| src/parser-combinator.js:53-70 | the loop of `seq` compares the input position i, not the parser index, with `ps.length` | `seq([item])` at position 1 of [1, 2] succeeds with [] without running `item`; `seq([result(0)])` on empty input runs past the end of the parser list | every parser of the list runs once, in order | not executed | LegacyParserCombinator.SeqAsWritten, LegacyParserCombinator.SeqAsWrittenSkipsParsers, LegacyParserCombinator.SeqAsWrittenRunsOffTheList | ParserCombinator.SeqIsChain, LegacyParserCombinator.SeqAsWrittenAgreesOnOneNodeEach |
| src/transforms/caching.js:34-46 | `knownERPs[callee.name]` at line 42 also finds the members every object inherits | a user function named `toString` is never cached | only the names of the random primitives are exempt | not executed | Caching.ShouldCacheAsWritten, Caching.InheritedNameNotCached | Caching.ShouldCache, Caching.AgreesOffInherited, Caching.FactorNotCached |
| src/index.js:317-324 | `newFileName in _.keys(files)` at line 321 tests the indices of the key array, not the file names | the name "0" is refused; a second file named "Default" is accepted | a name already used by a file is refused | not executed | Editor.LiterateEditor.CreateFileAsWritten, Editor.DuplicateAsWritten, Editor.IndexNameRejected, Editor.SameNameAccepted, Editor.NamesPassAsWritten | Editor.LiterateEditor.CreateFile, Editor.NameTaken |
| src/header.js:335-347 | `multinomialSample` stops at the first running sum `>=` the draw (line 344), so a draw of 0 takes index 0 even when its weight is 0 | theta [0, 1] with u = 0 gives 0 | only indices of positive weight are drawn | not executed | Header.MultinomialSampleAsWritten, Header.ZeroDrawPicksZeroWeight, Header.AsWrittenInRange | Discrete.Sample, Discrete.Pick, Header.CorrectedSkipsZeroWeight |
| experiments/lda.js:64-67 | the `if` without braces guards only `var rets = subsample(...)`, and `rets[0]` is read in any case | `loadData` without `nSubsample`: `rets[0]` of `undefined` is a TypeError | without `nSubsample` every document and the whole vocabulary are returned | not executed | Lda.LoadDataAsWritten | Lda.LoadData |
