# upp: a model of its stateful cores, with proofs

upp is a C++ utility library. This project models the parts of it whose correctness is not visible from
one function body, and proves what they promise:

- the **logging-context registry** (`logs/`): every context is a node of one global doubly linked list,
  and each node also has a parent. The list is sorted in place into tree preorder when the first level is
  set, must stay a preorder under construction and destruction, and carries a cache of inherited levels
  that `set_level` pushes down under a mutex and `effective_level` reads without it;
- the **chunked queue**, the **ring buffer** and the **intrusive list** (`core/`);
- the **bitset** filled from a string (`core/`);
- the **dense matrix**, its flat store, its operators and its memory layout (`math/`, `core/fam.hpp`).

Objects whose methods change them are classes with `modifies` clauses; loops of the source are loops with
invariants; each method is tied to a function or a transition relation on values, and the laws are lemmas
about those. The release semantics (`NDEBUG`) is modelled.

| file | content |
|---|---|
| Sequences.dfy, Contexts.dfy, Preorder.dfy, ListEdits.dfy | nodes, linked lists, families of children, what a preorder is and why it is unique |
| OrganizeSpec.dfy, Organize.dfy | the in-place sort: what one visit does to the list, and the three nested loops over pointers |
| Inheritance.dfy | the recursive walk of `set_level` and the nodes it reaches |
| Levels.dfy, Runs.dfy | the registry as a state machine, its invariant, and when the documented levels hold over whole runs |
| Registry.dfy | the registry operations on the heap, each a transition of that machine, and their history a run of it |
| Concurrency.dfy, Quiescent.dfy | all interleavings of locked writers and lock-free readers, and the registry run they make up |
| Queue.dfy, RingBuffer.dfy, IntrusiveList.dfy, Bitset.dfy | the containers |
| MatrixAlgebra.dfy, Matrix.dfy, Layout.dfy, Arithmetic.dfy | matrices, their store and layout |

What was found where the code falls short of what its documentation or names promise, each with the exact
condition under which it does not:

- `set_level` misses descendants behind an explicit node that is the last of its siblings, and a level
  taken back with `unset` can uncover a stale inherited level. `Levels.SetLevelExact` gives the condition
  for one call, `Runs.RunExact` for whole runs, `Registry.HistoryExact` for the heap;
  `Inheritance.LastSiblingCutsOff`, `Runs.MissedLevel` and `Runs.StaleLevel` are the counterexamples.
- A call of `set_level` can be seen half done by lock-free readers of two nodes
  (`Concurrency.SectionIsNotOneInstant`). It is one instant for all of them if and only if it changes the
  effective level of at most one node (`Concurrency.OneInstantIff`); and a call that finds documented levels
  does so if and only if the level it passes down is in effect already or every child of its node has a level
  of its own (`Levels.ShowsOnceIff`, `Quiescent.SectionIsOneInstantIff`). For readers of one node every call
  is one instant (`Quiescent.ReadIsAtCut`).
- `queue` must not be pushed to after a pop that freed its only chunk: `Queue.SpentIff` says exactly when
  that is, and `Queue.FillAndEmpty` is a run that ends there. Its destructor does not free the last chunk
  if the pops have come to it and have not finished it (`Queue.LeakIff`, `Queue.Queue.Destroy`), so a single
  push is enough (`Queue.OnePushLeaks`).
- `operator*` computes as many columns as the left operand has rows. It stays inside its operands and gives
  the product, for operands of every content, if and only if the result is square or there is nothing to sum
  up (`Matrix.MulRightIff`, with `Matrix.InsideIff` for the accesses; `Matrix.MulWrong` is the smallest wrong
  result).
- `a *= a` multiplies every row with the rows as they stand, those above replaced already
  (`Matrix.MulAssign`), which is right for every content only up to a single cell
  (`Matrix.SquareInPlaceIff`).
- `ring_buffer` never reduces its offset, so `front` and `pop` are inside the buffer only until as many
  elements have left it as it has slots (`RingBuffer.RunAll`), which is as long as the pushes exceed the
  elements present by less than that (`RingBuffer.NextPopIff`); filling it twice over is enough to end there
  (`RingBuffer.FilledTwice`).
- The binary form of the bitset string is read correctly if and only if no digit 1 stands left of the
  eighth. Which digits can be read back of any other string, and which are lost, is said in full
  (`Bitset.Bitset.FillBinary`).

## Model

| member | source | states |
|---|---|---|
| Organize.Relocate | logs/lib/contextutils.hpp:38-46 | unlinking a node and linking it in behind its parent turns one well-formed doubly linked list into the other |
| Organize.OrganizeNextChild | logs/lib/contextutils.hpp:22-52 | either the pivot steps over a child already in place and the scan restarts there, list unchanged, or every child from the scan position on ends behind the parent in reverse order and the scan is over |
| Organize.OrganizeChildren | logs/lib/contextutils.hpp:63-70 | the whole family of one node is placed behind it, and the pivot never passes a node that is not placed; the restarts end because each moves the pivot on |
| Organize.Organize | logs/lib/contextutils.hpp:72-82 | from any list order with finite parent chains, in place: same nodes, root first, preorder, every family in reverse list order; the early exit on a null pivot loses nothing |
| OrganizeSpec.PlaceKeeps | logs/lib/contextutils.hpp:78-81 | each visit keeps the division into visited, waiting and unplaced nodes |
| OrganizeSpec.PlaceKids | logs/lib/contextutils.hpp:54-61 | one visit reverses the family of the visited node and leaves the order inside every other family |
| OrganizeSpec.WaitingOrDone | logs/lib/contextutils.hpp:78-81 | while a node is unplaced some placed node still waits for its visit |
| OrganizeSpec.PartialEnd | logs/lib/contextutils.hpp:72-82 | when nothing is unplaced the list is organized, whatever visits remain |
| OrganizeSpec.OrganizedExists | logs/lib/contextutils.hpp:72-82 | every list with finite parent chains can be organized, by placing family after family |
| Preorder.PreorderUnique | logs/lib/logs.cpp:30-36 | a preorder is determined by its root and the order inside each family |
| Preorder.OrganizedUnique | logs/lib/contextutils.hpp:72-82 | the three promises of the sort leave exactly one result |
| Inheritance.SubtreeIsRun | logs/lib/logs.cpp:30-36 | in an organized list the descendants of a node are exactly the run of places behind it |
| Inheritance.AfterChild | logs/lib/logs.cpp:85-92 | behind the subtree of a child stands the next sibling or the end of the parent's subtree, and the sibling search finds exactly that |
| Inheritance.SyncWalks | logs/lib/logs.cpp:106-121 | the recursive walk writes exactly the open nodes up to its end or up to the first explicit last sibling, from which it returns null |
| Inheritance.SetLevelReaches | logs/lib/logs.cpp:191-201 | a node is written if and only if it is a descendant without explicit level, reached through such nodes, with no explicit last sibling before it in its branch |
| Inheritance.SyncAllHeirs | logs/lib/logs.cpp:106-121 | on any list at all, sorted or not, the loop of set_level writes only heirs of its node: nodes without explicit level that hang below it through nodes without explicit level |
| Inheritance.HeirIffOpen | logs/lib/logs.cpp:30-36 | in an organized list the heirs, told by parents alone, are the places of the subtree run that no explicit node hides |
| Inheritance.CompleteIffAllReached | logs/lib/logs.cpp:106-121 | a call writes every heir of its node if and only if no explicit last sibling stands before one of them in its branch |
| Inheritance.DeepSiblingsSuffice | logs/lib/logs.cpp:106-121 | everything that inherits is reached if explicit nodes three or more levels down have later siblings |
| Inheritance.LastSiblingCutsOff | logs/lib/logs.cpp:106-121 | in a five-node tree with one explicit leaf three levels down a call on the root writes two nodes and misses a third heir |
| ListEdits.InsertKeepsPreorder | logs/lib/logs.cpp:142-147 | linking a new node in behind its parent keeps the preorder |
| ListEdits.RemoveKeepsPreorder | logs/lib/logs.cpp:177-178 | unlinking a childless node keeps the preorder |
| Levels.CoherentIffDocumented | logs/include/upp/logs.hpp:43-46 | effective levels are those of the nearest explicit ancestor-or-self if and only if every inherited level in use equals the effective level of the parent |
| Levels.NextValid | logs/lib/logs.cpp:137-201 | construction, destruction and set_level keep the registry invariant: organized means preorder, not organized means no level set, the root inherits nothing |
| Levels.SetLevelWrites | logs/lib/logs.cpp:191-201 | the inherited level of every node after the call, written or not |
| Levels.SetLevelFrame | logs/lib/logs.cpp:106-121 | only heirs of the caller change, and whatever changes becomes the caller's effective level; the part of it that needs no order is Inheritance.SyncAllHeirs |
| Levels.SetLevelExact | logs/lib/logs.cpp:191-201 | from documented levels a call leaves documented levels if and only if a level taken back is fresh and, unless the level does not change, every heir is within reach |
| Levels.SetLevelShows | logs/lib/logs.cpp:185-201 | after a call the caller and the nodes written show the level passed down, and every other node what it showed before |
| Levels.ShowsOnceIff | logs/lib/logs.cpp:185-201 | from documented levels a call changes the effective level of at most one node if and only if the level passed down is in effect already or every child of the caller is explicit |
| Runs.RunValid | logs/lib/logs.cpp:134-201 | the registry invariant in every state of every run |
| Runs.StepExact | logs/lib/logs.cpp:134-201 | construction and destruction always keep the documented levels, set_level exactly under its condition |
| Runs.RunExact | logs/include/upp/logs.hpp:43-46 | the documented levels hold throughout a run if and only if every set_level met its condition when it was made |
| Runs.ConstructFamilies | logs/lib/logs.cpp:137-156 | a new node becomes the first child of its parent, organized or not, and no other family changes |
| Runs.DestroyFamilies | logs/lib/logs.cpp:161-179 | a destroyed node leaves its family and no other family changes |
| Runs.FamiliesInConstructionOrder | logs/lib/logs.cpp:150-153 | as new nodes are linked in at the head, the first set_level leaves the living children of every node in the order they were constructed, whatever was destroyed in between |
| Runs.DisciplineSuffices | logs/include/upp/logs.hpp:43-46 | they hold in every run that unsets only the root and gives deep explicit nodes later siblings |
| Runs.StaleLevel | logs/lib/logs.cpp:185-201 | in every registry four calls on the root and a child of it leave the child with a level its documentation denies |
| Runs.MissedLevel | logs/lib/logs.cpp:185-201 | four constructions and one level leave every level documented, and a level for the root then leaves a grandchild without any |
| Registry.FindNextSibling | logs/lib/logs.cpp:86-92 | the scan over the links finds the next node with the same parent, or null |
| Registry.SyncInheritedLevels | logs/lib/logs.cpp:106-121 | the recursion on the heap terminates, writes the nodes of the walk and no other, and returns the place of the walk |
| Registry.PassDown | logs/lib/logs.cpp:197-200 | the loop of set_level over the children writes exactly the nodes of the whole walk; on any linked list what changes is an heir of the caller and gets the level passed down |
| Registry.Registry.EnsureOrganized | logs/lib/logs.cpp:94-104 | sorts once and only once |
| Registry.Registry.Construct | logs/lib/logs.cpp:137-156 | is the construction transition and keeps the linked list well formed, organized or not |
| Registry.Registry.Destroy | logs/lib/logs.cpp:161-179 | leaves the root alone, and for any other childless node is the destruction transition |
| Registry.Registry.SetLevel | logs/lib/logs.cpp:191-201 | is the set_level transition on the heap, the first sort included |
| Registry.ShowsIffDocumented | logs/include/upp/logs.hpp:79-86 | effective_level returns the documented level of every context if and only if the state of the registry is documented |
| Registry.HistoryExact | logs/include/upp/logs.hpp:43-46 | however a registry on the heap was used, callers see documented levels as long as every set_level met its condition, and the first that did not shows at once |
| Concurrency.NextInv | logs/lib/logs.cpp:185-201 | one thread inside at a time, what it saw stays true until it acts on it, and the level it passes down is its node's effective level at every instant of the walk |
| Concurrency.WritesOnlyUnset | logs/lib/logs.cpp:106-112 | inherited levels change only at nodes without explicit level, never together with an explicit level |
| Concurrency.EffectiveLevelLinearizable | logs/lib/logs.cpp:185-189 | in every interleaving the two unlocked loads return the effective level the node had at one instant between them |
| Concurrency.SectionEffect | logs/lib/logs.cpp:191-201 | from taking the mutex to releasing it a call stores its level and leaves the passed level at exactly the nodes it wrote, all without explicit level and none its own; everything else is as before |
| Concurrency.SectionShowsTwoLevels | logs/lib/logs.cpp:191-201 | at every instant of a call every node has its level from before the call or its level from after it |
| Concurrency.OneInstantIff | logs/lib/logs.cpp:185-201 | there is an instant before which all nodes show their levels from before a call and from which on all show those from after it if and only if the call changes the effective level of at most one node |
| Concurrency.SectionIsNotOneInstant | logs/lib/logs.cpp:185-201 | a complete call of which readers of two nodes can see one half done, and for which there is no such instant |
| Concurrency.NeverStuck | logs/lib/logs.cpp:191-201 | whoever holds the mutex always has a next step, and may release it after at most three |
| Concurrency.FreeForAll | logs/lib/logs.cpp:137-201 | while the mutex is free every thread can begin any call, construction or destruction |
| Concurrency.BetweenFree | logs/lib/logs.cpp:137-201 | between two successive free states of the mutex lies one construction, one destruction or one whole call of set_level |
| Quiescent.EveryFreeInstantIsCut | logs/lib/logs.cpp:137-201 | up to any moment the instants at which the mutex is free are a sequence of cuts with none left out between them |
| Quiescent.QuiescentIsRun | logs/lib/logs.cpp:134-201 | from the lone root on, every interleaving whose calls write the nodes the list prescribes has gone through a run of the registry at the free instants, with the list that follows from the calls |
| Quiescent.QuiescentExact | logs/include/upp/logs.hpp:43-46 | effective_level returns documented levels at all free instants so far if and only if every set_level so far met its condition |
| Quiescent.ReadIsAtCut | logs/lib/logs.cpp:185-201 | whatever effective_level returns, at any moment and over any number of calls, is the level the node had at a free instant around the read |
| Quiescent.CarefulRead | logs/include/upp/logs.hpp:43-46 | while every set_level meets its condition, every read at any moment returns a level that was documented at a free instant around it |
| Quiescent.SectionIsOneInstantIff | logs/lib/logs.cpp:185-201 | a locked call that finds documented levels is one instant for lock-free readers if and only if its level is in effect already or every child of its node is explicit |
| Quiescent.SectionFinds | logs/lib/logs.cpp:191-201 | that is what a call finds and does, in every interleaving in which all calls before it met their conditions |
| Quiescent.ProperUseExists | logs/lib/logs.cpp:137-201 | such interleavings exist: one that sets a level, constructs a node and destroys it |
| Queue.Queue.Push | core/include/upp/queue.hpp:118-134 | appends to the queued elements, across chunk boundaries, destroying and freeing nothing |
| Queue.Queue.Pop | core/include/upp/queue.hpp:136-145 | removes and destroys the oldest element, and says exactly when no chunk is left |
| Queue.Queue.Empty | core/include/upp/queue.hpp:147-151 | true if and only if nothing is queued |
| Queue.Queue.Size | core/include/upp/queue.hpp:153-162 | the closed form over counted chunks is the number of queued elements |
| Queue.SpentIff | core/include/upp/queue.hpp:118-145 | a push is unsafe if and only if everything was popped and the pops filled whole chunks |
| Queue.LeakIff | core/include/upp/queue.hpp:92-116 | exactly one chunk is left if and only if the pops have come to the chunk of the newest element and have not finished it |
| Queue.OnePushLeaks | core/include/upp/queue.hpp:92-116 | with any chunk size a queue with a single push leaks |
| Queue.FirstInFirstOut | core/include/upp/queue.hpp:118-145 | after pushing any elements and popping any number of those present the rest is left in order |
| Queue.FillAndEmpty | core/include/upp/queue.hpp:118-145 | filling one chunk and emptying it is a safe run, and no push is safe after it |
| Queue.RunAll | core/include/upp/queue.hpp:118-145 | every run of safe pushes and pops is a run of a first-in first-out queue |
| Queue.Queue.Destroy | core/include/upp/queue.hpp:92-116 | afterwards every slot pushed to was destroyed exactly once, equal elements told apart by place, and every chunk made was freed exactly once but for the last one in the leaking case, which is told in numbers of pushes and pops |
| RingBuffer.RingBuffer.Push | core/include/upp/ring_buffer.hpp:77-90 | appends, dropping the oldest element when full |
| RingBuffer.RingBuffer.Front | core/include/upp/ring_buffer.hpp:71-75 | the raw offset names the oldest live element |
| RingBuffer.RingBuffer.Pop | core/include/upp/ring_buffer.hpp:92-97 | removes the oldest live element and no other |
| RingBuffer.SlotsDiffer | core/include/upp/ring_buffer.hpp:77-90 | live elements never share a slot, and a full buffer overwrites none but its oldest |
| RingBuffer.PushesKeepLast | core/include/upp/ring_buffer.hpp:77-90 | any number of pushes leaves exactly the last capacity values in order |
| RingBuffer.RunAll | core/include/upp/ring_buffer.hpp:71-97 | every run that pops only present elements and only while fewer than capacity have left refines a bounded dropping queue |
| RingBuffer.NextPopIff | core/include/upp/ring_buffer.hpp:71-97 | after any safe run of a new buffer the next pop is safe if and only if an element is there and the pushes exceed those present by less than the capacity |
| RingBuffer.FilledTwice | core/include/upp/ring_buffer.hpp:71-97 | pushing twice as many values as there are slots leaves a full buffer from which no pop is safe |
| IntrusiveList.List.PushBack | core/include/upp/intrusive_list.hpp:33-42 | appends an unlinked node, also when the tail pointer is stale |
| IntrusiveList.List.PopFront | core/include/upp/intrusive_list.hpp:44 | removes the first node and never touches the tail pointer |
| IntrusiveList.List.Size | core/include/upp/intrusive_list.hpp:84-92 | terminates with the number of nodes |
| IntrusiveList.List.Iterate | core/include/upp/intrusive_list.hpp:46-77 | visits every node once, in order |
| IntrusiveList.RunAll | core/include/upp/intrusive_list.hpp:33-44 | every run of pushes of unlinked nodes and pops of present ones is a run of a first-in first-out queue |
| Bitset.DigitIsPlace | core/include/upp/bitset.hpp:55-64 | a digit, small or capital, denotes its place in the table of digits |
| Bitset.OnlyDigits | core/include/upp/bitset.hpp:55-64 | and no other character denotes anything but 0 |
| Bitset.HexRoundTrip | core/include/upp/bitset.hpp:50-72 | the value of the digits written of a number, small or capital, is the number |
| Bitset.BitSumIs | core/include/upp/bitset.hpp:50-72 | the bits of a number sum up to it |
| Bitset.ValueBit | core/include/upp/bitset.hpp:50-72 | bit k of the denoted number is bit k mod 4 of digit k div 4 from the right |
| Bitset.BinaryBit | core/include/upp/bitset.hpp:30-49 | bit k of the number a binary string denotes is digit k from the right |
| Bitset.Bitset.FillHex | core/include/upp/bitset.hpp:50-72 | reading index k back after construction gives bit k of the number the string denotes, and every byte holds its two digits |
| Bitset.Bitset.FillBinary | core/include/upp/bitset.hpp:30-49 | the exact reading of every index: a digit lands if it is in the first byte, or its index is no multiple of 8 and all digits at multiples of 8 up to it are 1; so all digits land if and only if no digit 1 stands left of the eighth |
| Bitset.Bitset.Set | core/include/upp/bitset.hpp:108-127 | a proxy write sets its own bit to the value and leaves every other bit |
| MatrixAlgebra.SumExchange | math/include/upp/math/detail/operations.hpp:80-98 | a double sum may be taken by rows or by columns |
| MatrixAlgebra.ProductAssociative | math/include/upp/math/detail/operations.hpp:80-98 | the product is associative, for all shapes that fit |
| MatrixAlgebra.ProductDistributes | math/include/upp/math/detail/operations.hpp:31-38 | the product distributes over the sum from the left |
| MatrixAlgebra.PlusDistributes | math/include/upp/math/detail/operations.hpp:31-38 | the product distributes over the sum from the right |
| MatrixAlgebra.IdentityNeutral | math/include/upp/math/detail/mat.hpp:118-124 | the identity is neutral on both sides |
| Matrix.AddAssign | math/include/upp/math/detail/operations.hpp:20-29 | refuses mismatched shapes unchanged; otherwise adds cell by cell, also to itself |
| Matrix.SubAssign | math/include/upp/math/detail/operations.hpp:40-48 | the same for the difference |
| Matrix.Add | math/include/upp/math/detail/operations.hpp:31-38 | the sum in a new matrix, operands untouched |
| Matrix.Sub | math/include/upp/math/detail/operations.hpp:50-55 | the difference in a new matrix, operands untouched |
| Matrix.MulAssign | math/include/upp/math/detail/operations.hpp:57-78 | for different matrices the one-row buffer suffices: the result is the product of the original operand, and columns past the width of the right operand are kept; for a matrix times itself every row is the old row times the new rows above and the old rows from it on |
| Matrix.SquaredInPlaceUnique | math/include/upp/math/detail/operations.hpp:57-78 | that determines what a *= a leaves |
| Matrix.SquareInPlaceIff | math/include/upp/math/detail/operations.hpp:57-78 | a *= a gives the square for every content if and only if a has at most one cell |
| Matrix.Mul | math/include/upp/math/detail/operations.hpp:80-98 | refuses mismatched shapes; otherwise the product in the first columns, as many as there are rows, and zero past them |
| Matrix.InsideIff | math/include/upp/math/detail/operations.hpp:89-97 | the accesses to the left operand fall inside its store; those to the right operand and to the result, and so all passes of the loops, if and only if the result is not higher than wide, or there is nothing to sum up |
| Matrix.MulRightIff | math/include/upp/math/detail/operations.hpp:80-98 | for operands of these shapes all accesses fall inside the stores and the result is the product whatever the content if and only if the result is square, or there is nothing to sum up |
| Matrix.MulWrong | math/include/upp/math/detail/operations.hpp:89-97 | one cell times a row of two loses the second column |
| Matrix.SquareProducts | math/include/upp/math/detail/operations.hpp:57-98 | on square matrices the two product operators, the in-place one on two different matrices, agree with each other and with the product |
| Matrix.SquareRing | math/include/upp/math/detail/operations.hpp:31-98 | on square matrices the code's operators are associative, distributive, and have eye as their one |
| Matrix.Eye | math/include/upp/math/detail/mat.hpp:118-124 | the loop over the shorter side gives the identity of any shape |
| Matrix.Mat.Put | math/include/upp/math/detail/mat.hpp:154-160 | writing one cell changes that cell and no other |
| Matrix.RowMajor | math/include/upp/math/detail/traits.hpp:29-31 | the first cell has the first place, the next cell of a row the next place, and the next row begins right behind the row |
| Matrix.RowMajorUnique | math/include/upp/math/detail/traits.hpp:29-31 | no other index has these properties |
| Matrix.StoreIsRows | math/include/upp/math/detail/mat.hpp:154-160 | the store holds the rows one after the other |
| Matrix.FlatInjective | math/include/upp/math/detail/traits.hpp:29-31 | two cells have the same place in the store only if they are the same cell |
| Matrix.FlatInRange | math/include/upp/math/detail/traits.hpp:29-31 | every cell has a place inside the store |
| Layout.OffsetLeast | core/include/upp/fam.hpp:66-93 | the offset is the least position behind the header that suits the element type |
| Layout.AlignmentSuits | core/include/upp/fam.hpp:61-64 | the larger of two power-of-two alignments suits both types |
| Layout.AlignmentLeast | core/include/upp/fam.hpp:61-64 | no smaller alignment suits both types |
| Layout.RequiredGrows | core/include/upp/fam.hpp:101-104 | a block without elements holds the padded header, and every element adds its own size |
| Layout.CellsFollow | core/include/upp/fam.hpp:113-118 | the first cell is the first element behind the padded header, and every next cell lies right behind the one before, across the ends of rows too |
| Layout.CellPlaced | core/include/upp/fam.hpp:101-118 | every matrix cell lies aligned, behind the header and inside the allocated bytes |
| Layout.LastCellEnds | core/include/upp/fam.hpp:101-104 | the last cell ends exactly where the allocated bytes end |
| Layout.CellsDisjoint | math/include/upp/math/detail/mat.hpp:14-22 | different cells share no byte |

## Left out

- Registry.Registry.Construct: the parent exists before the child; static contexts whose parent is constructed later are covered by Organize.Organize only, which takes any list order.
- Registry.Registry.Destroy: only contexts whose children are gone; the library tolerates other orders for static objects.
- Organize.OrganizeNextChild: the debug assertion that cursor and pivot are equal is not part of the release semantics; the contract covers the calls in which they differ.
- Concurrency.EffectiveLevelLinearizable: sequentially consistent memory, where the code uses relaxed atomics.
- Concurrency.SectionEffect: the walk may visit any nodes, so which nodes are visited is said in Inheritance.SetLevelReaches and not here.
- Quiescent.QuiescentIsRun: the walk is not modelled link by link here; that a call writes the nodes its list prescribes is Registry.Registry.SetLevel.
- Quiescent.ReadIsAtCut: a read that ends inside a call which never returns has no free instant after it.
- Queue.Queue.Destroy: element constructors do not throw, and the byte or word width of the indices is not modelled.
- Queue.Queue.Push: not after the pop that freed the only chunk, where the code writes to freed memory.
- RingBuffer.RingBuffer.Front: only while the offset is below the capacity, past which the code reads outside the buffer; overflow of the 64-bit offset is not modelled.
- RingBuffer.RingBuffer.Pop: the same limit as for Front.
- Matrix.MulAssign: the right operand is not wider than the left, past which the code writes outside its left operand; different matrices have different stores.
- Matrix.Mul: the left operand is not higher than the right one is wide, or there is nothing to sum up; otherwise the code indexes outside its operands (Matrix.InsideIff).
- Bitset.Bitset.FillHex: a character that is no digit counts as 0, as it does where assertions are off.
- Bitset.Bitset.FillBinary: a shift by 32 or more, undefined in the code, is taken to leave the byte as it is.
- Matrix elements are unbounded integers; rounding and overflow of the element type are not modelled.
- The choice between the binary and the hexadecimal form by prefix, and the whole-set tests `any`, `none` and `all` of the bitset.
- `static_mat`, rows and column views, and construction from rows: the same loops over another store.
- Log formatting, consumers, terminal escapes and context paths.
- The codec, coro, fs and linux modules: wrappers over libraries and system calls.
- Small value types such as `frac`, `maybe`, `sbool` and `strlit`, whose properties show in one branch.
