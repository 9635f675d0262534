# Proofs about the core data structures, codecs and protocols of the game server

The server rests on a handful of hand-written components: an n-ary tree that can be torn down
without recursion, a ring queue shared by two threads, a JSON document model, a packed array of
booleans, a chunked memory pool, SHA-256, CRC-32, and the hand-off of responses from worker
threads to the event loop. This project models each of them in Dafny and proves what they are
meant to guarantee, for all inputs, all states and all interleavings. `dafny verify dfyconfig.toml`
checks everything.

Code that changes things in place is a class or a loop with invariants, proved against a
specification function; the lemmas are about those functions. Protocols between threads are state
machines whose steps are single atomic actions, and the theorems range over every sequence of
steps.

| file | contents |
|---|---|
| Trees, TreeOrders | uniquely owned trees, and the recursive definitions of the orders |
| TreeDestroy, TreeRemove | tear-down by rotation; tear-down by popping last children |
| TreeIterators | the in-order, depth-first and breadth-first iterators |
| FcQueue, FcQueueProtocol | the ring as an object; one writer and one reader as interleaved atomic steps |
| JsonNumber, JsonValue, JsonSax | numbers and flags; values; events out of values and values out of events |
| JsonEquality, JsonMembers | `operator==`; object members with the optional map index |
| Bits, BoolArray, BoolArrayQueries | bits of a byte; construction and merging; counting, searching, exporting |
| MemoryPool | bump allocation over a list of chunks |
| Sha256 | word level, FIPS 180-4, and the streaming implementation |
| Sha256Constants, Sha256Example | what the standard says about functions and constants; the digest of "abc" |
| Crc32Table, Crc32 | the table against the polynomial; checksums and error detection |
| Handoff | producers, queue, coalescing wake-up and loop callback |

Where the code and its own comments or documentation disagree, the model follows the code:

* `tree::destroy` says that it is safe to drop a parent "as its children are nullptr". That fails
  when a node has an inner first child, no second child and a later child
  (`TreeDestroy.LiveTailIsDropped`): the later subtree is then deleted by the recursive destructor.
  `TreeDestroy.ChildlessExactly` says that this shape is the only cause.
* The note on JSON `operator==` says that comparing objects with duplicated names is always false.
  On the left of the comparison that is so exactly if two members of one name have different values
  (`JsonEquality.LeftMatchedExactly`); on the right it is never so, as every object is matched by
  some other one (`JsonEquality.RightAlwaysMatched`). A comparison that is true can be false the
  other way round; `JsonEquality.SymmetricExactly` says when it is not.
* `operator==` compares 64-bit patterns, so a negative integer equals the unsigned integer that is
  2^64 larger (`JsonNumber.PatternsIdentify`, `JsonEquality.MinusOneEqualsLargest`).
* `Value(kNumberType)` carries every number flag and does not survive the way through events: it
  comes back as a double (`JsonSax.DefaultNumberChanges`).
* Two lookups of a repeated member name may give different positions with and without the map
  index; they agree for certain exactly for names that occur at most once
  (`JsonMembers.SamePositionExactly`).
* A default-constructed `fc_queue` reports a capacity of 2^64 - 1 and is both empty and full
  (`FcQueue.Queue.Full`). Copying it onto a queue with slots asks for 2^64 slots
  (`FcQueue.Queue.Assign`).
* `bool_array::find_until` with a defaulted end accepts a search that starts at the length of the
  array. If the last byte is fully used, it then reads the byte behind the array
  (`BoolArrayQueries.FirstReadExactly`, `BoolArrayQueries.BehindIsFound`).
* The overflow check of `merge_and` and `merge_or` adds in 64 bits and lets offsets pass whose sum
  wraps around (`BoolArray.TooLongExactly`, `BoolArray.WrappedOffsetPasses`).
* `MemoryPoolAllocator::Malloc` aligns the seven largest sizes to zero and returns a pointer to no
  bytes for them; `MemoryPool.HandsOutExactly` says exactly when it hands out as many bytes as it
  was asked for.
* `gxcrc32` takes the length of a text as an `int`. Beyond the largest `int` that is not its length
  (`Crc32.IntLenExactly`), and the checksum is that of a prefix, or zero (`Crc32.Checksum.CalcText`).

## Model

| member | source | states |
|---|---|---|
| TreeDestroy.RotatedValues | common/nvwa/tree.h:242-274 | a rotation owns exactly the nodes that the current node and its parent owned before |
| TreeDestroy.Rotate | common/nvwa/tree.h:262-274 | the moves between the two child vectors amount to the rotation of the specification |
| TreeDestroy.GoDown | common/nvwa/tree.h:280-291 | the part of the loop body after the parent is gone: go down the first child, or drop the node for its only second child, or compact |
| TreeDestroy.StepConserves | common/nvwa/tree.h:236-292 | in one iteration every node is either still owned by the two locals or dropped, never both or neither |
| TreeDestroy.StepDecreases | common/nvwa/tree.h:236-292 | every iteration lowers (live nodes, phase, length of the first-child chain) lexicographically, with null children allowed anywhere |
| TreeDestroy.RunDropsEachNodeOnce | common/nvwa/tree.h:226-293 | the whole loop drops each node of the tree exactly once |
| TreeDestroy.SafeRunNeverRecurses | common/nvwa/tree.h:226-293 | if no node combines an inner first child, no second child and a later child, every node is childless when it is dropped |
| TreeDestroy.ChildlessExactly | common/nvwa/tree.h:275-278 | for every tree: `destroy` drops childless nodes only, on the tree and on each of its subtrees, if and only if no node has that shape |
| TreeDestroy.RootDecides | common/nvwa/tree.h:275-278 | given that no proper subtree contains the shape, childless deletion of this tree holds if and only if its root does not have it |
| TreeDestroy.LiveTailIsDropped | common/nvwa/tree.h:276-277 | a four-node tree on which a dropped parent still owns a live child |
| TreeDestroy.RunKeepsEarlyChildren | common/nvwa/tree.h:275-278 | whatever the tree, a dropped node has no first and no second child any more, so that only third and later children can be deleted with their parent |
| TreeDestroy.BinaryDropOrder | common/nvwa/tree.h:226-293 | the exact order in which a tree of nodes with at most two child slots is dropped, null children included |
| TreeDestroy.FullBinaryInOrder | common/nvwa/tree.h:242-259 | if every node has no child or two, that order is the in-order |
| TreeDestroy.Destroy | common/nvwa/tree.h:232-293 | the loop terminates, its two asserts hold in every iteration, it drops each node once, and childless nodes only on trees without the losing shape |
| TreeRemove.PopRemovesLast | common/nvwa/tree.h:188-194 | popping a childless last entry anywhere on the chain of last children removes exactly the end of the pre-order and one child slot |
| TreeRemove.RemoveChildren | common/nvwa/tree.h:181-197 | the loop terminates with no children left; every popped entry is null or childless at that moment; every slot is popped once; nodes leave in reverse pre-order |
| TreeOrders.PreOrderListsAll | common/nvwa/tree.h:477-526 | the pre-order lists every node exactly once |
| TreeOrders.InOrderListsAll | common/nvwa/tree.h:573-627 | the n-ary in-order lists every node exactly once |
| TreeIterators.LevelsListAll | common/nvwa/tree.h:392-431 | the concatenated levels list every node exactly once |
| TreeIterators.InOrderIterator.FindLeftmostChild | common/nvwa/tree.h:649-673 | the returned node, followed by what the stack denotes, is the in-order of the subtree followed by what the stack denoted before |
| TreeIterators.InOrderIterator.Next | common/nvwa/tree.h:599-628 | one increment moves to exactly the next node of the sequence that the stack denotes, and to the end when there is none |
| TreeIterators.TraverseInOrder | common/nvwa/tree.h:573-673 | a full traversal visits exactly inorder(child 0), node, inorder(child 1), and so on, skipping null children |
| TreeIterators.DepthFirstIterator.Next | common/nvwa/tree.h:500-526 | one increment consumes exactly the head of the remaining pre-order |
| TreeIterators.TraverseDepthFirst | common/nvwa/tree.h:477-526 | a full traversal is the pre-order |
| TreeIterators.NextDepth | common/nvwa/tree.h:418-431 | the children of the nodes at one depth, in order and without nulls, are the nodes at the next depth |
| TreeIterators.LevelsEndAtHeight | common/nvwa/tree.h:426-429 | a level is empty exactly from the height of the tree on, so the traversal stops neither early nor late |
| TreeIterators.BreadthFirstIterator.Next | common/nvwa/tree.h:418-431 | one increment consumes exactly the head of the remaining level order |
| TreeIterators.TraverseBreadthFirst | common/nvwa/tree.h:392-431 | a full traversal is the concatenation of the levels |
| FcQueue.Append | common/nvwa/fc_queue.h:412-422 | constructing at the tail of a ring with a spare slot and advancing the tail appends to the denoted sequence |
| FcQueue.DropFirst | common/nvwa/fc_queue.h:432-437 | destroying at the head of a non-empty ring and advancing the head removes the first element |
| FcQueue.Queue.constructor | common/nvwa/fc_queue.h:143-149 | an empty queue that is not full and has the promised capacity |
| FcQueue.Queue.Full | common/nvwa/fc_queue.h:322-325 | full means that the size equals the capacity; without slots it is full at no capacity |
| FcQueue.Queue.Size | common/nvwa/fc_queue.h:342-349 | the size is the length of the denoted sequence, at most the capacity, whether or not the indices have wrapped |
| FcQueue.Queue.Push | common/nvwa/fc_queue.h:413-422 | the element is appended, and exactly the first one is discarded if the queue was full |
| FcQueue.Queue.Pop | common/nvwa/fc_queue.h:432-437 | the first element is destroyed and the rest kept in order, also in the moment when `push` has filled the last slot |
| FcQueue.Queue.Back | common/nvwa/fc_queue.h:381-385 | the last element of the denoted sequence |
| FcQueue.Queue.Write | common/nvwa/fc_queue.h:467-477 | succeeds exactly if the queue is not full and then appends; otherwise nothing changes |
| FcQueue.Queue.Read | common/nvwa/fc_queue.h:501-510 | succeeds exactly if the queue is not empty and then removes and delivers the first element; otherwise the destination keeps its value |
| FcQueue.Queue.Clear | common/nvwa/fc_queue.h:594-604 | every element is destroyed once and no raw slot is touched; the queue is empty |
| FcQueue.Queue.CopyElements | common/nvwa/fc_queue.h:632-640 | the copy denotes the same sequence although its indices may differ |
| FcQueue.Queue.Assign | common/nvwa/fc_queue.h:232-251 | assignment, self-assignment included, gives the source's sequence and capacity and leaves the source alone; from a source without slots it succeeds exactly onto a queue without slots, and otherwise the allocation fails and the elements are lost |
| FcQueue.Contains | common/nvwa/fc_queue.h:519-530 | true exactly for the members of the denoted sequence |
| FcQueueProtocol.IndexTests | common/nvwa/fc_queue.h:456-464 | in every reachable state the full test and the empty test on the indices mean capacity elements and no elements in transit |
| FcQueueProtocol.RunInv | common/nvwa/fc_queue.h:455-510 | the invariant over positions, cells and both threads holds after every interleaving |
| FcQueueProtocol.WrittenAreAccepted | common/nvwa/fc_queue.h:455-510 | the history of written elements, with the one under construction, is the list of arguments of the calls that found room, read off the actions alone; as many are written and received as tail and head stores happened |
| FcQueueProtocol.ReadsArePrefixOfWrites | common/nvwa/fc_queue.h:455-510 | in every interleaving of one writer and one reader the values received are a prefix of the arguments of the accepted write calls, whole, in order, each once, one for each completed read, with at most capacity in transit |
| FcQueueProtocol.NoSharedSlot | common/nvwa/fc_queue.h:458-500 | the slot being constructed is never in the live range nor the one the reader works on, and construction starts on a blank slot |
| FcQueueProtocol.StepsRefineQueue | common/nvwa/fc_queue.h:455-510 | each step refines a bounded queue: storing the tail enqueues the next accepted argument, storing the head dequeues the front, a call fails only when the queue is full or empty at the load of the other index, all else changes nothing |
| FcQueueProtocol.NeverBlocked | common/nvwa/fc_queue.h:455-510 | whichever step a call has reached, it can take its next one without waiting for the other thread |
| JsonNumber.Int32sStore | common/rapidjson/document.h:792-802 | the 32-bit constructors set flags that say exactly which of the four integer ranges contain the integer, and every permitted getter returns it |
| JsonNumber.Int64sStore | common/rapidjson/document.h:804-828 | the same for the 64-bit constructors |
| JsonNumber.OneRepresentation | common/rapidjson/document.h:2008-2013 | two numbers that store the same integer have the same flags and pattern |
| JsonNumber.WideningIsInvisible | common/rapidjson/document.h:792-828 | an integer makes the same number whichever of the four constructors it goes through |
| JsonNumber.PatternsIdentify | common/rapidjson/document.h:1052-1059 | two stored integers compare equal if and only if they are equal or exactly 2^64 apart |
| JsonSax.HandleConcat | common/rapidjson/document.h:2820-2860 | handling a stream in two parts is handling it at once, failures included |
| JsonSax.ObjectCloses | common/rapidjson/document.h:2848-2852 | closing an object turns exactly the names and values above the open value into its members |
| JsonSax.EventsPushOne | common/rapidjson/document.h:1948-1985 | the events of any value with string names, fed to the handler on any stack, push exactly one value |
| JsonSax.EventsReadAsOne | common/rapidjson/document.h:1948-1985 | for any reader that insists on matching brackets with the right counts and on names and values in turn: wherever a value may stand, the events of a value are read as exactly one value |
| JsonSax.EventKinds | common/rapidjson/document.h:1948-1985 | the first event tells the kind of the value, and for null, booleans and strings the value itself |
| JsonSax.NumberKinds | common/rapidjson/document.h:1977-1983 | a stored integer is announced with its value, by the first of the four types whose range contains it, and a double by its pattern |
| JsonSax.NumberRoundTrip | common/rapidjson/document.h:1977-1983 | a number comes back unchanged if and only if it stores an integer or is a plain double |
| JsonSax.RoundTripExactly | common/rapidjson/document.h:1948-1985 | the value that comes back is the original if and only if its numbers and strings are as their constructors make them |
| JsonSax.DefaultNumberChanges | common/rapidjson/document.h:2013 | a default number value, with every flag set, comes back as the double zero |
| JsonSax.Document.On | common/rapidjson/document.h:2820-2860 | each handler method takes the stack to the specified one, fails only on a stack that is too short, and logs its event |
| JsonSax.Accept | common/rapidjson/document.h:1948-1985 | the recursive generator emits exactly the events of the value, and leaves the document's stack with one more value, the remade one |
| JsonSax.Clone | common/rapidjson/document.h:2622-2629 | populating an empty document from a value leaves one value, equal to the original if and only if the original is as constructed |
| JsonEquality.EqualMeansSame | common/rapidjson/document.h:1025-1064 | with distinct names and no doubles, `operator==` decides equality of denotations in which objects are finite maps |
| JsonEquality.EqualIsEquivalence | common/rapidjson/document.h:1025-1064 | it is then reflexive, symmetric and transitive |
| JsonEquality.FlatEqualExactly | common/rapidjson/document.h:1041-1062 | without objects, two values are equal if and only if they are the same up to string storage and number flags |
| JsonEquality.ObjectsEqualMemberwise | common/rapidjson/document.h:1031-1039 | with distinct names, objects are equal if and only if they have equally many members and every left member has an equal one of its name on the right |
| JsonEquality.MemberOrderIsIrrelevant | common/rapidjson/document.h:1031-1039 | objects whose members are permutations of each other are equal |
| JsonEquality.MapSize | common/rapidjson/document.h:1032-1033 | the compared size is the number of names exactly when names are distinct, and never smaller |
| JsonEquality.SameSizeSubset | common/rapidjson/document.h:1032-1038 | the pigeonhole step: finding every left name on the right is enough when sizes are equal |
| JsonEquality.ObjectsEqualExactly | common/rapidjson/document.h:1031-1039 | whatever names are repeated, two objects compare equal if and only if their sizes agree, equal names on the left carry equal values, and every name on the left has the same value on the right |
| JsonEquality.SelfEqualExactly | common/rapidjson/document.h:1021-1038 | an object with repeated names equals itself if and only if equal names carry equal values |
| JsonEquality.LeftMatchedExactly | common/rapidjson/document.h:1021-1038 | the documented note for the left operand: some object equals it if and only if equal names carry equal values |
| JsonEquality.RightAlwaysMatched | common/rapidjson/document.h:1021-1038 | the documented note for the right operand: it never holds, every object is equal to some object on its left |
| JsonEquality.SymmetricExactly | common/rapidjson/document.h:1025-1039 | a true comparison of objects is true the other way round if and only if equal names on the right carry equal values and every name on the right occurs on the left |
| JsonEquality.RepeatedNames | common/rapidjson/document.h:1021-1038 | witnesses: equal to itself; equal in one direction only; equal on the right although not equal to itself |
| JsonEquality.MinusOneEqualsLargest | common/rapidjson/document.h:1052-1059 | the stored integers -1 and 2^64 - 1 compare equal |
| JsonMembers.EraseWidensHole | common/rapidjson/document.h:2353-2356 | erasing the map node of the position behind the hole keeps the index exact outside a hole one wider |
| JsonMembers.MoveShiftsHole | common/rapidjson/document.h:2358-2370 | moving the entry behind the hole to its front, with its iterator and mapped position, shifts the hole by one |
| JsonMembers.MoveLastClosesHole | common/rapidjson/document.h:2329-2336 | moving the last entry into a hole of one closes it |
| JsonMembers.NodeCount | common/rapidjson/document.h:2197-2207 | the map has as many nodes as there are members, which is the count that reallocation copies |
| JsonMembers.LookupsAgree | common/rapidjson/document.h:2229-2238 | a map lookup succeeds exactly if the linear scan does, and gives a member of that name |
| JsonMembers.SamePositionExactly | common/rapidjson/document.h:2229-2238 | every possible map lookup gives the position of the linear scan if and only if the name occurs at most once |
| JsonMembers.ObjectData.Reserve | common/rapidjson/document.h:2217-2226 | growing keeps the members, their order and the index, and never shrinks |
| JsonMembers.ObjectData.Add | common/rapidjson/document.h:2304-2318 | the member is appended and indexed; a full array has grown by half, rounded up, or to sixteen from nothing, and another one is left alone |
| JsonMembers.ObjectData.Remove | common/rapidjson/document.h:2320-2342 | the last member takes the free place, all others keep theirs, and the index stays exact |
| JsonMembers.ObjectData.Erase | common/rapidjson/document.h:2344-2376 | the range is gone, the rest keeps its order, and the index stays exact |
| JsonMembers.ObjectData.Clear | common/rapidjson/document.h:2240-2250 | no member and no map node is left |
| JsonMembers.ObjectData.FindByMap | common/rapidjson/document.h:2229-2238 | finds a member of the name if there is one, and the first one if the name occurs at most once |
| JsonMembers.ObjectData.FindLinearly | common/rapidjson/document.h:2282-2288 | finds the first member of the name, or the end |
| Bits.CountBitsCounts | common/nvwa/bool_array.cpp:113-120 | the recursive bit count behind the table counts the set bits of every byte |
| Bits.FirstBitOneIsLeast | common/nvwa/bool_array.cpp:124-134 | the ordinal table gives the least set bit of every non-zero byte |
| BoolArray.TrimmedBits | common/nvwa/bool_array.cpp:299-308 | masking the last byte clears exactly the bits at and above the length |
| BoolArray.Array.FromBitmap | common/nvwa/bool_array.cpp:209-222 | the array holds the first bits of the bitmap, with zero padding |
| BoolArray.Array.Initialize | common/nvwa/bool_array.cpp:299-308 | every element has the value and the padding is zero |
| BoolArray.Array.At | common/nvwa/bool_array.h:241-249 | reads the element, or reports a range error at and beyond the length |
| BoolArray.Array.Assign | common/nvwa/bool_array.h:174-281 | exactly the one element changes, the padding stays zero, and positions beyond the length change nothing |
| BoolArray.Array.Flip | common/nvwa/bool_array.cpp:469-478 | every element is negated and the padding stays zero |
| BoolArray.Get8BitsAt | common/nvwa/bool_array.cpp:659-668 | the fetched byte agrees with the array on every position below the end, for every alignment |
| BoolArray.MergeByte | common/nvwa/bool_array.cpp:520-548 | combining one destination byte with a carrier byte extends the merged part and changes no other bit |
| BoolArray.FirstCarries | common/nvwa/bool_array.cpp:523-532 | the shifted first byte holds the source bits in place and the neutral bit elsewhere, for both operations |
| BoolArray.RestCarries | common/nvwa/bool_array.cpp:539-548 | so does the last byte, although the fetched byte is undefined past the end |
| BoolArray.MergedMeans | common/nvwa/bool_array.cpp:500-609 | what a merge has done, in plain and/or: the bits of the range are the conjunction or disjunction with the source bits, all others are as before |
| BoolArray.Array.MergeRange | common/nvwa/bool_array.cpp:520-548 | the three parts of the loop together combine exactly the range |
| BoolArray.TooLongExactly | common/nvwa/bool_array.cpp:516-518 | the overflow check is exact unless the sum wraps around to at most the length |
| BoolArray.WrappedOffsetPasses | common/nvwa/bool_array.cpp:516-520 | one bit at the largest offset passes the check although its byte is far behind the array |
| BoolArray.Array.Merge | common/nvwa/bool_array.cpp:500-609 | for every begin, end and offset: the error cases and the case that leaves the array; on success exactly the bits of the destination range become the and/or with the source slice, all others and the zero padding stay |
| BoolArrayQueries.Count | common/nvwa/bool_array.cpp:315-335 | the unranged count is the number of true elements, because the padding is zero |
| BoolArrayQueries.CountNonEmpty | common/nvwa/bool_array.cpp:358-402 | the number of true bits of the slice for every alignment, through the partial bytes, single bytes and words |
| BoolArrayQueries.CountIn | common/nvwa/bool_array.cpp:345-403 | the ranged count with its error cases and its default end |
| BoolArrayQueries.Search | common/nvwa/bool_array.cpp:431-463 | the least position of the value in the range, or none, for both values |
| BoolArrayQueries.FirstReadExactly | common/nvwa/bool_array.cpp:422-435 | for every range that is let pass, the first byte read is in the array if and only if the search does not start at the length of an array with a fully used last byte and a defaulted end |
| BoolArrayQueries.BehindIsFound | common/nvwa/bool_array.cpp:431-448 | on eight false elements, a set bit behind the array would be reported as position 0, before the begin of the search |
| BoolArrayQueries.FindUntil | common/nvwa/bool_array.cpp:416-464 | the same with the range checks, the test for an empty range before the default end is replaced, and the case that reads behind the array |
| BoolArrayQueries.CopyBits | common/nvwa/bool_array.cpp:633-650 | aligned copy or shifted fetch, both export the slice with zero padding and write nothing behind it |
| BoolArrayQueries.CopyToBitmap | common/nvwa/bool_array.cpp:620-650 | the export with its error cases |
| BoolArrayQueries.RoundTrip | common/nvwa/bool_array.cpp:209-222 | an array built from an exported range is the slice, for every non-empty range |
| MemoryPool.TileGrow | common/rapidjson/allocators.h:352-359 | growing the last block of a chunk in place keeps the blocks gapless, aligned and disjoint |
| MemoryPool.BlocksAreSeparate | common/rapidjson/allocators.h:321-334 | all blocks are aligned, inside their chunks and pairwise disjoint |
| MemoryPool.LastAllocationExactly | common/rapidjson/allocators.h:353 | the address test is true exactly for the last block of the head chunk at its full extent, wherever the chunks lie |
| MemoryPool.SizesAddUp | common/rapidjson/allocators.h:293-310 | the reported size is the sum of the extents of all blocks and at most the capacity |
| MemoryPool.Pool.Clear | common/rapidjson/allocators.h:277-288 | only the first chunk is left, and empty |
| MemoryPool.Pool.Size | common/rapidjson/allocators.h:304-310 | the sum of the extents of all blocks, at most the capacity |
| MemoryPool.Pool.Capacity | common/rapidjson/allocators.h:293-299 | the sum of the capacities of the chunks |
| MemoryPool.Pool.AddChunk | common/rapidjson/allocators.h:390-402 | a new empty head chunk apart from all others, or nothing when memory is refused |
| MemoryPool.Align64Exactly | common/rapidjson/allocators.h:326 | alignment in 64 bits gives the next multiple of eight, except that the seven largest sizes become zero |
| MemoryPool.HandsOutExactly | common/rapidjson/allocators.h:321-334 | the returned pointer is followed by as many bytes as asked for if and only if no alignment and no sum on the way wraps around |
| MemoryPool.LargestSizeAlignsToZero | common/rapidjson/allocators.h:326-333 | the largest size is served without a new chunk, with no bytes |
| MemoryPool.Pool.MakeRoom | common/rapidjson/allocators.h:326-329 | afterwards the head chunk has room for the aligned size: either it had before and nothing changed, or a new chunk of the larger of the chunk capacity and the aligned size is in front; or memory was refused, or a sum has wrapped around |
| MemoryPool.Pool.Malloc | common/rapidjson/allocators.h:321-334 | for every size: a zero request and a refused one change no block; it hands out too few bytes exactly if a sum wraps around and memory is not refused; otherwise one block of the aligned size is added, at the end of the head chunk if it fits there and else alone in a new chunk, and no other block is touched |
| MemoryPool.Pool.ExpandLast | common/rapidjson/allocators.h:352-359 | the block grows in place exactly if it is the last one of the head chunk at its full extent and the increment fits; then only its extent changes |
| MemoryPool.Pool.AllocateAndCopy | common/rapidjson/allocators.h:361-368 | the old bytes are copied to a block that overlaps no other, and nothing else is written |
| MemoryPool.Pool.Realloc | common/rapidjson/allocators.h:337-369 | for every size whose sums do not wrap around: a block that is large enough is returned with nothing changed, the last block grows in place exactly if there is room, and otherwise one block is added and the old bytes are copied; always, nothing outside the result is written, every other block keeps its place and extent, and a failure changes nothing; the seven largest sizes get the old block back |
| Sha256Words.ChMacroIsCh | common/crypto/sha256.c:70 | the macro is the function of the standard |
| Sha256Words.MajMacroIsMaj | common/crypto/sha256.c:71 | the macro is the function of the standard |
| Sha256Words.SwappedLoad | common/crypto/sha256.c:118-119 | byte swap after a little-endian load is a big-endian load |
| Sha256Words.SwappedStore | common/crypto/sha256.c:118-119 | byte swap before a little-endian store is a big-endian store |
| Sha256Constants.BigSigma0Is | common/crypto/sha256.c:72 | the exclusive or of the rotations by 2, 13 and 22 |
| Sha256Constants.BigSigma1Is | common/crypto/sha256.c:73 | the exclusive or of the rotations by 6, 11 and 25 |
| Sha256Constants.SmallSigma0Is | common/crypto/sha256.c:74 | the exclusive or of the rotations by 7 and 18 and the shift by 3 |
| Sha256Constants.SmallSigma1Is | common/crypto/sha256.c:75 | the exclusive or of the rotations by 17 and 19 and the shift by 10 |
| Sha256Constants.ChChooses | common/crypto/sha256.c:70 | on the places of any mask, the second argument where the first is set and the third where it is not |
| Sha256Constants.MajAgrees | common/crypto/sha256.c:71 | on the places of any mask, whatever two arguments agree on |
| Sha256Constants.PrimesWithoutGap | common/crypto/sha256.c:90-107 | the 64 numbers below are the primes from 2 on without a gap |
| Sha256Constants.InitialHashIsSquareRoots | common/crypto/sha256.c:187-203 | the initial hash words are the fractional parts of the square roots of the first eight primes |
| Sha256Constants.ConstantsAreCubeRoots | common/crypto/sha256.c:90-107 | the round constants are the fractional parts of the cube roots of the first 64 primes |
| Sha256.DoRoundIsRound | common/crypto/sha256.c:77-88 | the round macro is a round of section 6.2.2 of FIPS 180-4 |
| Sha256.Schedule | common/crypto/sha256.c:227-243 | the array filled in place is the message schedule of the standard |
| Sha256.AllRounds | common/crypto/sha256.c:245-271 | the rounds of the loop are the 64 rounds of the standard |
| Sha256.Context.Guts | common/crypto/sha256.c:217-324 | the block function of section 6.2.2 of FIPS 180-4 |
| Sha256.ChunkAppended | common/crypto/sha256.c:327-400 | buffering a chunk, and compressing a buffer that becomes full, leaves a context that stands for the longer message |
| Sha256.MessageDetermines | common/crypto/sha256.c:327-400 | two contexts for the same message agree in hash, buffered bytes and length, so both copy variants reach the same one |
| Sha256.Context.Update | common/crypto/sha256.c:327-400 | the default loop appends the data to the message the context stands for |
| Sha256.Context.FastUpdate | common/crypto/sha256.c:327-400 | so does the fast-copy variant |
| Sha256.PaddingFits | common/crypto/sha256.c:409-416 | the padding and length bytes are those of section 5.1.1 for every message under 2^64 bits |
| Sha256.Context.Final | common/crypto/sha256.c:402-430 | the digest of the message as the standard defines it |
| Sha256.HashPieces | common/crypto/sha256.c:327-430 | however a message is split into updates, of whichever variant, the result is the digest of the whole message |
| Sha256Example.DigestOfAbc | common/crypto/sha256.c:217-430 | the digest of "abc" is the published one |
| Crc32Table.TableIsEightSteps | common/gxcrc32.cpp:5-19 | each of the 256 entries is eight steps of the reflected polynomial 0xEDB88320 |
| Crc32Table.StepLinear | common/gxcrc32.cpp:5-19 | a polynomial step is linear |
| Crc32Table.EightInjective | common/gxcrc32.cpp:5-19 | eight polynomial steps are injective on words |
| Crc32.LookupIsEightSteps | common/gxcrc32.cpp:172 | a table lookup is eight polynomial steps of the state combined with the byte |
| Crc32.LookupIsSerial | common/gxcrc32.cpp:172 | it does the work of feeding eight message bits, lowest first, one at a time |
| Crc32.ContinueConcat | common/gxcrc32.cpp:209-225 | updating with two byte sequences in a row is updating with their concatenation |
| Crc32.UpdateInjective | common/gxcrc32.cpp:220-222 | a byte step keeps different states apart |
| Crc32.UpdateSurjective | common/gxcrc32.cpp:220-222 | and reaches every state, so that it is a bijection |
| Crc32.UpdateAllInjective | common/gxcrc32.cpp:220-222 | any sequence of byte steps keeps different states apart |
| Crc32.UpdateAllSurjective | common/gxcrc32.cpp:220-222 | and reaches every state |
| Crc32.UpdateIsBits | common/gxcrc32.cpp:220-222 | the table-driven loop over bytes is the polynomial division over the message bits |
| Crc32.BurstsAreDetected | common/gxcrc32.cpp:209-225 | two messages of equal length that differ only inside 32 consecutive bits, at any alignment, have different checksums |
| Crc32.FourBytesAreDetected | common/gxcrc32.cpp:209-225 | in particular two that differ only inside four consecutive bytes |
| Crc32.CheckValue | common/gxcrc32.cpp:107-115 | the checksum of "123456789" is 0xCBF43926 |
| Crc32.LeadingZeroMatters | common/gxcrc32.cpp:218-224 | a zero byte in front of any message changes its checksum |
| Crc32.IntLenExactly | common/gxcrc32.cpp:214 | the cast of the text length keeps it if and only if it fits an `int` |
| Crc32.Checksum.UpdateText | common/gxcrc32.cpp:193-195 | continues the checksum over as many bytes as the cast length says, or changes nothing if that is negative |
| Crc32.Checksum.UpdateByte | common/gxcrc32.cpp:170-174 | updating with an integer is updating with its low byte, negative integers included |
| Crc32.Checksum.UpdateRange | common/gxcrc32.cpp:209-225 | null pointers, negative arguments and text ranges past the terminator change nothing; otherwise the checksum continues over the range |
| Crc32.Checksum.CalcText | common/gxcrc32.cpp:107-115 | the checksum of the bytes before the terminator for every text whose length fits an `int`, and what the cast length gives for longer ones |
| Crc32.Checksum.Calc | common/gxcrc32.cpp:122-130 | the checksum of the range, or zero if it is rejected |
| Handoff.NoStrandedPacket | serverplugin/serverplugin_helper.hpp:54-84 | over all interleavings, a non-empty queue implies a pending wake-up, a running callback, or a producer that has enqueued and not yet notified |
| Handoff.DeletedInOrderOnce | serverplugin/plugin_gameserver.cpp:180-212 | packets leave in the order they were enqueued, each is deleted once, and each is sent exactly if its room (and player) is in the map at that moment |
| Handoff.LoopAloneDrains | serverplugin/plugin_gameserver.cpp:180-212 | from any reachable state the loop by itself comes to rest with no wake-up pending and the invariant intact |
| Handoff.EverythingIsDelivered | serverplugin/plugin_gameserver.cpp:91-94 | once every producer that enqueued has notified, the loop alone deletes every packet ever enqueued, in order |
| Handoff.LostOnlyBeforeInit | serverplugin/serverplugin_helper.hpp:54-61 | once the notifier is initialised, no run whatever loses a further packet |
| Handoff.EveryPacketIsSomewhere | serverplugin/plugin_gameserver.cpp:79-130 | in every reachable state each packet made is in exactly one place, counted with multiplicity: enqueued, lost, or still with its producer |
| Handoff.HistoryIsFaithful | serverplugin/plugin_gameserver.cpp:79-212 | read off the actions alone: the packets made are the acceptable requests, they are enqueued or lost in the order in which they are handed over, and each is judged by the rooms at the moment it is processed |
| Handoff.WhenSent | serverplugin/plugin_gameserver.cpp:186-209 | a broadcast is sent if the room is present, and the two other kinds if the player is in it too |
| Handoff.Notifier.InitLoop | serverplugin/serverplugin_helper.hpp:39-51 | is the initialisation step of the machine |
| Handoff.Notifier.EnqueueResponse | serverplugin/serverplugin_helper.hpp:54-61 | is the enqueue step: appends to the queue, or loses the packet before initialisation |
| Handoff.Notifier.NotifyMainThread | serverplugin/serverplugin_helper.hpp:77-84 | is the notify step: a wake-up is pending afterwards, unless not initialised |
| Handoff.Notifier.DequeueResponse | serverplugin/serverplugin_helper.hpp:64-74 | is the dequeue step: the callback holds the front of the queue, or ends when there is none |
| Handoff.Notifier.Send | serverplugin/plugin_gameserver.cpp:79-130 | a producer call is accepted exactly for a non-empty message to a present room, and is then a call, an enqueue and a notify step |
| Handoff.SendOne | serverplugin/plugin_gameserver.cpp:186-209 | the switch over packet types sends exactly if the room is present and, for two of the types, the player too |
| Handoff.Notifier.OnAsync | serverplugin/plugin_gameserver.cpp:180-212 | the undisturbed callback is a run of dequeue and process steps that ends idle, empties the queue, deletes all packets in order and sends those whose room and player are present |

## Left out

Statements that are narrower than they could be:

- TreeDestroy.SafeRunNeverRecurses: sufficient, not necessary, for a single tree, because a node of the losing shape is harmless when it is visited while siblings are pending; exact for a tree together with its subtrees (`ChildlessExactly`) and at the root (`RootDecides`).
- JsonEquality.EqualMeansSame: assumes distinct names at every level and no doubles; with repeated names the property is false (`RepeatedNames`), and mixed double comparison depends on rounding.
- JsonEquality.ObjectsEqualExactly: names may repeat in the two objects themselves; the values inside have distinct names and no doubles.
- JsonSax.EventsPushOne: assumes that member names are strings, which the code asserts.
- BoolArray.Array.Merge: one method with a flag for `merge_and` and `merge_or`; source and destination are different arrays; nothing is said about memory after a write behind the array.
- BoolArrayQueries.FindUntil: nothing is said about the result of a read behind the array.
- MemoryPool.Pool.Malloc: nothing is said about the pool after a pointer to too few bytes has been handed out, and likewise for `Realloc`, where the absence of wrap-around is sufficient and not necessary.
- FcQueue.Queue.constructor: the one size for which the constructor throws, 2^64 - 1, is excluded.
- FcQueue.Queue.Assign: after a failed allocation head and tail point into freed memory, which slots as indices do not show.
- Crc32.Checksum.UpdateRange: offset plus length stays within `int`, and binary callers answer for the size of the buffer.
- Sha256.Context.Final: the 32-byte output is returned, not written through a pointer, and the stack burning after a block is not modelled.

What the project does not model:

- N-API bindings, server and router spawning, Redis, ZooKeeper, OpenSearch, Discord, libuv and libev: input/output and foreign calls; the asynchronous wake-up is a pending flag.
- Strings of `qstring`, timers, load generators, hexadecimal output, allocation tracing and the other memory pools, line readers, file mapping and small templates: they would add easy members only.
- Memory orders weaker than single atomic steps, shared tree ownership, allocator propagation, exceptions, out-of-memory inside containers, swapping and moving of queues, copying and moving of the breadth-first iterator.
- Trees are values with labels and a cursor that holds owning pointers; node identity is the label occurrence. The pointer of `remove_children` is its depth on the chain of last children.
- JSON text parsing and writing, arithmetic on doubles (they are 64-bit patterns), copying of members between documents, the 32-bit width of member counts, and pointer packing other than 48 bits, which fixes the short-string limit.
- The map node identities of a JSON object stand for its allocator; which of several equal keys a lookup returns is left open.
- Reference counting between copies of a memory pool; the base allocator may answer with any free, aligned address range or none.
- Lengths of boolean arrays within seven of the largest `size_type`.
- The big-endian and run-time-endian builds of SHA-256 and the unrolled variants of its loops.
- The destructor and second initialisation of the notifier, and the order in which a broadcast reaches players.
