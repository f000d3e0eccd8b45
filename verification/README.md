# Verified models of libnd4j's self-contained cores

This Dafny project models the parts of the tensor library whose correctness rests on invariants of their own, and
proves what they promise for all inputs, all runs or all schedules. `dafny verify dfyconfig.toml` checks everything.

- **FlatBuffers** (`FlatBase`, `VectorDownward`, `FlatReader`, `FlatFormat`, `FlatStrings`, `FlatModel`, `FlatRuns`,
  `FlatTheorems`, `FlatBuilder`, `FlatReplay`): the downward-growing buffer, the builder with back-patched and shared
  vtables and pooled strings, the table reader and the verifier. `FlatModel` has the builder as a state machine,
  `FlatRuns` the invariant of all its runs, `FlatTheorems` what readers find, `FlatBuilder` the class that takes these
  steps on its fields.
- **Mixed-radix index spaces** (`Radix`, `Strides`, `Tiling`, `NDArray`, `RawIterator`, `Flatten`, `Shuffle`,
  `TensorDot`): stride computation, contiguity, tiling, the raw array iterators, re-layout between C and F order,
  shuffling of sub-arrays, and tensor contraction.
- **Quicksort** (`QuickSort`): the explicit-stack sort of strides.
- **Graph executor** (`GraphModel`, `GraphExecutioner`): layer-by-layer execution with in-place reuse of buffers.
- **Atomics** (`AtomicAdd`): compare-and-swap retry loops as interleaved steps.
- **Launch configuration** (`LaunchConfig`) and **NPY headers** (`Npy`).
- **Helpers** (`Arithmetic`, `Powers`, `Sequences`): quotients and remainders, powers of two, index sequences.

Code that updates memory step by step is modelled by classes and methods over arrays, maps and sequences that are
proved equal to functions; the theorems are lemmas about those functions. Operations whose code lies elsewhere (index
conversion in `helpers/shape.h`, permute, reshape, matrix product, element-wise kernels) enter by their index meaning.

## Where the code and its documentation differ

- The comment on `SortStrideArray` announces descending absolute values. The code sorts ascending by signed stride;
  `QuickSort.CommentHoldsIff` says for exactly which strides both coincide.
- In-place execution is not dataflow when an external variable with a non-empty array has two consumers
  (`GraphModel.ReuseIffSoleContents`).
- Shared strings are compared only up to the first NUL (`FlatTheorems.SharedExactly`).
- `tilei` tiles for every matrix, but with a repetition on an axis between others only under a condition
  (`Tiling.TilingIff`). For order 'f' and more counts than axes it writes behind the new buffer when the first size
  exceeds 1 (`Tiling.ColumnsOverrun`).
- `tensorDot` fails for a matrix times a column, where `mmulHelper`, called without a target, writes through it, and
  whenever a single element is contracted over, as in outer products: no branch fits then, or its 1 x 1 result does not
  (`TensorDot.MmulCases`).
- The NPY parser searches the text of the payload too, for a key the writer does not write, and throws if it finds it
  near the end (`Npy.RoundTrip`).
- `default_block_size` counts down past zero when the warp size does not divide its start and no size reaches full
  occupancy (`LaunchConfig.DefaultBlockSize`, with an input in `LaunchConfig.SearchFails`), and then divides by zero from
  capability 2 on.
- `updateStrides` for rank 0 and order 'c' overwrites the rank (`NDArrays.NDArray.UpdateStrides`).
- `flattenGeneric` heeds the stride of the result only when it copies by element-wise strides
  (`Flatten.FlattenGeneric`).

## Model

| member | source | states |
|---|---|---|
| FlatBase.PaddingIsLeast | include/flatbuffers/base.h:174-176 | for a power-of-two scalar size the bit expression is the least number of bytes that brings the buffer to a multiple of the size |
| FlatBase.LeastPaddingLeast | include/flatbuffers/base.h:174-176 | no smaller padding reaches a multiple of the size |
| FlatBase.FromToLE | include/flatbuffers/base.h:163-169 | a scalar written low byte first reads back as itself if it fits |
| FlatBase.MaskEight | include/flatbuffers/flatbuffers.h:576-579 | masking with the complement of 7 rounds a size_t down to a multiple of 8 |
| Downward.GrowthPolicy | include/flatbuffers/flatbuffers.h:576-579 | an empty reservation grows by the initial size; any other by at most half and, if it is a multiple of 8, by at least half less 4 |
| Downward.Regrown | include/flatbuffers/flatbuffers.h:653-666 | the new reservation has room for the request, stays a multiple of 8, and grows by at least a third of the old reservation |
| Downward.VectorDownward.Reallocate | include/flatbuffers/flatbuffers.h:402-409 | the contents keep their distances from the end, the room suffices, and the bytes copied stay at most 3 times the reserved size (Valid) |
| Downward.VectorDownward.MakeSpace | include/flatbuffers/flatbuffers.h:581-591 | exactly len bytes are added below contents that keep their distance from the end; memory is replaced only when there was no room |
| Downward.VectorDownward.Push | include/flatbuffers/flatbuffers.h:615-625 | the bytes stand in front of the unchanged old contents |
| Downward.VectorDownward.Fill | include/flatbuffers/flatbuffers.h:628-637 | the zeros stand in front of the unchanged old contents |
| Downward.VectorDownward.Pop | include/flatbuffers/flatbuffers.h:639-639 | exactly the bytes at the front go |
| Downward.VectorDownward.Clear | include/flatbuffers/flatbuffers.h:554-562 | the contents are gone, the reservation and the copy account stay |
| Downward.VectorDownward.Reset | include/flatbuffers/flatbuffers.h:544-552 | the memory is given back and the copy account starts over |
| FlatReader.AcceptanceIsSafe | include/flatbuffers/flatbuffers.h:1906-1925 | on arbitrary bytes: after VerifyTableStart accepts, VerifyField on an even field id reads inside the buffer, and it accepts exactly if GetField would read inside the buffer |
| FlatReader.EvenSizeCheckNeeded | include/flatbuffers/flatbuffers.h:1911-1914 | with all other checks passed, reading every even field id is safe if and only if the vtable size is even or the buffer holds one byte behind the vtable |
| FlatReader.Verifier.VerifyComplexity | include/flatbuffers/flatbuffers.h:1757-1761 | both counters advance and the answer is whether both are still within their limits |
| FlatReader.Verifier.EndTable | include/flatbuffers/flatbuffers.h:1764-1767 | the 32-bit depth counter goes back by one, from 0 to 4294967295; the table counter stays |
| FlatReader.Verifier.VerifyTableStart | include/flatbuffers/flatbuffers.h:1906-1915 | accepts exactly if the vtable is accepted and the limits hold; the counters advance exactly if the table's first word lies in the buffer |
| FlatReader.Verifier.VerifyField | include/flatbuffers/flatbuffers.h:1918-1925 | accepts exactly if the field is absent or lies in the buffer |
| FlatFormat.TableFromVTable | include/flatbuffers/flatbuffers.h:845-858 | a table word that refers to a vtable holding the filled-in slots makes every added field readable and every other field absent |
| FlatFormat.ReadBack | include/flatbuffers/flatbuffers.h:1845-1858 | reading any field of a good table with its default gives the value added, for floats up to the sign of a zero that equals its default; it is stored exactly if forced or not equal to the default in its own type; any other field gives the default asked for |
| FlatFormat.TableShift | include/flatbuffers/flatbuffers.h:613-613 | a finished table stays good when bytes are put in front of it |
| FlatStrings.OffsetLessIsLex | include/flatbuffers/flatbuffers.h:1528-1537 | the strncmp comparison of pooled strings is the lexicographic order of their bytes up to the first NUL |
| FlatStrings.LexTotal | include/flatbuffers/flatbuffers.h:1528-1537 | that order is total |
| FlatStrings.LexTransitive | include/flatbuffers/flatbuffers.h:1528-1537 | that order is transitive |
| FlatStrings.LexIrreflexive | include/flatbuffers/flatbuffers.h:1528-1537 | that order is irreflexive |
| FlatStrings.PoolInjective | include/flatbuffers/flatbuffers.h:1539-1541 | two pooled offsets are the same exactly if their strings compare equal |
| FlatStrings.PoolInsert | include/flatbuffers/flatbuffers.h:1044-1054 | inserting an absent string where it belongs keeps the pool strictly ascending |
| FlatModel.FindVTable | include/flatbuffers/flatbuffers.h:924-933 | the vtable found is remembered and byte-equal; if none is found, no remembered vtable is |
| FlatRuns.GoodAddElement | include/flatbuffers/flatbuffers.h:845-850 | AddElement keeps the invariant and records the value passed, whether it is stored or not |
| FlatRuns.SkippedIs | include/flatbuffers/flatbuffers.h:845-850 | a value is skipped exactly if defaults are not forced and, as an integer, its bits are those of the default, or, as a float, they are and it is no NaN, or both are zeros of either sign |
| FlatRuns.GoodAddOffset | include/flatbuffers/flatbuffers.h:852-855 | AddOffset keeps the invariant and records the reference |
| FlatRuns.GoodEndTable | include/flatbuffers/flatbuffers.h:902-955 | EndTable keeps the invariant whether it shares a vtable or writes one, and the new table holds all fields recorded |
| FlatRuns.EndTableParts | include/flatbuffers/flatbuffers.h:902-955 | EndTable leaves only a table word or a vtable and a table word in front of the aligned buffer, and remembers exactly the new vtables |
| FlatRuns.SharedIff | include/flatbuffers/flatbuffers.h:921-938 | EndTable shares a vtable exactly if sharing is on and a remembered vtable has the same bytes |
| FlatRuns.GoodCreateString | include/flatbuffers/flatbuffers.h:993-1000 | CreateString keeps the invariant and records the string |
| FlatRuns.CreateStringParts | include/flatbuffers/flatbuffers.h:993-1000 | CreateString writes length, text, NUL and padding in front of everything else, aligned |
| FlatRuns.SharedOutcome | include/flatbuffers/flatbuffers.h:1038-1055 | CreateSharedString returns the pooled offset of an equal key if there is one, and otherwise inserts the new string at its place |
| FlatRuns.GoodSharedString | include/flatbuffers/flatbuffers.h:1038-1055 | CreateSharedString keeps the invariant, in particular the pool without equal keys and the answers of all earlier calls |
| FlatRuns.GoodFinish | include/flatbuffers/flatbuffers.h:1485-1502 | Finish keeps the invariant |
| FlatRuns.FinishedRoot | include/flatbuffers/flatbuffers.h:1485-1502 | the first word (behind a size prefix) leads to the root, and the prefix is the size of what follows |
| FlatRuns.FinishedIdentifier | include/flatbuffers/flatbuffers.h:1485-1502 | the file identifier lies right behind the root word of every finished buffer whose root is a finished table, with and without size prefix |
| FlatRuns.FinishedSize | include/flatbuffers/flatbuffers.h:1485-1502 | the total size after Finish is a multiple of the tracked alignment |
| FlatRuns.FinishedAlignment | include/flatbuffers/flatbuffers.h:802-830 | in a finished buffer every live scalar written by PushElement lies at a multiple of its size from the start, also after vtables were popped |
| FlatTheorems.StepGood | include/flatbuffers/flatbuffers.h:687-691 | every operation of a run keeps the invariant |
| FlatTheorems.InitGood | include/flatbuffers/flatbuffers.h:704-713 | a new builder satisfies the invariant |
| FlatTheorems.RunGrows | include/flatbuffers/flatbuffers.h:844-955 | over any run without Clear all finished tables, strings and scalars stay recorded and the old bytes stay a suffix of the new ones |
| FlatTheorems.TableRoundTrip | include/flatbuffers/flatbuffers.h:1855-1858 | after any legal run, whichever vtable the table shares: every field of every finished table reads as the value passed when it was added (an integer exactly, a float bit by bit unless value and default are both zeros); NaNs and forced values are always stored, and a value that equals its default in its own type and is not forced is absent; a field never added gives the default asked for |
| FlatTheorems.AddedReads | include/flatbuffers/flatbuffers.h:845-955 | from call to field: whatever a run does before an AddElement call, between it and the EndTable call of its table, and afterwards without Clear, the field of the table that EndTable returned reads as the value passed |
| FlatTheorems.ReferenceReads | include/flatbuffers/flatbuffers.h:852-955 | likewise GetPointer of the field of an AddOffset call leads to the object passed |
| FlatTheorems.TableSizeReads | include/flatbuffers/flatbuffers.h:904-924 | the second word of the vtable is the number of bytes from the table's first word to where StartTable was called, in every buffer of every later run without Clear |
| FlatTheorems.PointerRoundTrip | include/flatbuffers/flatbuffers.h:1860-1866 | a reference field leads to the object it was given: reading undoes ReferTo |
| FlatTheorems.VerifierAccepts | include/flatbuffers/flatbuffers.h:1906-1925 | the verifier accepts every table the builder finishes and every field at the size it was added with |
| FlatTheorems.VTablesNeverRepeat | include/flatbuffers/flatbuffers.h:921-938 | with sharing on throughout, no two remembered vtables are byte-equal |
| FlatTheorems.SharedExactly | include/flatbuffers/flatbuffers.h:1038-1055 | two calls since the last Clear returned the same offset if and only if their texts agree up to the first NUL |
| FlatTheorems.SharedNulFree | include/flatbuffers/flatbuffers.h:1038-1055 | for texts without NUL that is equality of contents, and the offset leads to the text |
| FlatTheorems.DuplicateLeavesNoTrace | include/flatbuffers/flatbuffers.h:1043-1050 | a duplicate call leaves contents, size and pool as they were |
| FlatTheorems.NulConfusesSharing | include/flatbuffers/flatbuffers.h:1528-1537 | in any state two different texts that agree up to a NUL get one offset |
| FlatTheorems.FinishedBufferReads | include/flatbuffers/flatbuffers.h:1568-1573 | starting from the finished bytes alone, the fields of the root read as the values added |
| FlatTheorems.FieldsAligned | include/flatbuffers/flatbuffers.h:802-830 | every stored field of a finished table lies at a multiple of its size from the start of a finished buffer |
| FlatBuilder.FlatBufferBuilder.constructor | include/flatbuffers/flatbuffers.h:704-713 | a new builder is in the initial state |
| FlatBuilder.FlatBufferBuilder.Clear | include/flatbuffers/flatbuffers.h:726-741 | everything built is forgotten, the memory and the two switches stay |
| FlatBuilder.FlatBufferBuilder.Align | include/flatbuffers/flatbuffers.h:802-805 | the tracked alignment is the maximum, the padding the least |
| FlatBuilder.FlatBufferBuilder.PushElement | include/flatbuffers/flatbuffers.h:824-830 | padding and scalar in front of the old bytes; returns the scalar's distance from the end |
| FlatBuilder.FlatBufferBuilder.StartTable | include/flatbuffers/flatbuffers.h:893-897 | the state nests and the start is the current size |
| FlatBuilder.FlatBufferBuilder.AddElement | include/flatbuffers/flatbuffers.h:845-850 | nothing changes exactly if the value equals its default in its own type (integers by bits, floats with equal zeros and unequal NaNs) and defaults are not forced; any other value is stored and tracked |
| FlatBuilder.FlatBufferBuilder.ReferTo | include/flatbuffers/flatbuffers.h:871-877 | the reference is relative to the word written next |
| FlatBuilder.FlatBufferBuilder.AddOffset | include/flatbuffers/flatbuffers.h:852-855 | the null offset is skipped, any other stored relative to its own place |
| FlatBuilder.FlatBufferBuilder.EndTable | include/flatbuffers/flatbuffers.h:902-955 | the state after EndTable of the model and the offset of the table's first word |
| FlatBuilder.FlatBufferBuilder.FindEqualVTable | include/flatbuffers/flatbuffers.h:924-933 | the first remembered byte-equal vtable, none exactly if there is none |
| FlatBuilder.FlatBufferBuilder.WriteFieldOffsets | include/flatbuffers/flatbuffers.h:917-924 | after the loop the vtable holds the relative offset of every recorded field and 0 elsewhere |
| FlatBuilder.FlatBufferBuilder.ShareVTable | include/flatbuffers/flatbuffers.h:925-941 | an equal vtable written earlier makes the new one go, otherwise the new one is remembered |
| FlatBuilder.FlatBufferBuilder.PreAlign | include/flatbuffers/flatbuffers.h:980-982 | least padding for what follows, without raising the tracked alignment |
| FlatBuilder.FlatBufferBuilder.CreateString | include/flatbuffers/flatbuffers.h:993-1000 | the string of the model, and its distance from the end |
| FlatBuilder.FlatBufferBuilder.FindInPool | include/flatbuffers/flatbuffers.h:1045-1046 | where the string is in the pool, or where it would have to be inserted |
| FlatBuilder.FlatBufferBuilder.CreateSharedString | include/flatbuffers/flatbuffers.h:1038-1055 | the state and the offset of the model's sharing step |
| FlatBuilder.FlatBufferBuilder.Finish | include/flatbuffers/flatbuffers.h:1485-1502 | the state of the model's Finish |
| FlatReplay.Replay | include/flatbuffers/flatbuffers.h:687-691 | the builder carries out any legal run and ends in the state of the model's run, so everything proved of runs holds of its buffer |
| Strides.DenseOffsets | blas/cpu/NDArray.cpp:1029-1047 | with the strides of updateStrides the offset of a coordinate is its number in that order, below the length, and no two coordinates share it |
| Strides.DenseOnto | blas/cpu/NDArray.cpp:1029-1047 | every offset below the length is that of some coordinate |
| Strides.ContiguousMeansCOrder | blas/cpu/NDArray.cpp:453-466 | what isContiguous decides: the offset of every coordinate is its C-order number, whatever the strides of axes of size 1; and conversely on shapes without empty axes |
| NDArrays.NDArray.UpdateStrides | blas/cpu/NDArray.cpp:1029-1047 | the strides are the dense ones of the order and the shape is unchanged, except that for rank 0 and order 'c' the rank itself is overwritten by 1 |
| NDArrays.NDArray.IsContiguous | blas/cpu/NDArray.cpp:453-466 | true exactly if every axis whose size is not 1 has the stride of C order |
| NDArrays.NDArray.Tilei | blas/cpu/NDArray.cpp:1241-1326 | fails exactly on a zero count; otherwise each size is multiplied by its count, axes and counts matched from the last one, strides are dense, and for every matrix, and wherever the repetition is sequential, element c is the old element c mod shape; in any other case the rows are the old rows in turn |
| Tiling.ColumnsOverrun | blas/cpu/NDArray.cpp:1292-1308 | for order 'f' and more counts than axes the last round of the copy loop ends behind the new buffer if and only if the first old size exceeds 1 |
| NDArrays.NDArray.TileRows | blas/cpu/NDArray.cpp:1299-1308 | the wrapping source position stays in range and every row of the result is a row of the source, rows in turn and from the start again |
| NDArrays.NDArray.CopyRow | blas/cpu/NDArray.cpp:1303-1304 | the inner loop writes the row at position the given number of times and nothing before it |
| Tiling.TilingIff | blas/cpu/NDArray.cpp:1298-1308 | for any rank the copy loop tiles (element c from element c mod shape) if and only if no repeated axis lies between the fast axis and an axis longer than 1; in particular for every matrix, in both orders |
| Tiling.TiledElements | blas/cpu/NDArray.cpp:1298-1308 | the same of the elements: with distinct elements any other repetition visibly misplaces one |
| Tiling.RowsWrap | blas/cpu/NDArray.cpp:1298-1308 | rows are numbered alike in both arrays modulo the row count exactly under that condition |
| RawIterator.PrepareTwoRawArrayIter | include/pairwise_util.h:346-418 | shape kept, strides and base of both operands reversed along exactly the axes where the first operand's stride is negative; a shape with an empty axis becomes one empty axis |
| RawIterator.PrepareThreeRawArrayIter | include/pairwise_util.h:440-531 | the same for three operands, with the special cases of no axis and one axis |
| RawIterator.PreparedAddress | include/pairwise_util.h:361-372 | the prepared operand has at c the element that the original has at the mirrored coordinate |
| RawIterator.MirrorInvolution | include/pairwise_util.h:361-372 | mirroring twice is the identity |
| RawIterator.NextCounts | include/pairwise_util.h:91-105 | the odometer steps from each mixed-radix number to the next and wraps exactly at the last one, to zero |
| RawIterator.WrapsOnlyPositive | include/pairwise_util.h:91-105 | on a shape with an empty axis the loop never sees all axes wrapped |
| RawIterator.RawIterTwoNext | include/pairwise_util.h:91-105 | the coordinate moves on and each pointer by exactly the difference of the strided offsets |
| RawIterator.RawIterThreeNext | include/pairwise_util.h:108-126 | the same for three pointers |
| RawIterator.VisitTwo | include/pairwise_util.h:57-105 | as many visits as elements, visit k at base plus the strided sum of the digits of k, pointers back at their bases at the end |
| RawIterator.VisitThree | include/pairwise_util.h:57-126 | the same for three operands |
| RawIterator.VisitedOnce | include/pairwise_util.h:346-418 | every original coordinate has exactly one visit |
| RawIterator.PrepareAndVisitTwo | include/pairwise_util.h:333-346 | prepared and iterated, the operands are visited together at their original addresses |
| RawIterator.PrepareAndVisitThree | include/pairwise_util.h:420-440 | the same for three operands; without axes there is a single visit |
| QuickSort.Partition | include/pairwise_util.h:294-311 | the segment is rearranged around the element at the returned place, everything else untouched |
| QuickSort.SplitHalves | include/pairwise_util.h:312-323 | handling the smaller part first keeps entry j of the stack at most n / 2^j elements long |
| QuickSort.SplitOrdered | include/pairwise_util.h:311-323 | splitting at the pivot keeps every two elements that share no pending segment in order |
| QuickSort.SplitPending | include/pairwise_util.h:291-323 | the work pending on the stack strictly decreases |
| QuickSort.PushParts | include/pairwise_util.h:312-323 | the stack arrays hold the two parts, the larger one below |
| QuickSort.QuickSort | include/pairwise_util.h:284-324 | terminates with a rearrangement of the elements, ascending by stride; the highest stack index d used satisfies 2^d <= n and stays below 300 for every int count |
| QuickSort.SortStrideArray | include/pairwise_util.h:167-179 | the axes with their strides, ascending, the rest of the output untouched |
| QuickSort.EachAxisOnce | include/pairwise_util.h:167-179 | each entry is an axis with its stride and each axis has exactly one entry |
| QuickSort.CommentHoldsIff | include/pairwise_util.h:157-163 | the order described in the comment (descending by absolute value) comes out if and only if a positive stride is the only positive value and no other stride is nearer to zero |
| QuickSort.CommentExample | include/pairwise_util.h:161-162 | the comment's own example comes out as -2, 4, 12 |
| Flatten.FlattenGeneric | blas/cpu/NativeOps.cpp:1529-1667 | every coordinate's element is at the position given by ravelling the coordinate in the requested order, in all branches, and nothing but those slots changes; only the branch that copies by element-wise strides heeds the result's stride |
| Flatten.CopyEvenly | blas/cpu/NativeOps.cpp:1573-1590 | the element-wise-stride branch |
| Flatten.CopyByCoordinate | blas/cpu/NativeOps.cpp:1591-1617 | the coordinate branch, in both orders |
| Flatten.CopyByTad | blas/cpu/NativeOps.cpp:1619-1666 | the mixed-order branch |
| Flatten.BlockBijection | blas/cpu/NativeOps.cpp:1630-1649 | the C-index to F-index computation is a bijection on TAD numbers |
| Flatten.TadElement | blas/cpu/NativeOps.cpp:1656-1662 | element j of TAD i belongs at place j of the TAD's block |
| Flatten.CCoordinates | blas/cpu/NativeOps.cpp:1631-1637 | the loop computes the C-order coordinates of a TAD number |
| Flatten.FIndex | blas/cpu/NativeOps.cpp:1640-1646 | the loop computes the F-order number of coordinates |
| Flatten.CIndexToFIndex | blas/cpu/NativeOps.cpp:1630-1649 | both together renumber the coordinate with a given C index in F order |
| Flatten.NumTads | blas/cpu/NativeOps.cpp:1565-1571 | the product of all axes but one is the size of the remaining index space |
| Shuffle.ShuffleGeneric | blas/cpu/NativeOps.cpp:2266-2327 | in every array the TAD from each place q goes, element by element, to where following it through the map takes it (at r from place r to map[r] and from there to r, negative entries skipped); nothing else moves and the elements are conserved |
| Shuffle.SwapTads | blas/cpu/NativeOps.cpp:2293-2322 | the elements of two TADs are exchanged place by place, in either branch, nothing else changes |
| Shuffle.ComposedPermutes | blas/cpu/NativeOps.cpp:2289-2296 | the composition is a permutation of TAD numbers |
| Shuffle.ComposedDestination | blas/cpu/NativeOps.cpp:2289-2296 | composing the swaps and following each TAD through them agree |
| Shuffle.DestinationsDiffer | blas/cpu/NativeOps.cpp:2289-2296 | no two TADs end up at one place |
| Shuffle.NothingShuffled | blas/cpu/NativeOps.cpp:2289-2291 | a map of negative entries leaves the array as it was |
| Shuffle.OneExchanged | blas/cpu/NativeOps.cpp:2289-2322 | a single entry that is not negative exchanges exactly the TADs at r and map[r] |
| Shuffle.PermuteNext | blas/cpu/NativeOps.cpp:2289-2321 | exchanging two TADs composes the permutation with that swap |
| Shuffle.BranchesAgree | blas/cpu/NativeOps.cpp:2299-2322 | layouts with the same set of element offsets lead to the same array |
| Shuffle.DenseIsGapless | blas/cpu/NativeOps.cpp:2299-2322 | a TAD whose offsets are the C or F order numbers of its coordinates, whatever the strides on axes of size 1, is such a TAD |
| Shuffle.ContiguousIsShortcut | blas/cpu/NativeOps.cpp:2299-2322 | on a TAD whose n elements fill n places without a gap, in any order of axes, the contiguous and the coordinate branch give the same array |
| TensorDot.TensorDot | blas/cpu/NDArrayFactory.cpp:119-220 | throws if validation fails; otherwise negative axes are counted from the end in place, and the function returns exactly for the sizes that mmulHelper multiplies: at each free coordinate the sum over all contracted coordinates of the products of the operands' elements, a side without free axes contributing one axis of size 1; for other sizes it is stated exactly when it throws and when it writes through or returns a null pointer |
| TensorDot.ValidateAxes | blas/cpu/NDArrayFactory.cpp:121-132 | no error exactly if, up to the length of the shorter list, -rank <= axis < rank on both sides and the sizes at these axes agree; then each of those axes x has become the one of x and x + rank that is at least 0 and below rank, and the others are unchanged |
| TensorDot.MmulCases | blas/cpu/NDArrayFactory.cpp:282-306 | without a target, mmulHelper returns the matrix product if the inner size is at least 2 and the second operand is no column unless the first is a row; otherwise what it returns, if anything, has shape [1, 1] and does not fit, and it is stated when it goes through the null pointer |
| TensorDot.FreeAxes | blas/cpu/NDArrayFactory.cpp:135-142 | the axes that are not contracted, in order |
| TensorDot.ProductOfSizes | blas/cpu/NDArrayFactory.cpp:156-176 | the size of the contracted index space |
| TensorDot.LeftOperand | blas/cpu/NDArrayFactory.cpp:135-198 | the first operand permuted and reshaped with the inferred number of rows, and its part of the result's shape |
| TensorDot.RightOperand | blas/cpu/NDArrayFactory.cpp:135-202 | the second operand likewise, with the inferred number of columns |
| TensorDot.Contract | blas/cpu/NDArrayFactory.cpp:135-211 | permuting, reshaping, multiplying and reshaping back returns the contraction exactly for those sizes |
| TensorDot.KeptContracts | blas/cpu/NDArrayFactory.cpp:156-188 | the axes of size 1 added for operands without free axes do not change the elements |
| TensorDot.DotContracts | blas/cpu/NDArrayFactory.cpp:191-211 | that composition of operations is contraction at every free coordinate |
| TensorDot.AxesPermute | blas/cpu/NDArrayFactory.cpp:145-154 | free and contracted axes together name every axis exactly once, in either order |
| TensorDot.LeftEntry | blas/cpu/NDArrayFactory.cpp:156-198 | entry (i, k) of the first matrix is the element whose free coordinate is numbered i and contracted coordinate k |
| TensorDot.RightEntry | blas/cpu/NDArrayFactory.cpp:173-202 | entry (k, j) of the second matrix likewise |
| GraphModel.ReuseIsDataflow | blas/cpu/GraphExecutioner.cpp:135-250 | for sound graphs without doubly consumed external variables every leaf, and every negative output of a node with external outputs, ends with the composition of the operations on its path, for all operations and contents |
| GraphModel.ReuseIffSoleContents | blas/cpu/GraphExecutioner.cpp:135-250 | for operations that act on each element alone, that holds whatever they compute if and only if no external variable with a non-empty array has two consumers |
| GraphModel.SecondConsumer | blas/cpu/GraphExecutioner.cpp:152-160 | the second consumer of an external variable with contents reads what the first has written over it: with operations that add 1 to each element its own first element comes out too great |
| GraphModel.FlowAll | blas/cpu/GraphExecutioner.cpp:532-568 | after every prefix of the execution each variable still to be read has a buffer of its own with its dataflow value |
| GraphModel.TwoConsumers | blas/cpu/GraphExecutioner.cpp:144-149 | two consumers of a node make its output list long enough for the copy |
| GraphModel.LayeredFeeds | blas/cpu/GraphExecutioner.cpp:541-546 | executing layer by layer, every operand has been computed before it is read |
| GraphExecution.VariableSpace.PrepareOutput | blas/cpu/GraphExecutioner.cpp:144-156 | the output is the node's own array, a copy, or a view of the input |
| GraphExecution.VariableSpace.AnnounceOutputs | blas/cpu/GraphExecutioner.cpp:186-202 | fails exactly if a negative output (for SCALAR also 0) is not declared; otherwise every such output ends with an array of the node's elements, and the node keeps its own |
| GraphExecution.VariableSpace.ExecuteFlatNode | blas/cpu/GraphExecutioner.cpp:135-250 | fails exactly if one of the node's external outputs is not declared; otherwise the node's array is the operation applied to its operand, every external output has the same elements, and the model's step is taken, also when the node has an array already |
| GraphExecution.VariableSpace.Execute | blas/cpu/GraphExecutioner.cpp:532-568 | fails exactly if an external output of some node is not declared; otherwise runs all layers, and with sole consumers every leaf and every negative output of a node with external outputs ends with its meaning |
| AtomicAdd.StepSerial | include/templatemath.h:822-832 | every read and every compare-and-swap, by any thread, keeps the calls serialisable |
| AtomicAdd.RunSerial | include/templatemath.h:822-832 | and so does every schedule |
| AtomicAdd.EachCallOnce | include/templatemath.h:822-832 | after any schedule the word is the initial one with the additions applied in success order, each done call exactly once and no other, and each returns what it found just before its own addition |
| AtomicAdd.DoublesOfRun | include/templatemath.h:815-832 | in every run of additions to a double the word is the chain of rounding sums over the addends of the done calls, each once, in success order, and each call returns the sum before its own addend |
| AtomicAdd.HalvesIndependent | include/templatemath.h:835-865 | each half of the word is what its own additions alone make of it |
| AtomicAdd.HalvesOfRun | include/templatemath.h:835-865 | so in every run the low 16 bits and the 16 bits above are two separate atomic counters, return values included |
| AtomicAdd.FailureNeedsSuccess | include/templatemath.h:826-830 | a compare-and-swap fails only if another call has taken effect since the last read |
| AtomicAdd.RetriesEnd | include/templatemath.h:826-830 | however the retry loops are scheduled, n calls are done after at most n * n + 2 * n steps |
| LaunchConfig.RoundIsLeast | include/cuda_launch_config.h:101-122 | divide_ri is the least number of units that hold x |
| LaunchConfig.ActiveBlocksFit | include/cuda_launch_config.h:225-283 | n blocks are at most the computed number if and only if they fit together: by threads and blocks; by shared memory, static and dynamic bytes in whole allocation units; and by registers in whole units, for a number of warps that holds the threads of a block: of the blocks up to capability 1, of the warps spread over the sides from capability 2 on |
| LaunchConfig.OccupancyBound | include/cuda_launch_config.h:305-313 | no block size keeps more threads busy than the multiprocessor has, so the early exit misses nothing |
| LaunchConfig.CandidatesAreWarps | include/cuda_launch_config.h:301-301 | when the warp size divides the largest size the candidates are the multiples of the warp size |
| LaunchConfig.DefaultBlockSize | include/cuda_launch_config.h:291-317 | the result is the largest candidate that keeps most threads active in blocks that fit together (0 if no block of any candidate fits), unless the warp size does not divide the largest size and no candidate fills the multiprocessor: exactly then the countdown misses zero, and the first size below zero makes it divide by zero if and only if the kernel uses registers on capability 2 or higher |
| LaunchConfig.CodeAboveZero | include/cuda_launch_config.h:225-283 | on sizes above zero the calculation, with C's division, gives the number of blocks that fit |
| LaunchConfig.FirstBelowZero | include/cuda_launch_config.h:225-283 | the first size below zero has no warps: the register limit divides by zero from capability 2 on with registers in use, and otherwise the count is minus the quotient of the threads by the size without its sign |
| LaunchConfig.SearchFails | include/cuda_launch_config.h:291-317 | a device of capability 3 with 64 k registers and a kernel limited to 1000 threads of 32 registers make the search miss zero and divide by zero |
| Npy.CreateNpyHeader | include/cnpy/cnpy.h:356-389 | the header text: magic string, version, length, dictionary, padding and newline |
| Npy.HeaderLength | include/cnpy/cnpy.h:375-385 | the header's length is the next multiple of 16 above that of its content, it ends in a newline, and below 65536 its two length bytes tell the dictionary's length |
| Npy.HeaderEntries | include/cnpy/cnpy.h:356-389 | a reader of the format finds the magic string, version 1.0, byte order, kind and size of the elements in the entry descr, and False in the entry fortran_order |
| Npy.AtoiDecimal | include/cnpy/cnpy.cpp:137-137 | atoi undoes tostring, with or without a space in front |
| Npy.ReadDimsBack | include/cnpy/cnpy.cpp:135-139 | the loop over the dimensions gives back what was written |
| Npy.ParseNpyHeaderStr | include/cnpy/cnpy.cpp:117-156 | the parser on any text, with its exceptions and its failing assert |
| Npy.LoadNpyFromPointer | include/cnpy/cnpy.cpp:251-283 | parses the characters from 11 on up to the first NUL; the pointer ends behind the first newline from there on |
| Npy.RoundTrip | include/cnpy/cnpy.cpp:117-156 | rank, dimensions and element size come back whatever the payload is, except that parsing throws if and only if the payload holds the key fortranOrder too near its first NUL, and asserts on big-endian data |
| Npy.KeyOnlyInPayload | include/cnpy/cnpy.cpp:128-130 | the key is never found in the dictionary, so only the payload decides |
| Npy.KeyAsPayload | include/cnpy/cnpy.cpp:128-130 | the text of the key itself is such a payload |
| Npy.PayloadStart | include/cnpy/cnpy.cpp:264-272 | the first newline from the dictionary on is the header's last character |
| Npy.WriteThenLoad | include/cnpy/cnpy.cpp:251-283 | written, then loaded: shape and element size are back and the data pointer is at the first byte of the payload |

## Left out

- FlatBuilder.FlatBufferBuilder.EndTable: tables are below 65536 bytes, as the code asserts, and have at most 32765 fields, which is what the 16-bit vtable size can express.
- FlatBuilder.FlatBufferBuilder.CreateSharedString: the std::set is a strictly ascending sequence of offsets and strncmp a function on the bytes; their own code is not part of this model.
- Downward.VectorDownward.MakeSpace: buffers stay below 2^31 - 1 bytes and initial sizes below 2^62, so that no size_t sum wraps; a failing allocator is not modelled.
- FlatTheorems.FieldsAligned: only scalars and references written by PushElement; vectors, structs and PreAlign with larger alignments are not modelled, as they do not raise the tracked alignment.
- FlatTheorems.TableRoundTrip: field ids are even, at least 4 and distinct within a table, as generated code and the asserts demand; a run leaves a few bytes of slack below the maximum buffer size.
- FlatRuns.FinishedIdentifier: the root is a table, which makes the tracked alignment at least 4; with a smaller one Finish may pad between the root word and the identifier.
- FlatReader.Verifier.VerifyField: vectors, strings, nested tables and size tracking of the verifier are not modelled.
- The second half of the FlatBuffers header (vectors of tables, structs, reflection, nested buffers, Release) would only add easier members.
- NDArrays.NDArray.UpdateStrides: dimensions and strides are unbounded integers; an int overflow of the length is not modelled.
- NDArrays.NDArray.Tilei: arrays of rank at least 1 with dense strides and non-negative repetition counts; for rank 0 the code reads sizes that are not there. Order 'f' with more counts than axes is excluded where the copy loop writes behind the new buffer (a first size above 1, Tiling.ColumnsOverrun). Reshaping in the array's own order is taken to keep the buffer.
- RawIterator.VisitTwo: only shapes without empty axes, because on any other the loop does not end (WrapsOnlyPositive); pointers are element positions.
- QuickSort.QuickSort: the stack arrays have the code's 300 entries; which of several equal strides comes first is not stated.
- Flatten.FlattenGeneric: index conversion, strided offsets and TAD numbering of helpers/shape.h are taken by their meaning; parallel loops run in sequence, which their disjoint blocks make equivalent; input and result are different buffers.
- Shuffle.ShuffleGeneric: the arrays are different buffers, the TADs lie inside them without overlap, and map entries are below the TAD count.
- TensorDot.TensorDot: once validated, the axes are distinct and in range on each side and both sides contract over the same number of elements, as permute and the matrix product need; permute, reshapei and GEMM are taken by their C-order index meaning over the reals. A null result pointer that is written to or returned counts as a crash.
- GraphModel.ReuseIsDataflow: nodes with one input of type TRANSFORM or SCALAR, variables fresh at the start; the graph is taken as buildGraph leaves it (consumer lists complete, layers in order, external outputs written once and read by no node). Embedded graphs, custom, pairwise, reduction and broadcast operations are not modelled.
- GraphExecution.VariableSpace.Execute: a buffer is an address in a memory sequence and a view shares the address; freeing memory, names and timing are not modelled.
- AtomicAdd.EachCallOnce: reads and compare-and-swaps of the word are atomic; the rounding addition is an arbitrary function on bit patterns; each call is a thread, so a thread's later calls are further threads. atomicSub, atomicMul and atomicDiv are left out, as their bodies do not match their names.
- LaunchConfig.DefaultBlockSize: all quantities are non-negative and do not overflow; the device query and its tables of error codes are not modelled. Of the sizes below zero only the first is analysed, so what the loop makes of later ones where the first does not divide by zero is not stated.
- Npy.ParseNpyHeaderStr: atoi beyond the range of int, undefined in C, wraps to unsigned here; dimensions in the round trip are below 2^31. The value of fortranOrder is modelled but not part of the round trip, because the key looked for differs from the one written.
- Npy.CreateNpyHeader: at least one dimension, as the code reads shape[0] unconditionally.
- cnpy file and zip input and output, npy_save in append mode, loadNpyFromFile: input and output only.
- svd, pythag, linspace and the transcendental wrappers: floating-point results without an exact statement.
- NDArray memory ownership, workspaces and transposei, NativeOps forwarding methods, op kernels, random generators and the gRPC glue: no functional property of their own.
