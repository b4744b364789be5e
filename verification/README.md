# Streaming sketches, modelled and proved in Dafny

A verification project for the four sketches of this C++ library: CPC (FM85), frequent items, KLL quantiles and HLL.
Every sketch is a compact data structure, rewritten in place, that is meant to agree with a very simple mathematical object.
The project models the data structures as classes over arrays and proves the agreement, for every input and every run.

| core | the data structure | the object it refines | main results |
|---|---|---|---|
| CPC | an 8-bit sliding window per row, and an open-addressing table of surprises that is inverted left of the window | a set of (row, column) coupons, seen as a K x 64 bit matrix | `Fm85Sketch.Run`, `Merging.UnionOfAll`, `Merging.MergeCanFailIff`, `Compression.RoundTrip` |
| frequent items | a linear-probing map with stored drifts and a one-pass in-place purge | a map from item to weight | `FrequentItems.Build`, `FrequentItems.EpsilonIff`, `FrequentItems.EpsilonFails`, `ReversePurge.SweepDone` |
| KLL | levels packed in one buffer, compacted and merged in place | the stream of items, through ranks | `KllBuffers.GeneralCompress`, `KllRuns.RunSketched`, `KllRuns.Build`, `KllSketches.KllSketch.Merge` |
| HLL | nibbles relative to a moving minimum with an exception map; packed six-bit slots; coupon lists and hash sets | an array of maxima | `HllRegisters.RunHll4`, `HllUnions.UnionResult`, `HllUnions.ConvertToHll4` |

## Modules

- `Words`, `Logarithms`, `Sets`, `Strides`: machine words as numbers with their bits, loops over bits, walks with odd strides.
- `Merges`: merging sorted ranges of buffers, shared by the merge loops of KLL and CPC.
- `LinearProbing`: reachability under linear probing, insertion, and both ways of deleting, shared by the tables of CPC and frequent items.
- CPC: `U32Tables`, `Coupons`, `Fm85Sketch`, `Folding`, `BitCounts`, `Merging`; its codec: `BitStreams`, `PrefixCodes`, `PairCodecs`, `PairArrays`, `Compression`.
- Frequent items: `ReversePurge`, `Medians`, `ReversePurgeMaps`, `Weights`, `FrequentItems`.
- KLL: `Ranks`, `KllLevels`, `KllItems`, `KllBuffers`, `KllSketches`, `KllRuns`, `KllBuckets`, `KllQuantiles`.
- HLL: `AuxHashMaps`, `Hll4Arrays`, `HllRegisters`, `Hll6Arrays`, `CouponSets`, `HllUnions`.

Each core is layered: a hash table, buffer or bit stream is proved against its abstract value first, and the sketch uses only that contract.
A class carries its abstract value in a ghost field or function (`coupons`, `weights`, `L` and `fed`, `regs`, `contents`), and `Valid()` ties it to the real fields.
Machine words are natural numbers below a power of two, with bitwise operations defined on their bits.
An exception that callers can meet is a boolean out-parameter, or an `Outcome` in the CPC core, and the contract says when it occurs; the exceptions that guard internal states are shown to be unreachable, or stand as preconditions of the internal method that checks them.

## Findings

- The range exception of a CPC update is raised only when there are 475K/8 or more distinct coupons. Before that, the surprise table can run out of key bits: it would have to grow beyond one slot for every key. A run ends well if and only if the distinct coupons are fewer and `Room` holds at every step (`Fm85Sketch.Run`). For every K there are streams of 31 coupons per row on which it does not, in any order (`CrowdedStreams`, `RoomRunsOut`); streams of up to 25 per row always have room (`ModestStreams`).
- A CPC merge can fail for the same reason inside, but only if the row counts differ by more than a factor of 2^8, and for all larger factors there are sketches whose merge fails, in both directions: a new union of few rows and a crowded source of many (`MergeCanFailIff`, `MergeOutOfRoom`), and a union of many rows that has taken in such a source, with any sketch of few (`GadgetOutOfRoom`). A failing merge ends as the walks inside it do, in their order (`MergeInto`).
- A merge of frequent-items sketches loses the weight of a sketch whose entries have all been purged, and exactly then (`MergeLossless`). Seven updates make such a sketch (`PurgedEmpty`), and merging it loses all of its weight and leaves bounds that do not hold for what was fed in (`MergeLosesWeight`). Lost weight shows in the total weight (`Build`); the bounds need not fail with it.
- Inserting into a frequent-items map raises the drift exception exactly when neither the item nor an empty cell is among the first 1023 cells from its home. In maps of up to 2^10 cells there always is one, in larger ones it depends on the hash function (`DriftIff`); under a constant hash function the 1024th distinct item fails (`FeedSame`).
- The published factor 3.5 of the frequent-items error bound holds exactly for maps of up to 2^10 cells (`EpsilonIff`, `Build`), because a purge samples at most 1024 weights. For every larger size, and the identity as hash function, `EpsilonFails` builds a sketch by updates alone whose error exceeds it.
- A merge into an empty KLL sketch leaves minimum and maximum unset if the other sketch has nothing at level zero, and exactly then they are wrong (`KllSketch.Merge`): its test for an empty sketch comes after n has been set. `ExtremesLost` builds such a merge from 24 updates. For whole runs, they are right exactly when they have not been lost and the items they account for span the stream (`KllRuns.Build`).
- The quantile calculator keeps its running weight in 32 bits, so its cumulative weights are right exactly for streams shorter than 2^32 items (`CumulativeExact`).
- The comments of the KLL compressor call its space bound provable and its work on one buffer likely to be right; `CompressSpace` and `GeneralCompress` prove both. It never compacts without need: the levels come out as they were if and only if they are below their capacity (`CompressIff`), so a merge that fits loses nothing (`MergeKeepsAll`).

## Model

| member | source | states |
|---|---|---|
| `LinearProbing.InsertKeepsReach` | cpc/src/u32Table.cpp:114-122 | Filling the empty slot where a probe ends keeps every occupant reachable from its home slot |
| `LinearProbing.StepPending` | cpc/src/u32Table.cpp:191-215 | Moving one item of a cluster during deletion keeps reachable everything that has been re-inserted and everything that still waits |
| `LinearProbing.MoveHole` | fi/include/reverse_purge_hash_map.hpp:290-316 | Backward-shift deletion: moving an occupant into the hole keeps the probing invariant of the cells behind it |
| `U32Tables.U32Table.Lookup` | cpc/src/u32Table.cpp:99-110 | Probing stops at the item or at an empty slot, having met neither before: it terminates whenever the table has an empty slot |
| `U32Tables.U32Table.MustInsert` | cpc/src/u32Table.cpp:99-122 | Exactly one empty slot is filled, the one that ends the probe of the new item |
| `U32Tables.U32Table.Rebuild` | cpc/src/u32Table.cpp:144-168 | Growing or shrinking to any size that fits keeps the set of items and their number |
| `U32Tables.U32Table.MaybeInsert` | cpc/src/u32Table.cpp:173-187 | Refines set insertion: the answer says whether the item was new, the set gains the item, the 3/4 load bound holds afterwards; the table grows only while it is more than three quarters full; it runs out of room exactly when the item is new and the items would exceed three quarters of all keys of the valid bits |
| `U32Tables.U32Table.GrowWhileFull` | cpc/src/u32Table.cpp:180-182 | Growing stops at the first table that meets the load bound, or fails exactly when four times the items exceed three times the slots of the largest table that the valid bits allow |
| `U32Tables.U32Table.ReinsertCluster` | cpc/src/u32Table.cpp:191-215 | Re-inserting the rest of the cluster after a slot was freed restores linear-probing reachability and loses no item |
| `U32Tables.U32Table.MaybeDelete` | cpc/src/u32Table.cpp:191-215 | Refines set deletion: the answer says whether the item was present, the set loses exactly that item, reachability and load bound hold afterwards; the table shrinks as long as it is less than a quarter full, and no further |
| `U32Tables.U32Table.Clear` | cpc/src/u32Table.cpp:78-84 | The set becomes empty, the table keeps its size |
| `Coupons.OffsetIff` | cpc/src/fm85.cpp:89-94 | The window position computed from the coupon count is the one whose range of counts contains it |
| `Coupons.FlavorIff` | cpc/src/fm85.cpp:68-80 | The ranges of the flavors: no coupon, below 3K/32, from there below K/2, from there below 27K/8, from there on |
| `Coupons.AddCoupon` | cpc/src/fm85.cpp:425-441 | What one more coupon does to the surprise set: deleted left of the window, unchanged inside it, inserted right of it |
| `Coupons.PatternBits` | cpc/src/fm85.cpp:339-350 | The masked and inverted row pattern marks exactly the surprises: zeros before the window, ones after it |
| `Coupons.WindowByteBits` | cpc/src/fm85.cpp:345-346 | The byte cut out of a row holds the eight columns of the window |
| `Coupons.RoomWhileModest` | cpc/src/fm85.cpp:319-366 | Up to 25 coupons per row the surprises fit a table of all valid key bits, whatever the coupons are |
| `Fm85Sketch.Fm85.constructor` | cpc/src/fm85.cpp:98-127 | A new sketch stands for no coupons and satisfies the invariant of live sketches |
| `Fm85Sketch.CopyOf` | cpc/src/fm85.cpp:131-153 | A copy of a sketch of any flavor is a valid sketch of the same coupons in objects of its own, with the same first interesting column |
| `Fm85Sketch.OrWindow` | cpc/src/fm85.cpp:187-201 | The window bytes are OR-ed into the default rows at the window columns and nowhere else |
| `Fm85Sketch.FlipSurprises` | cpc/src/fm85.cpp:203-218 | Exactly the matrix bits named by the table are flipped from their default |
| `Fm85Sketch.Fm85.BitMatrixOfSketch` | cpc/src/fm85.cpp:178-218 | Default rows, window and inverted surprises assemble to the matrix of exactly the coupons collected, whatever flavor and offset are |
| `Fm85Sketch.Fm85.PromoteEmptyToSparse` | cpc/src/fm85.cpp:224-229 | The promoted sketch stands for the same, still empty, coupon set |
| `Fm85Sketch.Fm85.PromoteSparseToWindowed` | cpc/src/fm85.cpp:233-273 | Splitting the table into window and surprises keeps the denoted coupon set |
| `Fm85Sketch.PlaceWindow` | cpc/src/fm85.cpp:335-359 | One pass over the matrix leaves the window bytes and exactly the surprises of the new position, and the OR of all surprise rows; it runs out of room exactly when the surprises of that position do not fit the table |
| `Fm85Sketch.Fm85.ModifyOffset` | cpc/src/fm85.cpp:319-366 | Moving the window keeps the denoted coupons; it fails exactly when the offset would exceed 56 or the surprises at the new offset do not fit the table; every column before the first interesting one is full, and that column is not |
| `Fm85Sketch.FirstInteresting` | cpc/src/fm85.cpp:351-365 | The lowest surprising column bounds the columns that are full in every row |
| `Fm85Sketch.FindInterestingColumn` | cpc/src/fm85.cpp:364-365 | The loop over bytes finds the lowest column of the OR-ed surprises, cut off at the offset |
| `Fm85Sketch.Fm85.UpdateSparse` | cpc/src/fm85.cpp:396-409 | The coupon joins the set, is reported novel exactly when it was absent, and the sketch becomes windowed exactly when 32C reaches 3K |
| `Fm85Sketch.Fm85.SparseLimit` | cpc/src/fm85.cpp:81 | One more coupon meets the sparse limit 3K/32 with equality, except for K = 16: the check in the promotion cannot fail |
| `Fm85Sketch.Fm85.CollectWindowed` | cpc/src/fm85.cpp:413-441 | In all three zones of columns the coupon joins the set and novelty is reported exactly |
| `Fm85Sketch.CollectOutside` | cpc/src/fm85.cpp:425-441 | A surprising zero before the window is deleted, a surprising one after it inserted; both report novelty of the coupon itself |
| `Fm85Sketch.Fm85.UpdateWindowed` | cpc/src/fm85.cpp:413-454 | The coupon joins the set and the window is where the count says, or the update ends as StepOutcome says: out of room before or after the window moves, or out of range |
| `Fm85Sketch.WindowStep` | cpc/src/fm85.cpp:443-452 | One more coupon moves the window by at most one column, and the check in the code decides which |
| `Fm85Sketch.Fm85.RowColUpdate` | cpc/src/fm85.cpp:458-467 | An update of any valid sketch by any coupon: it keeps the invariant (representation, offset, flavor, first interesting column) and adds the coupon, or fails, exactly when the coupons leave the range 475K/8 or their surprises the room of the table; the early return loses nothing |
| `Fm85Sketch.Run` | cpc/src/fm85.cpp:458-467 | Any stream of coupons: the run is fine if and only if there are fewer than 475K/8 distinct ones and the table has room at every step, and then the sketch holds exactly the coupons fed; otherwise it ends with the failure of its first failing step |
| `Fm85Sketch.RunOutcomeIff` | cpc/src/fm85.cpp:413-467 | A run ends well exactly when its distinct coupons are in range and every step finds room; each failure shows which of the two it was |
| `Fm85Sketch.SparseStep` | cpc/src/fm85.cpp:396-409 | An update below the sparse limit never fails |
| `Fm85Sketch.ValidHasRoom` | cpc/src/fm85.cpp:319-366 | The surprises of every valid sketch number at most three quarters of all cells |
| `Fm85Sketch.ModestStreams` | cpc/src/fm85.cpp:319-366 | Every stream of at most 25 distinct coupons per row can be fed, whatever its order |
| `Fm85Sketch.RoomRunsOut` | cpc/src/fm85.cpp:319-366 | For every K from 2^4 to 2^26 there is a stream of coupons, within the range of the window, on which an update runs out of room |
| `Fm85Sketch.CrowdedStreams` | cpc/src/fm85.cpp:319-366 | Every stream of the crowded coupons, full columns 28 to 30 and 36 to 63 of every row, runs out of room, whatever the order |
| `Fm85Sketch.NoCrowdedSketch` | cpc/src/fm85.cpp:319-366 | No valid sketch of any K denotes the crowded coupons |
| `Logarithms.CountTrailingZerosInUnsignedLong` | cpc/src/fm85Util.cpp:85-118 | The loop over bytes returns the position of the lowest set bit, 64 for zero |
| `Logarithms.LongFloorLog2OfLong` | cpc/src/fm85Util.cpp:159-171 | The doubling loop returns the p with 2^p <= x < 2^(p+1) |
| `Logarithms.GolombChooseNumberOfBaseBits` | cpc/src/fm85Util.cpp:176-182 | The number of base bits is the logarithm of the quotient, zero for a zero quotient |
| `Logarithms.BaseBitsIff` | cpc/src/fm85Compression.cpp:528-538 | The number of base bits for K and count pairs is the largest one whose power of two times count is at most K, or zero |
| `BitCounts.CsaCounts` | cpc/src/fm85Util.cpp:241-267 | The carry-save adder of three words conserves the weighted number of set bits |
| `BitCounts.WarrenBitCount` | cpc/src/fm85Util.cpp:217-225 | The parallel sums of pairs, nibbles and bytes count the set bits of every 64-bit word |
| `BitCounts.AddEight` | cpc/src/fm85Util.cpp:241-267 | Eight more words keep 8 tot + 4 fours + 2 twos + ones equal to the bits counted so far |
| `BitCounts.CountBitsSetInMatrix` | cpc/src/fm85Util.cpp:241-267 | The result is the sum of the bit counts of all words, for every array whose length is a multiple of 8 |
| `Folding.FoldParts` | cpc/src/fm85Merging.cpp:79-92 | Masking a pair with the folded row count keeps its column and reduces its row modulo K |
| `Folding.FoldTwice` | cpc/src/fm85Merging.cpp:54-73 | Folding to fewer rows in two steps is folding in one |
| `Folding.FoldSize` | cpc/src/fm85Merging.cpp:120-172 | Folding to a 2^d-th of the rows keeps at least a 2^d-th of the coupons: density never falls |
| `Strides.StrideInjective` | cpc/src/fm85Merging.cpp:54-73 | A walk with an odd stride over a power-of-two table visits no slot twice |
| `Strides.StrideReaches` | cpc/src/fm85Merging.cpp:54-73 | The same walk visits every slot |
| `Strides.GoldenRange` | cpc/src/fm85Merging.cpp:61-65 | For tables of 4 slots or more the golden stride is at least 3 and below the table size: none of the three stride exceptions can be raised |
| `Strides.GoldenNear` | cpc/src/fm85Merging.cpp:61-64 | The stride is odd and within one of the golden ratio of the table size |
| `Merging.WalkTableUpdatingSketch` | cpc/src/fm85Merging.cpp:54-73 | Walking a table feeds exactly its folded items, with the stride in range; the walk ends as the updates in stride order do, the first that fails ends it, and that one fails only for want of range or room |
| `Merging.OrTableIntoMatrix` | cpc/src/fm85Merging.cpp:79-92 | The matrix gains exactly the folded pairs of the table |
| `Merging.OrWindowIntoMatrix` | cpc/src/fm85Merging.cpp:96-104 | The matrix gains exactly the folded window bits of the source |
| `Merging.OrMatrixIntoMatrix` | cpc/src/fm85Merging.cpp:108-116 | The matrix gains exactly the folded bits of the source matrix |
| `Merging.OrSourceIntoMatrix` | cpc/src/fm85Merging.cpp:212-242 | Every non-empty flavor contributes exactly its folded coupons |
| `Merging.FoldDensity` | cpc/src/fm85Merging.cpp:120-172 | A folded coupon set at or above the sparse limit stays at or above it |
| `Merging.Union85.constructor` | cpc/src/fm85Merging.cpp:13-24 | A new union stands for nothing |
| `Merging.Union85.FitRows` | cpc/src/fm85Merging.cpp:120-172 | Downsampling folds what the union denotes; a sketch that leaves the sparse range becomes a matrix |
| `Merging.Union85.MergeInto` | cpc/src/fm85Merging.cpp:176-245 | A merge of any valid sketch leaves the union denoting its own and the source coupons folded to the smaller K; an EMPTY source changes nothing. It ends exactly as the walks inside it do: of the table of a sparse gadget into a sketch of fewer rows, then of a sparse source into the gadget; every failure is one of range or room, and it succeeds only if a sketch can hold what the merge leaves in one |
| `Merging.Union85.SparseIff` | cpc/src/fm85Merging.cpp:176-245 | The union holds a sketch exactly while its coupons are below the sparse limit: the flavor checks cannot fail |
| `Merging.WalkCopy` | cpc/src/fm85Merging.cpp:194-203 | Walking a source into its own copy cannot fail and changes nothing |
| `Merging.NearMerges` | cpc/src/fm85Merging.cpp:176-245 | No merge of row counts at most a factor of 2^8 apart can fail, in range or room |
| `Merging.MergeCanFailIff` | cpc/src/fm85Merging.cpp:176-245 | There are coupons of a live gadget and of a live source whose merge must fail if and only if their row counts differ by more than a factor of 2^8 |
| `Merging.MergeOutOfRoom` | cpc/src/fm85Merging.cpp:120-203 | A new union and a sparse source of 2^9 times its rows, fed the crowded coupons: the merge runs out of room |
| `Merging.CrowdedGadget` | cpc/src/fm85Merging.cpp:194-203 | A new union takes in a sketch of as many rows, fed the coupons that are crowded in 2^9 times fewer rows |
| `Merging.GadgetOutOfRoom` | cpc/src/fm85Merging.cpp:120-172 | Such a union and any sketch of so few rows that is not EMPTY: the merge runs out of room |
| `Merging.WalkItems` | cpc/src/fm85Merging.cpp:54-73 | The walk of a whole table meets exactly its folded items |
| `Merging.WalkFails` | cpc/src/fm85Merging.cpp:54-73 | The updates of a walk can fail only because the united coupons are out of range, or some step towards them lacks room |
| `Merging.NearRuns` | cpc/src/fm85Merging.cpp:176-245 | No sequence of merges fails when all row counts are within a factor of 2^8 |
| `Merging.Union85.GetResult` | cpc/src/fm85Merging.cpp:249-330 | The result has the rows of the union and denotes the same coupons, with offset, window, table and first interesting column as the coupons say; it runs out of room exactly when the surprises at that offset do not fit; it is a valid sketch as long as the coupons are in range |
| `Merging.SketchOfMatrix` | cpc/src/fm85Merging.cpp:267-330 | Any matrix of at least sparse-limit density turns into a sketch of exactly its coupons, or runs out of room exactly when its surprises do not fit; the flavor check cannot fail |
| `Merging.MatrixCount` | cpc/src/fm85Merging.cpp:274-276 | The set bits of a matrix number the coupons it stands for |
| `Merging.MergesFoldEverything` | cpc/src/fm85Merging.cpp:176-245 | Any sequence of merges: the union denotes the OR of all sources folded to the smallest K among its own and those of the non-empty sources |
| `Merging.MergeAll` | cpc/src/fm85Merging.cpp:176-245 | Carrying out any sequence of merges leaves the union that the sequence of specified merges describes; it ends as the first merge that fails does, the table of the gadget before every merge being one that holds its coupons |
| `Merging.UnionOfAll` | cpc/src/fm85Merging.cpp:176-330 | The result of the union of any sketches has the smallest row count, and its coupons are those of all sketches folded to it. It fails exactly if a merge does or the table of the result has no room; with all row counts within a factor of 2^8, exactly if that table has none |
| `BitStreams.PutBits` | cpc/include/fm85Compression.h:15-19 | OR-ing up to 32 bits into a buffer of at most 31 loses nothing at 64 bits |
| `BitStreams.BitWriter.MaybeFlush` | cpc/include/fm85Compression.h:15-19 | Flushing a word changes neither the number written nor its length |
| `BitStreams.BitWriter.WriteUnary` | cpc/src/fm85Compression.cpp:124-165 | A value is written as that many zeros and a one |
| `BitStreams.BitWriter.Finish` | cpc/src/fm85Compression.cpp:354-366 | The words written, as one number, are the stream; their count covers the padding and not a word more |
| `BitStreams.BitReader.MaybeFill` | cpc/include/fm85Compression.h:21-26 | Filling takes only words that were written and leaves what is still to be read the same |
| `BitStreams.BitReader.ReadUnary` | cpc/src/fm85Compression.cpp:169-215 | Reading undoes the unary code, eight bits at a time, within the bits written |
| `PrefixCodes.MakeDecodingTable` | cpc/src/fm85Compression.cpp:45-63 | For a prefix-free code of lengths 1 to 12, every 12-bit word that begins with a codeword is looked up as its symbol |
| `PrefixCodes.EntryParts` | cpc/src/fm85Compression.cpp:51-52 | A codeword is the low 12 bits of its entry and its length the bits above; a symbol is the low 8 bits of its decoding entry |
| `PrefixCodes.ValidateDecodingTable` | cpc/src/fm85Compression.cpp:68-88 | The check passes exactly when every word begins with the codeword of its decoded symbol, of the decoded length |
| `PrefixCodes.ValidatedIff` | cpc/src/fm85Compression.cpp:68-88 | The table of a prefix-free code passes validation if and only if the code is complete |
| `PrefixCodes.LookUp` | cpc/src/fm85Compression.cpp:257-300 | A 12-bit peek at a stream that begins with a codeword decodes its symbol, whatever follows |
| `PrefixCodes.LowLevelCompressBytes` | cpc/src/fm85Compression.cpp:222-253 | The words written hold the stream of the bytes, followed by a padding of 11 bits for a 12-bit peek, and are as many as that needs |
| `PrefixCodes.LowLevelUncompressBytes` | cpc/src/fm85Compression.cpp:257-300 | Uncompressing gives back the bytes that were compressed, for every prefix-free code |
| `PairCodecs.PairBitsBound` | cpc/src/fm85Compression.cpp:427-447 | The bits of any increasing pair list are within the bound behind the safe buffer length |
| `PairCodecs.LowLevelCompressPairs` | cpc/src/fm85Compression.cpp:307-366 | For every increasing pair list and 0 to 26 base bits, the words used are within the safe length, hold the stream and its padding, and are as many as these need; the order checks cannot fail |
| `PairCodecs.LowLevelUncompressPairs` | cpc/src/fm85Compression.cpp:372-421 | Uncompressing gives back the pairs that were compressed, reading no word that was not written |
| `PairArrays.UnwrappingGetItems` | cpc/src/u32Table.cpp:225-251 | The array lists the items of the table, each once, with no slot left over |
| `PairArrays.KnuthShellSort3` | cpc/src/u32Table.cpp:257-281 | The array is put in order without losing an item |
| `PairArrays.IntrospectiveInsertionSort` | cpc/src/u32Table.cpp:283-315 | The result is strictly increasing and lists the same items, whether or not the shell sort takes over |
| `PairArrays.MergeLists` | cpc/src/u32Table.cpp:319-336 | Merging two increasing lists without common elements gives an increasing list of both |
| `PairArrays.U32Merge` | cpc/src/u32Table.cpp:319-336 | Merging into the front of the array that holds the second input never overwrites an unread element |
| `PairArrays.MakeTableFromPairs` | cpc/src/u32Table.cpp:128-140 | The table built from distinct pairs holds exactly these |
| `Compression.MakeInversePermutation` | cpc/src/fm85Compression.cpp:23-34 | The array inverts the permutation; the check in the code cannot fail |
| `Compression.MakeTheDecodingTables` | cpc/src/fm85Compression.cpp:93-108 | From complete prefix-free codes and permutations, all hypotheses of the codec about its tables follow |
| `Compression.SlidingPhase` | cpc/src/fm85Compression.cpp:458-480 | Every sliding sketch is past the middle range, so its phase selects one of the 16 permutations, and its offset is not zero: the range checks of the sliding flavor cannot fail |
| `Compression.PseudoPhase` | cpc/src/fm85Compression.cpp:458-480 | The phase is always one of the 22 tables |
| `Compression.PhaseIff` | cpc/src/fm85Compression.cpp:458-480 | The code table by the number of coupons: the thresholds of the six midrange tables and of the one before the steady state, and from 2.375K on the quotient of 16C and K, modulo 16 |
| `Compression.RotateBack` | cpc/src/fm85Compression.cpp:785-837 | Outside the window the rotated and permuted column is below 56, and undoing it gives the column back |
| `Compression.TrickyGetPairsFromWindow` | cpc/src/fm85Compression.cpp:611-630 | The pairs of a window at column zero, in increasing order, behind the empty space asked for |
| `Compression.HybridPairs` | cpc/src/fm85Compression.cpp:634-656 | Table and window pairs merge into one increasing list of all coupons |
| `Compression.Separate` | cpc/src/fm85Compression.cpp:660-704 | Splitting an uncompressed hybrid list in place sets the window and keeps the surprises, moved down |
| `Compression.CompressedFm85.CompressTheSurprisingValues` | cpc/src/fm85Compression.cpp:528-550 | The compressed words hold the pair list under the largest number of base bits whose power of two times the number of pairs is at most K, or none, and no word more than they need |
| `Compression.CompressedFm85.CompressTheWindow` | cpc/src/fm85Compression.cpp:484-505 | The compressed words hold the window under the code table of the number of coupons, and no word more than they need |
| `Compression.Compress` | cpc/src/fm85Compression.cpp:852-908 | The compressed sketch denotes the coupons of its source, with the same count, offset and first interesting column; it has a window exactly from K/2 coupons on, its pairs are the coupons below that and the moved surprises from there on, and the code tables are those of the count |
| `Compression.ContentFormat` | cpc/src/fm85Compression.cpp:852-908 | What is compressed, by counts: below K/2 all coupons as pairs; below 27K/8 the window and the coupons right of column 7, moved down by 8 columns; from there on the window and the surprises on both sides of it, rotated and permuted under the phase of the count |
| `Compression.Uncompress` | cpc/src/fm85Compression.cpp:913-960 | Whatever denotes a coupon set uncompresses to a valid sketch of it |
| `Compression.RoundTrip` | cpc/src/fm85Compression.cpp:852-960 | Uncompressing a compressed sketch, in all five flavors, gives the same coupons, count, offset and first interesting column, for every prefix-free code and column bijection |
| `ReversePurge.HashDelete` | fi/include/reverse_purge_hash_map.hpp:290-316 | Deletion removes exactly one entry, keeps the drift invariant, and touches no cell past the next empty one; it raises the drift exception exactly when its scan comes 1024 cells past a hole that no occupant on the way may fill, which needs a table of more than 1024 cells |
| `ReversePurge.SweepReduce` | fi/include/reverse_purge_hash_map.hpp:259-287 | A cell whose weight stays positive is reduced once and only once |
| `ReversePurge.SweepDelete` | fi/include/reverse_purge_hash_map.hpp:259-287 | Deleting while walking backwards moves only entries that have been reduced already |
| `ReversePurge.SweepDone` | fi/include/reverse_purge_hash_map.hpp:259-287 | A whole pass turns the map into its purged form: items above the amount, with the amount taken off |
| `ReversePurge.ClearedBehind` | fi/include/reverse_purge_hash_map.hpp:259-287 | A pass whose amount removes every entry leaves the cells behind it empty |
| `ReversePurge.ActiveIsSize` | fi/include/reverse_purge_hash_map.hpp:236-238 | The number of active cells is the number of tracked items |
| `Medians.NthSmallest` | fi/include/reverse_purge_hash_map.hpp:385-401 | The value nth_element leaves at a position: at most that many below it, more than that many not above it |
| `Medians.NthUnique` | fi/include/reverse_purge_hash_map.hpp:385-401 | The contract of nth_element determines that value |
| `Medians.MedianCounts` | fi/include/reverse_purge_hash_map.hpp:385-401 | At least s-1-s/2 of s samples are no smaller than the sample median, although the last sample is not selected from |
| `ReversePurgeMaps.ReversePurgeMap.constructor` | fi/include/reverse_purge_hash_map.hpp:101-111 | A new map tracks nothing |
| `ReversePurgeMaps.ReversePurgeMap.Get` | fi/include/reverse_purge_hash_map.hpp:210-218 | The tracked weight, zero for an item that is not tracked |
| `ReversePurgeMaps.AtHome` | fi/include/reverse_purge_hash_map.hpp:319-342 | When no two tracked items share a home cell, every one is in its home cell |
| `ReversePurgeMaps.ReversePurgeMap.InternalAdjustOrInsert` | fi/include/reverse_purge_hash_map.hpp:319-342 | The weight is added to the entry of the item, which is made if there was none; the drift exception is raised exactly when neither the item nor an empty cell is among the first 1023 cells from its home; the capacity exception cannot occur |
| `ReversePurgeMaps.SmallLands` | fi/include/reverse_purge_hash_map.hpp:319-342 | In tables of up to 2^10 cells within capacity there always is such a cell |
| `ReversePurgeMaps.SameHomeFails` | fi/include/reverse_purge_hash_map.hpp:319-342 | When all items share a home cell and 1023 of them are tracked, no other item can be inserted |
| `ReversePurgeMaps.DriftIff` | fi/include/reverse_purge_hash_map.hpp:319-342 | No table of up to 2^lgMax cells within capacity can raise the drift exception, whatever its hash function and its entries, if and only if lgMax is at most 10 |
| `ReversePurgeMaps.ReversePurgeMap.SubtractAndKeepPositiveOnly` | fi/include/reverse_purge_hash_map.hpp:259-287 | One backward pass, wrapped around the array end, leaves exactly the items above the amount, reduced by it |
| `ReversePurgeMaps.ReversePurgeMap.Purge` | fi/include/reverse_purge_hash_map.hpp:385-401 | The amount is the median of the weights in the first active cells of the table, and at least one item goes |
| `ReversePurgeMaps.ReversePurgeMap.Resize` | fi/include/reverse_purge_hash_map.hpp:361-382 | A table of twice the size tracks the same weights; no re-insertion grows or purges |
| `ReversePurgeMaps.ReversePurgeMap.ResizeOrPurgeIfNeeded` | fi/include/reverse_purge_hash_map.hpp:345-358 | Below its largest size a map over capacity grows, at its largest size it is purged; afterwards it is within capacity |
| `ReversePurgeMaps.ReversePurgeMap.SettledNumbers` | fi/include/reverse_purge_hash_map.hpp:345-358 | The table doubles below its largest size, and is purged at it, exactly when more than three quarters of its cells are active |
| `ReversePurgeMaps.ReversePurgeMap.AdjustOrInsert` | fi/include/reverse_purge_hash_map.hpp:188-196 | The map afterwards is the old one with the weight added, grown or purged as need be; the drift exception is raised if the first 1023 cells from the home of the item hold neither it nor an empty one, and only then while the map stays within capacity; it is not raised up to 2^10 cells, nor when no home cell is shared and a purge leaves nothing |
| `ReversePurgeMaps.Traverse` | fi/include/reverse_purge_hash_map.hpp:75-100 | The walk from begin to end meets every active cell exactly once, in golden-ratio strides from the lowest active cell on |
| `Weights.PurgedSum` | fi/include/reverse_purge_hash_map.hpp:259-287 | A purge takes its amount off every item that weighs at least that much |
| `Weights.PurgeGain` | fi/include/reverse_purge_hash_map.hpp:385-401 | A purge by a sample median takes off at least s-1-s/2 times its amount from the tracked total |
| `FrequentItems.FrequentItemsSketch.constructor` | fi/include/frequent_items_sketch.hpp:92-97 | A new sketch has seen no weight |
| `FrequentItems.FrequentItemsSketch.Update` | fi/include/frequent_items_sketch.hpp:109-113 | The true weight of the item grows, and for every item lower bound <= true weight <= upper bound stays true; the map settles, and what a purge took off is added to the offset; a zero weight changes nothing; the drift exception is raised as by the insertion into the map |
| `FrequentItems.FeedSame` | fi/include/frequent_items_sketch.hpp:109-113 | Different items, each fed once under a constant hash function: the drift exception is raised exactly when the map may have more than 2^10 cells and there are 1024 items or more |
| `FrequentItems.FrequentItemsSketch.Merge` | fi/include/frequent_items_sketch.hpp:123-131 | The entries of the other sketch are fed in one by one in the order of its iterator, the map settling after each, and its offset is added; when all items together have room in the largest table, the tracked weights just add up and so do the offsets. Bounds and account hold for the summed true weights; without an active entry the other sketch is skipped, and nothing changes |
| `FrequentItems.FedInRoom` | fi/include/frequent_items_sketch.hpp:123-131 | Entries fed in while all items have room together purge nothing, whatever their order |
| `ReversePurgeMaps.CapacityFits` | fi/include/reverse_purge_hash_map.hpp:230-233 | The capacity is three quarters of the table, doubles with it and leaves an empty cell for one more item |
| `FrequentItems.MergeLossless` | fi/include/frequent_items_sketch.hpp:123-136 | A merge accounts for the other sketch exactly when that has an active entry or has seen no weight |
| `FrequentItems.UniformPurge` | fi/include/frequent_items_sketch.hpp:123-136 | Purging items of one and the same weight removes them all |
| `FrequentItems.PurgedEmpty` | fi/include/frequent_items_sketch.hpp:109-136 | Seven different items, each fed once to a sketch of the smallest size, leave it with total weight 7, a true weight of 1 for each, and no active entry |
| `FrequentItems.MergeLosesWeight` | fi/include/frequent_items_sketch.hpp:123-136 | Merging that sketch into a new one leaves a total weight of zero, and upper bounds of zero for items that have been fed: they are below the weights fed in |
| `FrequentItems.FrequentItemsSketch.GetEstimate` | fi/include/frequent_items_sketch.hpp:149-154 | Tracked weight plus offset, zero for an item that is not tracked; the estimate of a tracked item is not below its true weight nor above it by more than the maximum error; any other item weighs at most the maximum error |
| `FrequentItems.FrequentItemsSketch.GetLowerBound` | fi/include/frequent_items_sketch.hpp:157-159 | Never above the true weight |
| `FrequentItems.FrequentItemsSketch.GetUpperBound` | fi/include/frequent_items_sketch.hpp:162-164 | Never below the true weight |
| `FrequentItems.FrequentItemsSketch.GetFrequentItems` | fi/include/frequent_items_sketch.hpp:204-221 | An item has a row if and only if it is tracked and its lower bound, for no false positives, or its upper bound, for no false negatives, is above the threshold, or above the maximum error for a threshold of zero; hence no false positives, and no false negatives above the maximum error. One row an item, with its bounds, by descending estimate |
| `FrequentItems.SortedRows` | fi/include/frequent_items_sketch.hpp:219-220 | Sorting by descending estimate keeps exactly the rows, still one for each item |
| `FrequentItems.FrequentItemsSketch.GetMaximumError` | fi/include/frequent_items_sketch.hpp:167-169 | The offset; every true weight lies within it above the tracked one; with all maps of one size of up to 2^10 cells it is at most 3.5 times the total weight divided by the size |
| `FrequentItems.AccountPurge` | fi/include/reverse_purge_hash_map.hpp:385-401 | A purge keeps offset * factor + tracked weights within the total weight |
| `FrequentItems.AccountMerge` | fi/include/frequent_items_sketch.hpp:123-131 | So does a merge of sketches of any two sizes, with the smaller factor |
| `FrequentItems.EpsilonIff` | fi/include/frequent_items_sketch.hpp:172-184 | Every purge of a full map of the largest size takes off at most 3.5 times the tracked weight divided by the size, if and only if the size is at most 2^10 cells |
| `FrequentItems.HeavyPurge` | fi/include/reverse_purge_hash_map.hpp:385-401 | With 511 heavy items among more than 1024, a sample of 1024 can have the heavy weight as its median |
| `FrequentItems.HeavySampled` | fi/include/reverse_purge_hash_map.hpp:385-401 | Under the identity as hash function the sample taken is such a one, whatever the order in which the table was filled |
| `FrequentItems.FeedToPurge` | fi/include/frequent_items_sketch.hpp:109-113 | Feeding the first items, each once, up to a full table of the largest size: the sketch is the purged map of what was fed, with the purge amount as its maximum error |
| `FrequentItems.EpsilonFails` | fi/include/frequent_items_sketch.hpp:167-184 | For every size above 2^10 cells an update-only sketch whose maximum error, and the true weight of an item it no longer tracks, exceed 3.5 times the total weight divided by the size |
| `FrequentItems.AprioriError` | fi/include/frequent_items_sketch.hpp:172-184 | The account of a sketch with maps of up to 2^10 cells bounds its maximum error by 3.5 times the total weight divided by the map size |
| `FrequentItems.Build` | fi/include/frequent_items_sketch.hpp:109-131 | Any tree of updates and merges: no merge on the way lost weight if and only if the total weight is the sum of the weights fed in, and otherwise it is below; then the true weights are those fed in and the bounds hold for them; no weight is lost without merges; up to 2^10 cells no exception is raised, and with maps of one size the maximum error is within the published bound |
| `FrequentItems.MergedLoss` | fi/include/frequent_items_sketch.hpp:123-136 | Weight that is lost by a merge, or on the way to it, stays lost: the sum of the true weights falls short of that of the weights fed |
| `Ranks.HalveRank` | kll/include/kll_helper.hpp:127-141 | Twice the rank in either half of a sorted even sequence misses the rank by at most one, low for one half and high for the other |
| `Ranks.RankMerge` | kll/include/kll_helper.hpp:159-185 | Merging adds ranks |
| `Merges.MergeSorted` | kll/include/kll_helper.hpp:159-185 | Merging sorted sequences gives a sorted one |
| `KllLevels.IntCapBelow` | kll/include/kll_helper.hpp:67-83 | No level has a capacity above k: the exception for that cannot occur |
| `KllLevels.IntCapIff` | kll/include/kll_helper.hpp:67-83 | The capacity at a distance from the top level is k * (2/3)^distance to the nearest integer, and no other number; beyond 30 levels it is taken in two steps |
| `KllLevels.LevelCapacityIff` | kll/include/kll_helper.hpp:61-65 | The capacity of a level is that number, but not below the smallest width |
| `KllLevels.PowersOfThree` | kll/include/kll_helper.hpp:22-26 | The table holds the powers of three |
| `KllLevels.CompactionRank` | kll/include/kll_helper.hpp:246-287 | One compaction moves a weighted rank by at most the weight of its level, whatever the random bit |
| `KllLevels.CompressRank` | kll/include/kll_helper.hpp:193-302 | Compressing all levels conserves the total weight, and moves no rank by more than the summed weights of the levels compacted |
| `KllLevels.CompressSorted` | kll/include/kll_helper.hpp:193-302 | Levels above zero are sorted afterwards |
| `KllLevels.CompressSpace` | kll/include/kll_helper.hpp:193-302 | However many items come in, fewer than the capacity of the final number of levels remain |
| `KllLevels.CompressLevels` | kll/include/kll_helper.hpp:193-302 | New levels are added only while the weight justifies them: the level count stays within the bound for n |
| `KllLevels.CompressTop` | kll/include/kll_helper.hpp:193-302 | A non-empty top level stays non-empty or gets a non-empty one above it |
| `KllLevels.CompressFits` | kll/include/kll_helper.hpp:239-244 | As long as the item count is below the capacity of all levels, they are moved as they are, at no error |
| `KllLevels.CompressErrorIs` | kll/include/kll_helper.hpp:193-302 | The recorded error is the sum of 2^h over the levels h that do not come out as they came to their turn |
| `KllBuffers.CompressIff` | kll/include/kll_helper.hpp:193-302 | The levels come out as they were, at no error, if and only if fewer items come in than their capacity |
| `KllBuffers.CompressLevel` | kll/include/kll_helper.hpp:226-292 | At every level: if the items left are fewer than the capacity of all levels, everything from here on is moved as it is; otherwise a level below its own capacity is, and any other leaves at most its odd item and is compacted into the one above |
| `KllBuffers.HalveDown` | kll/include/kll_helper.hpp:127-141 | In place, the lower half of the range holds every other item; nothing else changes |
| `KllBuffers.HalveUp` | kll/include/kll_helper.hpp:143-157 | In place from the top, the upper half of the range holds every other item; nothing else changes |
| `KllBuffers.MergeSortedArrays` | kll/include/kll_helper.hpp:159-185 | The destination holds the merge even when it overlaps the second input and the first lies in the same buffer |
| `KllBuffers.ComputeTotalCapacity` | kll/include/kll_helper.hpp:53-59 | The loop adds up the capacities of all levels |
| `KllBuffers.CompactInPlace` | kll/include/kll_sketch.hpp:691-741 | Compacting a level inside the packed buffer leaves the levels below shifted up and the levels above as specified |
| `KllBuffers.GeneralCompress` | kll/include/kll_helper.hpp:193-302 | The same result whether input and output are one buffer or two, in any output buffer with room for the outcome; the levels come out as they were if and only if they are below capacity; fewer items than the final capacity remain; neither the moving-up check nor the count check can fail |
| `KllBuffers.CompressPopulation` | kll/include/kll_helper.hpp:193-302 | Compressing never adds items |
| `KllItems.DrawnCompress` | kll/include/kll_helper.hpp:193-302 | Every item that remains was among those before |
| `KllLevels.SomeLevelFull` | kll/include/kll_sketch.hpp:743-753 | When the whole sketch is full, some level is: the search finds one |
| `KllSketches.CompactedRank` | kll/include/kll_sketch.hpp:691-741 | The compaction of an update conserves weight and moves no rank by more than the weight of its level |
| `KllSketches.ComputeUbOnNumLevels` | kll/include/kll_helper.hpp:38-51 | The doubling loop counts the binary digits of n |
| `KllSketches.LevelsFit` | kll/include/kll_helper.hpp:48-51 | A sketch whose top level is not empty has at most ub_on_num_levels(n) levels |
| `KllSketches.KllSketch.constructor` | kll/include/kll_sketch.hpp:176-195 | A new sketch has one empty level and has seen nothing |
| `KllSketches.KllSketch.FindLevelToCompact` | kll/include/kll_sketch.hpp:743-753 | The lowest level at its capacity |
| `KllSketches.KllSketch.AddEmptyTopLevel` | kll/include/kll_sketch.hpp:756-794 | The levels gain an empty top, and the buffer grows to the new total capacity |
| `KllSketches.KllSketch.CompressWhileUpdating` | kll/include/kll_sketch.hpp:691-741 | The lowest full level is compacted, and there is a free slot afterwards |
| `KllSketches.KllSketch.Update` | kll/include/kll_sketch.hpp:236-250 | The item reaches level zero after a compaction if there was no free slot; rank error grows by the weight of the compacted level and no more; packing, sortedness and weight = n hold; minimum and maximum stay those of the stream, or of the part of it that they account for, and retained items items of it |
| `KllSketches.KllSketch.PopulateWorkArrays` | kll/include/kll_sketch.hpp:922-944 | The work arrays hold level zero of this sketch and the merged higher levels of both |
| `KllSketches.KllSketch.MergeHigherLevels` | kll/include/kll_sketch.hpp:877-920 | The joined levels are compressed in place and packed back; ub+2 boundaries suffice |
| `KllSketches.KllSketch.Merge` | kll/include/kll_sketch.hpp:252-271 | The levels afterwards are exactly those of feeding level zero and joining the rest; the streams are concatenated; errors add up with the weights of the levels compacted; the total-weight assertion holds. When all items have room together, none is lost and no error is added. Minimum and maximum are right if and only if the other sketch was empty, or this one was not, or the other had an item at level zero |
| `KllItems.MergedLeast` | kll/include/kll_sketch.hpp:264-269 | The condition for the minimum: the emptiness test comes after n has been set and cannot succeed |
| `KllItems.NotedMerge` | kll/include/kll_sketch.hpp:264-269 | In general, minimum and maximum account afterwards for what they did before, for level zero of the other sketch and for what its own minimum and maximum account for, unless they are lost: from then on they stay unset |
| `KllItems.NotedIff` | kll/include/kll_sketch.hpp:252-271 | Minimum and maximum are those of the stream if and only if they are not lost and the items they account for span it |
| `KllSketches.DrawnMerged` | kll/include/kll_sketch.hpp:252-271 | Every item retained after a merge was fed to one of the sketches |
| `KllSketches.MergeFitsIff` | kll/include/kll_sketch.hpp:252-271 | The joined levels are left as they are, at no error beyond that of the updates, if and only if they hold fewer items than their capacity |
| `KllSketches.MergeKeepsAll` | kll/include/kll_sketch.hpp:252-271 | When the items of both sketches have room together nothing is compacted: the items number the sum, and weighted ranks add up |
| `KllRuns.ExtremesLost` | kll/include/kll_sketch.hpp:252-271 | A sketch of 24 items merged into a new one: neither minimum nor maximum is known afterwards |
| `KllRuns.MergeEmptiesZero` | kll/include/kll_sketch.hpp:877-920 | Level zero of a merged sketch can be empty |
| `KllSketches.KllSketch.GetRankWeight` | kll/include/kll_sketch.hpp:348-367 | The weighted count of retained items below a value is off by at most the recorded error |
| `KllSketches.KllSketch.GetRank` | kll/include/kll_sketch.hpp:348-367 | The normalized rank is within 0 and 1 and off by at most the recorded error divided by n; an empty sketch has none |
| `KllSketches.KllSketch.SortLevelZero` | kll/include/kll_sketch.hpp:796-801 | Sorting level zero changes no rank |
| `KllSketches.KllSketch.GetQuantileAt` | kll/include/kll_sketch.hpp:803-807 | The answer for a position has weighted rank around it, and true rank off by at most the recorded error, for n below 2^32 |
| `KllSketches.SketchedJoined` | kll/include/kll_sketch.hpp:877-920 | Joining the higher levels of another sketch accounts for all it was fed |
| `KllRuns.RunSketched` | kll/include/kll_sketch.hpp:236-271 | Every run of updates, queries and merges, for every outcome of the random bits: weight = n, levels sorted, top not empty, ranks off by at most the weights of the levels compacted |
| `KllRuns.RunRank` | kll/include/kll_sketch.hpp:236-271 | The rank error of a run is at most the sum of 2^level over its compactions; it has at most ub_on_num_levels(n) levels |
| `KllRuns.Build` | kll/include/kll_sketch.hpp:236-271 | The sketch in its packed buffer is the one the run describes, level by level; minimum and maximum are those of the stream if and only if the script never merges, on the way to this sketch, a non-empty sketch with nothing at level zero into an empty one, and the items that its merges let them account for span the stream |
| `KllBuckets.IncrementBucketsUnsortedLevel` | kll/include/kll_sketch.hpp:842-854 | Every item of an unsorted level goes to the bucket of the first split point above it |
| `KllBuckets.IncrementBucketsSortedLevel` | kll/include/kll_sketch.hpp:856-875 | One joint pass over a sorted level and the split points fills the same buckets |
| `KllBuckets.GetPmfOrCdf` | kll/include/kll_sketch.hpp:809-840 | Bucket c holds the share of the retained weight up to split point c, or since the one before; against the stream a cumulative bucket is off by at most the recorded error divided by n, and a mass bucket by that for each split point next to it; the last cumulative bucket is 1; split points out of order raise the exception |
| `KllBuckets.CountDifference` | kll/include/kll_sketch.hpp:809-840 | The items between two split points are those below the second less those below the first |
| `KllQuantiles.SortBlocksSorts` | kll/include/kll_quantile_calculator.hpp:109-131 | Merging sorted blocks by halves gives a sorted permutation of the (item, weight) pairs |
| `KllQuantiles.TandemMerge` | kll/include/kll_quantile_calculator.hpp:134-162 | Items and weights are merged together; nothing outside the range changes |
| `KllQuantiles.SortRecursion` | kll/include/kll_quantile_calculator.hpp:120-131 | With source and destination swapped at every depth, the destination ends up with the sorted samples |
| `KllQuantiles.PopulateFromSketch` | kll/include/kll_quantile_calculator.hpp:47-67 | The arrays hold the items of all levels with weight 2^level, and the boundaries of the levels that are not empty |
| `KllQuantiles.BlocksRank` | kll/include/kll_quantile_calculator.hpp:47-67 | The samples weigh what the levels weigh, below any value |
| `KllQuantiles.ConvertToPrecedingCumulative` | kll/include/kll_quantile_calculator.hpp:76-83 | Every weight becomes the weight before it, as kept in 32 bits |
| `KllQuantiles.CumulativeExact` | kll/include/kll_quantile_calculator.hpp:76-83 | The 32-bit running totals are the true ones if and only if the total weight is below 2^32 |
| `KllQuantiles.SearchForChunk` | kll/include/kll_quantile_calculator.hpp:98-107 | The chunk whose cumulative weights enclose the position |
| `KllQuantiles.ChunkRank` | kll/include/kll_quantile_calculator.hpp:69-74 | The item of that chunk has rank at most the position, counting items below it, and above the position, counting items not above it |
| `KllQuantiles.QuantileCalculator.ApproximatelyAnswerPositionalQuery` | kll/include/kll_quantile_calculator.hpp:69-74 | weight(items < v) <= pos < weight(items <= v) |
| `AuxHashMaps.AuxHashMap.constructor` | hll/src/AuxHashMap.cpp:15-22 | A new exception map is empty |
| `AuxHashMaps.AuxHashMap.Find` | hll/src/AuxHashMap.cpp:218-236 | Double hashing with an odd stride finds the slot number exactly when it is there, and otherwise an empty cell; the full-table exception cannot occur |
| `AuxHashMaps.AuxHashMap.MustAdd` | hll/src/AuxHashMap.cpp:154-166 | The map gains the pair; it fails exactly for a slot number that is there; the table doubles exactly when the pairs exceed three quarters of it |
| `AuxHashMaps.AuxHashMap.MustFindValueFor` | hll/src/AuxHashMap.cpp:168-175 | The value of the slot number; it fails exactly for one that is not there |
| `AuxHashMaps.AuxHashMap.MustReplace` | hll/src/AuxHashMap.cpp:177-186 | The value is replaced; it fails exactly for a slot number that is not there |
| `AuxHashMaps.AuxHashMap.GrowAuxSpace` | hll/src/AuxHashMap.cpp:194-216 | The same pairs in a table of twice the size |
| `Hll4Arrays.PutNibble` | hll/src/Hll4Array.cpp:122-133 | Replacing one nibble leaves all others as they are |
| `Hll4Arrays.QuickReject` | hll/src/Hll4Array.cpp:106-120 | A value not above the current minimum changes no register |
| `Hll4Arrays.TokenCount` | hll/src/Hll4Array.cpp:223-311 | There are as many exception tokens in the nibbles as exceptions |
| `Hll4Arrays.Hll4Array.Value` | hll/src/Hll4Array.cpp:22-30 | Nibble, minimum and exception map decode to the register |
| `Hll4Arrays.Hll4Array.CouponUpdate` | hll/src/Hll4Array.cpp:106-120 | The register of the slot becomes the maximum of its value and the coupon value; all others stay |
| `Hll4Arrays.Hll4Array.InternalHll4Update` | hll/src/Hll4Array.cpp:135-220 | In all four cases of old and new exceptions the registers, minimum, its count and the exception map stay exact; none of the exceptions for impossible states is raised |
| `Hll4Arrays.Hll4Array.ShiftToBiggerCurMin` | hll/src/Hll4Array.cpp:223-311 | Raising the minimum by one changes no register, and the rebuilt exception map holds exactly the slots 15 or more above it |
| `HllRegisters.RaiseRegister` | hll/src/Hll8Array.cpp:61-82 | One more coupon raises its register to its value |
| `HllRegisters.RegistersUnique` | hll/src/HllUnion.cpp:286-450 | The registers depend on the coupons alone, not on their order |
| `HllRegisters.FoldRegisters` | hll/src/HllUnion.cpp:256-276 | Feeding the registers of a sketch of more rows, pair by pair, is feeding its coupons: register j is the maximum over addresses congruent to j |
| `HllRegisters.RunHll4` | hll/src/Hll4Array.cpp:106-311 | Any coupon stream leaves the maximum of every slot |
| `Hll6Arrays.PutGet6` | hll/src/Hll6Array.cpp:55-73 | A packed six-bit slot reads back what was put there, and every other slot what it held before, across byte boundaries |
| `Hll6Arrays.Hll6Array.CouponUpdate` | hll/src/Hll6Array.cpp:79-99 | The register becomes the maximum, and the count of zeros stays exact |
| `CouponSets.CouponList.CouponUpdate` | hll/src/CouponList.cpp:261-283 | The list gains the coupon unless it is there, and says when it is full; the exception for a full list cannot occur |
| `CouponSets.Find` | hll/src/CouponHashSet.cpp:222-238 | The probes find the coupon exactly when it is there, otherwise an empty cell; the full-table exception cannot occur |
| `CouponSets.StoreCoupon` | hll/src/CouponHashSet.cpp:167-178 | Storing a coupon where its probes end keeps every coupon reachable and adds exactly that one |
| `CouponSets.CouponHashSet.CouponUpdate` | hll/src/CouponHashSet.cpp:167-197 | The set gains the coupon; it grows above three quarters, and asks for promotion exactly when it may not grow any more |
| `CouponSets.CouponHashSet.GrowHashSet` | hll/src/CouponHashSet.cpp:199-220 | The same coupons in an array of twice the size; the duplicate exception cannot occur |
| `HllUnions.Hll8Array.CouponUpdate` | hll/src/Hll8Array.cpp:61-82 | The register becomes the maximum, and the count of zeros stays exact |
| `HllUnions.CopyOrDownsampleHll` | hll/src/HllUnion.cpp:256-276 | The copy has the smaller K and the registers of the same coupons |
| `HllUnions.HllUnion.constructor` | hll/src/HllUnion.cpp:39-42 | A new union has nothing in it |
| `HllUnions.HllUnion.CouponUpdate` | hll/src/HllUnion.cpp:152-159 | One more coupon is contributed, whatever mode the gadget is in; it is an HLL array afterwards exactly when a non-empty HLL source came before or there are too many different coupons for a list or set, and otherwise a list below eight coupons and a set from there on |
| `HllUnions.HllUnion.PromoteToSet` | hll/src/CouponList.cpp:356-366 | The set holds the coupons of the list; it neither grows nor asks for promotion while it is filled |
| `HllUnions.HllUnion.PromoteToHll` | hll/src/CouponList.cpp:368-378 | The HLL array has the registers of the coupons of the list or set |
| `HllUnions.EmptySource` | hll/src/HllUnion.cpp:292-294 | A sketch is empty exactly when it was fed no coupon |
| `HllUnions.HllUnion.UnionImpl` | hll/src/HllUnion.cpp:286-450 | In all twelve combinations of modes the gadget stands for its own coupons and those of the source; only a non-empty HLL source may shrink it, to the smaller K; its mode follows from the sources and the number of different coupons |
| `HllUnions.RunUnion` | hll/src/HllUnion.cpp:286-450 | Any sequence of LIST, SET and HLL sources of mixed K and type: the union stands for all of their coupons, and an HLL gadget has the maximum per slot at the smallest K |
| `HllUnions.ContributedIff` | hll/src/HllUnion.cpp:286-450 | What the sources contribute together does not depend on their order |
| `HllUnions.LeastLgIsMin` | hll/src/HllUnion.cpp:405-421 | The K of the gadget is the smallest of its own and those of the non-empty HLL sources, in whatever order they came |
| `HllUnions.CurMinAndNum` | hll/src/Conversions.cpp:53-68 | The minimum of the registers and how many are at it |
| `HllUnions.ConvertToHll4` | hll/src/Conversions.cpp:14-51 | Every register is preserved, exceptions included |
| `HllUnions.ConvertToHll6` | hll/src/Conversions.cpp:70-87 | Every register is preserved |
| `HllUnions.ConvertToHll8` | hll/src/Conversions.cpp:89-106 | Every register is preserved |
| `HllUnions.GetResult` | hll/src/HllUnion.cpp:96-98 | The result stands for what was contributed, in fresh and valid objects: the coupons of a list or set, or an HLL array of the type asked for with the maxima over them |
| `HllUnions.UnionResult` | hll/src/HllUnion.cpp:96-112 | Any sequence of sources and any type of the result: the maxima over the coupons of all sources at the smallest K, in a fresh and valid array; a list below eight coupons, a set from there on, and an array exactly when a source was a non-empty HLL array or the different coupons of all sources are too many |

## Left out

- Fm85Sketch.Fm85.RowColUpdate: where the surprise table lacks room, the shift by a negative count in the code is undefined behaviour; the model says that this happens, and nothing about the sketch after a failed update.
- Fm85Sketch.Fm85.ModifyOffset: the KXP register and the HIP accumulator that it refreshes are floating-point estimator state.
- Fm85Sketch.Run: coupons of row 2^26-1 and column 63 are excluded, because the code uses that pair as the marker of an empty slot and never feeds it as it is.
- Merging.Union85.MergeInto: the source must not share objects with the union, so merging a union's own accumulator into it is not covered.
- Merging.Union85.FitRows: an EMPTY accumulator is replaced by a new sketch of fewer rows; the identity of the objects involved is not modelled.
- Strides.GoldenStride: the golden-ratio product is taken in real arithmetic instead of doubles; the results about it hold for any odd stride.
- PrefixCodes.MakeDecodingTable: the table starts from zeros where the code starts from memory that is not initialised; for a complete code no entry keeps its start value.
- Compression.MakeTheDecodingTables: the code tables and column permutations themselves are not part of this model; they are any complete prefix-free codes with lengths 1 to 12 and any permutations of 56 columns. That a code is prefix-free is a hypothesis, since the validation in the code does not imply it.
- ReversePurgeMaps.ReversePurgeMap.AdjustOrInsert: in maps of more than 2^10 cells the insertion and every single deletion state exactly when the drift exception is raised; for an update that goes on to grow or purge the map, only conditions under which it is not raised are given. Nothing is said about the state that an exception leaves.
- Merging.MergeAll: how a sequence of merges ends depends on the layout of the gadget's table before each merge, which is handed out beside the outcome; it is known to hold the coupons, but is not computed from the sources.
- FrequentItems.SortRows: `std::sort` is an insertion sort by descending estimate; the order of rows with the same estimate, which the code leaves open, is one of the possible ones.
- FrequentItems.FrequentItemsSketch.Merge: weights are unbounded integers, so the 64-bit overflow of totals is not modelled.
- Medians.SampleMedian: `std::nth_element` is its contract, which determines the value, on the range that the code passes.
- KllBuffers.SortRange: `std::sort` is the sorted rearrangement.
- KllSketches.KllSketch.Update: minimum and maximum start as unset values with which no comparison holds, as the code sets them for floating-point items; for other item types the code leaves them uninitialised.
- KllSketches.KllSketch.GetRank: ranks and distributions are divided by n in real arithmetic instead of doubles.
- KllSketches.KllSketch.Merge: sketches of a different minimum level width are not modelled, there being one width in the code; streams are shorter than 2^61 items, beyond which the code may raise its depth exception.
- KllQuantiles.QuantileCalculator.ApproximatelyAnswerPositionalQuery: the position is given; the rounding of a fraction to a position is floating point.
- KLL items are integers; the comparator of other item types is not modelled.
- HllUnions.HllUnion.UnionImpl: a source is read as a value (cells or registers); out-of-order flags and HIP accumulators are not modelled, and the gadget is of type HLL_8 as in the code.
- HllUnions.ConvertToHll4: the source is read as its registers; the KxQ registers are not modelled.
- HLL sketches outside a union: promotions to HLL_4 and HLL_6 arrays follow the same steps as those of the gadget and are not repeated.
- Estimators and their tables (HIP, ICON, composite, cubic interpolation, confidence bounds): empirical constants.
- MurmurHash3: hash values are arbitrary inputs, so coupons and items are too.
- Serialization, preambles, stream headers and item serializers.
- Copy constructors other than those listed (a compressed CPC sketch is not copied), destructors, allocators, Python bindings, printing.
- Widths of counters: coupon, item and bit counts are unbounded; the 64-bit bit buffer, 32-bit words, six-bit and four-bit slots, and the 32-bit running weight are modelled explicitly.
