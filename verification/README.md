# Verified models of a distributed sparse matrix product

The program multiplies sparse matrices on many ranks. This project models its algorithms in Dafny and proves what they
promise, on all inputs and in all runs.

- **The Trident staged product.** Matrices are cut into a q x q grid of tiles and each tile into row slices for the ranks of
  a node (`Partition`, `Grid`, `Nodes`, `Blocks`). A static schedule staggers the inner index (`Execution`, `Stages`,
  `Ranks`); a node assembles its panel of B (`Assembly`), a rank accumulates partial products (`Accumulator`), the root
  gathers (`Gather`). `Product` proves the whole equal to the serial product of `Serial`; `Dense`, `Stagger` and `Trident`
  hold the reasoning about sums, windows and tiles.
- **Its transports**, as step systems over an unbounded family of ranks whose threads interleave and whose inputs change
  between products: `Hybrid`, `Put` and `Get` (simple and pipelined), each with its invariant in `...Safety` and its
  guarantees over all runs in `...Runs`.
- **The row-distributed baselines** (`RowPlan`, `Slots`, `Halo`, `HaloExchange`, `Kernel`, `Baseline`), equal to the serial
  product for any operations at all.
- **The numerical acceptance test**: the error of a sum in any order (`Roundoff`), the computed bound (`Acceptance`), the
  reference rows (`Reference`), the streaming comparison (`Validation`) and the same with a stored reference
  (`CachedValidation`).
- **Stored references**: the byte formats (`Bytes`, `PartialCodec`, `FullCodec`, `FullFile`, `FullReader`) and their
  crash-safe publication (`Publication`, `Publishing`).
- **Supporting cores**: the seeded permutation (`SplitMix`, `Permutation`), the conversion of Matrix Market entries
  (`MatrixMarket`), work counts (`Work`, `Workload`), running statistics (`Statistics`) and the job submitter
  (`Submission`).

Where code and prose differ, the code is followed. Two points deserve attention. The Partial codec is a two-sided inverse,
but the Full codec is not: `FullCodec.TwoTextsOneNumber` gives two texts that read as the same number, and
`FullCodec.RewritesSame` says exactly which texts are reproduced. And generating a Full reference fails when a bound is
infinite, while regenerating it during validation rejects the coordinate instead, since only finite bounds can be stored.

`dafny verify dfyconfig.toml` checks everything.

## Model

| member | source | states |
|---|---|---|
| `Product.TridentProduct` | src/trident/common/execution.cpp:64-98 | For every pair of valid matrices with matching inner dimension (unsorted columns, duplicates and stored zeros included) and every process grid, distributing, planning, running all stages on every rank, dropping zeros and gathering returns exactly the CSR arrays of the serial product over the integers |
| `Serial.SerialSpgemm` | src/common/spgemm_common.cpp:131-178 | The reference: for uninterpreted addition and multiplication, fails exactly on incompatible inputs and otherwise returns the rows of `SerialProduct`, whose cells are the folds of the products in stored order |
| `Product.MultiplyRank` | src/trident/common/execution.cpp:64-98 | One rank's stages in plan order leave its tile of the dense product, after exactly as many inner-loop multiplications as `scalarProductsByRank` counts for it |
| `Execution.PreparePlan` | src/trident/common/execution.cpp:15-54 | The plan of a rank from the gathered shapes: sources, targets, panel offsets and shapes of every round; an error exactly when some stage's shapes disagree |
| `Trident.DistributedTilesAreConsistent` | src/trident/common/execution.cpp:44-50 | For tiles cut by `distributeBlocks` neither shape error of the plan can occur, on any rank |
| `Grid.WrapIsModulo` | src/trident/common/execution.cpp:11 | The double remainder is the nonnegative residue, for negative values of a truncating `%` too |
| `Ranks.TargetInvertsSource` | src/trident/common/execution.cpp:26-31 | In every round sources and targets of A and of B are inverse permutations of the ranks, so every posted receive has its send |
| `Ranks.EachSourceOnce` | src/trident/common/execution.cpp:24-31 | Over the rounds of a product a rank takes the tile of each owner in its row (column) exactly once |
| `Grid.RoundSumIsSum` | src/trident/common/execution.cpp:24-26 | Summing over the staggered rounds is summing over the inner indices, whatever the rank's starting point |
| `Grid.RankHasCoordinates` | src/trident/common/process_grid.cpp:69-71 | Every rank has coordinates; with `RankAtInjective`, `rankAt` is a bijection |
| `Nodes.ConstructGrid` | src/trident/common/process_grid.cpp:32-66 | From the leaders, local ranks and node sizes the ranks gather: refuses exactly uneven nodes and numbers of nodes that are no square; otherwise the table is a permutation in which a node's ranks share (i, j), other nodes have other (i, j), and k is the local rank |
| `Partition.PartitionRows` | src/common/spgemm_common.cpp:326-337 | Consecutive blocks that cover all rows, sizes at most one apart and longer ones first |
| `Partition.BlocksPartition` | src/common/spgemm_common.cpp:326-346 | Every row lies in exactly one block |
| `Partition.OwnerOfRow` | src/common/spgemm_common.cpp:339-346 | The block that holds the row, or -1 if none does |
| `Blocks.SliceBlock` | src/trident/common/matrix_blocks.cpp:74-90 | The rows and columns of a block as a CSR matrix, columns renumbered, stored order kept |
| `Blocks.DistributeBlocks` | src/trident/common/matrix_blocks.cpp:92-111 | The rank at (i, j, k) ends with exactly tile (i, j, k) |
| `Blocks.RowOwnerUnique` | src/trident/common/matrix_blocks.cpp:36-41 | The two-level row ranges of different (i, k) do not overlap; with `RowOwner` they cover all rows |
| `Assembly.PanelBuffer.Assemble` | src/trident/common/intra_node_two_sided.cpp:7-51 | The panel buffer, whatever it held before, becomes the CSR of the received slices one after another, row pointers rebased |
| `Trident.AssembledNodeIsCoarseTile` | src/trident/common/intra_node_two_sided.cpp:7-51 | Concatenating a node's row slices is slicing the coarse tile from the matrix directly, empty slices included |
| `Accumulator.LocalAccumulator.AddProduct` | src/trident/common/matrix_blocks.cpp:154-168 | Refuses shapes that do not fit, changing nothing; otherwise every cell grows by its dot product, at the cost of exactly one multiplication per selected stored entry of B |
| `Accumulator.LocalAccumulator.Finish` | src/trident/common/matrix_blocks.cpp:170-200 | The accumulated tile with zeros dropped and columns sorted |
| `Gather.GatherBlocks` | src/trident/common/matrix_blocks.cpp:113-150 | At the root every row is its column tiles side by side, columns shifted and sorted; tiles that do not fit are an error |
| `HybridRuns.NoGenerationMismatch` | src/trident/hybrid/inter_node_exchange.cpp:103-104 | In no interleaving over any number of products does a service thread report a generation mismatch |
| `HybridRuns.SlotAheadOnlyIfAnswered` | src/trident/hybrid/inter_node_exchange.cpp:94-104 | A slot is at most one product ahead of its owner, and only after the owner has answered it for its own product |
| `HybridRuns.DeliveredTiles` | src/trident/hybrid/inter_node_exchange.cpp:71-86 | What a rank assembles in product g is what the planned owners exposed for product g, although inputs change between products |
| `HybridRuns.RequestsPerProduct` | src/trident/hybrid/inter_node_exchange.cpp:64-116 | After g products a rank has published and served 2 (side - 1) g requests |
| `HybridRuns.AnsweredOncePerProduct` | src/trident/hybrid/inter_node_exchange.cpp:88-118 | Every remote consumer of every input is answered exactly once per product |
| `HybridRuns.SendFindsReceive` | src/trident/hybrid/inter_node_exchange.cpp:77-85 | Whenever a service thread sends, the matching receive is already posted, so even an unbuffered send goes through |
| `HybridRuns.Progress` | src/trident/hybrid/inter_node_exchange.cpp:71-132 | No deadlock: in every reachable state with an unfinished rank some step that moves a product on is enabled, fruitless polls not counted |
| `PutRuns.WorkspaceIsExclusive` | src/trident/put/inter_node_exchange.cpp:118-149 | From the return of `fetch` until the next readiness barrier no put under way can reach a rank's workspace |
| `PutRuns.WorkspaceIsExact` | src/trident/put/inter_node_exchange.cpp:118-149 | Then the workspace holds exactly the planned owners' tiles of the current product |
| `PutRuns.OneWriterPerArray` | src/trident/put/inter_node_exchange.cpp:103-149 | In every stage each receive array has exactly one writer, its planned source |
| `PutRuns.Progress` | src/trident/put/inter_node_exchange.cpp:95-156 | No deadlock at the two barriers of a stage while some rank has a product to finish |
| `GetRuns.WorkspaceIsExact` | src/trident/common/rma_get.cpp:66-124 | After the fetch of a stage the workspace arrays are the planned owners' inputs of the current product, in the simple and in the pipelined transport |
| `GetRuns.PipelineAgreesWithSimple` | src/trident/get_pipeline/inter_node_exchange.cpp:19-47 | Stage by stage the pipelined transport leaves the arrays the simple one leaves, provided the stage's owner exposed the same input for that product |
| `GetRuns.PendingAvoidsWorkspace` | src/trident/get_pipeline/inter_node_exchange.cpp:27-40 | A read under way never targets the buffers in use, across the swap |
| `GetRuns.LifecycleErrorsUnreachable` | src/trident/common/rma_get.cpp:66-124 | None of the lifecycle errors can occur, hence at most one pair is outstanding |
| `GetRuns.InputsChangeUnread` | src/trident/common/rma_get.cpp:66-124 | While a rank may change its inputs no other rank has a read of them pending or to come in its product |
| `GetRuns.Progress` | src/trident/common/rma_get.cpp:66-124 | No deadlock at the product fences while some rank has a product to finish |
| `Baseline.BaselineProduct` | src/baselines/spgemm_exchange.cpp:258-325 | For each of the three transports, any number of ranks, any arrival order and uninterpreted addition and multiplication: an error exactly on incompatible inputs, otherwise the gathered result is the serial product |
| `RowPlan.BuildRemoteRowPlan` | src/baselines/spgemm_exchange.cpp:91-128 | Per owner the remote rows the local columns need, sorted and without repetition, with their slots |
| `RowPlan.PlanCoversExactly` | src/baselines/spgemm_exchange.cpp:91-128 | A row has a slot exactly if it is needed and owned by another rank |
| `HaloExchange.ExchangeTwoSided` | src/baselines/spgemm_exchange.cpp:217-256 | Packing on the owners and receiving whole segments leaves exactly the planned rows in the halo, in stored order |
| `HaloExchange.PushAll` | src/baselines/one_sided_put_spgemm.cpp:82-244 | Owners' puts at the consumer's target offsets carry every planned row with entries to its own slot |
| `HaloExchange.FetchAll` | src/baselines/one_sided_get_spgemm.cpp:97-118 | Reads by remembered row bounds carry every planned row with entries to its own slot |
| `HaloExchange.GetHalo` | src/baselines/one_sided_get_spgemm.cpp:64-118 | Pulling row pointers, then rows, leaves exactly the planned rows in the halo |
| `Halo.LandAll` | src/baselines/one_sided_put_spgemm.cpp:224-244 | One-sided transfers leave the same halo in whatever order they land |
| `HaloExchange.HalosAgree` | src/baselines/spgemm_exchange.cpp:217-256 | The transports leave identical halos |
| `Kernel.BRowForColumn` | src/baselines/spgemm_exchange.cpp:75-87 | A row of B from the rank's own block or its halo slot; an error exactly if it is in neither |
| `Kernel.Spgemm` | src/baselines/spgemm_exchange.cpp:258-325 | The local kernel computes the serial row of every local row, in the serial order of operations |
| `Roundoff.TreeError` | src/common/spgemm_common.cpp:591-595 | Any tree of additions of m products, each operation erring by at most u |x| + eta, is within gamma S plus the underflow term of the exact sum |
| `Roundoff.GrowthBound` | src/common/spgemm_common.cpp:652-661 | (1 + u)^n is at most 1 / (1 - n u) when n u < 1 |
| `Roundoff.SumIgnoresOrder` | src/common/spgemm_common.cpp:591-595 | The exact sum depends only on the multiset of products |
| `Acceptance.ModelCovers` | src/common/spgemm_common.cpp:652-661 | The outward-rounded error model of a format covers the exact one |
| `Acceptance.BoundCoversEveryOrder` | src/common/spgemm_common.cpp:663-675 | Any order or tree of additions in double and the sequential long double reference differ by at most the coordinate bound |
| `Acceptance.CorrectEntryIsAccepted` | src/common/spgemm_common.cpp:790-795 | A correctly computed entry is accepted whenever its bound is finite |
| `Acceptance.BoundIsFinite` | src/common/spgemm_common.cpp:653-670 | The bound is finite for every term count with 2 m u (1 + w)^2 at most 3/8 in both formats, for rounding tight by 1 + w |
| `Acceptance.EmptyCell` | src/common/spgemm_common.cpp:663-664 | Where no product contributes, reference and bound are zero |
| `Reference.BuildFullRow` | src/common/spgemm_common.cpp:695-717 | The cells of a row: exactly the columns with a product, by increasing column, each folded from its products in stored order |
| `Reference.BuiltCell` | src/common/spgemm_common.cpp:695-717 | Such a cell is a sequential rounded sum of its products and of their magnitudes |
| `Validation.ValidNumericCsr` | src/common/spgemm_common.cpp:621-639 | Row-by-row checks accept exactly the well-formed matrices (with sorted rows when asked) |
| `Validation.CompareRow` | src/common/spgemm_common.cpp:754-833 | The merge tallies as if it had visited every column of the dense row once: rejections, support mismatches, largest error, largest ratio and where it occurred |
| `Validation.ValidateFull` | src/common/spgemm_common.cpp:720-851 | Malformed or mismatched input fails without a comparison; otherwise the tally is that of the whole dense matrix and the run passes exactly if nothing was rejected |
| `Validation.PassedMeansEveryCoordinate` | src/common/spgemm_common.cpp:754-833 | Nothing is rejected exactly when every coordinate of the dense matrix has its rounded-up error within its bound |
| `Validation.RatioAtMostOneMeansPassed` | src/common/spgemm_common.cpp:796-808 | The reported maximum ratio is at most one exactly when nothing is rejected |
| `Validation.CorrectResultPasses` | src/common/spgemm_common.cpp:720-851 | A result whose every value is a correctly rounded sum of its products, each in an order of its own, passes; finiteness of the bounds follows from the term counts |
| `FullCodec.PutReal` | src/common/full_reference.cpp:64-78 | Writes tag and 64-bit words; fails exactly on non-finite values and exponents out of range, and nothing is left after the last word |
| `FullCodec.GetReal` | src/common/full_reference.cpp:79-87 | Accepts exactly the words whose tag is in range, and adds them up to the significand, exponent and sign they encode |
| `FullCodec.DecodedWritten` | src/common/full_reference.cpp:64-87 | A long double survives being written and read |
| `FullCodec.DecodedIsLongDouble` | src/common/full_reference.cpp:79-87 | Whatever the words, the value read is a long double or not finite; overflow past the largest exponent is not finite |
| `FullCodec.RewritesSame` | src/common/full_reference.cpp:64-87 | Reading and writing again gives the same bytes exactly for the words of a long double: encode after decode is the identity on those and on no others |
| `FullCodec.TwoTextsOneNumber` | src/common/full_reference.cpp:64-87 | A concrete pair of different words that read as the same number, so that the reader accepts texts the writer never produces |
| `FullFile.CheckRow` | src/common/full_reference.cpp:88-97 | Accepts exactly rows with ascending columns in range, positive term counts, finite values and nonnegative bounds (minus zero included) |
| `FullReader.WriteFile` | src/common/full_reference.cpp:226-254 | Fails exactly on an unsupported header or an unwritable row; otherwise the file of the table |
| `FullReader.FullReferenceReader.ReadRow` | src/common/full_reference.cpp:182-202 | Accepts exactly words that make a valid row and returns their numbers; on an error no valid row stands at that position |
| `FullReader.FullReferenceReader.Finish` | src/common/full_reference.cpp:203-208 | Succeeds exactly once, after the last row, if the checksum of everything read follows and nothing follows it |
| `FullReader.ReadFile` | src/common/full_reference.cpp:159-208 | Succeeds exactly on the intact file of some table, and returns that table's numbers |
| `FullReader.OneTable` | src/common/full_reference.cpp:182-208 | A file holds at most one table |
| `FullReader.GenerateThenReuse` | src/common/full_reference.cpp:210-270 | A generated reference is reused unchanged, every long double and the sign of zero included |
| `CachedValidation.ValidateCached` | src/common/spgemm_common.cpp:747-826 | With a cache, a verdict only for an intact file, and the verdict and tally of the regenerated reference whenever the file holds the reference rows of these inputs |
| `CachedValidation.NormalisedValue` | src/common/full_reference.cpp:79-87 | Normalising words does not change the number they stand for |
| `CachedValidation.StoredVerdict` | src/common/spgemm_common.cpp:754-833 | Comparing stored rows that are, as numbers, the reference rows gives the tally of `ValidateFull` |
| `PartialCodec.Encode` | src/common/partial_reference.cpp:193-204 | Fails exactly on a bad key, bad dimensions or a negative count; otherwise the canonical encoding |
| `PartialCodec.Decode` | src/common/partial_reference.cpp:206-225 | Succeeds exactly on the encoding of some reference of the given key and shape, and what it returns encodes to the same bytes |
| `PartialCodec.DecodeAfterEncode` | src/common/partial_reference.cpp:193-225 | The encoding of a reference decodes to it and to nothing else |
| `Publication.PublishedIsComplete` | src/common/partial_reference.cpp:145-166 | In every run of any generators and readers, with deaths and power cuts at any step, the published name is absent or stands for the complete file |
| `Publication.OneGeneratorWrites` | src/common/partial_reference.cpp:108-143 | At most one process is between opening the temporary file and finishing |
| `Publication.ReadersGetTheFile` | src/common/partial_reference.cpp:227-239 | A reader without the lock, reading in pieces, always has the beginning of the complete file, and at its end all of it |
| `Publication.FinishedHasTheFile` | src/common/partial_reference.cpp:241-261 | A process that finishes, by generating or by reusing, has the complete file, published |
| `Publication.DurableForever` | src/common/partial_reference.cpp:159-166 | Once the directory is synced the file stays, whatever happens |
| `Publication.RetryPublishesTheSame` | src/common/partial_reference.cpp:241-261 | After any run a process that gets the lock can finish, and publishes the same bytes |
| `Publishing.PublishedPartialDecodes` | src/common/partial_reference.cpp:206-261 | A published Partial reference decodes to the generators' reference and to nothing else |
| `Publishing.ReadToTheEndDecodes` | src/common/partial_reference.cpp:227-239 | A reader that has read to the end of what it opened holds text that decodes to the generators' reference |
| `Publishing.PublishedFullHolds` | src/common/full_reference.cpp:210-270 | A published Full reference holds the generators' table and no other |
| `SplitMix.MixIsABijection` | scripts/matrices.py:224-228 | The mixer is a bijection on 64-bit words |
| `SplitMix.FullPeriod` | scripts/matrices.py:223-228 | From any seed the first 2^64 outputs are all words, each once |
| `Permutation.SamplingTerminates` | scripts/matrices.py:222-230 | Rejection sampling stops within one period, at the first word below the limit, for every bound up to 2^64 and every seed |
| `Permutation.EqualResidues` | scripts/matrices.py:221-231 | Over one period every residue is accepted equally often, because the limit is a multiple of the bound |
| `Permutation.ShuffleBijective` | scripts/matrices.py:219-232 | Sequences of draws and arrangements of distinct values correspond one to one |
| `Permutation.Permutation` | scripts/matrices.py:214-232 | Swapping in place computes the shuffle of those draws; more than 2^32 values are an error |
| `Permutation.PermutationIsABijection` | scripts/matrices.py:214-232 | For every n and seed the result is a bijection of [0, n) |
| `MatrixMarket.ReadMatrixMarket` | src/common/matrix_market.cpp:69-144 | From the parsed entries: an error exactly on bad dimensions, an index out of range or a nonzero skew diagonal; otherwise each row is the subsequence of the expanded entries in that row, in file order |
| `MatrixMarket.Scatter` | src/common/matrix_market.cpp:136-143 | Every slot is filled with its row's entries in order, and every cursor ends at the next row pointer |
| `MatrixMarket.StablePosition` | src/common/matrix_market.cpp:125-143 | An entry lands behind the entries of earlier rows and the earlier entries of its own row |
| `MatrixMarket.PartsHoldAll` | src/common/matrix_market.cpp:125-137 | The rows together hold every entry |
| `MatrixMarket.ReadIsSymmetric` | src/common/matrix_market.cpp:88-117 | Off the diagonal, symmetric and Hermitian storage stores the same values for (c, r) as for (r, c), in the same order; skew-symmetric storage their negatives |
| `Workload.ScalarMultiplicationCount` | src/common/spgemm_common.cpp:474-487 | An error exactly on incompatible inputs, otherwise one multiplication per stored entry of B that each stored entry of A selects |
| `Workload.RowPartitionWork` | src/common/benchmark_metrics.cpp:62-75 | Each rank's count is that of its rows, and the counts add up to `scalarMultiplicationCount` |
| `Workload.ScalarProductsByRank` | src/trident/common/matrix_blocks.cpp:43-72 | Rank (i, j, k) gets the work of its rows of A against its columns of B, and the counts add up to `scalarMultiplicationCount` |
| `Workload.StagesMakeTheCountedWork` | src/trident/common/matrix_blocks.cpp:43-72 | For a row the stages of any rank's schedule make exactly the multiplications counted for it |
| `Statistics.Statistics.Add` | src/common/benchmark_metrics.cpp:25-33 | The running fields stay the count, zeros, extremes, exact mean and exact sum of squared deviations of the values added |
| `Statistics.UpdatedMoments` | src/common/benchmark_metrics.cpp:30-32 | The recurrences keep mean and squared deviations exact |
| `Submission.NoKeyHasTwoActiveJobs` | scripts/lib/campaign.py:429-478 | In every run of submit calls, with or without retry, crashes between any two steps, submissions that outlive their submitter and any scheduler transitions, no key has two jobs that have not ended |
| `Submission.IdsAreNeverForgotten` | scripts/lib/campaign.py:462-471 | Job ids once recorded for a key stay in its receipt or its history, in order |
| `Submission.RecordedReceiptNamesAllJobs` | scripts/lib/campaign.py:462-471 | A receipt that names a job leaves no job of its key out; only an announced receipt can |
| `Submission.AmbiguityStopsSubmission` | scripts/lib/campaign.py:438-440 | An announced receipt without a job stops every later call that covers its key |

## Left out

- MPI, OpenMP and the operating system themselves: windows, flushes, barriers, message queues, locks, fsync and rename are steps of the models with the guarantees stated there; loops over independent rows run one after another.
- Integer widths: counts, offsets and the Hybrid generation counter are mathematical integers, so `checkedCsrAdd`, `checkedMatrixDimension` and the generation overflow check are not part of the model; the codecs state the widths they write.
- Floating point: the Trident product is over exact integers (its stages reorder sums), the baselines over uninterpreted operations, the acceptance bound over reals with |fl(x) - x| <= u |x| + eta; infinities, NaN and the rounding-mode checks of `fullNumericEnvironment` are not part of the model.
- HybridRuns.DeliveredTiles: the three messages of a tile (row pointers, columns, values) travel as one, and a node-local exchange is a meeting of the node's ranks.
- Product.TridentProduct: its stages take the tile of the planned source directly; that each transport delivers exactly this tile is what the Hybrid, PUT and GET results state. The two-sided transport is covered only by Ranks.TargetInvertsSource: every receive has its matching send.
- std::sort, std::lower_bound and hash tables: sorting is an insertion sort, hash tables are maps visited in any order.
- Put, Get and Hybrid are step systems over all ranks rather than classes: what they promise is about interleavings of several ranks' methods.
- PUT and GET: array lengths are planned once, and a caller whose inputs change keeps them, as the fixed buffers of the source require.
- Validation.CompareRow: the counts that are only printed (nonzeros of the reference, rows whose counts differ, largest distance from the reference, example lines) are not tallied.
- Matrix Market text: the model starts from the parsed entries; `restriction_matrix`, `permute_matrix` and downloads are left out.
- FullCodec.GetReal: what getReal makes of words that need rounding is uninterpreted; a build's generator writes none.
- FullReader.FullReferenceReader.ReadRow: the limit on the row length from the size of `size_t` is not part of the model; lengths are bounded by the number of columns.
- SHA-256 is an uninterpreted function with 64 hexadecimal digits; that equal keys mean equal inputs is not claimed. CachedValidation.ValidateCached therefore says what the verdict is when the file holds the reference rows of these inputs.
- Submission: jobs that have ended stay ended (accounting lists NODE_FAIL and PREEMPTED among the terminal states, and a site that requeues such jobs is outside the claim), keys of one plan are distinct, and the chain of dependencies within a pool is left out, since it follows plan order and not submission order.
- Publication: each process takes the lock without waiting, as in the source; disks that lose synced data are outside the model.
- Statistics: standard deviation and coefficient of variation, which need a square root.
- Timers, percentiles, tables of results, command lines, benchmark mains, batch scripts, hashing of inputs and experiment bookkeeping, which would only add easy members.
