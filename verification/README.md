# Verified models of the inference kernels

Dafny models of the repository's most intricate logic and proofs about it.  One module per file.

- **KvCompression**, **SlidingAttention**, **MoeLoop**: DeepSeek-V4 inference.  A compressor pools
  groups of tokens incrementally, with or without overlapping windows; a layer keeps a ring of recent
  positions beside the compressed entries in one cache.  Whatever mix of prompt and decoding built the
  caches, a query sees what one uncached pass would show it.  The routed-expert loop adds up the
  experts' outputs over ranks.
- **Execution**, **SmQueues**, **Scheduler**, **Modes**, **Waves**, **Tensorize**, **PyVm**: megakernel
  scheduling.  A DAG of instructions is assigned to in-order SM queues in five modes; queues deadlock
  exactly when no topological order deals them, which only wave mode can run into, and every interleaving
  computes what the linear interpreter computes; instructions become rows of a padded tensor and can be
  read back.
- **Rope**: interleaving the rotary embedding does not change attention scores.
- **SlotQueue**, **AllGather**, **AllToAll**, **AllToAllKernel**, **AllToAllRun**, **ExpertGather**, **ReduceScatter**:
  communication between ranks, as state machines in which programs, puts and signals interleave.
- **TileMap**, **TileSchedule**, **GemmReady**: tile orders, swizzles, persistent loops and readiness
  counters of the overlapped GEMM kernels.
- **DivMod**, **Counting**, **Addition**, **Cells**, **Results**: quotients, remainders, cardinalities, sums,
  memories and results.

How things are modelled:

- Projected rows, gates, pools, rotations and quantisation are free terms that record what they were
  computed from, so what is proved holds for every interpretation of them.  GEMM accumulation, compute
  steps and additions are function parameters.  Where sums are reordered the addition is commutative
  and associative; Rope and PyVm use exact reals.
- Code that updates buffers in place is a class or a method on arrays, proved equal to a function of
  the old contents; the lemmas are about those functions.
- Programs of a launch are co-resident and step one operation at a time, in any order; a rank's kernels run
  in stream order.  A put reads its source some time after it is issued, then writes its destination, then
  sets its flag.  A copy that no other program can see half done, such as that of a block, a slice of a send
  buffer or a split record, is one operation.
- The kernels of tutorial 03 index their flags by segment, so the flag array has a cell per rank here, which
  they need exactly when there is more than one rank (`AllGather.FlagArraySize`); the script allocates one.
- Instructions are named by their position in the node list.  Heaps are sets of pairs, popped in tuple
  order.  Costs are integers.  `round(sm_count * memory_fraction)` is a parameter.  Dependencies are
  those of the node list, and SM counts in DAG and wave mode are positive, as a device's are.
- Two argsorts are given as what a stable argsort returns; there is always exactly one.

What the proofs found out about the code:

- `get_window_topk_idxs` with `window_size == 1` takes its decode branch for prompts too and returns one
  row for the whole prompt (`SlidingAttention.PromptMatrix`, `SlidingAttention.PromptSeesExactly`).
- A prompt shorter than a group leaves the lead rows of the compressor state as they were, and a run that
  has completed a group leaves rows there that are not padding.  With overlap a second, shorter prompt that
  completes its first group by decoding therefore shows rows of the first sequence in it, and in no other
  case (`KvCompression.SecondSequence`).
- `start_time` in DAG mode is the SM's time only.  It respects dependencies for all graphs and non-negative
  costs exactly when there is one SM; on two or more, the second of two dependent instructions starts at 0
  (`Scheduler.StartsInOrderExactly`, `Scheduler.ChainStartsEarly`).
- Wave mode can deadlock.  It never does, whatever the number of SMs, exactly when no instruction depends on
  a cheaper one of its own wave; if one does, a single SM waits for ever (`Waves.WaveModeNeverSticks`).
- An expert that stands in two slots of a token's row is added once (`MoeLoop.DuplicatesAreLost`).
- The multi-node swizzle of tutorial 07 leaves the rows of the output when there is more than one node and
  rounding up rank by rank counts more tile rows than rounding up once, cdiv(W*M_per_rank, B) <
  W*cdiv(M_per_rank, B) (`TileMap.GatherSwizzleRows`), as with two nodes of one rank, M_per_rank 1 and B 2
  (`TileMap.RaggedRowsLeave`); tutorial 08 pads the rows and does not (`TileMap.WholeTiles`).

## Model

| member | source | states |
|---|---|---|
| `KvCompression.IncrementalIsBatch` | deepseekv4/model.py:316-377 | a prompt and any single-token decodes leave the same compressed entries as one prompt of the whole history, if and only if the history completes no group, windows do not overlap, the prompt fills a group, or the lead rows of the state were still the initial ones |
| `KvCompression.SecondSequence` | deepseekv4/model.py:316-377 | on fresh buffers, a second prompt and decodes after a first leave what one prompt of the second history leaves, if and only if not: windows overlap, the first completed a group, and the second completes its group 0 by decoding |
| `KvCompression.RanLead` | deepseekv4/model.py:330-352 | with overlap, a run leaves padding before group 0 exactly when it found it there and completed no group |
| `KvCompression.RanTracks` | deepseekv4/model.py:316-377 | after any prompt length and any decodes the state buffers and the cache hold the history: every completed group's entry and every row of the open window |
| `KvCompression.PrefilledTracks` | deepseekv4/model.py:325-352 | a prompt of any length, with or without remainder and overlap, sets the buffers up for its own history |
| `KvCompression.DecodedTracks` | deepseekv4/model.py:343-376 | one decode step carries the buffers from a history to the history with one more token |
| `KvCompression.EntriesAt` | deepseekv4/model.py:307-314 | entry g of the completed groups, row by row: without overlap all channels of its own tokens; with overlap the last-half channels of its own tokens, after the first-half channels of group g-1's tokens or, for group 0, of the lead rows; every score with its own bias row; rotated at its first position |
| `KvCompression.PaddingAt` | deepseekv4/model.py:283-305 | on fresh state the lead rows are zeros and -inf |
| `KvCompression.EntriesAreFinal` | deepseekv4/model.py:316-377 | later tokens never change an entry that is complete |
| `KvCompression.PoolPromptIsEntries` | deepseekv4/model.py:337-342 | the reshaped, shifted and padded prompt tensors pool exactly the groups, each as if on its own; padding stands only before group 0 |
| `KvCompression.LeadShows` | deepseekv4/model.py:307-314 | with overlap the first group's entry tells apart what stood before it |
| `KvCompression.LeadDecides` | deepseekv4/model.py:330-332 | two different leads give the same entries exactly when no group is complete or windows do not overlap |
| `KvCompression.LeadsCompared` | deepseekv4/model.py:307-314 | what stood before group 0 changes no entry but the first, and that one exactly with overlap |
| `KvCompression.StorePromptHolds` | deepseekv4/model.py:330-336 | a prompt of a full group or more leaves state buffers that do not depend on what they held before |
| `KvCompression.GroupCloses` | deepseekv4/model.py:349-352 | the last token of a group turns the window into that group's entry, and with overlap moves it before the next |
| `KvCompression.Compressor.constructor` | deepseekv4/model.py:283-305 | fresh state holds zeros and -inf, the padding of group 0 |
| `KvCompression.Compressor.Prefill` | deepseekv4/model.py:325-377 | the in-place update is the specified one, on the state buffers and the shared cache, and returns the new entries or nothing |
| `KvCompression.Compressor.Decode` | deepseekv4/model.py:343-377 | the in-place decode step is the specified one |
| `SlidingAttention.CachedSeesUncached` | deepseekv4/model.py:503-533 | after any prompt and any decodes, the cache rows gathered for the last position are those one prompt of the whole history gathers for it, if and only if not: windows overlap, group 0 was completed by decoding and is picked, and the lead rows were not the initial ones; the one prompt is served exactly when the window is wider than one position |
| `SlidingAttention.SeenDecides` | deepseekv4/model.py:268-276 | other lead rows change what a query sees exactly when windows overlap and group 0 is complete and picked |
| `SlidingAttention.PromptSeesExactly` | deepseekv4/model.py:254-276 | a prompt is served exactly when the window is wider than one position or the prompt is one token; then every query sees the last min(win, i+1) positions in order and the completed groups as of its own position |
| `SlidingAttention.PromptMatrix` | deepseekv4/model.py:254-265 | the window matrix of a prompt has one row per query exactly when the window is wider than one position or the prompt is one token |
| `SlidingAttention.DecodeSees` | deepseekv4/model.py:527-533 | a decode query gathers, from the ring and the compressed rows, the window in order and the chosen completed groups, and every index it uses is -1 or inside the cache |
| `SlidingAttention.RingSlot` | deepseekv4/model.py:516-521 | slot q % win holds position q for each of the last win positions |
| `SlidingAttention.RingPromptHolds` | deepseekv4/model.py:516-521 | the prompt's write, split or not, sets up the ring |
| `SlidingAttention.RingDecodeHolds` | deepseekv4/model.py:528 | every decode write keeps the ring |
| `SlidingAttention.RingWindowGathers` | deepseekv4/model.py:255-260 | the decode indices read the ring in position order, full or partly filled |
| `SlidingAttention.PromptWindowGathers` | deepseekv4/model.py:262-264 | a prompt's window row gathers the last min(win, i+1) positions in order |
| `SlidingAttention.GatherMasked` | deepseekv4/model.py:421-432 | masking drops exactly the groups that are not complete at the query's position, and the offset points the rest at their entries |
| `SlidingAttention.EveryGroupSeen` | deepseekv4/model.py:268-276 | without an indexer all completed groups are seen, in order |
| `SlidingAttention.WindowAt` | deepseekv4/model.py:254-265 | a query's window is the last min(win, p+1) positions in order, each with its own token |
| `SlidingAttention.SelectAt` | deepseekv4/model.py:421-432 | picked completed groups are seen in the order of the picks |
| `SlidingAttention.RanLayerTracks` | deepseekv4/model.py:513-533 | ring and compressor share one cache without disturbing each other, over any run |
| `SlidingAttention.EntriesOfPrefix` | deepseekv4/model.py:268-276 | the entries that a prefix completes come first among those of the whole prompt |
| `SlidingAttention.Attention.constructor` | deepseekv4/model.py:439-482 | a new layer's cache and compressor state are those of a fresh run |
| `SlidingAttention.Attention.Prefill` | deepseekv4/model.py:484-526 | the in-place prompt pass leaves the specified caches and returns what each query sees |
| `SlidingAttention.Attention.Decode` | deepseekv4/model.py:484-533 | the in-place decode pass leaves the specified caches and returns what the query sees |
| `MoeLoop.RoutedExperts` | deepseekv4/model.py:634-640 | each rank's loop, which skips experts without tokens, gives every row the outputs of its local experts |
| `MoeLoop.AddExpert` | deepseekv4/model.py:639-640 | gathering, adding and scattering back adds one expert's output to exactly the rows that chose it, for whichever of several stores to a row lands last |
| `MoeLoop.RanksTogether` | deepseekv4/model.py:641-642 | experts sharded over ranks and summed by all_reduce do what one rank with all experts does |
| `MoeLoop.RoutedSum` | deepseekv4/model.py:634-642 | over any commutative addition, a row ends with the sum over its slots when its experts are distinct |
| `MoeLoop.DuplicatesAreLost` | deepseekv4/model.py:639-640 | whichever store lands last, the loop agrees with the sum over slots, for unit outputs, if and only if the row's experts are distinct |
| `Execution.InterpretWithPyvm` | Megakernels/megakernels/python_vm.py:83-87 | the interpreter loop runs the list in order |
| `Execution.ExecSteps` | Megakernels/megakernels/python_vm.py:83-87 | running a list passes through states each of which is its predecessor with one instruction run |
| `Execution.LinearExtensionsAgree` | Megakernels/megakernels/scheduler.py:55-57 | if instructions that the DAG does not order commute, all linear extensions of the DAG end in the same state |
| `Execution.MoveToFront` | Megakernels/megakernels/scheduler.py:55-57 | an instruction moves past instructions it commutes with without changing the state |
| `Execution.PrecedesIs` | Megakernels/megakernels/scheduler.py:55-57 | the DAG orders one node before another exactly when the other depends on it or on a node after it |
| `SmQueues.NeverStuck` | Megakernels/megakernels/scheduler.py:125-149 | queues dealt in a topological order never deadlock: wherever they stand, some unfinished queue can run its head |
| `SmQueues.NeverSticksExactly` | Megakernels/megakernels/scheduler.py:125-149 | queues of distinct instructions never deadlock, in any interleaving, if and only if they are a deal of some topological order |
| `SmQueues.DealOfTrace` | Megakernels/megakernels/scheduler.py:137 | dealing what a run has executed to the queues that executed it gives what stands before the queues' positions |
| `SmQueues.RunComputes` | Megakernels/megakernels/scheduler.py:55-57 | every complete interleaving of the queues that waits for dependencies ends in the state of the linear interpreter |
| `SmQueues.RunsEnd` | Megakernels/megakernels/scheduler.py:125-149 | every run of the queues takes at most one step per instruction, and has taken them all exactly when every queue is finished |
| `SmQueues.TraceIsTopological` | Megakernels/megakernels/scheduler.py:125-149 | what an interleaving has executed is a linear extension of the DAG |
| `SmQueues.DealHoldsAll` | Megakernels/megakernels/scheduler.py:137 | the queues together hold exactly the dealt instructions |
| `Scheduler.AssignDag` | Megakernels/megakernels/scheduler.py:94-151 | DAG mode terminates and makes the list schedule: while a node is ready, the costliest, then the first in the list, goes to the least loaded SM, then the lowest-numbered; every queued node starting when what is before it in its queue has run and ending its cost later |
| `Scheduler.ScheduleIsGreedy` | Megakernels/megakernels/scheduler.py:115-141 | in placement order, each node costs most among the nodes that are then ready, and stands first in the list among equally costly ones; and its SM has the least load of the time, and the lowest number among equally loaded ones; at the end no node is ready |
| `Scheduler.QueueByCost` | Megakernels/megakernels/scheduler.py:115-141 | in one queue, an instruction stands before another that waits for nothing but what stands before both only if it costs more, or as much and comes first in the list |
| `Scheduler.OneSmByCost` | Megakernels/megakernels/scheduler.py:115-141 | on one SM, instructions without dependencies all run, costliest first and equally costly ones in list order |
| `Scheduler.ScheduleHolds` | Megakernels/megakernels/scheduler.py:94-151 | a schedule queues each node at most once; the nodes it leaves out are exactly those on or behind a dependency cycle, and exactly the queued ones have times, those of their place in the queue |
| `Scheduler.ScheduleIsBalanced` | Megakernels/megakernels/scheduler.py:106-149 | if all costs are between 0 and c, m times the cost of any queue is at most the cost of everything queued, each counted once, plus m-1 times c |
| `Scheduler.LoadsTotal` | Megakernels/megakernels/scheduler.py:135-141 | the SM loads add up to the cost of everything placed |
| `Scheduler.PlacedIffAcyclic` | Megakernels/megakernels/scheduler.py:94-151 | once no node is ready, the nodes left out are exactly those on a dependency cycle or depending on one |
| `Scheduler.PopMin` | Megakernels/megakernels/scheduler.py:126-130 | the popped pair is the least in tuple order and everything else stays |
| `Scheduler.RegisterWithParents` | Megakernels/megakernels/scheduler.py:37-39 | a node's children are exactly the nodes that depend on it |
| `Scheduler.Release` | Megakernels/megakernels/scheduler.py:143-149 | placing a node leaves every node waiting for exactly its unplaced dependencies, and makes ready exactly those that now wait for none |
| `Scheduler.GreedyStep` | Megakernels/megakernels/scheduler.py:130-141 | placing on the least loaded SM keeps max load minus min load at most the largest cost |
| `Scheduler.MakespanBound` | Megakernels/megakernels/scheduler.py:125-149 | m times the makespan is at most the total cost plus m-1 largest costs |
| `Scheduler.StartsInOrderExactly` | Megakernels/megakernels/scheduler.py:130-141 | for all graphs and non-negative costs no node starts before its dependencies have ended, if and only if there is one SM |
| `Scheduler.OneSmStartsInOrder` | Megakernels/megakernels/scheduler.py:130-141 | on one SM every node starts when its dependencies have ended |
| `Scheduler.ChainStartsEarly` | Megakernels/megakernels/scheduler.py:130-141 | on two SMs or more, the second of two dependent instructions of cost 1 starts at 0 and the first ends at 1 |
| `Scheduler.ScheduleExists` | Megakernels/megakernels/scheduler.py:125-149 | every graph has a list schedule, and every partial one can be finished |
| `Modes.RoundRobin` | Megakernels/megakernels/scheduler.py:154-161 | raises exactly when there are instructions and no SM; otherwise deals instruction i to SM i mod m |
| `Modes.RoundRobinStride` | Megakernels/megakernels/scheduler.py:154-161 | SM q gets exactly every m-th instruction from the q-th on, in order |
| `Modes.ZigZag` | Megakernels/megakernels/scheduler.py:164-175 | raises exactly when there are instructions and no SM; otherwise deals up the SMs and down again |
| `Modes.ZigZagTurns` | Megakernels/megakernels/scheduler.py:164-175 | every 2m instructions visit each SM twice, once going up and once, mirrored, going down; an incomplete last turn does so as far as it goes |
| `Modes.SplitPools` | Megakernels/megakernels/scheduler.py:226-234 | keeps each pool's instructions in order, and raises exactly when some pool is unknown |
| `Modes.PoolAssign` | Megakernels/megakernels/scheduler.py:220-242 | raises exactly when a pool is unknown or a nonempty pool has no SM; otherwise the queues are one deal of the whole list, also when rounding gives a share outside 0 to sm_count, and there are sm_count of them exactly when it does not |
| `Modes.PoolsAreADeal` | Megakernels/megakernels/scheduler.py:236-242 | two round robins side by side are one deal of the whole list, so the results about deals apply |
| `Modes.CollectIntoWaves` | Megakernels/megakernels/scheduler.py:178-191 | the waves concatenate to the list and are its maximal runs of equal opcodes |
| `Modes.RunsAre` | Megakernels/megakernels/scheduler.py:178-191 | a wave has one opcode, and the next wave another |
| `Waves.SortSorts` | Megakernels/megakernels/scheduler.py:209 | the sorted wave is largest cost first, with equal costs in their old order |
| `Waves.SortedInOrder` | Megakernels/megakernels/scheduler.py:209 | of two instructions of the sorted wave the first costs more, or as much and stood before the other in the wave |
| `Waves.PlaceWave` | Megakernels/megakernels/scheduler.py:211-215 | places every instruction of a wave on a least loaded SM, keeping loads and balance |
| `Waves.WaveAssign` | Megakernels/megakernels/scheduler.py:194-217 | the queues deal the concatenation of the sorted waves, each instruction to the least loaded SM of its time; loads are queue costs, and max load minus min load is at most the largest cost |
| `Waves.WaveIsGreedy` | Megakernels/megakernels/scheduler.py:203-215 | each instruction goes to the SM with the least load of its time, the lowest-numbered of several |
| `Waves.SortedWavesTopological` | Megakernels/megakernels/scheduler.py:194-217 | sorting the waves of a topological list keeps it topological if and only if no instruction depends on a cheaper one of its own wave |
| `Waves.WaveModeNeverSticks` | Megakernels/megakernels/scheduler.py:194-217 | wave mode never deadlocks, on any number of SMs, if and only if no instruction depends on a cheaper one of its own wave; on one SM it deadlocks whenever one does |
| `Waves.SortedWave` | Megakernels/megakernels/scheduler.py:209 | sorting one wave in place keeps the order topological if and only if no member depends on a cheaper one |
| `Waves.InsertTopological` | Megakernels/megakernels/scheduler.py:209 | an instruction may move forward past instructions that it does not depend on |
| `Waves.WaveMakespan` | Megakernels/megakernels/scheduler.py:203-217 | if all costs are between 0 and c, m times the cost of any queue is at most the cost of the whole list plus m-1 times c |
| `Waves.DependentWaveDeadlocks` | Megakernels/megakernels/scheduler.py:194-217 | a two-instruction wave, whose costlier instruction depends on the other, on one SM waits for ever |
| `Waves.WaveModeRuns` | Megakernels/megakernels/scheduler.py:194-217 | if no instruction depends on a cheaper one of its own wave, every run of wave mode can go on until complete, and then is in the linear interpreter's state |
| `Waves.ModeRuns` | Megakernels/megakernels/scheduler.py:245-271 | the same for any deal of a topological order, round-robin, zig-zag and pool modes among them |
| `Waves.DagModeRuns` | Megakernels/megakernels/scheduler.py:94-151 | DAG mode on an acyclic graph: every node is placed, every run can go on until complete, and then is in the linear interpreter's state |
| `Tensorize.Serialize` | Megakernels/megakernels/instructions.py:97-119 | raises exactly when a field has an unsupported type; otherwise opcode, then integers and length-prefixed lists in field order |
| `Tensorize.DecodeWords` | Megakernels/megakernels/instructions.py:97-119 | reading the words back by the type's schema recovers every field, up to the code's own merging of None with 0 and the empty list and of tuples with lists |
| `Tensorize.DecodedField` | Megakernels/megakernels/instructions.py:97-119 | field by field: an integer comes back as itself, a tuple or list as its items, None as 0 or as the empty list, and global_idx not at all |
| `Tensorize.SerializeAndPad` | Megakernels/megakernels/scheduler.py:274-278 | raises exactly when the instruction cannot be serialised or is longer than 32 words |
| `Tensorize.TensorizeInstructions` | Megakernels/megakernels/scheduler.py:281-300 | succeeds exactly when there is a queue, every instruction fits and every word is a 32-bit integer; the tensor has one row of 32 words per SM and place of the longest queue, none if all are empty |
| `Tensorize.TensorRoundTrip` | Megakernels/megakernels/scheduler.py:281-300 | row (sm, j) of the tensor decodes to the j-th instruction of queue sm, and past its end is a NoOp |
| `Tensorize.SameWordsSameValues` | Megakernels/megakernels/scheduler.py:19-20 | instructions of one type with equal words have equal fields, as far as words keep them |
| `PyVm.MatvecWithResidual` | Megakernels/megakernels/python_vm.py:45-66 | adds to each row in its blocks that row's share of the reduction block, and touches no other row |
| `PyVm.UpdatedIs` | Megakernels/megakernels/python_vm.py:45-66 | rows block_size*first to block_size*last get the dot product of the reduction block, cut off at the end of the vector; all rows before and after stay as they were |
| `PyVm.BlocksAreDot` | Megakernels/megakernels/python_vm.py:9-33 | reduction blocks that reach the end add up to the whole product, the last one cut off or not |
| `PyVm.CallsCommute` | Megakernels/megakernels/python_vm.py:45-66 | residual updates commute, also of different matrices and vectors, so the DAG need not order them |
| `PyVm.ResidualGetsProduct` | Megakernels/megakernels/python_vm.py:45-66 | calls that cover each reduction block of a row once, in any order, add the row's whole product to its residual |
| `PyVm.OneCallPerBlock` | Megakernels/megakernels/python_vm.py:45-66 | one call per reduction block over all row blocks covers every row exactly as the whole product needs |
| `Rope.ScoresUnchanged` | Megakernels/megakernels/llama.py:136-174 | every q.k score after interleaving is the score of the half-split rotation before it |
| `Rope.RopeCommutes` | Megakernels/megakernels/llama.py:136-174 | rotating the permuted vector with permuted tables is permuting the half-split rotation |
| `Rope.RopeInterleavedIs` | Megakernels/megakernels/llama.py:136-174 | element 2i is x[2i]*cos - x[2i+1]*sin and element 2i+1 is x[2i+1]*cos + x[2i]*sin |
| `Rope.RopeHalfIs` | Megakernels/megakernels/llama.py:136-174 | the half-split rotation before interleaving: element i is x[i]*cos - x[i+half]*sin and element i+half is x[i+half]*cos + x[i]*sin |
| `Rope.IndicesPermute` | Megakernels/megakernels/llama.py:453-462 | every row number stands in the list exactly once, and inside its own head |
| `Rope.IndicesForQ` | Megakernels/megakernels/llama.py:453-460 | the nested loops build that list |
| `Rope.NeighbourIndices` | Megakernels/megakernels/llama.py:453-460 | elements i and i + half of a head become neighbours 2i and 2i+1 |
| `Rope.IndicesForK` | Megakernels/megakernels/llama.py:468-470 | its first head_dim * num_key_value_heads entries are the list for the k heads |
| `Rope.OneHeadIndices` | Megakernels/megakernels/llama.py:463-466 | its first head_dim entries permute every head, and so the cos and sin tables |
| `Rope.HeadOfPermuted` | Megakernels/megakernels/llama.py:472-475 | a head of the permuted projection is the permuted head |
| `Rope.PermuteRows` | Megakernels/megakernels/llama.py:474-475 | the in-place row update is the permutation of the old rows |
| `Rope.PermutedProjection` | Megakernels/megakernels/llama.py:472-475 | permuting a projection's rows permutes its output |
| `Rope.DotPermuted` | Megakernels/megakernels/llama.py:167-174 | a dot product does not change when both sides are permuted |
| `Rope.DotAdds` | Megakernels/megakernels/python_vm.py:20-33 | the dot product of a sum is the sum of the dot products |
| `Rope.DotScales` | Megakernels/megakernels/python_vm.py:20-33 | the dot product of a multiple is the multiple of the dot product |
| `Rope.DotUnit` | Megakernels/megakernels/python_vm.py:20-33 | the dot product with the k-th unit vector is the k-th element |
| `SlotQueue.RunsCopy` | Triton-distributed/tutorials/01-distributed-notify-wait.py:77-148 | in every interleaving of all ranks' programs: each reachable state is either final, with every rank's output a copy of its predecessor's input, or has a program that can step; and runs are bounded |
| `SlotQueue.StepInv` | Triton-distributed/tutorials/01-distributed-notify-wait.py:83-146 | every step of every program keeps the slot discipline |
| `SlotQueue.NoOverwrite` | Triton-distributed/tutorials/01-distributed-notify-wait.py:88-107 | a slot is overwritten only after its earlier items are in the output, while no other program stores to it or reads it |
| `SlotQueue.NoSignalPasses` | Triton-distributed/tutorials/01-distributed-notify-wait.py:88-96 | no signal passes the value that a waiting program expects |
| `SlotQueue.FinalOutput` | Triton-distributed/tutorials/01-distributed-notify-wait.py:123-139 | when all programs have ended, the output is the input |
| `SlotQueue.NeverStuck` | Triton-distributed/tutorials/01-distributed-notify-wait.py:83-146 | while some program has not ended, some program can step |
| `SlotQueue.StepDecreases` | Triton-distributed/tutorials/01-distributed-notify-wait.py:85-146 | every step lowers the work that is left |
| `SlotQueue.RunInv` | Triton-distributed/tutorials/01-distributed-notify-wait.py:83-148 | every state of every run satisfies the invariant, and no run is longer than the work at its start |
| `SlotQueue.PeerOfPredecessor` | Triton-distributed/tutorials/01-distributed-notify-wait.py:83 | each rank's queue is fed by exactly one rank |
| `AllGather.WriterIsUnique` | Triton-distributed/tutorials/03-inter-node-allgather.py:131-177 | every foreign segment of every rank has exactly one writer |
| `AllGather.SendsWhere` | Triton-distributed/tutorials/03-inter-node-allgather.py:121-177 | in the kernel's own numbers: to the same local rank of another node a program sends its rank's segment; to another local rank of its own node it sends the segment of that program's node and its own local rank, and waits first exactly when that node is another |
| `AllGather.ForwardedFrom` | Triton-distributed/tutorials/03-inter-node-allgather.py:155-177 | a forwarded segment comes straight from the rank that owns it |
| `AllGather.OneNode` | Triton-distributed/tutorials/03-inter-node-allgather.py:62-95 | on one node the two-level kernel is the one-level kernel |
| `AllGather.FlagArraySize` | Triton-distributed/tutorials/03-inter-node-allgather.py:67-95 | every flag index used lies in the array if and only if it has a cell per rank, or there is only one rank |
| `AllGather.StepInv` | Triton-distributed/tutorials/03-inter-node-allgather.py:112-191 | every step of ranks, programs and puts keeps the protocol invariant, over any number of calls |
| `AllGather.ForwarderHasSegment` | Triton-distributed/tutorials/03-inter-node-allgather.py:159-177 | what a program sends is the segment of its own call; a forwarder has received it |
| `AllGather.WaitHits` | Triton-distributed/tutorials/03-inter-node-allgather.py:148-168 | no equality wait misses its value: the flag of an arrived segment holds the call's value for as long as the rank runs the call |
| `AllGather.TwoCallsApart` | Triton-distributed/tutorials/03-inter-node-allgather.py:180-193 | no rank begins call n+2 before every rank has ended call n and begun call n+1 |
| `AllGather.Gathered` | Triton-distributed/tutorials/03-inter-node-allgather.py:112-193 | from the end of a rank's call until it begins another, the buffer half of the signal value's parity before the call holds every rank's segment of that call |
| `AllGather.NeverStuck` | Triton-distributed/tutorials/03-inter-node-allgather.py:112-193 | until every rank has ended its calls, something can step |
| `AllGather.EveryRun` | Triton-distributed/tutorials/03-inter-node-allgather.py:112-193 | in every state of every run: no wait misses its value, no put finds another segment than its call's, a rank between calls holds all segments, ranks are never two calls apart, and until all have ended any number of calls something can step without a further call |
| `AllToAll.Layout` | Triton-distributed/tutorials/04-deepseek-infer-all2all.py:154-174 | every region and split record lies inside its buffer |
| `AllToAll.Apart` | Triton-distributed/tutorials/04-deepseek-infer-all2all.py:154-174 | the regions and records of different sources do not overlap |
| `AllToAll.SplitRecordIs` | Triton-distributed/tutorials/04-deepseek-infer-all2all.py:158-166 | the record's counts add up to the rows sent, and its extra word is the offset they came from |
| `AllToAll.RecordCounts` | Triton-distributed/tutorials/04-deepseek-infer-all2all.py:158-166 | expert by expert, the record counts what goes to that rank |
| `AllToAll.PostProcessPrepares` | Triton-distributed/tutorials/04-deepseek-infer-all2all.py:582-606 | the host's offsets, sums and concatenation give each source's rows, and where they return to |
| `AllToAll.RowOwner` | Triton-distributed/tutorials/04-deepseek-infer-all2all.py:145-150 | every row goes to exactly one rank |
| `AllToAll.CumsumDifference` | Triton-distributed/tutorials/04-deepseek-infer-all2all.py:279-285 | the sum of a stretch of splits is the difference of its bounds |
| `AllToAll.CumsumStep` | Triton-distributed/tutorials/04-deepseek-infer-all2all.py:279-285 | the cumulative sums start at 0 and go up by each split |
| `AllToAllRun.RoundTrip` | Triton-distributed/tutorials/04-deepseek-infer-all2all.py:582-626 | in every run, in which programs, puts and host code of all ranks step in any order and a rank waits only for what is sent to it: once everything is back, row i of a rank is the compute applied to its original row i; until then something can step; and runs are bounded |
| `AllToAllRun.StepInv` | Triton-distributed/tutorials/04-deepseek-infer-all2all.py:145-246 | every copy, put and host step, of dispatch and of combine, keeps what each pair of ranks has in its buffers |
| `AllToAllRun.StaysInBounds` | Triton-distributed/tutorials/04-deepseek-infer-all2all.py:154-246 | no step ever reads or writes outside its buffers |
| `AllToAllRun.DispatchDelivers` | Triton-distributed/tutorials/04-deepseek-infer-all2all.py:145-246 | what has arrived is the rows and the split record meant for the rank, until combine reuses their place |
| `AllToAllRun.CombineDelivers` | Triton-distributed/tutorials/04-deepseek-infer-all2all.py:175-238 | what has come back is the computed rows, in the place they came from |
| `AllToAllRun.HostPrepares` | Triton-distributed/tutorials/04-deepseek-infer-all2all.py:582-606 | once everything sent to a rank has arrived, its host code finds each source's rows and return offset |
| `AllToAllRun.NeverStuck` | Triton-distributed/tutorials/04-deepseek-infer-all2all.py:582-626 | until everything is back something can step |
| `AllToAllRun.StepDecreases` | Triton-distributed/tutorials/04-deepseek-infer-all2all.py:582-626 | every step lowers by one the number of steps that are left |
| `AllToAllKernel.CopyRows` | Triton-distributed/tutorials/04-deepseek-infer-all2all.py:217-229 | the masked copy in blocks of rows writes all rows and nothing else |
| `AllToAllKernel.DispatchKernel` | Triton-distributed/tutorials/04-deepseek-infer-all2all.py:138-246 | the dispatch program on arrays is the specified one: send buffer, split buffer and the peer's region and record, nothing else |
| `AllToAllKernel.GatherDispatched` | Triton-distributed/tutorials/04-deepseek-infer-all2all.py:588-598 | the host loop takes each source's rows from its region |
| `AllToAllKernel.CombineKernel` | Triton-distributed/tutorials/04-deepseek-infer-all2all.py:175-238 | the combine program on arrays writes the rows to where they came from in the peer's send buffer |
| `ExpertGather.CalcGatherIndex` | Triton-distributed/tutorials/04-deepseek-infer-all2all.py:288-332 | whatever the order in which the lanes of all programs run, slot k of gather_index holds the token at the k-th position of the stable order, and 0 past its end |
| `ExpertGather.GatherBlock` | Triton-distributed/tutorials/04-deepseek-infer-all2all.py:305-313 | one program stores its lanes' tokens and nothing else |
| `ExpertGather.SlotsOfExpert` | Triton-distributed/tutorials/04-deepseek-infer-all2all.py:315-317 | between cumsum[e] and cumsum[e+1] a stable argsort has exactly the positions that chose expert e, in increasing order |
| `ExpertGather.GatheredTokens` | Triton-distributed/tutorials/04-deepseek-infer-all2all.py:480-494 | those slots of gather_index name, in increasing order, exactly the tokens that chose expert e |
| `ExpertGather.ArgsortOfArgsort` | Triton-distributed/tutorials/04-deepseek-infer-all2all.py:315-317 | the second argsort inverts the first |
| `ExpertGather.ByExpertIsArgsort` | Triton-distributed/tutorials/04-deepseek-infer-all2all.py:315-317 | listing the positions expert by expert is a stable argsort |
| `ExpertGather.OrderIsUnique` | Triton-distributed/tutorials/04-deepseek-infer-all2all.py:315-317 | there is only one stable argsort |
| `ReduceScatter.HierarchicalIsFlat` | Triton-distributed/tutorials/06-inter-node-reduce-scatter.py:264-407 | however the ranks interleave between barriers, rank (c, l) ends with the sum over all ranks of their segment c*L+l |
| `ReduceScatter.DoneIsRun` | Triton-distributed/tutorials/06-inter-node-reduce-scatter.py:297-379 | every action of a run has happened, and nothing else has |
| `ReduceScatter.StepInv` | Triton-distributed/tutorials/06-inter-node-reduce-scatter.py:246-379 | every copy, reduction and send leaves each cell with the one value it is meant to have |
| `ReduceScatter.NeverStuck` | Triton-distributed/tutorials/06-inter-node-reduce-scatter.py:297-379 | until all ranks have finished, something can happen |
| `ReduceScatter.NodesAreFlat` | Triton-distributed/tutorials/06-inter-node-reduce-scatter.py:382-407 | summing node by node is summing over all ranks |
| `ReduceScatter.FoldRotated` | Triton-distributed/tutorials/05-intra-node-reduce-scatter.py:103-114 | starting the sum elsewhere and wrapping around does not change it |
| `ReduceScatter.RingReduce` | Triton-distributed/tutorials/05-intra-node-reduce-scatter.py:103-117 | the rotated accumulation computes the sum in rank order |
| `ReduceScatter.IntraNodeScatter` | Triton-distributed/tutorials/05-intra-node-reduce-scatter.py:171-200 | the swizzled loop copies each slice to its rank, once, and touches nothing else |
| `ReduceScatter.ConsumerReduce` | Triton-distributed/tutorials/10-AMD-overlapping-gemm-reduce-scatter.py:232-239 | the rotated accumulation from zero computes the sum in rank order |
| `TileMap.GroupedIsTile` | Triton-distributed/tutorials/08-overlapping-gemm-reduce-scatter.py:212-217 | the grouped order, with a short last group and either way of taking the remainder, maps tile ids to tiles, and the tile determines the id |
| `TileMap.TileIsGrouped` | Triton-distributed/tutorials/08-overlapping-gemm-reduce-scatter.py:212-217 | every tile has an id |
| `TileMap.GroupedPlace` | Triton-distributed/tutorials/08-overlapping-gemm-reduce-scatter.py:212-217 | the tiles of a group have consecutive ids, column by column; in a column tutorials 09 and 10 go down the rows, tutorials 07 and 08 start where the remainder of the id says |
| `TileMap.SwizzleInverse` | Triton-distributed/tutorials/08-overlapping-gemm-reduce-scatter.py:219-235 | the node and rank swizzle is a permutation of the tile rows |
| `TileMap.SwizzlePlace` | Triton-distributed/tutorials/08-overlapping-gemm-reduce-scatter.py:219-235 | row i of local rank b of node a goes to row i of the rotated rank of the rotated node |
| `TileMap.OwnRankLast` | Triton-distributed/tutorials/08-overlapping-gemm-reduce-scatter.py:219-235 | a rank computes the rows it keeps last |
| `TileMap.GatherSwizzleStays` | Triton-distributed/tutorials/07-overlapping-allgather-gemm.py:158-173 | the swizzle stays inside the rows on every rank if and only if there is one node or the ranks' tile rows make up all rows |
| `TileMap.GatherSwizzleIs` | Triton-distributed/tutorials/07-overlapping-allgather-gemm.py:158-173 | on one node the rows shift by the rank's rows, on several nodes and ranks rotate by node_id and rank |
| `TileMap.GatherSwizzleRows` | Triton-distributed/tutorials/07-overlapping-allgather-gemm.py:139-173 | with the row counts the kernel computes, the swizzle stays inside if and only if there is one node or cdiv(W*M_per_rank, B) == W*cdiv(M_per_rank, B) |
| `TileMap.RaggedRowsLeave` | Triton-distributed/tutorials/07-overlapping-allgather-gemm.py:139-173 | on two nodes of one rank with one row each and tiles of two rows, rank 1 computes a tile row that is not there |
| `TileMap.WholeTiles` | Triton-distributed/tutorials/08-overlapping-gemm-reduce-scatter.py:351-364 | padding every rank's rows to whole tiles makes them so |
| `TileMap.WaitsForOwners` | Triton-distributed/tutorials/07-overlapping-allgather-gemm.py:178-185 | a tile waits for exactly the ranks that own one of its rows |
| `TileMap.ChunkSwizzleInverse` | Triton-distributed/tutorials/09-AMD-overlapping-allgather-gemm.py:199-207 | the chunk swizzle maps positions to rows, and the row determines the position |
| `TileMap.ChunkUnswizzleInverse` | Triton-distributed/tutorials/09-AMD-overlapping-allgather-gemm.py:199-207 | every row has a position |
| `TileMap.ChunkPlace` | Triton-distributed/tutorials/09-AMD-overlapping-allgather-gemm.py:199-207 | row b of position x of chunk c goes to row b of that chunk of the rotated rank |
| `TileMap.WaitsForChunk` | Triton-distributed/tutorials/09-AMD-overlapping-allgather-gemm.py:209-219 | the chunk a tile waits for is the one that holds its rows, under the number and at the place where its owner pushes it |
| `TileMap.ScatterTarget` | Triton-distributed/tutorials/10-AMD-overlapping-gemm-reduce-scatter.py:153-210 | a tile goes to the rank that owns its rows, to the place for this rank's share of them |
| `TileMap.XcdRemapInverse` | Triton-distributed/tutorials/09-AMD-overlapping-allgather-gemm.py:172-174 | with NUM_XCDS dividing NUM_SMS the remap is a permutation of the program ids |
| `TileMap.XcdPlace` | Triton-distributed/tutorials/09-AMD-overlapping-allgather-gemm.py:172-174 | the q-th program that the hardware puts on XCD r becomes program q of r's own range |
| `TileSchedule.EveryTileOnce` | Triton-distributed/tutorials/08-overlapping-gemm-reduce-scatter.py:189-260 | the programs of a launch together store every output tile exactly once, with all its k-blocks |
| `TileSchedule.PersistentGemm` | Triton-distributed/tutorials/08-overlapping-gemm-reduce-scatter.py:189-260 | the flattened loop over k-blocks stores the program's tiles, each accumulated over every k-block once and in order; with no k-block it stores nothing |
| `TileSchedule.ConsumerGemm` | Triton-distributed/tutorials/09-AMD-overlapping-allgather-gemm.py:172-265 | the strided loop of a remapped program stores the program's tiles with all their k-blocks |
| `TileSchedule.PlaceIsTile` | Triton-distributed/tutorials/07-overlapping-allgather-gemm.py:151-173 | grouping and swizzle together map tile ids to output tiles one to one |
| `TileSchedule.PlaceIs` | Triton-distributed/tutorials/08-overlapping-gemm-reduce-scatter.py:212-235 | each kernel's order of tiles: which remainder it takes in a group, and by what it rotates rows |
| `TileSchedule.TileIsPlaced` | Triton-distributed/tutorials/10-AMD-overlapping-gemm-reduce-scatter.py:141-161 | every output tile is reached |
| `TileSchedule.NeverTwice` | Triton-distributed/tutorials/08-overlapping-gemm-reduce-scatter.py:189-217 | a program never computes a tile twice |
| `TileSchedule.IdOwner` | Triton-distributed/tutorials/08-overlapping-gemm-reduce-scatter.py:189-212 | every tile id is in the stride of exactly one program, once |
| `GemmReady.NotifiedWhenReady` | Triton-distributed/tutorials/08-overlapping-gemm-reduce-scatter.py:245-284 | under any interleaving a rank's barrier is notified at most once, only after all output tiles of its rows are stored, and by the end it has been |
| `GemmReady.OwnedCount` | Triton-distributed/tutorials/08-overlapping-gemm-reduce-scatter.py:266-284 | tiled_m_size * tiled_n is the number of tiles a rank owns |
| `GemmReady.CounterRange` | Triton-distributed/tutorials/08-overlapping-gemm-reduce-scatter.py:263-266 | the counter loop runs once, for the owner of the tile |
| `GemmReady.TiledMSize` | Triton-distributed/tutorials/08-overlapping-gemm-reduce-scatter.py:267-271 | tiled_m_size is the number of a rank's tile rows |
| `GemmReady.StepInv` | Triton-distributed/tutorials/08-overlapping-gemm-reduce-scatter.py:245-284 | every step of every program keeps counters, stores and notifications consistent |
| `GemmReady.FinishedIsFull` | Triton-distributed/tutorials/08-overlapping-gemm-reduce-scatter.py:274-284 | when all programs have ended every counter is full |

## Left out

- Floating point, FP8 and FP4 quantisation, softmax, norms, rope tables, Sinkhorn mixing and GEMM inner products: free terms or parameters.
- Batches: one batch row; the rows of a batch do not meet in the caches.
- `sparse_attn` and `kernel.py`: what they do with the gathered rows is not part of this model.
- `Indexer`: the top-k choice is any choice of completed groups; its scores and its own compressor's numbers are not modelled.
- `SlidingAttention.PromptSeesExactly`: the failing prompts are modelled as no result, whatever error the mismatched shapes raise later.
- `Scheduler.AssignDag`: costs are integers where the code may use floats; an SM count of 0 is not modelled.
- `AllToAllRun.RoundTrip`: one round; that a wait ends only when what is sent has arrived is taken for granted, since dispatch and combine share one signal slot with an equality wait; the FP8 path is not modelled.
- `AllGather.NeverStuck`: the memory after the last call's puts, which nobody waits for, is not described beyond the invariant.
- `SlotQueue.RunsCopy`: a block is copied in one step, since the slot discipline excludes other accesses meanwhile.
- `ReduceScatter.HierarchicalIsFlat`: one call; buffer reuse between calls rests on the barrier at the start of `reduce_scatter_2d_op`. Tiling of the reduction kernel is left out, since sums are elementwise.
- `TileSchedule.ConsumerGemm`: the K-tail path and a grid smaller than NUM_SMS are not modelled.
- `TileMap.ScatterTarget`: tutorial 10 launches one program per tile, so its loop is a single tile.
- `GemmReady.NotifiedWhenReady`: needs every rank's rows to be whole tiles, which the caller asserts.
- The copy-engine and p2p producers of tutorial 07, barriers of `dl.wait` and `barrier_all_on_stream`: used as synchronisation points only.
- `PyTorchGenerator` and the rest of `generators.py`, shard bounds, `LazyAllocator`: would only add easy members.
- Ascend tutorials: their tile swizzles are library calls that the repository does not show.
- `calc_priority`, whose call is commented out, and `print_state`.
- Build scripts, autotuning, profilers, device queries, model loading, servers and demos.
