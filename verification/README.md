# Gamma: a verified model of its data structures

Gamma is a vector search engine. This project models six of its data structures in Dafny and
proves what every operation on them keeps, over all inputs and all runs:

* the HNSW graph (`Hnsw*.dfy`): insertion, update and filtered best-first search over link lists;
* the real-time inverted index (`Inverted*.dfy`): slots in buckets, a packed position per vector,
  growth, compaction, a lock-free reader, and dump and load; `InvertedMachine.dfy` is the abstract
  machine that every run of the index follows;
* the storage read path (`Lru*.dfy`, `BlockLayout.dfy`, `BlockStore.dfy`, `StringHeap.dfy`,
  `AsyncWriter.dfy`): the block cache with its buffer pool and its single-flight loading, the
  layout of segment files with its 32-bit positions and keys, cached reads of these files, the
  string heap, and the coalescing writer;
* the scalar filter index (`Bitmap.dfy`, `RangeNode.dfy`, `KeyOrder.dfy`, `Tags.dfy`,
  `RangeResult.dfy`, `RangeIndex.dfy`, `FilterSearch.dfy`): document sets that change between list
  and bitmap, order-preserving keys, and the combination of And, Or and Not filters;
* the merge of the hits of several vector fields (`VectorResults.dfy`, `VectorMerge.dfy`,
  `VectorFields.dfy`);
* the ring buffer of vectors (`RingBuffer.dfy`).

`Arithmetic.dfy`, `ByteStrings.dfy`, `Lists.dfy`, `Options.dfy` and `Heaps.dfy` hold what they share.
`dafny verify dfyconfig.toml` checks the whole project.

## How to read it

Objects that the original updates in place are classes with a `Valid()` invariant. Their larger
steps are methods on values (a graph, the arrays of a bucket, a node, a bitmap) with the loops of
the original, so that the classes only put them together. Each such method is specified by a
predicate or function on values, and the lemmas about that predicate carry the main results.
Threads are modelled as state machines whose actions are the critical sections (`LruProtocol`)
or single reads and writes of shared memory (`InvertedReader`); runs are sequences of states.

Some conventions:

* Distances and scores are real numbers, and the distance is an arbitrary function. Random levels
  and the numbers drawn for the neighbours to refresh are arbitrary.
* A priority queue is a set of ids with a key; which of several equally far ids comes out first is
  left open.
* Ids, sizes and counters are unbounded unless a width is what matters: the 16-bit visited tag,
  the mask bit of 64-bit ids, the 32-bit position, the byte that counts extensions, the 32-bit size
  in a segment header, the 32-bit positions in segment and string files, the 32-bit cache keys, the
  16-bit string length and the int of document ids are modelled as such.
* The B-tree of a field is a map with its keys in ascending order; the queues between threads are
  sequences.
* What the original would do outside its memory, or with an int that overflows, is a result of its
  own (`ok` is false, or an outcome such as `Overflow`), with the exact condition; nothing is
  promised after it.
* Where the code leaves a property open, the exact condition is proved, with an input at which it
  fails: `Update` of the inverted index strands a vector iff the vector must move and the target
  bucket refuses to grow (`Update`, `Stranding`); a loaded dump has exact dead counts iff it held no
  unmasked slot of a deleted document (`DumpLoad`, `InexactLoad`); a reader beside an update in
  place finds a whole code iff the slot is not just being overwritten, or in one byte at most
  (`ReaderSafe`, `TornIff`, `TornRun`); the items of a segment are read back iff the last one begins
  below 4 GiB (`ItemsReadBack`, `TableOverwrites`); cache keys are distinct iff no two segments meet
  modulo 2^32 (`KeysDistinct`, `KeysWrap`); when the offset of a string file has wrapped at 4 GiB,
  the next string leaves all others readable iff it repeats the bytes where it is put
  (`WrapLosesIff`, `AddAfterWrap`); a tag value is indexed under all its tags iff it has no byte 0
  (`CutAtZero`, `CutLoses`); tag search stays inside its bitmap iff the non-empty nodes span every
  emptied bitmap (`HullSpans`, `EmptiedOutside`); a buffer read without a lock stays the key's while
  the key is cached, and after its eviction goes to the miss that is its turn (`StillTheKeys`,
  `EvictionHandsOn`, `HandOnRun`); an update of the ring buffer hits its own vector iff that is
  still in the buffer (`UpdateHits`, `PendingOverwritten`).

The hypotheses the main results rest on are the ones the callers keep: keys given to the inverted
index are new and a document is deleted once; the last item of a segment begins below 4 GiB, as
proved of tables with rows of at most 8589 bytes and of vectors of at least 30 bytes, and block
keys are distinct, as proved of tables and, within the limits of `VectorKeys`, of vectors; updates
of blocks touch flushed bytes; adjacent writes to one file are contiguous whole items; numeric
filters carry two bounds of the width of the field, and a tag value repeats no tag; documents are
added to a filter index once and deleted with the value they were added with.

## Model

| member | source | states |
|---|---|---|
| HnswGraph.NeighborsByHeuristic | index/impl/hnswlib/hnswalg.h:359-401 | with fewer than M candidates all are taken; otherwise at most M, none of which is closer to one chosen before it than to the element (of two equally near ones, either was chosen first), and every candidate left out is closer to a chosen one than to the element or comes after M chosen ones that are no farther |
| HnswGraph.LinkBack | index/impl/hnswlib/hnswalg.h:472-555 | the new list of a chosen neighbour: unchanged if it had the link already, extended while there is room, else re-selected by the heuristic; never longer than its bound, without repetition, with no other new member |
| HnswConnect.Connect | index/impl/hnswlib/hnswalg.h:427-558 | the list of the element becomes the heuristic's choice, farthest first; each chosen neighbour links back; no other list changes; the graph stays well-formed, so that the conditions under which the original throws cannot arise, but for the one on slots behind the count of a list |
| HnswConnect.KeepClosest | index/impl/hnswlib/hnswalg.h:867-892 | exactly `size` candidates are kept, and none left out is closer than one kept |
| HnswConnect.RefreshList | index/impl/hnswlib/hnswalg.h:867-909 | the rewritten list of a neighbour is the heuristic's choice among the closest candidates around the updated element, and is a well-formed list |
| HnswConnect.RefreshNeighbors | index/impl/hnswlib/hnswalg.h:843-909 | on one layer only the lists of the neighbours that are drawn change, each to a refreshed one; the candidates are exactly the element, its neighbours and the neighbours of those drawn |
| HnswConnect.RefreshAll | index/impl/hnswlib/hnswalg.h:829-910 | all layers of the element, each refreshed from the state the layer below left |
| HnswConnect.CertainRefreshesAll | index/impl/hnswlib/hnswalg.h:843-909 | with probability 1 the list of every neighbour is made anew, from exactly the nodes within two links of the element |
| HnswSearch.VisitedList.Reset | index/impl/hnswlib/visited_list_pool.h:39-45 | nothing is visited afterwards, also when the 16-bit tag wraps to 0 |
| HnswSearch.VisitedList.Visit | index/impl/hnswlib/visited_list_pool.h:27-48 | one more element is visited, no other changes |
| HnswSearch.VisitedListPool.GetFreeVisitedList | index/impl/hnswlib/visited_list_pool.h:67-80 | the first list of the pool, or a new one if it is empty, with nothing visited, that is no longer in the pool |
| HnswSearch.VisitedListPool.ReleaseVisitedList | index/impl/hnswlib/visited_list_pool.h:82-85 | the list is in the pool again and the pool stays free of shared lists |
| HnswSearch.Evaluate | index/impl/hnswlib/hnswalg.h:305-348 | one newly met node keeps the search sound: the held nodes are the closest eligible ones among all evaluated, a node not queued is beaten by `ef` held ones, and while none is held the bound is the largest distance of an unmarked node evaluated |
| HnswSearch.Expand | index/impl/hnswlib/hnswalg.h:285-348 | every link of the expanded node is evaluated, none twice, and the visited tags list exactly the evaluated nodes and the entry |
| HnswSearch.BestFirst | index/impl/hnswlib/hnswalg.h:238-357 | for ef at least 1 the search ends, returns at most ef nodes, all of them eligible, evaluates no node twice, and every eligible evaluated node left out is no closer than ef returned ones; always the closest evaluated node is expanded next, and only while it is within the bound; exactly the links of expanded nodes are evaluated; either the search ends because no node within the bound is left, or the step limit is set and exactly one node more than it was expanded; if it ends with nothing, every unmarked node evaluated was expanded |
| HnswSearch.StopSettles | index/impl/hnswlib/hnswalg.h:279-284 | stopping when the closest candidate lies beyond the bound settles the search |
| HnswSearch.OpenIff | index/impl/hnswlib/hnswalg.h:326-345 | what the bound admits, in terms of the evaluated nodes only: fewer than ef nodes to return are closer and one is not, or none can be returned yet and some unmarked node is as far |
| HnswSearch.TakesTurn | index/impl/hnswlib/hnswalg.h:276-285 | the node expanded next is the closest one evaluated and not expanded |
| HnswSearch.LocallyOptimal | index/impl/hnswlib/hnswalg.h:238-357 | an eligible link of a returned node is returned itself or no closer than ef returned nodes |
| HnswSearch.ReachesAll | index/impl/hnswlib/hnswalg.h:238-357 | with everything eligible and fewer than ef results, every node reachable from the entry is returned |
| HnswSearch.FindsNothing | index/impl/hnswlib/hnswalg.h:238-357 | if a search that was not cut returns nothing, no node to which unmarked nodes lead from the entry is eligible |
| HnswSearch.Walk | index/impl/hnswlib/hnswalg.h:1051-1072 | the greedy walk of a level goes from each node to its closest link while that is closer, and ends, no farther than it began, in a node none of whose links is closer |
| HnswSearch.Descend | index/impl/hnswlib/hnswalg.h:1046-1074 | the descent is the greedy walks of its levels, one after the other; it ends in a local minimum of the lowest level walked |
| HnswIndex.AddEntry | index/impl/hnswlib/hnswalg.h:1085-1091 | the candidates are those found, and with a marked entry point that one too, without the farthest when they are more than efConstruction |
| HnswIndex.JoinNew | index/impl/hnswlib/hnswalg.h:1077-1094 | what the search of a level found, the entry point if marked, the heuristic choice and the links back: the new element is linked among candidates of that level, or there was none |
| HnswIndex.JoinAgain | index/impl/hnswlib/hnswalg.h:957-992 | the same for an element that is there already and is never its own candidate; refused exactly if it is the marked entry point and there are other candidates |
| HnswIndex.Cut | index/impl/hnswlib/hnswalg.h:1166-1168 | keeping the k closest of a sound and settled answer gives a sound and settled answer for k |
| HnswIndex.HierarchicalNsw.MarkDelete | index/impl/hnswlib/hnswalg.h:776-795 | an existing element becomes marked, an unknown label changes nothing |
| HnswIndex.HierarchicalNsw.SearchBaseLayer | index/impl/hnswlib/hnswalg.h:144-233 | the construction search of a level is sound, settled and never cut |
| HnswIndex.HierarchicalNsw.InsertAt | index/impl/hnswlib/hnswalg.h:1077-1094 | one level of an insertion: settled search from the given start, heuristic choice, links back; the result is where the next level starts |
| HnswIndex.HierarchicalNsw.Insert | index/impl/hnswlib/hnswalg.h:1076-1094 | all levels from the top one down, each starting where the one above ended, and no list of the new element empty |
| HnswIndex.HierarchicalNsw.Attach | index/impl/hnswlib/hnswalg.h:1046-1094 | the top level starts at the end of the greedy descent, or at the entry point when there is no level above |
| HnswIndex.HierarchicalNsw.AddPoint | index/impl/hnswlib/hnswalg.h:1005-1108 | without marks it succeeds and keeps the graph invariant; the new element is linked on every common level; the entry point moves exactly when the new level is higher |
| HnswIndex.HierarchicalNsw.RelinkAt | index/impl/hnswlib/hnswalg.h:957-992 | one level of a repair: the element itself is taken out of what the search found; without candidates nothing changes |
| HnswIndex.HierarchicalNsw.Repair | index/impl/hnswlib/hnswalg.h:916-993 | all levels of the updated element are linked anew, from its top level down |
| HnswIndex.HierarchicalNsw.UpdatePoint | index/impl/hnswlib/hnswalg.h:829-914 | keeps the graph invariant unless the element is a marked entry point; first the lists around the element are refreshed layer by layer, with probability 1 those of all its neighbours, then its own links are made anew; a lone element changes nothing |
| HnswIndex.HierarchicalNsw.SearchKnn | index/impl/hnswlib/hnswalg.h:1110-1176 | the answer is the k closest of what a best-first search for max(k, efSearch) from the end of the descent holds; the search is cut only if do_efSearch_check is set, after efSearch + 1 expansions; at level 0 it starts at the entry point |
| HnswIndex.HierarchicalNsw.Run | index/impl/hnswlib/hnswalg.h:829-1108 | over every sequence of insertions and updates without marks the graph invariant holds, no element is lost and levels stay; every call takes the graph one step: insertion, update or nothing, each as it does alone |
| InvertedSpec.Unpacked | realtime/realtime_mem_data.cc:192-198 | a position is the bucket times 2^32 plus the place in it, and unpacking gives both back |
| InvertedSpec.ScanIsMeaning | realtime/realtime_invert_index.cc:77-128 | a live slot of vector v exists at (b, p) iff v is in the map and its table entry packs (b, p); the map then holds bucket b and the slot's code |
| InvertedSpec.AppendStep | realtime/realtime_mem_data.cc:262-301 | appending a slot keeps the invariant and adds the vector to the map, or raises the dead count when its document is already deleted |
| InvertedSpec.MaskStep | realtime/realtime_mem_data.cc:318-320 | masking a vector's slot takes it out of the map and raises the dead count by one |
| InvertedSpec.RecodeStep | realtime/realtime_mem_data.cc:311-316 | overwriting the code in place changes the map at that vector only |
| InvertedSpec.DeleteStep | realtime/realtime_mem_data.cc:192-198 | setting the bit and counting the slot takes the vector out of the map and keeps the counts exact |
| InvertedSpec.GrowTable | realtime/realtime_mem_data.cc:202-216 | a longer position table changes neither invariant nor map |
| InvertedCompact.Survivors | realtime/realtime_mem_data.cc:98-113 | what a compaction keeps is exactly the live slots, each vector once |
| InvertedCompact.CompactStep | realtime/realtime_mem_data.cc:98-151 | compaction keeps invariant and map, leaves the live slots in order, and drops exactly as many slots as were counted dead |
| InvertedArrays.GrownSize | realtime/realtime_mem_data.cc:153-163 | growth from at least 10 slots by any coefficients above 1.1 takes at least one step, stops at the first capacity that is enough, and leaves that capacity and the extension count, a byte, as a function of the inputs |
| InvertedArrays.StopsThere | realtime/realtime_mem_data.cc:153-163 | the new capacity is the first in the series of products, each rounded down, with the coefficients of the following extension counts, that is enough, but at least one product |
| InvertedArrays.ExtendIds | realtime/realtime_mem_data.cc:202-216 | the position table doubles until it has the key, keeping all entries |
| InvertedArrays.CommitKeys | realtime/realtime_mem_data.cc:285-298 | positions, dead counts and the committed size after a batch make the map with the batch added; exactly the keys of deleted documents are counted dead, exactly the keys gain a position |
| InvertedArrays.StoreKeys | realtime/realtime_mem_data.cc:271-300 | ids and codes written behind the committed ones and then committed add exactly the batch: to the slots, the map, the bucket size, the dead count and the vectors with a position |
| InvertedArrays.Rewrite | realtime/realtime_mem_data.cc:311-316 | the code of an indexed vector is replaced in its slot, and nothing else: slots, sizes, capacities, table, counts |
| InvertedArrays.MaskOut | realtime/realtime_mem_data.cc:318-320 | the vector is out of the map, its slot masked and counted in its bucket, and nothing else changes |
| InvertedArrays.LostBad | realtime/realtime_mem_data.cc:319-324 | a vector whose table entry points at a masked slot breaks the invariant |
| InvertedArrays.Drop | realtime/realtime_mem_data.cc:192-198 | the map without the vector, counted dead in its bucket if it had a position; slots and table unchanged |
| InvertedArrays.MoveLive | realtime/realtime_mem_data.cc:98-113 | the compaction loop collects the live slots in order and repoints each |
| InvertedArrays.Compact | realtime/realtime_mem_data.cc:120-151 | new arrays of the same capacity with the live slots of the bucket, the same map and the same vectors with a position, a dead count of 0, no other bucket changed |
| InvertedMachine.AfterOk | realtime/realtime_mem_data.cc:262-472 | every call keeps the abstract machine well formed |
| InvertedMachine.AfterBalanced | realtime/realtime_mem_data.cc:262-472 | every call keeps the balance: each bucket has as many live slots as the map has vectors in it |
| InvertedMachine.ReplayBalanced | realtime/realtime_mem_data.cc:262-472 | conservation over every sequence of calls: no vector and no slot is lost or counted twice |
| InvertedIndex.GrewRoomy | realtime/realtime_mem_data.cc:381-418 | making room changes the capacity, the extension count and the pending releases as the machine says, and no slot |
| InvertedIndex.MoveInSteps | realtime/realtime_mem_data.cc:303-325 | masking here, making room and storing there is the move of a vector |
| InvertedIndex.TidyDone | realtime/realtime_mem_data.cc:352-375 | after a pass of compaction fewer than three in ten slots of every bucket are dead |
| InvertedIndex.RealTimeMemData.constructor | realtime/realtime_mem_data.cc:57-96 | an empty index over the given deleted documents, balanced, with exact memory accounting |
| InvertedIndex.RealTimeMemData.ExtendBucketIfNeed | realtime/realtime_mem_data.cc:381-418 | refused iff there is no room and twice the capacity reaches the limit, and then nothing changes; else there is room, with the capacity of the first extension that is enough; the slots are the same and the memory account stays exact |
| InvertedIndex.RealTimeMemData.FreeOldData | realtime/realtime_mem_data.cc:335-350 | the delayed release takes one entry off the pending arrays and its size off the total |
| InvertedIndex.RealTimeMemData.AddKeys | realtime/realtime_mem_data.cc:262-301 | accepted iff there is or can be room and the number of code bytes matches; then all new vectors enter the bucket, in order, with their codes; refused, no slot changes; the new sizes, capacities, dead counts and map are those of the machine |
| InvertedIndex.RealTimeMemData.Store | realtime/realtime_mem_data.cc:271-300 | slots, map, sizes and counts with the batch; memory account and code widths kept |
| InvertedIndex.RealTimeMemData.Update | realtime/realtime_mem_data.cc:303-325 | returns 1 for a move that succeeded and 0 otherwise; the vector is stranded, its slot masked and no other made, iff it had to move and the bucket refused; in every other case the new state is that of the machine |
| InvertedIndex.RealTimeMemData.Relocate | realtime/realtime_mem_data.cc:318-325 | a move to another bucket succeeds iff that bucket can take one more slot; otherwise the vector is lost |
| InvertedIndex.RealTimeMemData.Delete | realtime/realtime_mem_data.cc:327-333 | the vector leaves the map, its slot is counted dead, no slot changes |
| InvertedIndex.RealTimeMemData.CompactBucket | realtime/realtime_mem_data.cc:424-472 | the live slots of one bucket in order, the map unchanged, and the compacted count grows by the dead ones |
| InvertedIndex.RealTimeMemData.CompactIfNeed | realtime/realtime_mem_data.cc:352-375 | exactly the buckets with at least three dead slots in ten are compacted; the map is unchanged; sizes, counts and pending releases are those of the machine |
| InvertedIndex.RealTimeMemData.Do | realtime/realtime_mem_data.cc:262-472 | one call is one step of the machine and returns what the machine answers |
| InvertedIndex.RealTimeMemData.Run | realtime/realtime_mem_data.cc:98-472 | over every sequence of calls that each meet the hypotheses when made: the final state, the map with its vectors in their buckets and last codes, sizes, capacities, dead counts and pending releases, and every answer, are those of the machine; memory total and code widths stay exact, and balance is kept |
| InvertedIndex.Stranding | realtime/realtime_mem_data.cc:303-325 | a run from a new index of two buckets after which vector 10 is stranded by a move into a full bucket that may not grow |
| InvertedFormat.DecodeEncode | index/gamma_index_io.cc:109-143 | a number written little-endian in k bytes is read back |
| InvertedFormat.DecodeEncodeAll | index/gamma_index_io.cc:109-143 | a list of 64-bit ids is read back from its bytes |
| InvertedFormat.CutJoin | index/gamma_index_io.cc:109-143 | codes of one width written one behind another are cut apart again |
| InvertedFormat.EncodeDecode | index/gamma_index_io.cc:151-154 | any k bytes are the encoding of the number they are read as |
| InvertedFormat.FourBytes | index/gamma_index_io.cc:151-154 | four bytes are read as the sum of the bytes times powers of 256, the lowest first |
| InvertedFormat.EightBytes | index/gamma_index_io.cc:151-154 | eight bytes are read as the four low ones plus 2^32 times the four high ones |
| InvertedFormat.EncodeDecodeAll | index/gamma_index_io.cc:163-164 | any 8n bytes are the encoding of n numbers |
| InvertedFormat.JoinCut | index/gamma_index_io.cc:176-176 | any bytes of the right number are codes of the width, joined |
| InvertedIo.WriteInvertedLists | index/gamma_index_io.cc:109-143 | the bytes are the layout of the lists: ilar and full around the counts, then the sizes, then for each non-empty list its codes and ids |
| InvertedIo.Spelled | index/gamma_index_io.cc:109-143 | the first four bytes spell ilar, bytes 20 to 24 full; the number of lists is at 4 and at 24, the code size at 12 |
| InvertedIo.PartUnpart | index/gamma_index_io.cc:176-177 | any bytes of the right number are the part of some bucket |
| InvertedIo.FrontComplete | index/gamma_index_io.cc:151-165 | a front that a dump wrote is recognised, with its sizes, or refused iff number of lists or width differ |
| InvertedIo.FrontSound | index/gamma_index_io.cc:151-165 | what is taken for a front is one |
| InvertedIo.LoadOne | index/gamma_index_io.cc:168-193 | internal error iff there is no room, read error iff the stream is too short, else the bucket holds exactly the slots whose part was read |
| InvertedIo.LoadLists | index/gamma_index_io.cc:167-194 | a read error only if the stream is shorter than the sizes need, an internal error only if a bucket is too small; else every bucket was read and had room |
| InvertedIo.PartsUnique | index/gamma_index_io.cc:133-195 | lists of given sizes can be read back from their bytes in one way only |
| InvertedIo.ReadInvertedLists | index/gamma_index_io.cc:145-196 | whatever the stream: what is loaded was a dump, of exactly the lists loaded, and the rest of the stream is left; a dump gives a format error iff the number of lists or the code width differs, an internal error iff some list cannot get room, and is loaded otherwise, with a table with every unmasked vector at its slot and masked slots counted |
| InvertedIo.CleanCounts | index/gamma_index_io.cc:179-191 | counting masked slots counts all dead ones iff no slot is unmasked while its document is deleted |
| InvertedIo.RestoredTable | index/gamma_index_io.cc:145-196 | the table built while loading is a correct position table for the loaded slots |
| InvertedIo.SameSlotsSameMeaning | index/gamma_index_io.cc:145-196 | two correct tables for the same slots give the same map |
| InvertedIo.RoundTrip | index/gamma_index_io.cc:109-196 | the loaded index has the map of the dumped one, and is well-formed iff the dumped lists held no unmasked slot of a deleted document |
| InvertedIo.ValidDumpable | index/gamma_index_io.cc:109-143 | whatever calls made a valid index, its lists fit the fields of the format |
| InvertedIo.DumpLoad | index/gamma_index_io.cc:109-196 | a valid index dumped and loaded into a new one for the same documents: format and internal errors exactly when shape or room differ, else the same slots and the same map, and a valid index iff no dumped slot was unmasked while its document was deleted |
| InvertedIo.InexactLoad | index/gamma_index_io.cc:179-191 | a run, add, delete, dump and load of one vector, after which the loaded dead count is too small |
| InvertedReader.StepKeeps | realtime/realtime_mem_data.cc:262-317 | every step of the writer - growing, adding, masking and overwriting a code byte by byte - and of any reader keeps the sharing invariant |
| InvertedReader.HistoryGrows | realtime/realtime_mem_data.cc:153-190 | in every run the slots of a bucket keep their ids and are only given more codes |
| InvertedReader.ReaderSafe | realtime/realtime_invert_index.cc:77-128 | in every interleaving a reader that has read size, ids and codes finds in each slot below that size a committed id, up to the mask, and, unless the slot is just being overwritten in the array it reads, a code given to that id; else a byte-wise mix of its last two codes |
| InvertedReader.TornIff | realtime/realtime_mem_data.cc:311-316 | while an update overwrites the slot in place, a reader finds one of the two codes whole wherever the memcpy has got to iff they differ in at most one byte |
| InvertedReader.TornRun | realtime/realtime_mem_data.cc:303-317 | a run from an empty index in which a reader finds a code that the id never had |
| LruCore.GetBufferKeeps | storage/lru_cache.h:201-215 | a buffer handed out was free or new, belongs to nobody else, and the pool's count is exact |
| LruCore.ReclaimKeeps | storage/lru_cache.h:217-232 | a buffer given back is free, or one free buffer is released over the limit; the count stays exact |
| LruCore.SetMaxBufferNumKeeps | storage/lru_cache.h:234-260 | a lower limit releases free buffers only; the pool ends within it, or with no free buffer when more are in use; nothing underflows |
| LruCore.LimitAfter | storage/lru_cache.h:234-260 | the limit that holds afterwards is the one asked for if nothing had to go, otherwise the old limit less what was released; exactly when these agree |
| LruCore.LimitStays | storage/lru_cache.h:258-259 | with one buffer in use of ten allowed, asking for 0 leaves the limit at ten |
| LruCore.Returned | storage/lru_cache.h:217-232 | a returned buffer is kept, behind the other free ones, iff the pool is within its limit; otherwise it is freed |
| LruCore.TouchKeeps | storage/lru_cache.h:530-548 | a hit keeps every cell and its buffer |
| LruCore.TouchOrder | storage/lru_cache.h:530-548 | a hit moves no other key, and its own to the young end only after the threshold of hits |
| LruCore.MovesAtLast | storage/lru_cache.h:364-392 | a new cell keeps its place in the queue for 250 hits and moves to the young end at the 251st, when its count starts anew |
| LruCore.EvictKeyKeeps | storage/lru_cache.h:482-499 | the key leaves cells and queue and its buffer returns to the pool |
| LruCore.EvictOverflow | storage/lru_cache.h:577-608 | from the overflow bound on, back to the maximum size; cells that stay are unchanged, and the youngest stays |
| LruCore.EvictsOldest | storage/lru_cache.h:577-608 | what is evicted is the old end of the queue, and nothing below the bound |
| LruCore.SetImplKeeps | storage/lru_cache.h:550-563 | a new cell at the young end: bounds kept, others unchanged or gone whole, and the new key stays if there is room for one cell |
| LruProtocol.StepKeeps | storage/lru_cache.h:394-445 | every critical section of every thread keeps the protocol invariant |
| LruProtocol.RunSafe | storage/lru_cache.h:394-515 | in every state of every interleaving each live buffer is free, in one cell or in one in-flight insert; the queue lists the cells' keys once each; both counters are exact |
| LruProtocol.SingleFlight | storage/lru_cache.h:394-445 | an insert is loaded at most once, exactly once when done, and by one thread at a time |
| LruProtocol.PublishBound | storage/lru_cache.h:431-445 | after publishing there are at most max_size_ + max_overflow_ cells, among them the published key with the loaded buffer |
| LruProtocol.StillTheKeys | storage/block.cc:82-97 | the buffer handed out for a key, which is read without a lock, stays the key's and is written by no load as long as the key stays cached, in every interleaving |
| LruProtocol.FreeInLine | storage/lru_cache.h:201-232 | in every interleaving without a change of the limit a free buffer with k before it stays in line: after m misses, m at most k, it has k - m before it |
| LruProtocol.EvictionHandsOn | storage/lru_cache.h:482-499 | in every run the buffer of an evicted key is kept iff the pool is within its limit, and then a miss gets it iff as many misses came between as there were free buffers |
| LruProtocol.HandOnRun | storage/lru_cache.h:394-499 | from every initial state a run in which a key is loaded and evicted and another key is loaded into its buffer |
| LruCache.BlockCache.Get | storage/lru_cache.h:364-392 | found iff cached, with the cached bytes; nothing is lost; a hit is counted and moves the key as TouchOrder says |
| LruCache.BlockCache.EvictOverflow | storage/lru_cache.h:577-608 | the eviction loop does what the one-step description says |
| LruCache.BlockCache.Evict | storage/lru_cache.h:482-499 | the cache without that key |
| LruCache.BlockCache.SetOrGet | storage/lru_cache.h:394-445 | the cached bytes if there are any, else the loaded ones, which are then cached at the young end of the queue; other keys keep their bytes, and only the oldest may be gone |
| BlockLayout.ItemsReadBack | storage/block.h:45-50 | whatever is written, every item and the header are read back iff the last item begins below 4 GiB, header included, because positions have 32 bits |
| BlockLayout.TableFits | table/table.cc:131-135 | a table has blocks of as many whole rows as 64 KB hold, and 500000 rows and 400000 keys per segment; its rows are read back iff a row has at most 8589 bytes |
| BlockLayout.TableOverwrites | table/table.cc:131-135 | with rows of 8590 bytes row 499997 is written inside row 0 |
| BlockLayout.VectorFits | vector/mmap_raw_vector.cc:38-52 | segments of vectors of at least 30 bytes do so, because their size is cut; shorter vectors iff the last one begins below 4 GiB |
| BlockLayout.VectorOverwrites | vector/mmap_raw_vector.cc:38-52 | with vectors of 8 bytes and the longest segments the last vector is written into the header |
| BlockLayout.KeysDistinct | storage/block.cc:151-153 | 32-bit block keys of all segments are distinct iff no multiple of seg_block_capacity_ comes within a segment's number of blocks of 0, modulo 2^32 |
| BlockLayout.KeysFit | storage/block.cc:151-153 | with as many blocks as keys: iff the number of segments times seg_block_capacity_ is at most 2^32 |
| BlockLayout.KeysWrap | vector/mmap_raw_vector.cc:42-42 | with a capacity of 2000000 segments 0 and 2^25 share their keys |
| BlockLayout.TableKeys | table/table.cc:131-135 | the keys of a table are distinct for every number of documents that fits an int |
| BlockLayout.VectorKeys | vector/mmap_raw_vector.cc:43-50 | the keys of vectors are distinct up to a thousand million vectors in segments that were cut, and iff there are at most 2147 segments in others |
| BlockStore.Refreshed | storage/block.cc:72-75 | every block below the recomputed last_bid_in_disk_ is complete |
| BlockStore.AppendCoherent | storage/segment.cc:296-301 | appending items changes no cached block |
| BlockStore.UpdateCoherent | storage/block.cc:124-144 | after an update with no overlapping block cached, every cached block still agrees with the file |
| BlockStore.BlockFile.Append | storage/segment.cc:296-301 | items go behind the flushed ones at positions below 4 GiB; flushed bytes and the cache stay as they are |
| BlockStore.BlockFile.ReadChunk | storage/block.cc:60-120 | the part of a read inside one block, from the cache if the block is complete, which a wholly flushed one then is, and from the file otherwise |
| BlockStore.BlockFile.Read | storage/block.cc:55-122 | reading flushed bytes returns the bytes of the file |
| BlockStore.BlockFile.EvictRange | storage/block.cc:127-142 | no block overlapping the written bytes stays cached, and nothing else is lost |
| BlockStore.BlockFile.Update | storage/block.cc:124-144 | the file has the new bytes and no cached block disagrees with it |
| BlockStore.BlockFile.Run | storage/block.cc:55-153 | over every sequence of new segments, appends, reads and updates the answers and files are those of plain files without a cache |
| StringHeap.ExtendCapacity | storage/segment.cc:303-314 | the capacity doubles until the string fits with a byte to spare, and no further |
| StringHeap.AddString | storage/string_block.cc:83-99 | earlier bytes and block starts are unchanged and the string lies wholly inside the last block; the heap stays in order (no block longer than MAX_BLOCK_SIZE, none left before the next string did not fit) iff the 32-bit offset does not wrap; in either case Read returns every earlier string and this one |
| StringHeap.HeapBlocks | storage/string_block.cc:89-96 | two blocks in a row hold more than a block, so the 32 bits of the offset bound the number of blocks |
| StringHeap.BlockHasKey | storage/block.cc:151-153 | with enough keys for 4 GiB every block of a segment has a key of its own |
| StringHeap.TableStrings | table/table.cc:131-135 | the layout of a table has enough keys for its strings, whatever its item length up to 64 KB |
| StringHeap.ReadableIff | storage/string_block.cc:101-164 | Read from the disk, with its 32-bit positions and lengths, returns a string iff the string lies in its place |
| StringHeap.EarlierAfterWrap | storage/segment.cc:303-326 | after the offset has wrapped and one more string was added, Read returns an earlier string iff the new bytes agree with it wherever they fall into its place |
| StringHeap.WrapLosesIff | storage/segment.cc:303-326 | then Read returns all earlier strings of the segment iff the new string repeats the bytes that lie where it is put |
| StringHeap.StaysStored | storage/string_block.cc:83-99 | a stored string stays where its row says, whatever is written later |
| StringHeap.GrownImage | storage/string_block.cc:112-138 | the cached image of a complete block stays right when strings are added |
| StringHeap.Fetched | storage/string_block.cc:166-178 | loading a block never exceeds a cache buffer, so it is never refused |
| StringHeap.StringStore.Add | storage/segment.cc:303-326 | the string is recorded; the store stays in order iff the string file stays below 4 GiB; Read returns every string of the segment in either case |
| StringHeap.StringStore.AddAfterWrap | storage/segment.cc:303-326 | after a string that wraps the offset, the next one leaves every string readable iff it repeats the bytes where it is put |
| StringHeap.StringStore.Get | storage/string_block.cc:101-164 | every string ever added is read back, from the cache or the file |
| AsyncWriter.JoinIsBoth | storage/async_writer.cc:94-107 | two contiguous writes of whole items to one file, done one after the other, equal one joined write: data, header size and counter |
| AsyncWriter.Device.Flush | storage/async_writer.cc:96-97 | the data is in the file before the counter covers it, at every intermediate state |
| AsyncWriter.WriteGathered | storage/async_writer.cc:94-114 | writing what was gathered leaves all writes before the current one done, each as if alone, and counts no unwritten item |
| AsyncWriter.Batch | storage/async_writer.cc:71-114 | a batch of contiguous whole-item writes ends as if each were done alone, never overruns the buffer, and never counts an unwritten item |
| AsyncWriter.Handler | storage/async_writer.cc:56-121 | the same for the whole queue, however it is cut into batches; bytes 5 to 8 of every file written are its size, lowest byte first, which counts the items written modulo 2^32; every byte behind the header is that of the last write over it, and all others are as they were |
| AsyncWriter.FileAfter | storage/async_writer.cc:50-54 | the bytes and the size of one file after any writes, one by one |
| Bitmap.SetTest | util/bitmap.cc:28 | setting a bit changes that bit only |
| Bitmap.OnIs | util/bitmap.cc:24-32 | bit k of a byte counts from the lowest |
| Bitmap.ClearTest | util/bitmap.cc:30 | unsetting a bit changes that bit only |
| Bitmap.Create | util/bitmap.cc:14-22 | a bitmap of the size with no bit set |
| Bitmap.CopyWords | table/field_range_index.cc:112-117 | the words in the target range are those of the source, the others unchanged |
| Bitmap.OrWords | table/field_range_index.cc:733-738 | the words in the target range are ORed with the source, the others unchanged |
| Bitmap.AndWords | table/field_range_index.cc:1208-1230 | the words in the target range are ANDed with the source, the others unchanged |
| Bitmap.CopiedIds | table/field_range_index.cc:1187-1197 | moving words between bitmaps with different first ids moves the ids with them |
| Bitmap.OredIds | table/field_range_index.cc:733-738 | ORing words at an offset is the union of the id sets |
| Bitmap.AndedIds | table/field_range_index.cc:1199-1231 | ANDing words from an offset is the intersection of the id sets |
| RangeNode.AddDense | table/field_range_index.cc:77-174 | the set with the new id; bounds word-aligned and containing it; size exact; only growth at the high end needs an id below 2^30 |
| RangeNode.GrowDown | table/field_range_index.cc:97-128 | growing at the low end moves the words up and loses no id |
| RangeNode.GrowUp | table/field_range_index.cc:129-165 | growing at the high end, with twice the room, loses no id |
| RangeNode.AlignedTwice | table/field_range_index.cc:132-133 | the doubled upper bound fits an int iff the id is below 2^30 |
| RangeNode.TakesExactly | table/field_range_index.cc:77-175 | an id is refused iff the upper bound of its word, or the doubled one of a bitmap that has ids and must grow to it, does not fit an int |
| RangeNode.AddSparse | table/field_range_index.cc:176-210 | the list with the new id, doubled when full; bounds and size exact |
| RangeNode.ConvertToSparse | table/field_range_index.cc:235-265 | the same set as a list of exactly size_ ids, so the scan never stops early |
| RangeNode.ConvertToDense | table/field_range_index.cc:267-293 | the same set as a bitmap; no listed id lies outside the bounds |
| RangeNode.Add | table/field_range_index.cc:212-233 | whichever form it takes, the set with the new id; a bitmap iff the range is wide and the ids are many enough; bounds widened to the id; a bitmap always spans more than 100000 ids |
| RangeNode.DeleteDense | table/field_range_index.cc:295-304 | the set without the id, size one less, bounds and form as before |
| RangeNode.DeleteSparse | table/field_range_index.cc:306-324 | the set without the id, the gap closed, size one less, bounds and form as before |
| RangeNode.Run | table/field_range_index.cc:77-332 | over every sequence of adding absent and deleting present ids, through every change of form and every growth, the node is the set, with its cardinality and word-aligned bounds; it ends early only when a bitmap would have to grow to an id from 2^30 on |
| RangeNode.EmptiedBitmap | table/field_range_index.cc:212-332 | a bitmap made by adds and emptied by deletes stays a bitmap over its old bounds |
| KeyOrder.ReverseEndian | table/field_range_index.cc:515-524 | the bytes in reverse with the sign bit flipped |
| KeyOrder.EncodeValue | table/field_range_index.cc:515-524 | the key read as a big-endian number is the signed value moved up by half the range |
| KeyOrder.FourSigned | table/field_range_index.cc:515-524 | four bytes, the lowest first, are the number in two's complement |
| KeyOrder.OrderEmbedding | table/field_range_index.cc:515-524 | for every width, x is less than y iff the key of x precedes that of y bytewise; keys are equal iff the numbers are |
| Tags.Split | util/utils.cc:39-57 | the nonempty runs between delimiters, in order |
| Tags.OneTag | table/field_range_index.cc:1063-1073 | a tag is its own only tag, so a filter split per tag is not split further |
| Tags.SplitJoin | util/utils.cc:39-57 | splitting joined tags gives the tags back |
| Tags.SplitsAtOne | util/utils.cc:39-57 | two tags with a byte 1 between are split there |
| Tags.CutAtZero | table/field_range_index.cc:566-575 | the tags a value is indexed under are all its tags iff it has no byte 0 |
| Tags.CutLoses | table/field_range_index.cc:566-575 | the value A0B is indexed under A, and not under its one tag |
| RangeResult.HasIsDocs | table/range_query_result.h:54-68 | Has is membership in the bitmap's ids, or its negation for a Not result, also outside the bounds |
| RangeResult.RangeSealed | table/range_query_result.h:105-110 | word-aligned bounds survive SetRange, which aligns to bytes only |
| RangeResult.MergeNode | table/field_range_index.cc:719-755 | merging a node adds exactly its ids |
| RangeResult.Gather | table/field_range_index.cc:707-757 | the merge stays inside the bitmap iff every bitmap and every non-empty list lies inside the bounds; then the result holds exactly the ids some node holds, and the total of the sizes |
| RangeIndex.InsertToBt | table/field_range_index.cc:535-560 | the key's node gains the document, if it can take the id, no other node changes, the keys stay sorted |
| RangeIndex.DeleteFromBt | table/field_range_index.cc:592-603 | the key's node loses the document, no other node changes |
| RangeIndex.Scan | table/field_range_index.cc:674-690 | exactly the keys between the two bounds |
| RangeIndex.ScanMeaning | table/field_range_index.cc:626-698 | a document is in a scanned node iff lower <= value <= upper as signed numbers |
| RangeIndex.TagBounds | table/field_range_index.cc:807-813 | the bounds over the non-empty nodes, attained by two of them |
| RangeIndex.OutsideHull | table/field_range_index.cc:826-839 | the word loop stays inside the bitmap iff the node's bounds lie inside those of the result |
| RangeIndex.HullSpans | table/field_range_index.cc:807-844 | a merge over the bounds of the non-empty nodes stays inside iff these span every emptied bitmap |
| RangeIndex.EmptiedOutside | table/field_range_index.cc:807-839 | adds and deletes make two nodes for which that fails: an emptied bitmap outside the bounds of the other node |
| RangeIndex.OneTagFits | table/field_range_index.cc:768-857 | a search for a single tag is always safe and its total fits an int |
| RangeIndex.FieldRangeIndex.Add | table/field_range_index.cc:526-581 | the document is in exactly the nodes of its keys: its number, or its tags before a byte 0 |
| RangeIndex.FieldRangeIndex.Delete | table/field_range_index.cc:583-624 | the document is in no node, the others as before |
| RangeIndex.FieldRangeIndex.SearchRange | table/field_range_index.cc:626-766 | 0 iff there is no key between the bounds, which is only if no document lies there; else the result holds exactly those that do |
| RangeIndex.FieldRangeIndex.SearchTags | table/field_range_index.cc:768-857 | stays inside its bitmap, with a total that fits an int, iff the non-empty nodes span every emptied bitmap and the total is small enough; then 0 iff no document has any of the tags; else the result holds exactly those that do |
| FilterSearch.Intersect | table/field_range_index.cc:1151-1234 | 0 only if the results have no id in common; else exactly the common ids |
| FilterSearch.SplitMeaning | table/field_range_index.cc:1063-1073 | an And filter on tags is the conjunction of one filter per tag |
| FilterSearch.MultiHas | table/range_query_result.h:170-181 | true iff there is a result and all of them have the document |
| FilterSearch.MultiFieldsRangeIndex.Expand | table/field_range_index.cc:1053-1075 | refused iff some field has no index; else the split filters accept exactly what the filters ask, and the searches they make are safe iff those of the filters are, an And filter on tags in any case |
| FilterSearch.MultiFieldsRangeIndex.SearchSingle | table/field_range_index.cc:1079-1096 | a single filter, unless its search by tags leaves the bitmap: its result, negated for Not; -1 when a Not filter matches nothing |
| FilterSearch.MultiFieldsRangeIndex.SearchMany | table/field_range_index.cc:1098-1148 | several filters, unless a search by tags leaves the bitmap: And and Or intersected, Not kept beside |
| FilterSearch.MultiFieldsRangeIndex.Search | table/field_range_index.cc:1049-1149 | fails exactly if a search by tags leaves its bitmap, or its total does not fit an int, before a filter that finds nothing ends the search; else negative: a field has no index, or every document satisfies all filters; 0: none does; positive: Has holds exactly for those that satisfy every And, Or and Not filter |
| VectorResults.FirstsMeaning | vector/vector_manager.cc:357-400 | the kept hits have no document twice, every document hit, and each its first hit |
| VectorResults.VectorResult.Dedup | vector/vector_manager.cc:364-397 | in place: the kept hits at the front, the other slots empty, other requests untouched |
| VectorResults.VectorResult.Turn | common/gamma_common_data.h:297-312 | one turn of the partition loop: a row is never lost, smaller ones end left, greater ones right |
| VectorResults.VectorResult.Partition | common/gamma_common_data.h:289-318 | the slots are permuted, all four columns together, around a pivot |
| VectorResults.VectorResult.QuickSort | common/gamma_common_data.h:320-327 | the slots are permuted and sorted by document id, the rest untouched |
| VectorResults.VectorResult.SortByDocid | common/gamma_common_data.h:329-332 | every request's slots hold the same rows, sorted |
| VectorMerge.Prepare | vector/vector_manager.cc:357-400 | dedup and sort make a list that holds exactly the documents hit, ascending, each with its first hit |
| VectorMerge.Seek | common/gamma_common_data.h:265-286 | the first row at or behind the document, or -1 when there is none; the cursor never skips one |
| VectorMerge.NoteKeeps | vector/vector_manager.cc:501-520 | a match is counted and its hit noted in a free document slot below topn |
| VectorMerge.LeapKeeps | vector/vector_manager.cc:521-524 | leaping to a greater document skips no common one |
| VectorMerge.Step | vector/vector_manager.cc:495-529 | one seek keeps the loop invariant; at the end of a list no common document is left |
| VectorMerge.Merge | vector/vector_manager.cc:483-532 | the loop ends and emits exactly the documents common to all lists, ascending, once each, with the sum of their boosted scores and the hit of each field, at most topn |
| VectorFields.MergedIsAnswer | vector/vector_manager.cc:357-532 | merged lists made from raw hits hold exactly the documents that every field hit, each with the distance of its first hit in every field, times the boost if there is one, the source of that vector, and the sum of these scores |
| VectorFields.SearchFields | vector/vector_manager.cc:404-532 | one request from the raw hits of all fields to the documents: exactly those that every field hit, ascending; the score of a field is the distance of the first hit, times the boost if there is one, the source that of the vector hit, and the score of the document the sum |
| RingBuffer.ChunkInside | vector/vector_buffer_queue.cc:118-131 | a chunk never crosses the end of the buffer |
| RingBuffer.UpdateHits | vector/vector_buffer_queue.cc:213-223 | an update replaces the vector of its id iff that is among the last max_vector_size_ pushed |
| RingBuffer.UpdateOverwrites | vector/vector_buffer_queue.cc:213-223 | with one slot and two pushes an update of the first vector overwrites the second |
| RingBuffer.PendingOverwritten | vector/vector_buffer_queue.cc:213-223 | push, pop, push, then an update of id 0 in a buffer of one slot: the vector that waits to be indexed is the updated one |
| RingBuffer.VectorBufferQueue.Init | vector/vector_buffer_queue.cc:53-86 | refused iff the chunks do not divide the size |
| RingBuffer.VectorBufferQueue.WaitFor | vector/vector_buffer_queue.cc:232-252 | whatever other threads do between two looks: succeeds at the first look that finds the condition, and fails only if every look allowed by the timeout found it false |
| RingBuffer.VectorBufferQueue.Await | vector/vector_buffer_queue.cc:232-252 | with no other thread, succeeds iff the condition holds and the timeout is -1 or positive |
| RingBuffer.VectorBufferQueue.Push | vector/vector_buffer_queue.cc:88-105 | appended iff the length fits and there is room; no pending vector is overwritten |
| RingBuffer.VectorBufferQueue.PushBatch | vector/vector_buffer_queue.cc:107-134 | a wrong length or an empty batch is a bad argument; else all vectors are appended in order, chunk by chunk, or none |
| RingBuffer.VectorBufferQueue.Pop | vector/vector_buffer_queue.cc:136-151 | a wrong length is a bad argument; else the oldest pending vector |
| RingBuffer.VectorBufferQueue.PopBatch | vector/vector_buffer_queue.cc:153-177 | a wrong length or number is a bad argument; else the oldest num pending vectors in order, around the end of the buffer if need be |
| RingBuffer.VectorBufferQueue.GetVector | vector/vector_buffer_queue.cc:179-198 | succeeds iff the id is among the last max_vector_size_ pushed, with its latest value |
| RingBuffer.VectorBufferQueue.Update | vector/vector_buffer_queue.cc:213-223 | the newest vector in the slot of the id is replaced, no other |
| RingBuffer.VectorBufferQueue.Run | vector/vector_buffer_queue.cc:88-177 | over every mix of pushes, pops, reads and updates, single and batched, with any timeout under which the calls return: the vectors pushed, the number popped and every reply are those of a queue of bounded size |
| RingBuffer.VectorBufferQueue.Do | vector/vector_buffer_queue.cc:88-223 | one call is one step of the queue, with its reply: a push appends iff length and room fit, a pop takes the front iff enough is pending |
| RingBuffer.FirstInFirstOut | vector/vector_buffer_queue.cc:88-177 | over every run without updates: what was pending and what the successful pushes brought comes out in that order, and the rest is pending |

## Left out

- HNSW concurrency: insertions and queries run one after the other; the locks per link list and the shared mutex are not modelled.
- HNSW storage: link lists are sequences, not packed memory; saving, loading and resizing the index only move these bytes.
- Deletion marks while building: with marks an insertion can find no candidate and an update of a marked entry point can offer it itself; the model reports both (`ok` is false) and states the rest for the other cases.
- HnswConnect.Connect: requires a non-empty candidate set, because the original reads the first selected neighbour; a link list has no slots behind its count, so the throw on a non-zero one (hnswalg.h:462-463) has no counterpart.
- Code bytes of the inverted index: in its slot a code is a value, not a stretch of one flat byte array; `AddKeys` takes the flat bytes and compares their number.
- InvertedIndex.RealTimeMemData.Update: requires the code of a vector with a position to have the width of the index, because the original asserts it, and a document that is not deleted, because its dead slot would be counted twice.
- InvertedIndex.RealTimeMemData.Compactable: compares exact quotients; rounding of the float division can decide a tie differently.
- Readers beside compaction: a reader may see the new arrays with the old size, so reader safety is stated for runs without compaction, and with sequentially consistent memory; one writer at a time masks, adds or overwrites.
- InvertedIo.ReadInvertedLists: requires an index into which nothing was put, as the original loads only then; a size that needs more than 32 bits of position ends in `Overflow`.
- Cache paths no caller uses: Set, Get2, Set2, and SetImpl on a key that has a cell.
- Failing loads of a cache block: the failing path can give one buffer back twice; block lengths are proved small enough that a load is never refused.
- AlterCacheSize: its two effects are separate actions of the cache protocol; the computation of the sizes from megabytes is not modelled.
- BlockStore.BlockFile.Read: one thread; truncation, compression and a missing cache are not modelled; it is stated for layouts whose last item begins below 4 GiB, which `ItemsReadBack` proves to be exactly those that lose nothing.
- BlockStore.BlockFile.Run: a new segment needs keys that are apart from those of the others (`KeysDistinct`); `TableKeys` and `VectorKeys` prove it of the callers.
- StringHeap.StringStore.constructor: requires keys for 4 GiB of strings, which `TableStrings` proves of every table.
- StringHeap.StringStore.AddAfterWrap: what Read returns from the disk; a block that is still cached is returned as it was before the overwriting.
- Reopening a segment: the list of block starts and the header fields read back at load are not modelled.
- AsyncWriter.Handler: requires adjacent writes to one file to be contiguous and to have whole items, as the segments issue them; the queue's waiting and the thread are not modelled.
- Bitmap nodes from 2^30 on: the doubled upper bound would not fit an int there (`RangeNode.AlignedTwice`), so a bitmap grows to ids below that only.
- RangeIndex.FieldRangeIndex.Add: requires nodes that take the id (`RangeNode.Takes`), which every node does below 2^30.
- Freeing replaced buffers of nodes: the recovery queue only delays a free.
- The update queue of the filter index: an add reads its key when it is dequeued, a delete when it is enqueued; operations here carry their key.
- RangeIndex.FieldRangeIndex.SearchTags: promises nothing about the documents when the merge leaves the bitmap or the total does not fit an int (`ok` is false).
- Keys of FLOAT and DOUBLE fields: the byte order is not the order of negative numbers; the order results are for INT and LONG.
- RangeIndex.FieldRangeIndex.Delete: the document is one that was added with the value; the original logs any other and leaves its node alone, except that a bitmap counts its size down for an absent id inside its bounds.
- The node objects of a field index are values in a map; sharing of a node between maps does not arise.
- VectorMerge.Merge: scores are real sums, so the order of additions does not matter; the ranking of the merged documents by score is a library sort.
- Several vectors per document: the document of a vector is an arbitrary function, which covers it; the identity is what the engine allows.
- Ring buffer locks and waiting threads: `WaitFor` is stated for whatever the looks find; the calls of the queue use it while no other thread changes the queue, and a call that waits for ever for something that never comes does not return.
- RingBuffer.VectorBufferQueue.PushBatch: takes the vectors of a batch with their common length, where the original takes one stretch of bytes.
- RingBuffer.VectorBufferQueue.Pop: the check of the caller's buffer against a null pointer, here and in the other calls, is not modelled, because vectors are values.
- RocksDB, mmap and the file system wrappers, the table and engine layers, quantizers and distance kernels, the Go bindings.
