# Witty profiler: a verified model

Dafny models of the parts of the profiler where correctness is hardest to see from one function:
the double-buffered counting protocol between the eBPF handlers and the rotator, the topology
expansion, the wire formats, the log ring, and the tables kept up to date incrementally. All proofs
are by the Dafny verifier: `dafny verify dfyconfig.toml`.

- **Counting protocol** (`CacheMissProtocol`, `CacheMissSteps`, `CacheMissInvariant`, `CacheMissAccounting`,
  `CacheMissFates`, `BpfTable`): every shared-memory access of the handlers and of the rotator is one step, a run is any
  interleaving, and every event is followed to the row, drop, cell or loss it ends in.
- **Map walks** (`MapWalk`): the same maps when nobody else writes them: clear, collect, and the
  fused walk of the socket sniffer.
- **Topology** (`Bfs`, `Edges`, `Graphs`, `Topology`, `CollectorSet`, `CommonParent`): breadth-first expansion
  with edge merging, the graph container and the graph of an expansion, type dispatch with its cache, and the memoised parent lookup.
- **Formats** (`MsgPack`, `PosixMq`, `RangeString`, `Text`, `Sorting`, `Sequences`): writers, readers and their round trips.
- **Log ring** (`RotatedFileStorage`).
- **Tables** (`Grouping`, `Inbox`, `SchedSniffer`, `CacheSniffer`): buffered frames merged into grouped ones.
- **NUMA** (`NumaDeployment`, `Numactl`, `NumaClusters`, `ThreadFilter`): CPU ownership, the distance matrix, clustering, thread thresholds.

Where the code loops or updates in place, a method does so too and is proved against a function of
the old state; the results below are proved about those functions, and the functions that decide a
result are tied to the code's behaviour a second time without being named: field by field, with the code's constants, or by how
it treats one element and two lists joined.

Findings. Each is a property one might expect and that the code does not have; the lemma gives the
exact condition under which it holds, or a run that breaks it.

- A handler overtaken by a flip can lose its event without any drop being reported
  (`CacheMissAccounting.StraddlerCanLose`).  It does so exactly when its second lookup finds no cell
  (`CacheMissFates.RelookupLostIff`), or when at its add the cell is gone or already passed by the rotator
  (`CacheMissFates.AddLostIff`); otherwise the event is emitted.
- A drop counted between the reading and the resetting of the drop counter is never reported
  (`CacheMissAccounting.DropCanBeForgotten`); the shortfall is exactly these (`CacheMissAccounting.DropsReported`).
- An update whose frames are all empty wipes the cache-miss table, recent rows included: the
  maximum of no timestamps compares with nothing (`CacheSniffer.RunsKeepRecentIff`). The monitor in the
  repository publishes a frame only right after it appended an entry
  (collector/python/src/witty_profiler/edge/cpu/cache_monitor.py:252-273), so this input reaches
  `_record_df` only from another caller.
- The event structure of the message reader is declared without positional decoding
  (collector/python/src/witty_profiler/edge/cpu/cache_monitor.py:384-390) while the writer writes arrays.
  What the reader returns depends on the decoder: everything if and only if it takes arrays by position
  (`MsgPack.StreamReadIff`), nothing but a failure at the first entry if it takes none (`MsgPack.ArraysRefused`).
- With no involuntary switch counted the thread filter keeps every thread (`ThreadFilter.BoundIff`).
  A thread whose status file is gone keeps its counters at -1; if that holds of all of few threads, only
  recorded run time can keep one (`ThreadFilter.KeepsSomeIff`, `ThreadFilter.UnreadKeptIff`).
- A type that some collector declares hides the collectors that declare only its ancestors
  (`CollectorSet.AnswerIsScanIff`, `CollectorSet.DeclaredHides`), and a collector added later may never be asked
  (`CollectorSet.AddedIsSeenIff`).
- The end of a session releases the current file, which need not be the one it was handed
  (`RotatedFileStorage.StopExactIff`, `RotatedFileStorage.StopBreaks`). A clear inside a session keeps that
  session's text (`RotatedFileStorage.PromiseIff`), moves the current file away from it, and can so end rotation
  for good (`RotatedFileStorage.ClearInsideSticks`): exactly when the flag of file 1 is set
  (`RotatedFileStorage.TurnsAgainIff`). Overlapping sessions keep the order of the text exactly when each append
  commutes with what stands after its file (`RotatedFileStorage.PromiseIff`, `RotatedFileStorage.OverlapBreaks`).
- Messages still in the pipe when the monitor process is found ended are not read (`MsgPack.StreamReadIff`).
- The array header writer cuts sizes above 65535 to 16 bits (`MsgPack.ArrayHeaderIff`); the monitor
  itself writes only size 6.
- Entities listed both as seeds and as ignored still appear among the returned nodes: the nodes are the seeds
  followed by the visited entities (`Bfs.Collector.ExpandGraphBfs`).

Where a comment in the code says otherwise, the model follows the code: the comment on
`lookup_extend_parent` speaks of one level of parents, but a common parent is followed without spending
the allowance, and the allowance is configurable; the notes on merging graphs speak of deduplication
that does not depend on order, but of two edges with one id the last listed wins (`Graphs.LastIsKept`).

## Model

| member | source | states |
|---|---|---|
| `CacheMissInvariant.ActionKeeps` | collector/python/src/witty_profiler/tools/ebpftools/cache_monitor_c/ebpf/cache_miss_monitor.bpf.c:67-120 | every step a handler takes (filter, read of `active_map`, lookup, insertion, failed insertion and drop, second lookup, atomic add) keeps the seven-part invariant, whatever the rotator is in the middle of |
| `CacheMissInvariant.TurnKeeps` | collector/python/src/witty_profiler/tools/ebpftools/cache_monitor_c/main.cpp:479-497 | every step of the rotator (flip, each read, each delete, drop read and reset, output) keeps the invariant, whatever the handlers are in the middle of |
| `CacheMissInvariant.ReachableInv` | collector/python/src/witty_profiler/tools/ebpftools/cache_monitor_c/main.cpp:469-507 | the invariant holds in every state of every interleaved run |
| `CacheMissAccounting.Accounting` | collector/python/src/witty_profiler/tools/ebpftools/cache_monitor_c/ebpf/cache_miss_monitor.bpf.c:67-120 | exact accounting in every reachable state, for each thread group, thread, CPU and event kind given field by field: the events the filter lets pass = sums of the emitted rows + what both maps still hold + drops + handlers in flight + lost |
| `CacheMissAccounting.RowsExact` | collector/python/src/witty_profiler/tools/ebpftools/cache_monitor_c/main.cpp:156-167 | each row's two counters are the sizes of the sets of events that were copied into it; those events are of the row's thread group, thread and CPU and passed the filter, and no event is in two rows |
| `CacheMissAccounting.EmittedFields` | collector/python/src/witty_profiler/tools/ebpftools/cache_monitor_c/ebpf/cache_miss_monitor.bpf.c:67-90 | in every reachable state an emitted event's row carries the event's own thread group, thread and CPU |
| `CacheMissAccounting.SkippedIff` | collector/python/src/witty_profiler/tools/ebpftools/cache_monitor_c/ebpf/cache_miss_monitor.bpf.c:78-84 | an event is skipped if and only if a process, a thread or a CPU is asked for that is not the event's |
| `CacheMissAccounting.OnlyStraddlersLose` | collector/python/src/witty_profiler/tools/ebpftools/cache_monitor_c/ebpf/cache_miss_monitor.bpf.c:92-117 | an event is lost only by a handler that a flip overtook after it had chosen its map; with no such handler nothing is lost |
| `CacheMissAccounting.WindowComplete` | collector/python/src/witty_profiler/tools/ebpftools/cache_monitor_c/main.cpp:479-497 | once a retired map is collected, every event of a finished handler that never straddled is in a row (an output one when the rotator sleeps), was dropped, or sits in the map now being filled |
| `CacheMissAccounting.DropsReported` | collector/python/src/witty_profiler/tools/ebpftools/cache_monitor_c/main.cpp:136-149 | reported drops never exceed the real ones, and fall short by exactly what came between the read and the reset plus what is not read yet |
| `CacheMissAccounting.DropCanBeForgotten` | collector/python/src/witty_profiler/tools/ebpftools/cache_monitor_c/main.cpp:493-494 | for every filter and matching event there is a run in which a drop counted between the read and the reset is never reported |
| `CacheMissSteps.StraddledIff` | collector/python/src/witty_profiler/tools/ebpftools/cache_monitor_c/main.cpp:479-487 | over any step, a handler is marked as overtaken exactly when a flip comes while it is busy with the map it chose; marks are never taken back |
| `CacheMissSteps.LookupsMean` | collector/python/src/witty_profiler/tools/ebpftools/cache_monitor_c/ebpf/cache_miss_monitor.bpf.c:92-109 | a handler keeps to the map that was active when it read the flag and to the key made of its event's thread group, thread and CPU: each lookup finds the live cell of that key or nothing |
| `CacheMissSteps.AddMeans` | collector/python/src/witty_profiler/tools/ebpftools/cache_monitor_c/ebpf/cache_miss_monitor.bpf.c:111-117 | the add raises the one counter of the event's kind in its cell by one and nothing else, or finds its cell gone |
| `CacheMissSteps.CapacityKept` | collector/python/src/witty_profiler/tools/ebpftools/cache_monitor_c/ebpf/cache_miss_monitor.bpf.c:33-49 | in every reachable state neither map holds more than 65535 entries |
| `CacheMissFates.CountedLostIff` | collector/python/src/witty_profiler/tools/ebpftools/cache_monitor_c/main.cpp:479-497 | from any reachable state on, a counted event that is settled in the end is lost if and only if the rotator has already passed its cell (copied it, or is committed to deleting it); otherwise it is emitted |
| `CacheMissFates.AddLostIff` | collector/python/src/witty_profiler/tools/ebpftools/cache_monitor_c/ebpf/cache_miss_monitor.bpf.c:111-117 | the moment of the atomic add decides: the event is lost if and only if the handler's cell is gone by then or the rotator has passed it, whatever happens later |
| `CacheMissFates.RelookupLostIff` | collector/python/src/witty_profiler/tools/ebpftools/cache_monitor_c/ebpf/cache_miss_monitor.bpf.c:97-111 | the second lookup loses the event if and only if the key is not in the map any more |
| `CacheMissFates.NotPassedUnlessStraddled` | collector/python/src/witty_profiler/tools/ebpftools/cache_monitor_c/ebpf/cache_miss_monitor.bpf.c:92-117 | a handler that no flip has overtaken adds to a live cell that the rotator has not passed |
| `CacheMissAccounting.StraddlerCanLose` | collector/python/src/witty_profiler/tools/ebpftools/cache_monitor_c/ebpf/cache_miss_monitor.bpf.c:96-117 | for every filter and matching event there is a run in which the event ends neither counted nor reported as a drop, so the exclusion of straddlers is needed |
| `CacheMissFates.StraddlerCanKeep` | collector/python/src/witty_profiler/tools/ebpftools/cache_monitor_c/ebpf/cache_miss_monitor.bpf.c:96-117 | for every filter and matching event there is a run in which a straddler's event is emitted, so straddling alone does not decide |
| `MapWalk.OrderMeetsOnce` | collector/python/src/witty_profiler/tools/ebpftools/cache_monitor_c/main.cpp:122-134 | the bucket order a walk follows meets every key of the map exactly once |
| `MapWalk.OrderAscends` | collector/python/src/witty_profiler/tools/ebpftools/cache_monitor_c/main.cpp:122-134 | ... and in ascending order of the keys' places |
| `BpfTable.NextKeyMeans` | collector/python/src/witty_profiler/tools/ebpftools/cache_monitor_c/main.cpp:122-134 | what the next key is: after a key that is there the nearest later one, after an absent key or none the first of all |
| `MapWalk.Clear` | collector/python/src/witty_profiler/tools/ebpftools/cache_monitor_c/main.cpp:122-134 | fetching the next key before deleting the current one ends, visits the keys in order once each, and leaves the map empty |
| `MapWalk.CollectCounts` | collector/python/src/witty_profiler/tools/ebpftools/cache_monitor_c/main.cpp:156-184 | the walk and the sort give the collection of the map |
| `MapWalk.CollectedExact` | collector/python/src/witty_profiler/tools/ebpftools/cache_monitor_c/main.cpp:156-184 | the collection holds exactly one entry for each key, its two counters those of the key's cell, and nothing else |
| `MapWalk.CollectedInOrder` | collector/python/src/witty_profiler/tools/ebpftools/cache_monitor_c/main.cpp:169-181 | of two entries the earlier has the smaller CPU, or the same and the smaller thread group, or the same and the smaller thread |
| `MapWalk.CollectedIgnoresBuckets` | collector/python/src/witty_profiler/tools/ebpftools/cache_monitor_c/main.cpp:156-184 | two maps with the same contents are collected alike, however their buckets are laid out |
| `MapWalk.DumpFlows` | collector/python/src/witty_profiler/tools/ebpftools/socket_sniffer_c/main.cpp:70-114 | the fused walk emits what collecting the whole map in order would emit, returns the number of keys, and leaves the map empty if asked to clear and untouched otherwise |
| `MapWalk.DumpExact` | collector/python/src/witty_profiler/tools/ebpftools/socket_sniffer_c/main.cpp:82-103 | a flow is emitted exactly once if its byte sum modulo 2^64 is not zero, with the sums of its bytes and packets over all CPUs modulo 2^64, and never otherwise |
| `MapWalk.DumpInOrder` | collector/python/src/witty_profiler/tools/ebpftools/socket_sniffer_c/main.cpp:76-103 | flows are emitted in the order of their keys' places |
| `MapWalk.SumsSplit` | collector/python/src/witty_profiler/tools/ebpftools/socket_sniffer_c/main.cpp:84-93 | bytes are summed with bytes and packets with packets: the sums over a list of CPUs are those over its parts |
| `MapWalk.BytesConserved` | collector/python/src/witty_profiler/tools/ebpftools/socket_sniffer_c/main.cpp:84-103 | the emitted bytes add up to all bytes in the map, modulo 2^64 |
| `Bfs.Collector.ExpandGraphBfs` | collector/python/src/witty_profiler/collector/collector_base.py:126-183 | the expansion ends without a cap on any closed finite universe; each entity is asked for neighbours at most once and never if initially ignored; without a cap, or below it, the visited entities are exactly those reachable from the seeds through entities not ignored; visits are in order of hop distance and nothing closer than a visited entity is left out; every edge is the fold of all reports of its id; both ignore sets end as stated |
| `Topology.ExpandToGraph` | collector/python/src/witty_profiler/collector/collector_base.py:126-185 | the expansion down to its last line: the graph returned is sound, its nodes are exactly the seeds, the visited entities and the endpoints of every edge (ignored ones included), and its edges are exactly those of the search, each with its merged weight and traffic |
| `Topology.AssembledNodes` | collector/python/src/witty_profiler/collector/collector_base.py:185 | sorting and building the graph keeps exactly the listed entities and the endpoints of the edges |
| `Topology.AssembledLinks` | collector/python/src/witty_profiler/collector/collector_base.py:185 | sorting and building the graph keeps each edge whole, with its own endpoints, and adds none |
| `Topology.AssembledAscends` | collector/python/src/witty_profiler/collector/collector_base.py:185 | edges stand in strictly ascending order of their ids, and so do the listed nodes, before endpoints that were not listed |
| `Bfs.AfterExpands` | collector/python/src/witty_profiler/collector/collector_base.py:143-175 | after any number of turns of the loop the visits are distinct, reachable, not ignored, in nondecreasing hop distance with nothing nearer missing; with an empty queue everything reachable is visited |
| `Bfs.WithinIffPath` | collector/python/src/witty_profiler/collector/collector_base.py:143-171 | hop distance is what it says: an entity is within k hops if and only if a path of at most k steps leads to it from a seed, each step to a neighbour that a lookup found, past no initially ignored entity |
| `Bfs.TurnMeans` | collector/python/src/witty_profiler/collector/collector_base.py:147-171 | the queue is first in, first out: the head is dropped if ignored or visited, else visited and what its lookup found is appended in order |
| `Bfs.ReportsSplit` | collector/python/src/witty_profiler/collector/collector_base.py:155-173 | the reports merged are those of the visited entities, in visiting order, each list whole |
| `Bfs.TurnSound` | collector/python/src/witty_profiler/collector/collector_base.py:147-175 | one turn of the loop keeps the layer structure of the queue although it may hold duplicates |
| `Bfs.AfterInside` | collector/python/src/witty_profiler/collector/collector_base.py:169-171 | a set closed under neighbours that holds the seeds holds everything ever queued |
| `Bfs.BudgetShrinks` | collector/python/src/witty_profiler/collector/collector_base.py:144-153 | each visit lowers the termination measure: the entities not ignored yet, or the visits left under the cap |
| `Bfs.QueueNeighbors` | collector/python/src/witty_profiler/collector/collector_base.py:169-171 | exactly the neighbours not ignored at that moment are queued, in order, duplicates included |
| `Bfs.AbsorbReports` | collector/python/src/witty_profiler/collector/collector_base.py:173-183 | absorbing the reports of one entity keeps one object per edge id, each the fold of the seed edge and all reports so far, initially ignored ids kept out unless a seed edge has them |
| `Bfs.EdgesIgnoreOrder` | collector/python/src/witty_profiler/collector/collector_base.py:173-183 | two expansions that visit the same entities in any order hold the same edges with the same statistics |
| `Bfs.SeedOrderIrrelevant` | collector/python/src/witty_profiler/collector/collector_base.py:135-183 | without a cap the order of the seeds changes neither the visited entities nor any edge |
| `Edges.DataFlowStats.MergeOther` | collector/python/src/witty_profiler/edge/socket/socket_edge.py:61-69 | merging in place gives the merged statistics of the two old values, also when an object is merged with itself |
| `Edges.SendToSocketEdge.MergeOther` | collector/python/src/witty_profiler/edge/socket/socket_edge.py:89-97 | an edge of another class, with another source node type or another id is refused and changes nothing; otherwise weight (absent counts as zero) and flow are merged |
| `Edges.FoldPermutation` | collector/python/src/witty_profiler/edge/edge.py:90-100 | the merged edge does not depend on the order in which its reports arrived |
| `Edges.FoldConserves` | collector/python/src/witty_profiler/edge/socket/socket_edge.py:61-69 | bytes, packets and weights of the merged edge are the sums over its reports; its times are the earliest start and latest end that some report has |
| `Graphs.BuildSound` | collector/python/src/witty_profiler/graph/graph.py:59-87 | a constructed graph has distinct node and edge ids, exact indexes, and every endpoint among its nodes, for any lists |
| `Graphs.BuildNodesFacts` | collector/python/src/witty_profiler/graph/graph.py:74-84 | the node ids of a constructed graph are exactly the listed ones and those of the endpoints |
| `Graphs.LastIsKept` | collector/python/src/witty_profiler/graph/graph.py:85-87 | of several edges with one id the last listed is the one in the graph |
| `Graphs.LastNodeIsKept` | collector/python/src/witty_profiler/graph/graph.py:72-86 | of several nodes with one id the last listed is the one in the graph ... |
| `Graphs.FirstEndIsKept` | collector/python/src/witty_profiler/graph/graph.py:74-81 | ... and of an id that is not listed, the endpoint met first |
| `Graphs.AddNodeSound` | collector/python/src/witty_profiler/graph/graph.py:97-101 | adding a node keeps the graph sound |
| `Graphs.AddLinkSound` | collector/python/src/witty_profiler/graph/graph.py:103-114 | adding an edge, merged or not, keeps the graph sound and its endpoints present |
| `Graphs.AddLinkExact` | collector/python/src/witty_profiler/graph/graph.py:103-114 | adding an edge adds its id, its endpoints and nothing else, and its weight exactly when it is new or merging is enabled |
| `Graphs.AddLinkAt` | collector/python/src/witty_profiler/graph/graph.py:103-114 | what is held under every id afterwards: a new edge whole; with merging, the old edge with id and endpoints kept and the new weight and traffic merged in; otherwise what was held before |
| `Graphs.RunSound` | collector/python/src/witty_profiler/graph/graph.py:59-114 | every graph reached from a constructed one by any run of additions is sound |
| `Graphs.RunFolds` | collector/python/src/witty_profiler/graph/graph.py:103-114 | with merging enabled throughout, each edge of the graph is the fold of all edges put under its id, traffic and time span included |
| `Graphs.RunConservesWeight` | collector/python/src/witty_profiler/graph/graph.py:103-114 | with merging enabled throughout, after any run each edge weighs what it did plus all weights put under its id |
| `Graphs.Graph.constructor` | collector/python/src/witty_profiler/graph/graph.py:59-87 | the construction loops give lists that agree with the indexes |
| `Graphs.Graph.TryAddNode` | collector/python/src/witty_profiler/graph/graph.py:97-101 | list and index are extended together, and only by a new id |
| `Graphs.Graph.TryAddEdge` | collector/python/src/witty_profiler/graph/graph.py:103-114 | edge list, edge index and nodes are updated together; a known id is merged only if enabled |
| `Graphs.MergeIsUnion` | collector/python/src/witty_profiler/graph/graph.py:228-236 | the merged graph is sound and has exactly the union of the node ids and of the edge ids |
| `Graphs.MergeIsAbove` | collector/python/src/witty_profiler/graph/graph.py:193-203 | the merged graph is >= every one of its inputs |
| `Graphs.GeIff` | collector/python/src/witty_profiler/graph/graph.py:193-203 | >= between sound graphs is inclusion of node ids and of edge ids |
| `Graphs.LastGraphWins` | collector/python/src/witty_profiler/graph/graph.py:228-236 | under each id the merged graph holds the node or edge of the last graph that has it |
| `CollectorSet.AnswerIsScanIff` | collector/python/src/witty_profiler/collector/collect_set.py:116-131 | dispatch calls exactly the collectors an isinstance scan would call if and only if no collector declares the type itself, or every collector that declares an ancestor declares the type too |
| `CollectorSet.DeclaredHides` | collector/python/src/witty_profiler/collector/collect_set.py:116-131 | the smallest failing set: where one collector declares a type and another a proper ancestor, dispatch calls only the first and the scan both |
| `CollectorSet.AnswerWithinScan` | collector/python/src/witty_profiler/collector/collect_set.py:116-131 | dispatch never calls a collector that the scan would not call |
| `CollectorSet.AnswerMeans` | collector/python/src/witty_profiler/collector/collect_set.py:116-131 | who is asked, without the index: the collectors that declare the type itself if any does, else those that declare a type it is an instance of; each once, in the order given |
| `CollectorSet.CacheIsTransparent` | collector/python/src/witty_profiler/collector/collect_set.py:121-129 | over any run of lookups every answer is the one the freshly built index would give |
| `CollectorSet.LookupRemembers` | collector/python/src/witty_profiler/collector/collect_set.py:121-131 | a lookup caches its answer under its type and changes no other entry, and later lookups give it whichever collectors were added since |
| `CollectorSet.AddedIsSeenIff` | collector/python/src/witty_profiler/collector/collect_set.py:161-167 | exactly when a lookup after `add_collector` answers for all collectors, newcomer included (the index is not extended) |
| `CollectorSet.Collectors.constructor` | collector/python/src/witty_profiler/collector/collect_set.py:49-65 | the index holds, for each declared type and no other, the collectors that declare it, in order |
| `CollectorSet.Collectors.GetNeighborsWithEdges` | collector/python/src/witty_profiler/collector/collect_set.py:116-159 | nodes and edges of the dispatched collectors are joined in order, failures of the caught kinds passed over, any other ending the lookup; the joined answer is what the next three rows say |
| `CollectorSet.GatheredMembers` | collector/python/src/witty_profiler/collector/collect_set.py:135-141 | a node is in the answer if and only if some dispatched collector found it |
| `CollectorSet.GatheredEdgeMembers` | collector/python/src/witty_profiler/collector/collect_set.py:135-141 | an edge is in the answer if and only if some dispatched collector found it |
| `CollectorSet.GatheredJoins` | collector/python/src/witty_profiler/collector/collect_set.py:132-159 | the answer of two lists of collectors is that of the first followed by that of the second, nodes and edges each with their multiplicity and order; none if either has none |
| `CollectorSet.GatheredOne` | collector/python/src/witty_profiler/collector/collect_set.py:135-157 | the answer of a single collector is its nodes and its edges; nothing found if its error is passed over, no answer if it is not |
| `CommonParent.RecordCovers` | collector/python/src/witty_profiler/collector/local_collector/common_parent_collector.py:71-77 | a lookup that does not return at once covers a (pid, depth) pair that was not covered: the termination measure, also for cyclic parent links |
| `CommonParent.LookupGrows` | collector/python/src/witty_profiler/collector/local_collector/common_parent_collector.py:62-105 | recorded depths only grow, the pid asked for is deep enough afterwards, and the answer climbs recorded ancestors one parent at a time |
| `CommonParent.LookupSound` | collector/python/src/witty_profiler/collector/local_collector/common_parent_collector.py:62-105 | after every lookup the child index is exactly the recorded pids grouped by positive parent; a pid with two or more recorded children is recorded; a recorded pid with depth left has its parent recorded at most one level less deep |
| `CommonParent.LookupMemoized` | collector/python/src/witty_profiler/collector/local_collector/common_parent_collector.py:71-77 | asking again, no deeper, changes nothing and answers nothing |
| `CommonParent.LookupReports` | collector/python/src/witty_profiler/collector/local_collector/common_parent_collector.py:79-105 | whoever a lookup records or records deeper, other than the pid itself, is in its answer |
| `CommonParent.CommonParentFollowed` | collector/python/src/witty_profiler/collector/local_collector/common_parent_collector.py:79-93 | unless the lookup returns at once, a parent with two or more recorded children, this one counted, is the first answer and is looked up with the allowance unspent: its depth afterwards is the larger of the old one and this |
| `CommonParent.SingleParentFollowedIff` | collector/python/src/witty_profiler/collector/local_collector/common_parent_collector.py:94-104 | a parent with this one recorded child is answered if and only if the allowance is positive, and is then looked up with one level less |
| `CommonParent.LookupBounds` | collector/python/src/witty_profiler/collector/local_collector/common_parent_collector.py:71-105 | a lookup at depth e records nobody deeper than e, and the pid itself at exactly e unless it was deeper before |
| `CommonParent.QueryMeans` | collector/python/src/witty_profiler/collector/local_collector/common_parent_collector.py:45-60 | a query looks the process up with the configured depth less one for each link down from it through single children, as far as that goes |
| `CommonParent.CommonParentsReported` | collector/python/src/witty_profiler/collector/local_collector/common_parent_collector.py:14-18 | over any sequence of queries, a parent of two or more recorded processes was asked about or has been reported |
| `CommonParent.QueriesSound` | collector/python/src/witty_profiler/collector/local_collector/common_parent_collector.py:38-60 | the same for any sequence of queries from cleared tables; every queried pid is recorded |
| `CommonParent.CommonProcessParentCollector.LookupExtendParent` | collector/python/src/witty_profiler/collector/local_collector/common_parent_collector.py:62-105 | the in-place recursion computes the lookup for any parent links on a finite set of pids; what the lookup does at a common parent and at a single child is stated in the rows on following them |
| `CommonParent.CommonProcessParentCollector.GetNeighborsWithEdges` | collector/python/src/witty_profiler/collector/local_collector/common_parent_collector.py:38-60 | the descent through single children spends the allowance, then the lookup runs with what is left |
| `MsgPack.StreamReadIff` | collector/python/src/witty_profiler/edge/cpu/cache_monitor.py:243-252 | over any decoder, the reader loop gives back exactly the written list, as far as its turns go before the process is found ended, without failing if and only if the decoder takes each of those payloads to its entry by position |
| `MsgPack.StreamRoundTrip` | collector/python/src/witty_profiler/tools/ebpftools/cache_monitor_c/dump/msgspec.cpp:77-100 | splitting the written stream by length and decoding by the MessagePack specification gives back exactly the list of entries, as far as the turns go |
| `MsgPack.StreamFields` | collector/python/src/witty_profiler/tools/ebpftools/cache_monitor_c/dump/msgspec.cpp:81-90 | entry by entry: CPU, thread group, thread and the two counts read are those written, and the total read is the sum of the two counts modulo 2^64 |
| `MsgPack.ArraysRefused` | collector/python/src/witty_profiler/edge/cpu/cache_monitor.py:384-397 | a decoder that takes no array fails at the very first entry, with nothing read |
| `MsgPack.CutStream` | collector/python/src/witty_profiler/edge/cpu/cache_monitor.py:402-409 | wherever the stream is cut, framing and decoding by the specification gives exactly the entries whose frames are complete, in order, and raises if and only if a turn is left and the cut falls inside a payload, after its first byte |
| `MsgPack.PayloadSize` | collector/python/src/witty_profiler/tools/ebpftools/cache_monitor_c/dump/msgspec.cpp:81-94 | every payload takes 7 to 43 bytes, so the reader's exit on length zero is never taken for one |
| `MsgPack.IntRoundTrip` | collector/python/src/witty_profiler/tools/ebpftools/cache_monitor_c/dump/msgspec.cpp:32-58 | an encoded integer decodes to itself, leaving what follows |
| `MsgPack.UintShortest` | collector/python/src/witty_profiler/tools/ebpftools/cache_monitor_c/dump/msgspec.cpp:32-58 | no encoding of the number in the int format family is shorter |
| `MsgPack.UintBytes` | collector/python/src/witty_profiler/tools/ebpftools/cache_monitor_c/dump/msgspec.cpp:32-58 | the bytes of a number: itself up to 127, else the marker cc, cd, ce or cf and 1, 2, 4 or 8 bytes, most significant first |
| `MsgPack.EntryBytes` | collector/python/src/witty_profiler/tools/ebpftools/cache_monitor_c/dump/msgspec.cpp:77-97 | the bytes of an entry: four length bytes, the header of an array of six, then CPU, thread group, thread, sum modulo 2^64 and the two counts in that order |
| `MsgPack.ArrayHeaderIff` | collector/python/src/witty_profiler/tools/ebpftools/cache_monitor_c/dump/msgspec.cpp:60-71 | the array header gives back the size if and only if it is below 65536 |
| `MsgPack.Buffer.AppendU64` | collector/python/src/witty_profiler/tools/ebpftools/cache_monitor_c/dump/msgspec.cpp:20-30 | the eight pushed bytes are the big-endian form |
| `MsgPack.Buffer.WriteUint` | collector/python/src/witty_profiler/tools/ebpftools/cache_monitor_c/dump/msgspec.cpp:32-58 | the written bytes are the encoding of the number |
| `MsgPack.DumpEmit` | collector/python/src/witty_profiler/tools/ebpftools/cache_monitor_c/dump/msgspec.cpp:77-100 | one frame an entry is appended to the output, in order (what a frame is: EntryBytes; that lists join: EmitJoins) |
| `MsgPack.EmitJoins` | collector/python/src/witty_profiler/tools/ebpftools/cache_monitor_c/dump/msgspec.cpp:77-100 | two lists written one after the other are one stream |
| `MsgPack.Stream.ReadNextMessage` | collector/python/src/witty_profiler/edge/cpu/cache_monitor.py:402-409 | one framed read takes the length and then that many bytes, or fewer at the end |
| `MsgPack.ReadNextMeans` | collector/python/src/witty_profiler/edge/cpu/cache_monitor.py:402-409 | on any stream: the first four bytes, most significant first, are the length; that many bytes follow, or all there are; a shorter stream has no message |
| `MsgPack.ReadOutput` | collector/python/src/witty_profiler/edge/cpu/cache_monitor.py:243-278 | the reader loop, over the decoder it is given, collects the decoded messages until the process is found ended or a message is empty, or fails at the first that does not decode |
| `RotatedFileStorage.PromiseIff` | collector/python/src/witty_profiler/storage/rotated_file_storage.py:36-125 | over any run at all, however sessions overlap and whenever files are cleared, for any number of files: the merged read is at every moment the end of everything written since the last clear if and only if every append commutes with what stands after its file and no clear finds text in a file whose flag is set |
| `RotatedFileStorage.WriteIff` | collector/python/src/witty_profiler/storage/rotated_file_storage.py:104-123 | appending to a file keeps such an end if and only if the text and what stands after the file may change places |
| `RotatedFileStorage.PromiseAloneIff` | collector/python/src/witty_profiler/storage/rotated_file_storage.py:36-125 | in runs of sessions that do not overlap the clears alone decide |
| `RotatedFileStorage.MergedIsSuffix` | collector/python/src/witty_profiler/storage/rotated_file_storage.py:102-125 | so in runs of sessions that do not overlap, with clears between them, the merged read is always such an end, with no further condition |
| `RotatedFileStorage.ClearIff` | collector/python/src/witty_profiler/storage/rotated_file_storage.py:73-81 | a clear leaves nothing to read if and only if no file whose flag is set held text |
| `RotatedFileStorage.ClearInsideBreaks` | collector/python/src/witty_profiler/storage/rotated_file_storage.py:73-81 | a clear inside a session that has written breaks the promise, for any number of files and any text |
| `RotatedFileStorage.OverlapBreaks` | collector/python/src/witty_profiler/storage/rotated_file_storage.py:36-57 | a run of two overlapping sessions whose merged read has newer text before older text |
| `RotatedFileStorage.FullFilesKept` | collector/python/src/witty_profiler/storage/rotated_file_storage.py:59-71 | in any run at all, overlapping sessions and clears inside sessions included, after k rotations since the last clear the min(k, n - 1) files before the current one each reach the limit, so the merged read holds at least that much |
| `RotatedFileStorage.RotateMerged` | collector/python/src/witty_profiler/storage/rotated_file_storage.py:59-71 | a rotation takes exactly the oldest file off the front of the merged read |
| `RotatedFileStorage.CheckBounds` | collector/python/src/witty_profiler/storage/rotated_file_storage.py:59-71 | for any number of files, any index and a positive limit: right after the size check the current file is below the limit, or the flag of file (index + 1) mod n is set |
| `RotatedFileStorage.CheckMeans` | collector/python/src/witty_profiler/storage/rotated_file_storage.py:59-71 | if the current file has reached the limit and that flag is 0, the index becomes (index + 1) mod n, that file is empty and every other one as before, n = 1 included; else nothing changes |
| `RotatedFileStorage.SizesBounded` | collector/python/src/witty_profiler/storage/rotated_file_storage.py:36-81 | the ring bounds the log: in runs of sessions that do not overlap, with clears between them, every file stays below the limit plus the most one session writes, and between sessions the current file is below the limit |
| `RotatedFileStorage.MergedMeans` | collector/python/src/witty_profiler/storage/rotated_file_storage.py:102-125 | the merged read is the files after the current one, then those from the first to the current one |
| `RotatedFileStorage.StartMeans` | collector/python/src/witty_profiler/storage/rotated_file_storage.py:48-51 | a new session is handed the current file after the check; the handles closed are those of sessions that hold a file emptied by turning to it |
| `RotatedFileStorage.StopMeans` | collector/python/src/witty_profiler/storage/rotated_file_storage.py:53-57 | the end of a session gives back the current file, whichever one it was handed, and turns the ring under the condition of the check |
| `RotatedFileStorage.FlagsAddUp` | collector/python/src/witty_profiler/storage/rotated_file_storage.py:36-57 | in any run at all, the access flags add up to the number of open sessions |
| `RotatedFileStorage.StopExactIff` | collector/python/src/witty_profiler/storage/rotated_file_storage.py:53-57 | file by file the flags stay right when a session ends if and only if the current file is still the one that session was handed |
| `RotatedFileStorage.StopBreaks` | collector/python/src/witty_profiler/storage/rotated_file_storage.py:36-57 | two overlapping sessions reach a state with right flags that the end of the first one puts wrong |
| `RotatedFileStorage.TurnsAgainIff` | collector/python/src/witty_profiler/storage/rotated_file_storage.py:59-81 | with two or more files and index 0, where every clear leads, some further acts turn the ring if and only if the flag of file 1 is not set |
| `RotatedFileStorage.StuckForever` | collector/python/src/witty_profiler/storage/rotated_file_storage.py:59-81 | if the flag of file 1 is set while the index is 0, no later acts ever rotate again |
| `RotatedFileStorage.ClearInsideSticks` | collector/python/src/witty_profiler/storage/rotated_file_storage.py:36-81 | one clear inside a session that was handed file 1 leads there, with no session open any more |
| `RotatedFileStorage.Storage.constructor` | collector/python/src/witty_profiler/storage/rotated_file_storage.py:22-34 | all files empty, no claims, index 0, for any number of files |
| `RotatedFileStorage.Storage.CheckSizeAndRotateNow` | collector/python/src/witty_profiler/storage/rotated_file_storage.py:59-71 | turns to the next file in the ring, emptied, exactly when the current one reaches the limit and nobody claims the next (CheckMeans and CheckBounds say so without naming the branch) |
| `RotatedFileStorage.Storage.EnterSession` | collector/python/src/witty_profiler/storage/rotated_file_storage.py:48-51 | check, then claim and return the current file |
| `RotatedFileStorage.Storage.ExitSession` | collector/python/src/witty_profiler/storage/rotated_file_storage.py:53-57 | release the current file, then check |
| `RotatedFileStorage.Storage.Clear` | collector/python/src/witty_profiler/storage/rotated_file_storage.py:73-81 | every unclaimed file is emptied and the index goes back to 0 |
| `RotatedFileStorage.Storage.GetAllFilesAsStream` | collector/python/src/witty_profiler/storage/rotated_file_storage.py:102-125 | the chunked reads in ring order give the merged contents |
| `Inbox.NothingLostOrDoubled` | collector/python/src/witty_profiler/edge/cpu/sched_sniffer.py:93-101 | under any interleaving of deliveries with one consumer's swaps and merges, what was delivered is, in order, what was merged, what is swapped out and what is buffered |
| `Inbox.DeliveredWasSent` | collector/python/src/witty_profiler/edge/cpu/sched_sniffer.py:93-95 | what was delivered is what was sent, in order |
| `SchedSniffer.TableIsBatch` | collector/python/src/witty_profiler/edge/cpu/sched_sniffer.py:97-126 | the table after any such run is the batch aggregate by (pid, tgid, cpu) of the merged frames, a prefix of the deliveries |
| `SchedSniffer.EntryIsSum` | collector/python/src/witty_profiler/edge/cpu/sched_sniffer.py:111-126 | each entry is the sum of the raw records of its key, and keys are unique |
| `SchedSniffer.MergesAreBatch` | collector/python/src/witty_profiler/edge/cpu/sched_sniffer.py:106-109 | merging in any pieces gives one batch aggregate |
| `SchedSniffer.NumaTimesConserve` | collector/python/src/witty_profiler/edge/cpu/sched_sniffer.py:142-164 | over any set of nodes, the per-NUMA times of a pid or tgid add up to its raw time on the CPUs of those nodes; over all nodes, on all mapped CPUs |
| `SchedSniffer.NumaEntry` | collector/python/src/witty_profiler/edge/cpu/sched_sniffer.py:142-152 | one node's entry is the raw time on its CPUs |
| `SchedSniffer.PidTimeIs` | collector/python/src/witty_profiler/edge/cpu/sched_sniffer.py:142-152 | a process's time on a node is the sum of the raw records with its pid on the CPUs mapped to the node |
| `SchedSniffer.TgidTimeIs` | collector/python/src/witty_profiler/edge/cpu/sched_sniffer.py:154-164 | the same for a thread group |
| `SchedSniffer.Sniffer.UpdateDataframe` | collector/python/src/witty_profiler/edge/cpu/sched_sniffer.py:97-109 | the buffer is emptied and merged into the table |
| `SchedSniffer.Sniffer.GetNumaCpuTimeByPid` | collector/python/src/witty_profiler/edge/cpu/sched_sniffer.py:142-152 | updates, then answers the grouped times of the pid |
| `CacheSniffer.RunsBetween` | collector/python/src/witty_profiler/edge/cpu/cache_sniffer.py:106-131 | after any sequence of updates that bring records, each cached total lies between the true sum over the records newer than the highest cutoff and the sum over all records |
| `CacheSniffer.CachedBetween` | collector/python/src/witty_profiler/edge/cpu/cache_sniffer.py:117-131 | the same for any sound state; a key with no cached row has no record newer than the cutoff |
| `CacheSniffer.NeverOvercounts` | collector/python/src/witty_profiler/edge/cpu/cache_sniffer.py:102-131 | for any interleaving of deliveries and updates, wiped tables included, a cached value never exceeds the sum over the delivered and merged records |
| `CacheSniffer.MergeTracks` | collector/python/src/witty_profiler/edge/cpu/cache_sniffer.py:106-131 | every update keeps each cached row the fold of a set of whole records of its key |
| `CacheSniffer.RunsKeepRecentIff` | collector/python/src/witty_profiler/edge/cpu/cache_sniffer.py:106-131 | after any run of updates that brought records, one more update leaves every record newer than the highest cutoff counted if and only if it brings a record itself |
| `CacheSniffer.MergeKeepsRecentIff` | collector/python/src/witty_profiler/edge/cpu/cache_sniffer.py:115-127 | the same for any sound state: frames that are all empty wipe the table |
| `CacheSniffer.RowsEndAfterCutoff` | collector/python/src/witty_profiler/edge/cpu/cache_sniffer.py:117-131 | right after an update every cached row ends within the window before the end of each record of the update |
| `CacheSniffer.FoldMeans` | collector/python/src/witty_profiler/edge/cpu/cache_sniffer.py:133-154 | a grouped row's three counts are the sums of its records' and its window is their hull: no record starts earlier or ends later, and one starts and one ends there |
| `CacheSniffer.CurrentWindowCovered` | collector/python/src/witty_profiler/edge/cpu/cache_sniffer.py:117-131 | if the cutoffs did not go back, the bounds hold for the current one: right after an update the cached totals cover every record newer than its cutoff |
| `CacheSniffer.Sniffer.UpdateDataframe` | collector/python/src/witty_profiler/edge/cpu/cache_sniffer.py:106-131 | the buffer is emptied, merged, cut off and grouped |
| `Grouping.GroupFolds` | collector/python/src/witty_profiler/edge/cpu/cache_sniffer.py:133-154 | grouping leaves one row a key and keeps each key's fold |
| `Grouping.Regroup` | collector/python/src/witty_profiler/edge/cpu/sched_sniffer.py:106-108 | a grouped frame may stand for the rows it was made from in any later grouping |
| `Grouping.GroupOrder` | collector/python/src/witty_profiler/graph/graph.py:72-87 | a dictionary built from a list keeps each id at the place where it first occurs |
| `RangeString.RoundTrip` | collector/python/src/witty_profiler/common/str_converter.py:1-39 | printing any list of nonnegative integers and parsing it back gives its set, duplicates and the empty list included |
| `RangeString.PrintIdentifiesSet` | collector/python/src/witty_profiler/entity/node_entity/resource_entity.py:119-127 | two lists print to the same string if and only if they hold the same set: the string can serve as the identity of a NUMA set |
| `RangeString.RangesCover` | collector/python/src/witty_profiler/common/str_converter.py:8-23 | the printed ranges ascend, none could be joined to the next, and they cover exactly the list |
| `RangeString.CanonicalUnique` | collector/python/src/witty_profiler/common/str_converter.py:8-23 | ranges of that form are determined by what they cover |
| `RangeString.ListToRangeStr` | collector/python/src/witty_profiler/common/str_converter.py:1-24 | the scanning loop prints those ranges |
| `RangeString.PrintRunByRun` | collector/python/src/witty_profiler/common/str_converter.py:8-24 | the text run by run: a lone number as itself, two or more in a row as lo-hi, then a comma and the text of the rest if there is any |
| `RangeString.RangeStrToList` | collector/python/src/witty_profiler/common/str_converter.py:27-39 | the parsing loop gives the union of the pieces, or an error if a piece is malformed |
| `RangeString.PieceMeans` | collector/python/src/witty_profiler/common/str_converter.py:27-39 | a piece stripped is nothing, a number, or two numbers around one dash standing for all between; with more dashes or no number it is an error |
| `RangeString.ParseMeans` | collector/python/src/witty_profiler/common/str_converter.py:27-39 | a text is an error if and only if one of its pieces is, and else the union of what the pieces stand for |
| `NumaDeployment.Detect` | collector/python/src/witty_profiler/edge/cpu/numa_deployment.py:42-47 | the table of CPUs is built node by node, an unreadable list being an error |
| `NumaDeployment.LastListerOwns` | collector/python/src/witty_profiler/edge/cpu/numa_deployment.py:43-47 | a CPU belongs to the last node that lists it |
| `NumaDeployment.OnlyListed` | collector/python/src/witty_profiler/edge/cpu/numa_deployment.py:43-47 | a CPU in the table is listed by the node it belongs to, and by no later one |
| `NumaDeployment.DeployPrinted` | collector/python/src/witty_profiler/edge/cpu/numa_deployment.py:42-47 | where the nodes' disjoint CPU lists were printed by the same printer, each CPU is found on exactly its node |
| `NumaDeployment.QueryNumaIdByCpu` | collector/python/src/witty_profiler/edge/cpu/numa_deployment.py:77-88 | the answer is the set of nodes the CPUs touch; CPUs without a node drop out |
| `NumaDeployment.AccessedNumaNodes` | collector/python/src/witty_profiler/edge/cpu/numa_edge.py:89-93 | the text is the canonical range string of the touched nodes; it fails exactly when the CPU list does not parse |
| `NumaDeployment.NamesIdentify` | collector/python/src/witty_profiler/entity/node_entity/resource_entity.py:119-127 | two such texts are equal if and only if the touched sets are |
| `NumaDeployment.NameParses` | collector/python/src/witty_profiler/entity/node_entity/resource_entity.py:119-127 | such a text parses back to its set |
| `PosixMq.StreamRead` | collector/python/src/witty_profiler/edge/ipc/posix_mq_sniffer.py:82-111 | for any records and any chunks making up any beginning of the printed stream, the events returned are exactly the records with complete lines, in order, the header skipped, and the buffer is the unfinished tail |
| `PosixMq.StreamFields` | collector/python/src/witty_profiler/edge/ipc/posix_mq_sniffer.py:82-135 | with the whole stream read in any chunks, event i carries record i field by field, and nothing is left over |
| `PosixMq.ChunksDoNotMatter` | collector/python/src/witty_profiler/edge/ipc/posix_mq_sniffer.py:103-111 | for any text at all, cutting it differently changes neither the events nor the buffer |
| `PosixMq.LineRoundTrip` | collector/python/src/witty_profiler/tools/ebpftools/posix_mq_sniffer/dump/csv.cpp:9-21 | a printed record is one line and parses back to its event |
| `PosixMq.LineFields` | collector/python/src/witty_profiler/tools/ebpftools/posix_mq_sniffer/dump/csv.cpp:9-21 | the eight fields of a printed line in their order, direction 1 as send and any other as recv, and the same eight read back |
| `PosixMq.LineParsesIff` | collector/python/src/witty_profiler/edge/ipc/posix_mq_sniffer.py:113-135 | a line yields an event if and only if it is not blank, does not begin like the header, and has eight parts or more of which the seven numeric ones parse |
| `PosixMq.HeaderSkipped` | collector/python/src/witty_profiler/tools/ebpftools/posix_mq_sniffer/dump/csv.cpp:4-7 | the header is one line and parses to no event |
| `PosixMq.Sniffer.GetEvents` | collector/python/src/witty_profiler/edge/ipc/posix_mq_sniffer.py:82-111 | finished lines are parsed, the last piece is kept; a sniffer that is not running returns nothing and keeps its buffer |
| `Text.SplitResumes` | collector/python/src/witty_profiler/edge/ipc/posix_mq_sniffer.py:103-104 | splitting may be suspended at any point and resumed with the last piece |
| `Text.JoinSplit` | collector/python/src/witty_profiler/edge/ipc/posix_mq_sniffer.py:103-104 | split parts hold no separator, and joined they are the text |
| `Text.ParseIntIff` | collector/python/src/witty_profiler/edge/ipc/posix_mq_sniffer.py:113-135 | a text is an integer if and only if it is white space, an optional sign, digits and white space; a minus negates |
| `Numactl.ParseNumaDistancesText` | collector/python/src/witty_profiler/edge/cpu/numa_deployment.py:57-75 | from the printed lines: an error if a number of the matrix does not parse, else the symmetric table of the rows found |
| `Numactl.ReadRows` | collector/python/src/witty_profiler/edge/cpu/numa_deployment.py:57-72 | the loop over the lines finds the rows between the heading and the first blank line, column lines and short lines passed over |
| `Numactl.MatrixRead` | collector/python/src/witty_profiler/edge/cpu/numa_deployment.py:57-72 | a printed matrix is read back row by row, whatever is printed before and after it and however it is aligned |
| `Numactl.BodyMeans` | collector/python/src/witty_profiler/edge/cpu/numa_deployment.py:62-72 | after the heading the lines up to the first blank one decide: an error if and only if one is malformed, else the rows of those of two words or more, in order |
| `Numactl.RowParsesIff` | collector/python/src/witty_profiler/edge/cpu/numa_deployment.py:67-72 | a line of two words or more is a row if and only if the first is a number once colons are off its end and all others are numbers |
| `NumaClusters.ParseNumaDistances` | collector/python/src/witty_profiler/edge/cpu/numa_deployment.py:72-75 | the table is symmetric and holds, for each pair in either order, the last distance the rows give |
| `NumaClusters.LastMentionMeans` | collector/python/src/witty_profiler/edge/cpu/numa_deployment.py:72-75 | the last entry for a pair, in either order, decides; a pair without one is 999 apart |
| `NumaClusters.ReadBackIff` | collector/python/src/witty_profiler/edge/cpu/numa_deployment.py:72-75 | the table gives back every entry of the matrix if and only if no two entries give one pair, in either order, different distances |
| `NumaClusters.ScclToNumaIds` | collector/python/src/witty_profiler/edge/cpu/hccs_sniffer.py:144-171 | the result numbers from 0, by least member, a partition of the nodes: members within 15 of their leader, nobody within 15 of an earlier leader; none and one node as special cases |
| `NumaClusters.Gather` | collector/python/src/witty_profiler/edge/cpu/hccs_sniffer.py:159-167 | one leader's cluster is the leader and all unvisited nodes near it, ascending |
| `NumaClusters.ClusteringUnique` | collector/python/src/witty_profiler/edge/cpu/hccs_sniffer.py:144-171 | only one clustering has these properties, so they determine the greedy one |
| `NumaClusters.LeadersApart` | collector/python/src/witty_profiler/edge/cpu/hccs_sniffer.py:161-167 | under a symmetric table two leaders are farther than 15 apart in both directions |
| `NumaClusters.NearIff` | collector/python/src/witty_profiler/edge/cpu/hccs_sniffer.py:161-165 | two nodes are near if and only if the table has them at 15 or less |
| `NumaClusters.BuildNumaToScclMap` | collector/python/src/witty_profiler/edge/cpu/hccs_sniffer.py:195-201 | the map is the exact inverse: a node's entry is the cluster that holds it, and only clustered nodes have entries |
| `ThreadFilter.BoundIff` | collector/python/src/witty_profiler/collector/local_collector/numa_collector.py:211-257 | for nonnegative counters and thresholds p, q > 0, at most 2/p + 1/q threads are kept if and only if some involuntary switch was counted or there are no more threads than that |
| `ThreadFilter.KeepsFew` | collector/python/src/witty_profiler/collector/local_collector/numa_collector.py:211-257 | the bound itself, when some involuntary switch was counted |
| `ThreadFilter.KeepsAll` | collector/python/src/witty_profiler/collector/local_collector/numa_collector.py:229-236 | with no involuntary switch in the total every thread whose status was read is kept, and if that is everyone the list is kept as it is |
| `ThreadFilter.KeptIff` | collector/python/src/witty_profiler/collector/local_collector/numa_collector.py:211-257 | a thread is kept if and only if its switches reach the share of all, its involuntary ones reach the share of all, or its run time exceeds the share of all |
| `ThreadFilter.KeepsSomeIff` | collector/python/src/witty_profiler/collector/local_collector/numa_collector.py:211-257 | for threads whose status was read or is gone (counters at -1) and n * p <= 1, some thread is kept if and only if some status was read, or some run time alone passes, or n * p is exactly 1 |
| `ThreadFilter.BusyIff` | collector/python/src/witty_profiler/collector/local_collector/numa_collector.py:237-242 | with fewer than 1/q threads, some run time alone passes if and only if any run time was recorded |
| `ThreadFilter.KeepsTheTop` | collector/python/src/witty_profiler/collector/local_collector/numa_collector.py:243-256 | with n * p <= 1, every thread that switches most, and every thread preempted most, is kept if its own counters were reported, whatever the others are |
| `ThreadFilter.KeepsOne` | collector/python/src/witty_profiler/collector/local_collector/numa_collector.py:243-256 | with n * p <= 1, some thread is kept as soon as the status of any one was read |
| `ThreadFilter.FilterTwice` | collector/python/src/witty_profiler/collector/local_collector/numa_collector.py:211-257 | filtering the kept threads again keeps them all, as long as every thread left out had its status read |
| `ThreadFilter.FilterTwiceBreaks` | collector/python/src/witty_profiler/collector/local_collector/numa_collector.py:211-257 | without that it need not: five threads, three of them gone, of which the first pass keeps two and the second one |
| `ThreadFilter.UnreadKeptIff` | collector/python/src/witty_profiler/collector/local_collector/numa_collector.py:219-256 | when every status is gone, a thread is kept if and only if n * p >= 1 or its recorded run time alone passes |

## Left out

- CacheMissAccounting.Accounting: does not model the wrap-around of the 64-bit counters; counts are unbounded.
- CacheMissAccounting.OnlyStraddlersLose: an add through a pointer to a deleted cell counts as lost; the kernel may reuse the slot for another key, which the model does not follow.
- CacheMissProtocol: an insertion may fail at any time (the kernel may refuse for memory or because another CPU inserted first), so failure is not tied to a full map; the configuration and drop lookups in one-element arrays always succeed.
- CacheMissProtocol: two handlers never insert the same rank, and a key keeps its place in the bucket order while it lives; resizing of buckets is not modelled.
- MapWalk.CollectCounts: a walk over a map that nobody else writes; eviction by an LRU map during the walk and failing deletes are not modelled.
- MapWalk.DumpFlows: leaves out the start and end times it computes but does not emit, and takes the per-CPU values as one list per key.
- The flip loop of the socket sniffer and the resizing of its LRU maps.
- Bfs.Collector.ExpandGraphBfs: neighbour discovery is a fixed function of the entity, and the reported edges are fresh values; an edge object shared between reports would be merged with itself. Exceptions other than the caught kinds end the expansion and are not modelled here.
- Bfs.Collector.ExpandGraphBfs: edges live in a list indexed by id, so aliasing of edge objects does not arise.
- Topology.ExpandToGraph: the textual ids are an injective naming given from outside, ordered as integers.
- Edges.SendToSocketEdge.MergeOther: ids are compared as triples of source, kind and target, strings of ids as integers.
- Edges other than socket edges: only the weight part of their merging, which socket edges share.
- Graphs: conversion of dictionaries to entities and edges through the factories; `__le__` and `__eq__`; entity contents are one opaque field.
- CollectorSet: starting, stopping, clearing and seed graphs of the subcollectors; a declaration is a set, so no collector is entered twice for a type.
- CommonParent: other entity kinds than processes (no neighbours), and Python's recursion limit.
- MsgPack.StreamRoundTrip: decoding follows the MessagePack specification (int and array format families), not the msgspec library, whose conversion to the event structure is not modelled: StreamReadIff and ArraysRefused say what follows from either behaviour.
- MsgPack.ReadOutput: the decoder is a parameter that yields an event or raises, and so is the turn at which the process is found ended; the collecting of decoded entries into frames, their time stamps and the subscribers are not modelled.
- RotatedFileStorage.PromiseIff: assumes the observed file size equals what was written (no file buffering) and counts characters as bytes.
- RotatedFileStorage.Storage.constructor: with no file at all it succeeds, as in the code, and then no operation applies.
- SchedSniffer.TableIsBatch, CacheSniffer.RunsBetween: one consumer; the table starts empty (MergesAreBatch allows any start with unique keys). Frames are lists of integer records: no column coercion, missing values or pandas row order beyond first occurrence.
- CacheSniffer.RunsBetween: stated for updates that bring at least one record; RunsKeepRecentIff says what happens otherwise, and NeverOvercounts holds without the restriction.
- RangeString.RoundTrip: negative numbers, which the printer would print but the parser could not read back.
- Text: `int` also accepts underscores and non-ASCII digits, and strips Unicode white space; the model has ASCII digits and the ASCII white space only. The printed streams hold neither.
- PosixMq.Sniffer.GetEvents: process handling, the 0.1 second poll and the 4096-character limit of a read; a read is whatever it returned. A failing read is a call without data.
- The pipe sniffer: its printer and parser disagree on the column order, so no round trip is claimed.
- NumaClusters.ParseNumaDistances: takes column positions as node ids, as the code does. Numactl starts from the lines of the text; splitting it into lines and running `numactl -H` are not modelled.
- NumaDeployment.Detect: node lists are inputs; memory blocks and statistics of a node are not modelled. NUMA ids are nonnegative.
- ThreadFilter.BoundIff: for processes in which every status was read, since placeholders lower the totals. Thresholds and run times are reals, without rounding.
- ThreadFilter.FilterTwice: its condition is enough, not necessary.
- eBPF loading, perf events, sysfs and `/proc` reading, subprocesses, subscribers, the servers and clients, rendering, configuration and registries.
