# Verified model of the metric proxy

The proxy collects metrics of HPC jobs. Instrumented programs send counters over a UNIX socket to a proxy on
their node; proxies scrape each other along a tree (the TBON) whose shape is decided by the root; a root proxy
samples job metrics into trace files of bounded size. This project models the three parts of that system whose
correctness depends on more than one function, and proves what they keep over every run.

- **The topology table of the root** (`TbonTable`, `TbonRepair`, `TbonKary`, `TbonBinomial`, `TbonSearch`,
  `TbonUnnamed`, `TbonRuns`, `TbonReplies`, `WebServer`). The vector of `ClientPivot` records describes a rooted tree.
  `TbonTable` says what a tree is and what follows from it; `TbonRepair` follows the updates of a join and of a repair;
  `TbonKary`, `TbonBinomial` and `TbonUnnamed` prove the shapes the two placement rules build; `TbonSearch` says where
  the binomial search goes in trees of any shape; `TbonRuns` puts joins, leaves and reported failures together;
  `TbonReplies` shows that the replies agree with the table; `WebServer` holds the handlers in imperative form.
- **The trace log** (`FrameLog`, `TraceFrames`, `TraceLog`, `TraceTimes`, `TraceStore`). `FrameLog` is the byte format
  and its readers, `TraceFrames` the merging of samples, `TraceLog` the frames after any run of pushes and folds,
  `TraceTimes` their times, `TraceStore` the mutable trace: file, frames and indexes together.
- **Aggregation** (`Counters`, `Exporters`, `Scraping`, `ScrapeRuns`, `ScrapeRanges`, `JobRefs`, `JobRuns`,
  `ClientFlow`, `ClientRuns`, `ClientLibrary`, `NulFraming`). The two-level metric store, the deltas of scraped
  profiles, the reference counts of jobs, and the way of an increment from a client to the exporters. `Scraping` and
  `ClientLibrary` hold the code in imperative form, `ScrapeRuns`, `ScrapeRanges`, `JobRuns` and `ClientRuns` what many
  scrapers and clients do together.

Mutable objects of the original are classes whose methods are proved against functions on values; whole-system
behaviour (several clients, scrapers or requests) is a state machine whose steps are the critical sections of the
original's locks, so that a run is an interleaving; where a step spans several, "Left out" says so. `f64` is modelled
as `real`. The widths that matter are explicit: the branch limit and subtree sizes are truncated to 32 bits, `refcount`
wraps below zero as it does in a release build, and frame lengths are 64-bit little-endian.

`Basics` holds what several modules share.

## Where the code does not do what one would expect

The model keeps the code's behaviour in each case, and says exactly when the expected property holds.

- A `/remove` whose `from` is known but is not the target's parent breaks the table, because `removefrom`
  decrements `refcount` unconditionally. `RepairKeepsTreeIff` gives the exact condition. The one request that names
  the wrong parent and still works is a deepest leaf reporting itself: its counter wraps around and the graft takes
  it out of its real parent's list (`SelfReplacing`).
- A node that reports itself has its own counter decremented before it is looked at: with one child it is dropped
  without a replacement, with none it is replaced (`ReplacementIs`).
- After a `/leave` the parent is told of the replacement by splitting the reply at `&`. A replacement whose URL, or
  whose period, holds that character is in the table but the parent is told nothing (`WiredIff`, `LeaveTellsParent`).
- A `/pivot` from a URL that is already known breaks the table (`AttachKeepsTree`, both directions).
- A `/pivot` from an empty URL is accepted, but the binomial search takes the empty string for "not found". The
  tree keeps its shape up to a number of joins that depends on when the unnamed node joined, and loses it for good
  there (`BinomialShapeIff`).
- A branch limit of 2^32 or more is compared modulo 2^32, so the fan-out is capped although no node is full
  (`RunsTruncateLimit`).
- A fold drops an odd last sample: a sample is lost if and only if its own push folds while the number of stored
  counter frames is even (`LostIff`).
- A gauge that is not reported for a while and comes back may lose what it had before the gap
  (`SumSummarisesIff`, `ReturningGaugeBreaksSummary`).
- The read of a frame's length is not checked for its size. A short one gives the right length exactly when the
  length fits in the bytes that came (`HeaderExactIff`); otherwise the reader goes astray or does not return.
- `Exporter::push` stores the value it is given and the scraper merges the same value again, so an entry created by
  a scrape starts from twice its first snapshot (`FeedMap`): the conservation law has a base term.
- Three things break that law, each with its exact condition (`StepConservesIff`): `substract` re-inserts a counter
  that is no longer reported; a refused counter leaves those before it fed while their scraper is dropped; a local
  sample of a gauge overwrites what was scraped into it, and its range.
- A description with an opening brace and no closing one ends the connection of the client that sent it, and
  everything behind it is lost (`UncutIffLegal`, `IllegalNameLosesIncrements`).
- A client that announces another job after it has described its metrics loses its connection with the next value,
  unless someone has described that metric under the new job (`MissIff`, `LateJobCuts`). The client library announces
  its job first, and then this cannot happen (`EarlyNeverMisses`).
- `resolve_job` hands out the main exporter itself for the id "main", and the node's for the node's id. A client that
  announces one of them has every increment counted twice there (`OnceIff`, `RunsUnclaimed`, `CountedTwice`); its
  values are never refused, however late it announces (`MissIff`).

## Model

| member | source | states |
|---|---|---|
| `TbonTable.ChainLength` | src/webserver.rs:27-42 | in every tree the chain of parents of a node has `depth + 1` nodes: a stored depth is the true distance from the root |
| `TbonTable.RootReachesAll` | src/webserver.rs:632-681 | in every table that satisfies the local tree conditions each known node is reachable from the root |
| `TbonTable.SizeCountsDescendants` | src/webserver.rs:599-609 | the recursive sum over child lists is the number of descendants, the node included, in every tree |
| `TbonTable.RootSize` | src/webserver.rs:599-609 | the root's subtree is the whole table |
| `TbonTable.WithoutOne` | src/webserver.rs:49-53 | a child that is taken out of a list leaves the others in their order |
| `TbonTable.ForgetOne` | src/webserver.rs:768 | so does a record taken out of the vector |
| `TbonTable.RemoveUndoesMap` | src/webserver.rs:44-53 | `removefrom` undoes `mapto`; the counter goes down by one modulo 2^32 in any case |
| `TbonRepair.AttachKeepsTree` | src/webserver.rs:44-47 | attaching a node keeps the table a spanning tree if and only if its URL is new |
| `TbonRepair.DeepestIsFree` | src/webserver.rs:714-748 | the deepest record chosen as replacement is a leaf, is neither target nor `from` nor a child of `from`, and is at least two levels below `from`, so no descendant's depth goes stale |
| `TbonRepair.RepairKeepsTree` | src/webserver.rs:702-768 | repairing a child of `from` leaves a spanning tree of exactly the other nodes, none deeper than before, none wider than some node was before |
| `TbonRepair.RepairNodes` | src/webserver.rs:702-768 | what each survivor's record is after the repair: the replacement hangs below `from` with the target's other children in order, its old parent has lost it, every other record is as before |
| `TbonRepair.CutOutShrinks` | src/webserver.rs:714-748 | such a repair never increases the height and never exceeds a fan-out the tree respected |
| `TbonRepair.WrongParentBreaksTree` | src/webserver.rs:49-53 | removing from a known node a target that is not its child leaves no tree |
| `TbonRepair.SelfReportBreaksTree` | src/webserver.rs:702-768 | a node that reports itself breaks the table unless it is the leaf that replaces itself |
| `TbonRepair.RepairKeepsTreeIff` | src/webserver.rs:702-768 | exactly which repairs keep the table a tree: unknown `from`, `from` parent of target, or the self-replacing leaf |
| `TbonKary.Shallowest` | src/webserver.rs:612-630 | the position is the first among those of least key `get_depth_if_not_full` |
| `TbonKary.JoinsShallowestFree` | src/webserver.rs:75-81 | in every tree of at most `i32::MAX` nodes a node that is not full exists, the `i32::MAX` key never wins, and the join goes to the least depth among nodes that are not full |
| `TbonKary.LargeLimitTruncated` | src/webserver.rs:75-81 | under a limit of 2^32 or more no node is full, yet the root is chosen if and only if it has fewer children than the limit modulo 2^32 or that is zero |
| `TbonKary.LevelSize` | src/webserver.rs:612-630 | level d of a tree with fan-out k has at most k^d nodes, exactly k^d up to the filled level |
| `TbonKary.FilledIsLowest` | src/webserver.rs:612-630 | a tree filled level by level is no higher than any tree of that fan-out with at least as many nodes |
| `TbonKary.JoinsFillLevels` | src/webserver.rs:665-678 | after any sequence of fresh joins some level L has every shallower node full and nothing deeper than L + 1 |
| `TbonKary.JoinsLevelSizes` | src/webserver.rs:665-678 | then level d holds k^d nodes for every d up to L and the rest of the nodes are on level L + 1 |
| `TbonKary.JoinsAreLowest` | src/webserver.rs:665-678 | the height after any sequence of fresh joins is minimal for that number of nodes and fan-out |
| `TbonBinomial.Scan` | src/webserver.rs:569-593 | the loop only descends into one of the given subtrees and with a strictly smaller order; which one is `ScanTurns` |
| `TbonBinomial.Place` | src/webserver.rs:545-596 | in every tree, whatever its shape, the search ends and returns a known node; which one is `PlaceTurns` |
| `TbonBinomial.PlaceBelow` | src/webserver.rs:545-596 | the node found is never above the starting node, and is another node once the search descends |
| `TbonBinomial.PlaceGrows` | src/webserver.rs:545-596 | a leaf attached where the search ends turns the partial binomial tree of n nodes into the one of n + 1 nodes, and is the last in filling order |
| `TbonBinomial.PartialAtPower` | src/webserver.rs:545-596 | the reference shape of 2^j nodes is the binomial tree B_j |
| `TbonBinomial.JoinGrows` | src/webserver.rs:612-678 | one join into a table of named nodes turns the n-node shape into the one of n + 1 nodes |
| `TbonSearch.ScanTurns` | src/webserver.rs:569-593 | for every list of subtrees the loop turns to the first one, in order and apart from those set aside, that is smaller than 2^i, in the first iteration i that has no named fit; iteration i sets aside the first that is 2^i |
| `TbonSearch.ScanStaysIfNoTurn` | src/webserver.rs:569-593 | and it stays when no iteration turns |
| `TbonSearch.TurnsOrNot` | src/webserver.rs:569-593 | for every list one of the two is the case |
| `TbonSearch.ChildSize` | src/webserver.rs:555-567 | the sizes compared are the numbers of descendants modulo 2^32 |
| `TbonSearch.PlaceTurns` | src/webserver.rs:545-596 | in every tree, also after leaves and repairs: the search goes on at the child that the first turning iteration i turns to, with order i |
| `TbonSearch.PlaceStaysIfNoTurn` | src/webserver.rs:545-596 | and ends at the node where no iteration turns |
| `TbonSearch.SecondLeafTakesIt` | src/webserver.rs:545-596 | below a node whose children are all leaves a newcomer goes to the second of them |
| `TbonUnnamed.ScanBlank` | src/webserver.rs:569-593 | what the loop decides at the parent of a node with an empty URL, in all cases |
| `TbonUnnamed.PlaceRight` | src/webserver.rs:545-596 | with an unnamed node in the tree the search still goes where it should under a condition on three numbers |
| `TbonUnnamed.PlaceWrong` | src/webserver.rs:545-596 | otherwise it ends at the unnamed node, although its subtree is full |
| `TbonUnnamed.BinomialShapeIff` | src/webserver.rs:612-678 | n - 1 fresh joins, with any URLs, build exactly the partial binomial tree of n nodes, children in order, if and only if no unnamed node joined or the joins stay below its limit |
| `TbonUnnamed.BinomialAtPowerIff` | src/webserver.rs:612-678 | with 2^j nodes the tree is exactly B_j under the same condition |
| `TbonUnnamed.NamedAreHarmless` | src/webserver.rs:612-678 | the condition holds for every sequence of nonempty URLs |
| `TbonUnnamed.UnnamedExamples` | src/webserver.rs:569-593 | an unnamed node that joins first spoils the tree at the third join; one that joins third never does |
| `TbonBinomial.TakesChildWhenFull` | src/webserver.rs:569-593 | in every tree a search of an order up to a node's number of children ends at that node only if there are 2^order nodes or more below it, itself included |
| `TbonRuns.StepKeepsTreeIff` | src/webserver.rs:632-835 | a join, leave or removal keeps the spanning tree if and only if it is a refused request, a fresh join, a leave, or a removal that names the right parent or a self-replacing leaf |
| `TbonRuns.StepEffect` | src/webserver.rs:632-835 | such a request changes nothing, attaches exactly the newcomer, or takes out exactly its target and orphans no one |
| `TbonRuns.ContainsHttpIff` | src/webserver.rs:641-645 | a parameter is refused if and only if it holds "http" somewhere |
| `TbonRuns.PivotIsJoin` | src/webserver.rs:612-681 | a `/pivot` is the join of the shape theorems in both modes |
| `TbonRuns.RunsKeepTree` | src/webserver.rs:632-835 | in every run mixing these requests the table is a spanning tree with true depths at every moment |
| `TbonRuns.RunsKeepFanOut` | src/webserver.rs:632-835 | in every such run with a branch limit the fan-out never exceeds it |
| `TbonRuns.RunsTruncateLimit` | src/webserver.rs:612-630 | in every run with a limit of 2^32 or more, exactly when a join still goes below the root as the limit asks |
| `TbonRuns.RunsKeepOrderSmall` | src/webserver.rs:569-593 | in every run without a branch limit whose tables had fewer than 2^32 nodes `2u32.pow` is only taken of exponents below 32 |
| `TbonRuns.SecondJoinBreaksTree` | src/webserver.rs:665-678 | a run after which a node that joins a second time breaks the tree |
| `TbonRuns.SiblingReportBreaksTree` | src/webserver.rs:49-53 | a run after which a node that reports a sibling breaks the tree |
| `TbonRuns.LargeLimitMisplaces` | src/webserver.rs:75-81 | a run under a limit of 2^32 + 1 in which the second node no longer joins the root |
| `TbonReplies.PivotNamesParent` | src/webserver.rs:651-681 | the node named in the reply to a join is the newcomer's parent in the new tree, whose list has grown by it, one level up |
| `TbonReplies.ReplacementIs` | src/webserver.rs:702-728 | in every tree and for every pair of URLs: which node the reply to a repair names, and when it names none, self-reports included |
| `TbonReplies.ReplacementJoinsParent` | src/webserver.rs:702-779 | after a repair by the parent its list is the old one without the target, in order, and then the node named in the reply, which is new to it; none is named if and only if the target had no children or the node's URL is empty |
| `TbonReplies.RepairRecords` | src/webserver.rs:702-768 | every repair of a known target by a known node, also one that breaks the tree: what each other record is afterwards |
| `TbonReplies.RepairKeepsOrder` | src/webserver.rs:768 | a repair takes the target out of the vector and leaves the other records in their order |
| `TbonReplies.WiredIff` | src/webserver.rs:838-853 | the reply, split at `&`, yields exactly the replacement and its period if neither holds the separator, and otherwise nothing |
| `TbonReplies.LeaveTellsParent` | src/webserver.rs:810-855 | in every tree a leave tells someone exactly when the leaver had children and the replacement's URL can be told; then it is the leaver's parent, and what it is told to connect to is the child it has gained |
| `WebServer.GetSubtreeSize` | src/webserver.rs:599-609 | on every table that describes a tree the recursion terminates and returns the number of descendants plus one |
| `WebServer.CollectSubtrees` | src/webserver.rs:555-567 | every child with the size of its subtree, in order, truncated to 32 bits |
| `WebServer.ScanSubtrees` | src/webserver.rs:569-593 | the loop with its local `found` and shrinking `subtrees` decides as the recursive scan does |
| `WebServer.AddNodeToSubtree` | src/webserver.rs:545-596 | on every table that describes a tree the recursion terminates and returns the place of the shape theorems |
| `WebServer.AdoptAll` | src/webserver.rs:746-748 | the replacement gains the children in order and counts them |
| `WebServer.EdgesSpan` | src/webserver.rs:683-697 | the listing of a tree of n nodes has n - 1 pairs: every node but the root once, with its parent |
| `WebServer.EdgeAt` | src/webserver.rs:683-697 | the pairs are listed record by record, and for a record in the order of its children |
| `WebServer.Web.constructor` | src/webserver.rs:135-151 | the table starts as the root alone, a tree |
| `WebServer.Web.GetTargetNode` | src/webserver.rs:612-630 | zero branches select the binomial place below the root, otherwise the shallowest node that is not full |
| `WebServer.Web.HandlePivot` | src/webserver.rs:632-681 | a join is the step of the runs, and the reply names the node it was attached to |
| `WebServer.Web.GraftReplacement` | src/webserver.rs:714-748 | the in-place updates for a target with children are the graft of the deepest record |
| `WebServer.Web.RepairTbon` | src/webserver.rs:702-779 | the in-place updates are the repair of the theorems, and the reply names the replacement and its sampling period |
| `WebServer.Web.HandleRemove` | src/webserver.rs:781-805 | the table stays a tree exactly for benign requests; the reply is one of the two refusals or that of the repair |
| `WebServer.Web.HandleLeave` | src/webserver.rs:810-855 | always keeps the tree and removes exactly the leaver; the root and unknown nodes are reported as not tracked; what the parent is told is `LeaveTells` |
| `WebServer.Web.HandleTopo` | src/webserver.rs:683-697 | the reply is the listing above, or the root paired with itself when it is alone |
| `FrameLog.LittleEndianRoundTrip` | src/trace.rs:486-493 | decoding inverts encoding for every integer that fits the width |
| `FrameLog.FrameAt` | src/trace.rs:486-501 | in every log of frames the codec is faithful to, frame i is found whole where the first i frames end, and takes 8 bytes plus its payload |
| `FrameLog.HeaderExactIff` | src/trace.rs:416-424 | a header read of any size gives the frame's length if and only if the length fits in the bytes that came |
| `FrameLog.ReadFrameAt` | src/trace.rs:411-448 | on every file and for every pattern of short reads: which bytes are decoded as the frame, where the next one is looked for, and when the loop never ends |
| `FrameLog.FrameReadIff` | src/trace.rs:411-448 | in every such log a frame is read to exactly its last byte, 8 + len bytes in all, if and only if the read of its header suffices |
| `FrameLog.WholeHeadersSuffice` | src/trace.rs:411-448 | header reads that are not cut short suffice for every such log, however the payload reads are cut |
| `FrameLog.ShortHeaderHangs` | src/trace.rs:416-424 | an input on which a short header read makes the reader hang |
| `FrameLog.ReadAll` | src/trace.rs:621-640 | reading the log of any list of frames that the codec is faithful to gives the list back whenever the header reads suffice, and, if the bytes of the log decode to what they encode, only then |
| `FrameLog.OffsetOfLastFrameStart` | src/trace.rs:374-398 | on every file, the scan succeeds if and only if the file is cut into frames exactly, and then returns the start of the last one |
| `FrameLog.LastFrameOfLog` | src/trace.rs:374-398 | on the log of a nonempty list of such frames that is the start of the list's last frame |
| `FrameLog.CodecExists` | src/trace.rs:486-501 | what the theorems ask of a codec can be met for every list of fewer than 2^64 frames, of any type |
| `TraceFrames.SampleSummarisesItself` | src/trace.rs:173-219 | a fresh sample is the summary of the block of itself |
| `TraceFrames.SumSummarisesIff` | src/trace.rs:173-235 | the sum of the summaries of two blocks summarises both (gauges carry the blocks' sums and envelope, counters the last value, the time lies within) if and only if no gauge that comes back in the later one has lost anything |
| `TraceFrames.UnbrokenIsSeamless` | src/trace.rs:173-235 | it has lost nothing when no gauge comes back after a gap |
| `TraceFrames.ReturningGaugeBreaksSummary` | src/trace.rs:173-219 | an input on which a gauge that comes back has lost five hits |
| `TraceFrames.SumKeepsIdsIff` | src/trace.rs:173-219 | merging two frames loses no metric if and only if the later one reports every metric of the earlier one |
| `TraceFrames.LookupLast` | src/trace.rs:173-179 | among entries with the same id the last one is merged |
| `TraceLog.NewMetas` | src/trace.rs:450-476 | new metadata frames are numbered on from the next id, one per unknown name, no known name again |
| `TraceLog.NewMetaSource` | src/trace.rs:450-476 | a new metadata frame carries the documentation and the time of the first snapshot with its name |
| `TraceLog.WithMetasKnows` | src/trace.rs:478-484 | after the metadata of a push every name of it has an id: `counter_id(..).unwrap()` cannot fail |
| `TraceLog.FoldKeepsSound` | src/trace.rs:530-587 | a fold never meets incompatible kinds, keeps all ids and names, and leaves every id declared before it is used |
| `TraceLog.PushKeepsSound` | src/trace.rs:589-612 | a push keeps ids 0, 1, 2, ... one per name, and declares each id before the sample that uses it |
| `TraceLog.FoldKeepsSummariesIff` | src/trace.rs:549-559 | after a fold the counter frames summarise the merged blocks if and only if each merged pair is seamless |
| `TraceLog.RunsSummariseIff` | src/trace.rs:530-619 | in every run of pushes and folds the counter frames summarise, at every moment, ordered disjoint blocks of the raw samples, if and only if every fold was seamless |
| `TraceLog.RunsSummarise` | src/trace.rs:530-619 | they do in every run in which no gauge comes back after a gap |
| `TraceLog.ReturningGaugeInRun` | src/trace.rs:549-559 | a run of three pushes and two folds whose stored frame has lost what a gauge had counted before a gap |
| `TraceLog.RunsKeepIds` | src/trace.rs:450-484 | an id, once given to a name, is kept by every later push and fold; ids are dense |
| `TraceLog.RunsKeepTimesOrdered` | src/trace.rs:221-235 | counter-frame times are nondecreasing after every run and none passes the last push |
| `TraceTimes.SumIsMidpoint` | src/trace.rs:221-231 | the time of a sum is the midpoint of the two times, strictly between them if they differ |
| `TraceTimes.RunsAverageTimes` | src/trace.rs:530-619 | after every run of pushes and folds the time of a stored frame is the mean of the times of the pushes in its block, each weighing one half per fold since, and these weights add up to one |
| `TraceTimes.SeriesLength` | src/trace.rs:266-291 | the series of a metric has one point per counter frame that holds it |
| `TraceTimes.SeriesPoint` | src/trace.rs:266-291 | each with the time and the value of its frame, in the order of the frames |
| `TraceLog.LostIff` | src/trace.rs:549-559 | in every run a sample is in no block if and only if its own push folded while the number of stored counter frames was even |
| `TraceLog.LostAtMostFolds` | src/trace.rs:549-559 | so at most one sample is lost per fold |
| `TraceLog.FirstPushLost` | src/trace.rs:549-559 | a first push that outgrows the file is lost |
| `TraceStore.TraceState.constructor` | src/trace.rs:642-664 | with any codec, a new trace's file is the log of its description and its indexes are empty |
| `TraceStore.TraceState.PushCounters` | src/trace.rs:266-272 | each series grows by the frame's values of its id |
| `TraceStore.TraceState.AppendData` | src/trace.rs:274-291 | the series stay the projections of the frames and the name index takes up the metadata |
| `TraceStore.TraceState.CheckCounter` | src/trace.rs:450-476 | the metadata frames for unknown names, with index and next id kept in step |
| `TraceStore.TraceState.WriteFrames` | src/trace.rs:486-528 | the encodings of the frames are appended, in order, and the size is that of the file |
| `TraceStore.TraceState.Fold` | src/trace.rs:530-587 | with any codec, the file is the log of description and folded frames, and both indexes are rebuilt to match |
| `TraceStore.TraceState.PushSample` | src/trace.rs:589-612 | file, frames, name index and series stay in agreement through a push |
| `TraceStore.TraceState.Push` | src/trace.rs:589-619 | the trace is what its history of pushes and folds leaves; it folds exactly when the file has outgrown its limit |
| `TraceStore.TraceState.ReadBack` | src/trace.rs:621-640 | at any moment decoding the file yields the description and the frames in memory, whenever the codec is faithful to them and the header reads suffice |
| `TraceStore.TraceScraper.ScrapeTrace` | src/scrapper.rs:355-371 | the sampling period is its initial value times two to the number of folds the trace's history has had since |
| `TraceStore.FoldAtOnce` | src/trace.rs:614-618 | a new trace with limit zero folds at its first push and has no sample left |
| `Exporters.PushRefines` | src/exporter.rs:130-147 | the two-level push is the push into a flat map by full name: refused exactly there, never overwriting, every entry in the group of its basename, no empty group; a group keeps the documentation of its first entry |
| `Exporters.UnmatchedNames` | src/exporter.rs:135-139 | which names are refused: those with an opening brace and no closing one, and no others |
| `Exporters.AccumulateRefines` | src/exporter.rs:98-114 | the two-level accumulate changes exactly one name of the flat map, never its documentation, and fails exactly for unknown names and other kinds |
| `Exporters.GroupSnapshot` | src/exporter.rs:165-183 | each entry of the group, or each that holds data, exactly once |
| `Exporters.Exporter.Push` | src/exporter.rs:242-260 | the contents after a push are those of the flat map; a refusal leaves the index untouched |
| `Exporters.Exporter.Accumulate` | src/exporter.rs:201-212 | the contents after an accumulate are those of the flat map |
| `Exporters.Exporter.Get` | src/exporter.rs:214-226 | the entry of the full name, if there is one |
| `Exporters.Exporter.Profile` | src/exporter.rs:274-286 | lists each key exactly once, or each key that has a value or hits |
| `Counters.DeltaThenMerge` | src/proxywireprotocol.rs:161-291 | merging a delta into the value it was taken from restores value, hits and total |
| `Counters.RangesAreHulls` | src/proxywireprotocol.rs:161-291 | the range of a merge or a delta is the smallest that holds both ranges; that of a local sample is its value |
| `Counters.CounterTimes` | src/proxywireprotocol.rs:161-291 | the time of a merged counter is the midpoint, rounded down; that of a delta is the time elapsed |
| `Counters.NoDataAddsNothing` | src/proxywireprotocol.rs:120-130 | a value has no data if and only if merging it adds no value and no hits |
| `Scraping.Substract` | src/proxywireprotocol.rs:754-773 | for any two profiles: when it fails and what it lists; when the older one lists each name once it fails exactly when a shared name changed its kind, and lists the difference |
| `Scraping.SubtractedAmount` | src/proxywireprotocol.rs:754-773 | every older entry, repeated or not, is taken off the newer one of its name |
| `Scraping.ByNameLast` | src/proxywireprotocol.rs:754-762 | a name listed more than once stands for its last entry |
| `Scraping.DifferenceThenMerge` | src/proxywireprotocol.rs:754-773 | merging the difference back restores every newer amount when no name vanished |
| `Scraping.FeedExporter` | src/scrapper.rs:228-232 | the loop of `push` and `accumulate` has the effect of feeding the counters one by one, up to the first refusal |
| `Scraping.FeedAllIsFeedMap` | src/scrapper.rs:228-232 | the result does not depend on the order of the counters; it goes through if and only if new names are legal and known ones keep their kind |
| `Scraping.RefusalIsFeedMap` | src/scrapper.rs:228-232 | a refusal leaves behind exactly what the counters before it put in |
| `Scraping.ProxyScraper.ScrapeJob` | src/scrapper.rs:215-239 | one turn of the profile loop: what reaches the exporter is the profile or its difference from the shadow, up to a refusal; the profile becomes the shadow only if all of it went in |
| `Scraping.TurnFeeds` | src/scrapper.rs:215-239 | on profiles that list each metric once: a turn feeds the profile or its difference from the shadow, and all of it goes in if and only if the exporter accepts it |
| `ScrapeRuns.TurnGoesOn` | src/scrapper.rs:228-239 | a turn never gets stuck: its next counter goes in or is refused, or it is finished |
| `ScrapeRuns.TurnIsFeed` | src/scrapper.rs:228-232 | a turn that no one disturbs has the effect of the loop over the counters |
| `ScrapeRuns.PushConserves` | src/exporter.rs:130-147 | a push, of a scraper or of a local client's description, keeps the conservation law |
| `ScrapeRuns.MergeConserves` | src/proxywireprotocol.rs:161-202 | merging a counter of a scraped profile keeps the law |
| `ScrapeRuns.FinishConservesIff` | src/scrapper.rs:237-239 | the end of a turn keeps the law of every entry if and only if no nonzero name the scraper saw has vanished |
| `ScrapeRuns.DropConservesIff` | src/exporter.rs:427-461 | dropping a scraper, after a refusal or not, keeps the law if and only if its unfinished turn had merged nothing that counts |
| `ScrapeRuns.AddConservesIff` | src/proxywireprotocol.rs:205-246 | a local client's value keeps the law if and only if it is an increment or a sample of a gauge that holds nothing |
| `ScrapeRuns.StepConservesIff` | src/scrapper.rs:178-245 | exactly which steps keep the law |
| `ScrapeRuns.DeltasTelescope` | src/scrapper.rs:178-245 | in every interleaving of any number of scrapers and local clients, down to single pushes and merges, refusals and descriptions included: an entry holds, at every moment, its base, what dropped scrapers left, the local values, and for each scraper its last snapshot and what its present turn has merged, if and only if every step met its condition |
| `ScrapeRuns.StepWidensIff` | src/proxywireprotocol.rs:161-291 | exactly which steps do not narrow the range of an entry: all but a local sample of a gauge whose range is not that one value |
| `ScrapeRuns.RangesCover` | src/proxywireprotocol.rs:161-291 | in every history a gauge entry's minimum and maximum enclose a range merged into it earlier as long as no local sample has overwritten it since |
| `ScrapeRanges.RangesAttained` | src/proxywireprotocol.rs:161-291 | in every history both ends of a gauge entry's range were reported for it: by the start, a scraped profile, a description or a local sample |
| `ScrapeRanges.EntriesStay` | src/exporter.rs:98-147 | in every history an entry, once stored, stays with its documentation and its kind |
| `ScrapeRuns.VanishedCounterBreaksLaw` | src/proxywireprotocol.rs:763-768 | a history from an empty job whose last step breaks the law: a counter that vanishes is counted again |
| `ScrapeRuns.LocalGaugeBreaksLaw` | src/proxywireprotocol.rs:205-246 | a history from an empty job whose last step, a local sample, wipes out a scraped gauge and its range |
| `ScrapeRuns.RefusedScrapeBreaksLaw` | src/scrapper.rs:228-235 | a history from an empty job whose last step, a refusal, leaves a counter fed and not accounted for |
| `JobRefs.ExporterFactory.constructor` | src/exporter.rs:782-804 | main and node job each start with one reference to an exporter of their own |
| `JobRefs.ExporterFactory.ResolveJob` | src/exporter.rs:869-918 | one more reference to the registered exporter, or a new entry with one reference to a new exporter |
| `JobRefs.ExporterFactory.RelaxJob` | src/exporter.rs:954-983 | one reference less, removal at zero unless saving fails, and the two failure cases |
| `JobRefs.HeldRelaxes` | src/exporter.rs:954-983 | giving back a held reference neither trips the assertion nor misses the job |
| `JobRefs.NextKeepsCounted` | src/proxy.rs:53-106 | every step of every client and scraper, errors and dropped scrapers included, keeps each counter equal to holders plus leaked plus permanent references |
| `JobRefs.RunsStayCounted` | src/scrapper.rs:190-226 | in every interleaving no step fails, main and node jobs are never deleted, and a client writes to a registered exporter, also one that announced an empty id after its job |
| `JobRefs.CounterBoundsHolders` | src/exporter.rs:341-352 | a counter is at least the number of live holders, with equality (plus the permanent reference) if and only if nothing leaked |
| `JobRuns.TableStep` | src/exporter.rs:869-918 | no step changes the exporter of a registered job; a job that is registered gets one not used before |
| `JobRuns.LeavesIff` | src/exporter.rs:954-983 | a job leaves the table exactly when its last reference is given back and its profile can be saved |
| `JobRuns.RunsKeepOwn` | src/exporter.rs:869-918 | in every run different registered jobs have different exporters |
| `JobRuns.NeverReused` | src/exporter.rs:869-918 | in every run an exporter that was one job's never becomes another's |
| `JobRuns.RunsWriteTo` | src/proxy.rs:53-63 | in every run a client writes to the exporter registered for the job it announced last, empty ids apart, and no other job has that exporter; before its first announcement it writes to none |
| `JobRuns.LocalIff` | src/exporter.rs:873-902 | in every run a job is local if and only if a client has announced it since it was registered |
| `ClientFlow.NextKeepsInv` | src/lib.rs:259-349 | every step of a client or of the server in one of the exporters, refusals and the ids of main and node included, keeps the accounts and the order of descriptions and values |
| `ClientRuns.RunsConserve` | src/exporter.rs:986-1029 | in every interleaving total increments are pending, in flight, in main once or lost with a cut connection; node and the jobs' exporters lack of main only what is being handled and what a job's exporter refused; main and node never miss a key |
| `ClientRuns.DrainedIsComplete` | src/lib.rs:259-283 | when nothing is left on the clients' side, main and node hold exactly what was incremented and not lost, and once more what was handled for clients on their own ids; a job's exporter holds what was handled for it and not refused |
| `ClientRuns.JobIsLastAnnounced` | src/proxy.rs:53-63 | in every run a client is on the job it announced last, also if it has announced an empty id since |
| `ClientRuns.MissIff` | src/exporter.rs:1009-1029 | in every run a value is refused by its job's exporter, which cuts the connection, if and only if the job is neither main nor the node and no client's description of the metric was carried out there before |
| `ClientRuns.OnceIff` | src/exporter.rs:1021-1026 | the law without a second count holds if and only if main has taken nothing for clients on its own id; the node likewise follows main, what it took for its own id apart |
| `ClientRuns.RunsUnclaimed` | src/exporter.rs:869-918 | in every run in which no client announces an id, main's or the node's included, nothing is carried out for that id |
| `ClientRuns.EarlyNeverMisses` | src/lib.rs:170-181 | no value is ever refused by a job's exporter when clients announce their job before they describe anything |
| `ClientRuns.UncutIffLegal` | src/exporter.rs:130-147 | then, once the streams are drained, no connection was cut, and nothing lost, if and only if every name that was ever described is legal |
| `ClientRuns.IllegalNameLosesIncrements` | src/proxy.rs:87-97 | a run in which an illegal name takes another counter's increments with it |
| `ClientRuns.LateJobCuts` | src/proxy.rs:53-63 | a run in which a job announced late cuts the connection |
| `ClientRuns.CountedTwice` | src/exporter.rs:783-794 | a run in which a client on the job "main" has its increment counted twice |
| `ClientLibrary.MetricProxyClient.constructor` | src/lib.rs:154-181 | a new client has announced its job and nothing else |
| `ClientLibrary.MetricProxyClient.Inc` | src/lib.rs:66-79 | is the step of the runs; what is outstanding grows by the increment for the named counter and for no other |
| `ClientLibrary.MetricProxyClient.PushEntry` | src/lib.rs:311-349 | is two steps of the runs; a known counter keeps its value, nothing outstanding changes |
| `ClientLibrary.MetricProxyClient.CollectValues` | src/lib.rs:259-277 | marks and collects counter by counter: the values read are those of the counters above zero, each once, and afterwards no counter is above zero |
| `ClientLibrary.MetricProxyClient.DumpValues` | src/lib.rs:259-283 | is a sequence of steps of the runs; it sends exactly the values of the counters above zero, each once, leaves no counter above zero, and for each name what is outstanding is unchanged |
| `NulFraming.SplitIsFaithful` | src/proxy.rs:80-98 | splitting loses no byte: the commands with their NULs and the tail are the stream, and no piece holds a NUL |
| `NulFraming.SplitInvertsEncode` | src/lib.rs:289-304 | the commands found are those written, in order, whatever unterminated tail follows |
| `NulFraming.HandleRead` | src/proxy.rs:87-97 | a read's bytes continue the split of the bytes before them |
| `NulFraming.HandleClient` | src/proxy.rs:68-98 | for every cut of the stream into reads the effect is that of its complete commands in order, up to the first that fails; a tail is not handled |
| `NulFraming.SentIsHandled` | src/proxy.rs:68-98 | for every cut of what a client wrote into reads, exactly the client's commands are handled |

## Left out

- The HTTP calls inside join and repair, what they do at the other end (of a leave, what the parent is told is modelled), and whether the remote proxies' scrape lists agree with the table; the sampling period a proxy answers with is a parameter.
- The parsing of requests, parameters and JSON.
- `handle_leave` releases the table's lock between looking up the parent and repairing; it is one step here. Its second half alone is a removal, for which `RepairKeepsTreeIff` says when it is harmless.
- TbonKary.JoinsShallowestFree: assumes at most `i32::MAX` nodes, the range of the original's depths and keys.
- TbonUnnamed.BinomialShapeIff: assumes at most 2^32 nodes, since subtree sizes are truncated to 32 bits.
- TbonTable.ClientPivot counts children without wrapping at 2^32, which a table of fewer than 2^32 nodes does not reach; decrements wrap.
- TbonRuns.RunsKeepTree: runs hold the requests `StepKeepsTreeIff` shows to be harmless; the others break the table.
- FrameLog.ReadAll: the payload codec is a parameter that gives each frame of the log a payload that decodes to it, is not empty and is shorter than 2^64 bytes (`CodecExists`); nothing is promised about the frames found after a misread length.
- TraceLog.RunsSummariseIff: assumes that the clock does not run backwards and that a name keeps its kind.
- TraceStore.TraceState.Push: profiles list a name once, as `Exporter.Profile` does; write errors, the `lastwrite` time and traces that were reopened from a file are not modelled.
- ScrapeRuns.DeltasTelescope: speaks of counter values, gauge hits and gauge totals; time stamps are averaged and obey no such law. Profiles in a history list a name once, as `Exporter.Profile` does.
- Scraping.ProxyScraper.ScrapeJob: one job at a time with its exporter at hand; the arrival and departure of jobs in a scraped list are steps of `JobRefs`.
- ClientRuns.RunsConserve: counters only, a gauge is overwritten by design; a write fails only on a connection the server has closed. Clients do not leave in these runs, so a job's exporter, which goes with its last holder (`JobRefs`), is never replaced by a new one.
- JobRefs.ExporterFactory.ResolveJob: exporters are numbered; traces and FTIO scrapers attached to a new job are not modelled.
- Saving a job's profile and closing its trace when the last reference goes: only their success or failure.
- Rounding, NaN and infinities of `f64`, and overflow of `u64` counters and times.
- Alarms, Prometheus and system scraping, the Prometheus text output, profile storage, FTIO, Extra-P, the launcher and the job queue.
