# Verified kernels of the code-navigation server

The repository indexes a source tree and answers structural questions about it: which files import
each other in cycles, who calls a function, what a bounded walk over the edges of a symbol reaches,
which symbols a diff touches. Around that sit a client for language servers, an HTTP session
manager, a layered cache and a hybrid search. This project models the algorithms and protocols
those answers rest on, and proves what they promise, over all inputs, all runs and all
interleavings.

| Files | What they model |
|---|---|
| `Graphs`, `TarjanState`, `TarjanVisit`, `TarjanLook`, `TarjanFinish`, `Architecture`, `ImportCycles` | the iterative strongly-connected-components search as an object over its maps and two stacks, and the import cycles read off it |
| `LspProtocol`, `LspProvenance`, `LspOutcomes`, `LspFraming`, `LspHeaders` | the language-server client: requests, reader and close as a step system at the granularity of lock and channel operations, where replies come from and why calls end; the `Content-Length` printer and parser, and the header blocks it accepts |
| `GraphWalks`, `QueryGraph`, `QueryHistory`, `QueryTraversal`, `QueryMeaning`, `QueryExactness`, `QueryChain`, `QuerySeeds` | the multi-seed breadth-first traversal with its caps, the run behind an answer, the answer in terms of the query's edges, weights and filters, of walks and of distances, and the validation of its arguments |
| `Recency`, `LruInclusion`, `LruLaw`, `LruTier`, `Cache`, `Symbols`, `Store`, `StoreProtocol` | the recency cache on the heap, the sequence it stands for and the law of LRU over runs, the three-level file lookup above it, and overlapping lookups at the granularity of locks and system calls |
| `SessionProtocol`, `SessionReaping`, `SessionStops`, `SessionCalls`, `SessionManager` | HTTP sessions: every interleaving of allocate, touch, delete, reap and stop as a step system, what the reaper's count means, how often a stop takes effect, that calls run to their ends, and each method as it runs alone |
| `EditDistance`, `SuggestNames` | bounded edit distance against edit scripts, and the name suggestions computed with it |
| `RowRanges`, `TreeWalk`, `CallEdges`, `CallMeaning` | line slices against byte ranges, the explicit-stack tree walk against recursion, the call-edge index against the live scan, and both against the calls in the trees |
| `Sanitize`, `RrfMerge`, `RrfMeaning`, `MergeRanges` | the identifier sanitizer, reciprocal rank fusion, and the merging of changed line ranges |
| `Sorting`, `Wrappers` | sorting under a total order and its uniqueness; `Option` and `Result` |

## How the model relates to the code

Maps and slices that a Go function updates are fields of a class or variables of a loop. A
`map[string]bool` is a set. The order in which a Go map is ranged over is always arbitrary, and so
are clocks, deadlines, cancellation, what the server sends and how files on disk change; where a
function polls its context, what each look finds is an arbitrary function given to it. Go
`float64` scores are reals. Strings and byte slices are sequences of characters or bytes.
`container/list` is the sequence of its elements, which are objects on the heap. `sort.Slice` and
`sort.Strings` are a sort function whose result is proved unique under a total order.

Three protocols (the client, the sessions, and the file lookup) are given as states,
atomic actions and runs; their lemmas speak of every state a run reaches. Where the code is a
single method, the method itself is proved as well.

## What was found

* **Depth is not always the distance.** With weights between `lo` and `hi` and `depth` at least
  two, every row of every untruncated one-kind answer carries the shortest distance iff
  `hi * depth <= lo * (depth + 1)`. Beyond that a heavier seed that arrives later has the larger
  score and replaces the depth (`QueryChain.DepthIsDistanceIff`), and the traversal itself returns
  such a row (`QueryChain.TraverseChains`). The "only if" is for depths up to 2500, where the visit
  cap lets the example be completed; the code admits five. Equal weights meet the condition at
  every depth iff they are not negative.
* **A stopped session manager can hold sessions again.** An `Allocate` past the `stopped` check
  registers after `Stop` has emptied the map. Its context is dead from the start, but the entry
  stays (`SessionProtocol.EmptyAfterStopIff`, with a run in
  `SessionProtocol.StoppedManagerCanRegister`).
* **The number `Reap` returns can be too large.** It counts the sessions found; it is the number
  removed iff none of them was gone when its turn came (`SessionReaping.ReapedIsRemovedIff`).
* **The reaper does not look again.** A session touched between the reaper's scan and its removal
  is removed (`SessionProtocol.TouchedSessionCanBeReaped`). While the reaper is no more than one
  more timeout behind its clock reading, what it removes is still idle beyond the timeout iff it
  was not touched since the scan (`SessionProtocol.ReapedIsIdleIff`).
* **A body starting in row 0 loses its first byte** unless the file starts with a newline or is
  one byte long (`RowRanges.ScanSelectsSliceIff`): the scan takes index zero to mean that no start
  has been found.
* **The sanitizer's two paths differ on malformed UTF-8.** A clean name is returned as it is,
  where the slow path would rewrite stray bytes; they agree exactly on encodings
  (`Sanitize.FastPathAgreesIff`). The bytes of a dangerous rune never survive, but an overlong
  form that the code's own decoder reads as one does (`Sanitize.ReadsSafeIff`).
* **A reply may precede its request.** A frame is matched by id alone. One that was read before
  the call had written its request answers it if, when the write ended, the frame was in the
  reader's hands or already in the call's channel, and in no other way; likewise one read before
  the call registered, if the reader held it then (`LspProvenance.RepliesWereRead`, with a run in
  `LspProvenance.EarlyReplyIsAccepted`).
* **`Close` never sends `shutdown` and `exit`.** It stores `closed` first, and `Notify` refuses
  from then on: only notifications already past the check are still written
  (`LspProtocol.LateNotificationsAreRefused`).
* **After `Close`, a call can still wait for another's write.** Waiting for the write mutex heeds
  neither the deadline nor `closeCh`; it is the only thing a call can then wait for
  (`LspProtocol.ClosedCallsCanStep`).
* **A cached file can have newer content than its time stamp says**, for `stat` and read are two
  calls (`StoreProtocol.TornFileIsRecorded`). It has the content of its time stamp iff a read gives
  the same at both instants; where writes change content, iff nothing wrote the path in between
  (`StoreProtocol.RecordedIsGenuineIff`, `StoreProtocol.HeldIsGenuineIff`). As long as a later write
  has a later time stamp, no lookup returns content that was not on disk during the call
  (`StoreProtocol.AnswersAreCurrent`).
* **A load cut off by its limit empties the disk cache of the files it did not reach.** What is
  evicted is what this load did not record, whether or not the file still exists
  (`Store.Repo.Load`).
* **Caller keys can collide.** Two declarations have one key iff file, receiver and name agree, or
  a colon or dot of one is read as part of the other in one of the ways listed in
  `CallEdges.KeysEqualIff` and `CallEdges.QualifiedEqualIff`; `CallEdges.CallerKeysCollide` shows two.

Where comments and code differ, the model follows the code:

* `internal/hybrid/merge.go` says the later channel's payload wins and ties go to the best rank;
  the code keeps the first occurrence's hit and breaks ties by ID.
* `internal/tool/querygraph.go` promises the maximum over all seeds that reach a node; a node is
  expanded once, under the seed that won when it was first reached, so the score is the maximum
  over the hits the run makes, not over all walks.
* `internal/mcp/transport/http/session.go` calls what `Reap` returns the number removed; it is the
  number found.
* `internal/store/resolver.go` speaks of one entry per call site; it is one per symbol and callee name.
* `internal/lsp/client.go` says at line 470 that `Close` sends `shutdown` and `exit`; see above.
* `internal/store/store.go` calls the evicted entries those of files that no longer exist; see above.
* `internal/lsp/client.go` calls the framing newline-delimited JSON at line 294; it is the
  `Content-Length` framing of the Base Protocol, LSP 3.17.
* `internal/domain/sanitize.go` says invalid sequences have width one; continuation bytes are not
  checked, so a lead byte takes the following bytes whatever they are.

## Model

| member | source | states |
|---|---|---|
| Architecture.TarjanSCC | internal/tool/architecture.go:485-557 | Terminates on every finite graph. The lists are non-empty, sorted, free of repetition and pairwise disjoint; together they hold exactly what the given nodes reach; two nodes share a list iff each reaches the other; and a list comes after every other list it reaches. |
| Architecture.CondensationsAgree | internal/tool/architecture.go:497-499 | Any two such results for one graph contain the same lists, so which components are reported depends on the graph alone. |
| Architecture.KeysSorted | internal/tool/architecture.go:559-566 | The targets of a node's edges, each once, in string order. |
| Architecture.Search.Enter | internal/tool/architecture.go:506-511 | Numbering and pushing an unvisited node, as a root or as the next child of the top frame, keeps the whole search invariant. |
| Architecture.Search.Look | internal/tool/architecture.go:514-528 | Looking at a visited child, on the stack or not, keeps the invariant and only advances the frame's cursor. |
| Architecture.Search.Finish | internal/tool/architecture.go:529-553 | Finishing the top frame keeps the invariant, whether it reports a component or hands its low link to its parent. |
| Architecture.PopComponent | internal/tool/architecture.go:533-542 | Popping down to a node removes exactly the stacked nodes numbered no earlier than it, from the stack and from the on-stack set alike. |
| Architecture.Search.From | internal/tool/architecture.go:501-554 | The search from one root terminates with an empty call stack, the root visited and nothing forgotten. |
| ImportCycles.BuildAdjacency | internal/tool/architecture.go:399-417 | The adjacency built file by file is the graph of local imports, with no entry for a file that has none. |
| ImportCycles.ImportCycles | internal/tool/architecture.go:386-444 | Every file listed lies on a directed cycle of imports, self-imports included; each list is one whole component, never empty and trimmed to twenty; no component is listed twice or before one it imports; and every file on a cycle has its component listed unless ten components are. |
| ImportCycles.CycleIffOnCycle | internal/tool/architecture.go:421-431 | The test "more than one file, or one with a self-loop" holds of a file's component iff the file lies on a cycle. |
| ImportCycles.EdgeIsImport | internal/tool/architecture.go:398-417 | A file has an edge to another, or to itself, iff one of its import entries resolves to it. |
| ImportCycles.ListedAreFirst | internal/tool/architecture.go:432-437 | A reported list is in string order and holds its whole component, or the twenty files of it that come first. |
| Sorting.StringLeIff | internal/tool/architecture.go:434 | String order: at the first difference the smaller character comes first, and a prefix before what it begins. |
| LspProtocol.RunsKeepInv | internal/lsp/client.go:243-373 | In every interleaving: tokens count the calls between acquire and release, ids are unique, the pending map is exactly the registered calls, channels hold at most one frame and only their owner's, outcomes fit, and the write mutex is held by the one call that is writing. |
| LspProtocol.RepliesBearTheCallersId | internal/lsp/client.go:319-338 | A call that returns with a reply, a server error or a decode failure got a frame bearing the id it drew, whatever the server sends; it is a server error iff the frame carries one. |
| LspProtocol.RepliesAreNotShared | internal/lsp/client.go:266-267 | No two successful calls are answered by the same frame. |
| LspProtocol.TokensCountTheCallsInFlight | internal/lsp/client.go:253-264 | The semaphore holds one token per call in flight, never more than the configured concurrency. |
| LspProtocol.ReturnedCallsLeaveNothing | internal/lsp/client.go:264-313 | A call that returned leaves no pending entry and no token; when all have, both are empty. |
| LspProtocol.ReaderNeverBlocks | internal/lsp/client.go:451-466 | With a frame in hand the reader can always step and is back at its loop in two steps; the lookup changes nothing but the reader, and the send at most fills the empty channel of the call the frame is for. |
| LspProtocol.ReplyIsDelivered | internal/lsp/client.go:303-329 | A reply to a call that waits with an empty channel is found, sent and received: the call ends with the server's error if the frame carries one, else with a reply or a decode failure as the result decodes or not. |
| LspProtocol.ClosedCallsCanStep | internal/lsp/client.go:474-477 | After close a call has a step of its own that brings it nearer to returning, unless it is about to lock the write mutex and another holds it; then it has none, and the holder can end its write and free the mutex. |
| LspProtocol.WritesAreExclusive | internal/lsp/client.go:356-372 | While a call writes its frame, in any reachable state, no other call and no notification can begin, make or end a write. |
| LspProtocol.LateNotificationsAreRefused | internal/lsp/client.go:474-488 | From any state with `closed` stored, in every continuation, no notification passes its check, and no more are written than had passed it or were being written. |
| LspProtocol.NotificationsAreAccountedFor | internal/lsp/client.go:341-372 | Every notification that passed its check has been written once, is being written or waits for the write mutex. |
| LspProtocol.CallsOnlyAdvance | internal/lsp/client.go:243-338 | Every step of a call brings it nearer to returning, and no other step moves it. |
| LspProtocol.ClosedCallsReturn | internal/lsp/client.go:474-477 | From any reachable state after close, any call returns within nine steps of its own and at most one other, the end of the write that holds the write mutex; none if the mutex is free or the call is past it. |
| LspProtocol.LateCallsAreRefused | internal/lsp/client.go:244-246 | A call that begins after close never gets further than its check: in every continuation it is at its start or has returned the closed error without drawing an id. |
| LspProvenance.RepliesWereRead | internal/lsp/client.go:303-320 | The frame a call returned with was read in the run, looked up after the call had registered, and taken from its channel after its request was written. It was read after the registration, unless the reader was holding it then; and after the write, unless at the end of the write the reader held it, for lookup or for this call, or the call's channel did. |
| LspProvenance.EarlyReplyIsAccepted | internal/lsp/client.go:451-462 | A run whose only frame is read before the call has registered, let alone written its request, and is returned as its reply. |
| LspOutcomes.OutcomesHaveCauses | internal/lsp/client.go:243-338 | The outcome of a call is that of the one step that ended it: a frame taken, and then which of the three outcomes follows from the frame and the decoder; a failed write; giving up for a timeout or a cancellation; `ErrClosed` only once `closed` is stored. |
| LspOutcomes.ReaderStopsAfterClose | internal/lsp/client.go:395-401 | After `closeCh` is closed the reader finishes the frame it is reading, if any, and reads no other. |
| LspFraming.ReadHeaderLines | internal/lsp/client.go:402-430 | The header loop reads what the recursive description of a header block says, on every input, and reports malformed lengths and truncation as it does. |
| LspFraming.ReadLoop | internal/lsp/client.go:395-437 | The bodies read from any stream are those the description of the framing yields. |
| LspFraming.AtoiDecimal | internal/lsp/client.go:366 | Parsing the printed length gives the length back. |
| LspFraming.BodyOfFrame | internal/lsp/client.go:356-437 | A written frame, followed by anything, is read as its body followed by what the rest yields. |
| LspFraming.RoundTrip | internal/lsp/client.go:356-437 | For every list of non-empty bodies and any continuation, reading the concatenated frames yields the list and then the continuation's bodies. |
| LspFraming.TruncatedStream | internal/lsp/client.go:395-437 | A stream of frames cut at any byte yields exactly the bodies of the frames that are complete. |
| LspHeaders.AnyFrameIsRead | internal/lsp/client.go:402-433 | A frame whose header block has the body's length in one field, in any letter case, with blanks around name and value and a plus sign allowed, among any other lines, is read as its body, whatever follows. |
| LspHeaders.OwnFrameIsOne | internal/lsp/client.go:366-372 | The frames the client writes are of that form. |
| LspHeaders.NoLengthEnds | internal/lsp/client.go:431-433 | A header block without a length field ends the reading. |
| LspHeaders.NoPositiveLengthEnds | internal/lsp/client.go:431-433 | So does a length of zero or less. |
| LspHeaders.MalformedEnds | internal/lsp/client.go:420-429 | So does a length field whose value is empty or has a character that is no digit and no leading sign, after any other lines. |
| LspHeaders.TooLargeEnds | internal/lsp/client.go:420-429 | So does a length beyond the 64-bit range. |
| QuerySeeds.NormaliseSeedsAndWeights | internal/tool/querygraph.go:363-410 | Which arguments are refused and with which complaint first; the single seed has weight one; otherwise the distinct seeds in the order they first occur, each with the largest weight any of its occurrences carries. |
| QuerySeeds.Dedup | internal/tool/querygraph.go:388-409 | The deduplication loop keeps first occurrences and largest weights. |
| QueryGraph.Gather | internal/tool/querygraph.go:552-580 | Scans a prefix of the frontier in order, never beyond 5000 visits; uncut, it collects one hit for every edge of every frontier node. |
| QueryGraph.BestForTarget | internal/tool/querygraph.go:582-596 | Keeps, for exactly the targets hit, the first of the hits that no other on the same target beats. |
| QueryGraph.CreditSeeds | internal/tool/querygraph.go:598-607 | Every seed that contributed is credited with its best hit, and credits never fall. |
| QueryGraph.EmitRow | internal/tool/querygraph.go:640-690 | A target's row after its best hit: filtered, improved, added, suppressed or dropped for the limit; other rows are untouched. |
| QueryGraph.Emit | internal/tool/querygraph.go:609-691 | In any order of the targets: the next frontier is the newly seen targets that can be located, each under its winning seed, and every row changes as one application of its best hit says. |
| QueryTraversal.BfsFromSeeds | internal/tool/querygraph.go:504-704 | For any weights, follow list, filters, map order and cancellation: the trace starts with the seeds, each frontier lists once exactly the located targets not seen before, under the seed that won them; seed scores are the maxima over all hits of the trace; every row is the one the trace gives its target, with its edge, follow kind, depth and score; rows have distinct targets, none a seed, at most `limit`, each witnessed by a walk. The scans are those of the trace followed by some of the frontier after it, no id twice, at most 5000. Truncated only if the limit is reached and a row is missing for it, or 5000 nodes are scanned and one of that frontier is not, or the look that ended the loop found the context done, or the last look after a complete run did; otherwise the trace went on to `depth` or an empty frontier, all of it was scanned and no row is missing, so without filters exactly the non-seed targets hit have rows, each with the best hit on it. |
| QueryMeaning.RowHasPath | internal/tool/querygraph.go:542-577 | For any follow list, a row has a path from a seed, as long as the row's depth, whose i-th edge the scanner of the i-th kind returns, the list being repeated; its score times one more than its depth is that seed's weight. |
| QueryMeaning.RowMeans | internal/tool/querygraph.go:640-690 | A row of any answer shows an edge of the first step that reaches its target, with that step's kind, that is no test file's if tests are excluded and of the kind asked for; its depth and score are those of a scanned edge the filters let through; and no step whose edges to the target are all let through beats them, by score or by depth at equal score. |
| QueryMeaning.ScannedTargetsHaveRows | internal/tool/querygraph.go:609-690 | In an untruncated answer, a node that is no seed and that an edge leads to has a row if the filters let all edges of the first such step through, and none if they let none through; without filters every such node has one. |
| QueryMeaning.FirstFrontier | internal/tool/querygraph.go:504-533 | The run starts with the seeds, each under itself. |
| QueryMeaning.NextFrontier | internal/tool/querygraph.go:609-637 | After a step of any kind exactly the targets of its edges are scanned next that are no seeds, can be located and were the target of no earlier step's edge. |
| QueryMeaning.NextSeed | internal/tool/querygraph.go:582-596 | A node is expanded under a seed of the largest weight among those whose nodes lead to it in that step. |
| QueryMeaning.CreditIsEarned | internal/tool/querygraph.go:598-607 | A seed's credit is its weight over one more than the depth of some edge scanned under it. |
| QueryMeaning.CreditIsLargest | internal/tool/querygraph.go:598-607 | No edge scanned under a seed is worth more than its credit. |
| QueryHistory.StepKeepsHistory | internal/tool/querygraph.go:598-691 | One step of the code extends the trace by one step of its description: what is seen, the next frontier, the credits and every row. |
| QueryHistory.RowOfIsBest | internal/tool/querygraph.go:495-501 | Without filters, exactly the non-seed targets of a run's hits are given rows, and each row has the depth and score of a hit on its target that no other hit beats. |
| QueryHistory.WinnerIsUnique | internal/tool/querygraph.go:582-596 | One hit only is the first of those on its target that no other beats. |
| QueryExactness.RunReaches | internal/tool/querygraph.go:542-697 | Along one kind of edge, the seeds and the targets of the first n steps of any run are the nodes within n edges of the seeds, in any map order and for any weights. |
| QueryExactness.RowsAreAtTheirDistance | internal/tool/querygraph.go:504-704 | One follow kind, no filter, not truncated: the rows are exactly the non-seed nodes at shortest distance 1 to `depth`, for any weights. With weights steady at this depth each row has its distance as depth, and a score between the lightest and the heaviest weight over one more; equal weights make that exact. |
| QueryChain.DepthIsDistanceIff | internal/tool/querygraph.go:655-666 | For weights between two bounds and a given depth, depth equals distance in every row of every such answer if the depth is at most one or `hi * depth <= lo * (depth + 1)`; and only if, for depths up to half the visit cap. |
| QueryChain.HeavySeedOverstates | internal/tool/querygraph.go:655-666 | Whenever that fails, two chains of edges, a light seed and a heavy seed, and an untruncated answer, within the limit and the visit cap and with one row per node, in which a row overstates its node's distance. |
| QueryChain.TraverseChains | internal/tool/querygraph.go:504-704 | The traversal of those two chains is not truncated, and its row for the meeting node has a depth that is not the node's distance. |
| QueryChain.EqualWeightsSteadyIff | internal/tool/querygraph.go:490-496 | Equal weights meet the condition at every depth iff they are not negative. |
| GraphWalks.DistanceIsFirstLevel | internal/tool/querygraph.go:494-503 | A node's shortest distance from the seeds along one kind is the first level of the breadth-first search that contains it. |
| GraphWalks.EmptyFrontierEnds | internal/tool/querygraph.go:693-695 | Once a frontier is empty, no later level adds a node, so stopping early loses nothing. |
| Recency.InsertedIsFound | internal/cache/cache.go:123-142 | After an insertion the key is found with its value, and any other key found has the value it had. |
| Recency.LookupWithinCap | internal/cache/cache.go:105-121 | A lookup, hit or drop, keeps keys distinct and the cap, and adds no key. |
| Recency.InsertWithinCap | internal/cache/cache.go:124-142 | An insertion keeps keys distinct and the cap, and leaves its entry in front. |
| LruInclusion.LargerCacheHoldsMore | internal/cache/cache.go:105-195 | For capacities k <= K and the same sequence of lookups (stale ones included) and insertions, whatever the k-cache finds the K-cache finds with the same value. |
| LruInclusion.RunsIncluded | internal/cache/cache.go:105-195 | The invariant behind it: the smaller sequence is the larger one restricted to its keys, and has no more room than drops account for. |
| LruLaw.HeldAreTheLastUsed | internal/cache/cache.go:105-195 | After any run without dead hits the keys held are the `cap` keys used last, a use being an insertion or a hit. |
| LruLaw.EvictsTheOldest | internal/cache/cache.go:124-142 | After any run, dead hits included: a lookup drops its key if dead and no other; an insertion adds its key, and if that is new and the cache full, evicts one key, the one whose last use is oldest. |
| LruLaw.HeldInOrderOfUse | internal/cache/cache.go:119-131 | After any run the held keys stand in the order of their last uses. |
| LruLaw.ValueIsLastInserted | internal/cache/cache.go:105-142 | A key found has the value of its last insertion. |
| LruTier.Tier.Get | internal/cache/cache.go:105-121 | Map and list stay in bijection; the result and the new recency order are those of a lookup with a liveness test. |
| LruTier.Tier.Put | internal/cache/cache.go:124-142 | Map and list stay in bijection within the cap; the new recency order is that of an insertion, a known key being overwritten in place. |
| LruTier.Tier.Drop | internal/cache/cache.go:113-117 | Removing an element from the list and its key from the map leaves the order of the others. |
| LruTier.Tier.MoveToFront | internal/cache/cache.go:119-120 | The entry comes first; the order of the others is unchanged. |
| LruTier.Tier.Refresh | internal/cache/cache.go:127-131 | Overwriting a known entry in place changes its value and position and nothing else. |
| LruTier.Tier.DropBack | internal/cache/cache.go:134-141 | Dropping the back of a list one over its cap leaves the first `cap` entries. |
| Cache.Cache.NewSized | internal/cache/cache.go:83-101 | A capacity that is not positive is replaced by 50000 files or 200000 layers; both tiers start empty. |
| Cache.Cache.GetFile | internal/cache/cache.go:105-121 | Returns a cached file iff its modification time is the current one; a stale entry is dropped. |
| Cache.Cache.PutFile | internal/cache/cache.go:124-142 | Files a parsed file under its path, most recent first, within the file cap. |
| Cache.Cache.GetLayer | internal/cache/cache.go:150-170 | Returns a layer's value iff it is no older than a day for a summary and five minutes for any other layer; an expired entry is dropped. |
| Cache.Cache.PutLayer | internal/cache/cache.go:175-195 | Files a layer's value with the current time under node and layer, within the layer cap. |
| Store.Repo.Load | internal/store/store.go:180-257 | After a load, exactly the readable files among those taken in are resident, each with the symbols its content yields; taken in are the source files outside skipped directories, all of them, or as many as a positive limit allows when there are more, and then the walk is broken off. The errors are one for each file taken in that could not be read, and the limit's last. The disk cache is left with genuine entries, only for resident files, each the resident file or an entry it had before; if its writes work and nothing is evicted for size, it holds exactly the resident files. |
| Store.Repo.CachedFile | internal/store/store.go:577-613 | The three-level lookup returns what a fresh read would, success or error. On success all levels have the path as it is on disk and every other path is kept; on an error the map and the symbols are untouched. |
| Store.Repo.ReloadInvalidate | internal/store/store.go:708-729 | Reparses whatever is cached. If the path lies under the root, has a grammar and can be read, it succeeds, and the map, the hot cache and the symbols have the path as it is on disk, every other path being kept; otherwise it reports the error of the path, the grammar or the read, and nothing has changed. |
| Store.Repo.RecordParsed | internal/store/store.go:605-611 | A parsed file goes to the hot cache, the resident map and, if its grammar has an extractor, the symbol map. |
| Store.LoadedMeans | internal/store/store.go:180-241 | File by file: resident after a load are the readable source files taken in, each with its disk time, content and symbols; every source file under the root and outside skipped directories is taken in unless the limit cut the walk off, and then as many as it allows and not all. |
| Store.ReloadLeaves | internal/store/store.go:708-729 | In a faithful state a reload brings every level up to date for a readable path and keeps the others, and changes nothing for any other path. |
| Store.LookupLeaves | internal/store/store.go:577-613 | So does a lookup, from whatever level it answers; for an unreadable path it leaves map and symbols alone. |
| Store.LookupAnswers | internal/store/store.go:577-613 | The answer is the path's content and time on disk, or the first of: outside the root or missing, no grammar, unreadable. |
| Store.CachedFileIsFresh | internal/store/store.go:577-613 | In a faithful state the lookup's result is a fresh read's result. |
| Store.CachedFileKeepsFaithful | internal/store/store.go:577-613 | A lookup leaves every level holding only genuine files, and every resident file's symbols its extraction. |
| Store.ReloadKeepsFaithful | internal/store/store.go:708-729 | So does a reload. |
| Store.RunsStayFaithful | internal/store/store.go:577-729 | So does every run of lookups and reloads, with files changing between calls and any cache capacity. |
| Store.LookupsAreNeverStale | internal/store/store.go:577-613 | After any such run, a lookup returns what a fresh read would. |
| Store.SymbolsFollowTheFile | internal/store/store.go:608-620 | After any such run and a successful lookup, the path's symbols are the extraction of the content just returned. |
| StoreProtocol.AnswersAreCurrent | internal/store/store.go:577-613 | However lookups, reloads and edits interleave, lock by lock and with `stat` apart from read, a call returns content the disk held under the path at an instant between call and return, or an error that path or disk gave then. |
| StoreProtocol.LookupAlone | internal/store/store.go:577-613 | A lookup that nothing interrupts ends, within seven steps, with the result and the levels of the sequential one. |
| StoreProtocol.ReloadAlone | internal/store/store.go:708-729 | So does a reload, within five. |
| StoreProtocol.CachedIsCurrent | internal/store/store.go:585-594 | A cached file whose modification time the disk shows during a call has content the disk holds during the call, even when it was read with newer content than its time stamp says. |
| StoreProtocol.TornFileIsRecorded | internal/source/source.go:83-98 | A run in which a file is written between the `stat` and the read of a reload, and the repository holds the new content under the old time. |
| StoreProtocol.RecordedIsGenuineIff | internal/source/source.go:83-98 | A file a call is about to record has the content of its time stamp iff a read gives the same at the instants of the call's `stat` and read; so if no write to the path fell between them, and where writes change content, only then. |
| StoreProtocol.HeldIsGenuineIff | internal/store/store.go:605-611 | The same of every file in the map or the hot cache in every reachable state, for any two instants that gave its time and its content. |
| StoreProtocol.SameTimeIffUntouched | internal/store/store.go:585-594 | In such a history a path has one modification time at two instants iff no write to it fell between them. |
| StoreProtocol.OnlyWritesWrite | internal/source/source.go:83-98 | An action shows as a write to a path in the history iff it is one. |
| StoreProtocol.SymbolsStayInStep | internal/store/store.go:606-611 | In every state of every such run, the symbols on record are the extraction of the file on record. |
| SessionProtocol.RunsKeepInv | internal/mcp/transport/http/session.go:71-168 | In every interleaving: the cap holds, each session is in one place only, and the parent context is cancelled only after `stopped` is set and before the map is taken. |
| SessionProtocol.SessionsStayCapped | internal/mcp/transport/http/session.go:77-79 | Never more than `maxSessions` are registered. |
| SessionProtocol.EverySessionIsAccountedFor | internal/mcp/transport/http/session.go:116-168 | A created session is registered, or cancelled, or held by exactly one thread about to cancel it. |
| SessionProtocol.NothingLeaks | internal/mcp/transport/http/session.go:116-168 | When no call is in the middle of a removal, every created session is registered or cancelled. |
| SessionProtocol.NothingIsLiveAfterStop | internal/mcp/transport/http/session.go:156-168 | From the moment a stop has cancelled the parent, in every continuation, no session has a live context, not even one registered later. |
| SessionProtocol.EmptyAfterStopIff | internal/mcp/transport/http/session.go:72-91 | The emptied map of a stopped manager stays empty in every continuation iff no allocate is between its check and its lock. |
| SessionProtocol.StoppedManagerCanRegister | internal/mcp/transport/http/session.go:72-91 | A run that ends stopped with an emptied map, and one more step that registers a session, dead from the start. |
| SessionProtocol.ReapTakesIdleSessions | internal/mcp/transport/http/session.go:138-152 | A session about to be reaped had been idle beyond the timeout when scanned, and still is unless touched since. |
| SessionProtocol.ReapedIsIdleIff | internal/mcp/transport/http/session.go:138-152 | While a reaper is no more than a timeout behind its cutoff's clock reading, a session it is about to remove is idle beyond the timeout iff its stamp is the one scanned. |
| SessionProtocol.TouchedSessionCanBeReaped | internal/mcp/transport/http/session.go:147-150 | A run in which a session touched at the current instant is removed by a reaper that scanned earlier. |
| SessionReaping.ReapedIsRemovedIff | internal/mcp/transport/http/session.go:135-152 | A finished reap returns no less than it removed, and exactly that iff no session it found was gone when its turn came. |
| SessionReaping.ReapCanOvercount | internal/mcp/transport/http/session.go:147-151 | A run in which a delete comes first, and the reaper returns one having removed none. |
| SessionStops.OneStopWins | internal/mcp/transport/http/session.go:156-168 | However many stops overlap, the parent context is cancelled at most once and the map taken at most once after it; both exactly once when the manager is stopped and no winner is on its way. |
| SessionCalls.CallsStayInTheirMethod | internal/mcp/transport/http/session.go:71-168 | In every reachable state each call is at a place of the method it called; a reaper can only end by returning its count. |
| SessionCalls.CallsCanStep | internal/mcp/transport/http/session.go:71-168 | A call that has not ended has a step of its own in every state. |
| SessionManager.SessionManager.Allocate | internal/mcp/transport/http/session.go:71-93 | Succeeds iff not stopped and below the cap, with a new live session under the id; otherwise nothing changes and the error says which. |
| SessionManager.SessionManager.Touch | internal/mcp/transport/http/session.go:107-113 | Stamps a known session and touches nothing else; an unknown id is ignored. |
| SessionManager.SessionManager.Delete | internal/mcp/transport/http/session.go:116-126 | The id is gone from the map and its session cancelled; no other session changes. |
| SessionManager.SessionManager.Scan | internal/mcp/transport/http/session.go:139-147 | In any map order, collects exactly the sessions last seen before the cutoff, each once. |
| SessionManager.SessionManager.Reap | internal/mcp/transport/http/session.go:138-152 | Run alone, removes and cancels exactly the idle sessions and returns their number. |
| SessionManager.SessionManager.Stop | internal/mcp/transport/http/session.go:156-168 | The first call cancels the parent and every registered session and empties the map; a second does nothing. |
| EditDistance.EditDistance | internal/tool/helpers.go:188-254 | With the equality, empty-string and length shortcuts, the swap and the early exit, the result is the edit distance, or one above the ceiling when the distance exceeds it. |
| EditDistance.Table | internal/tool/helpers.go:213-253 | The two rows, filled and swapped in place, give the capped distance whenever the early exit is taken or not. |
| EditDistance.FillRow | internal/tool/helpers.go:219-244 | One row of the table, and its least cell, from the row before. |
| EditDistance.RowsOnlyGrow | internal/tool/helpers.go:245-247 | When a row's cells all exceed a bound, so does every cell of every later row: the early exit is sound. |
| EditDistance.LevIsLeastCost | internal/tool/helpers.go:176-181 | The recurrence gives the least cost of any script of keeps, substitutions, deletions and insertions: some script costs that, none less. |
| EditDistance.CappedLeastCost | internal/tool/helpers.go:176-188 | For a ceiling that is not negative, the result is at most the ceiling iff a script that cheap exists, and then it is the least cost. |
| SuggestNames.SuggestNames | internal/tool/helpers.go:124-174 | The names within distance 2 of the base among the first 10000 candidates, nearest first and then in string order, each once, at most k, and none passed over for a later one. |
| RowRanges.ByteRangeFromRows | internal/store/edges.go:38-53 | The byte loop computes the recursive scan's range. |
| RowRanges.LinesStep | internal/source/source.go:163-172 | Lines are the text up to the first newline followed by the lines of the rest, with no empty last line. |
| RowRanges.ScanSelectsSliceIff | internal/store/edges.go:38-53 | For every row range within the file, the selected bytes equal the line slice iff the range does not start in row 0 of a file of two or more bytes whose first is not a newline; in that case they are the slice without its first byte. |
| RowRanges.SliceIsOkIff | internal/source/source.go:104-123 | A slice has text iff its rows are in order and within the file; empty, outside and backward ranges are told apart. |
| TreeWalk.WalkExpr | internal/store/edges.go:69-106 | The explicit-stack loop terminates and does to the visitor's state what the recursive pre-order walk does, for any visitor. |
| TreeWalk.WalkIsFold | internal/store/edges.go:55-61 | For a visitor that only turns back when it no longer changes its state, the walk is the fold of the visitor over the visited nodes. |
| TreeWalk.PruningLosesNothing | internal/store/edges.go:80-89 | When children's ranges nest in their parents', the nodes visited are exactly those whose bytes meet the half-open range, or all of them for the range (0, 0), in pre-order. |
| TreeWalk.CollectingVisits | internal/store/edges.go:55-58 | A visitor that collects its nodes ends with exactly the visited sequence. |
| CallEdges.RebuildIndex | internal/store/resolver.go:83-124 | In any order of the files, each bucket holds, in order, exactly the recorded edges with its key. |
| CallEdges.EdgesAreFiledTwice | internal/store/resolver.go:117-119 | Each recorded edge is in its callee bucket and its caller bucket as often as it was recorded, and in no other. |
| CallMeaning.IndexHoldsTheCalls | internal/store/resolver.go:83-124 | In terms of the trees: an edge is in its callee's bucket, and in its caller's, as often as its declaration is listed in its file, if that is a named function or method whose rows hold a call expression whose function leads, by last children through selectors, to an identifier that reads the name; otherwise, and in other buckets, not at all. |
| CallEdges.EdgesByCallee | internal/store/resolver.go:233-255 | The callee bucket, by file in string order and then by start row; nothing for an empty name. |
| CallEdges.EdgesByCaller | internal/store/resolver.go:266-285 | The caller bucket, by callee in string order; nothing for an empty file or name. |
| CallEdges.CallerKeysAreApart | internal/store/resolver.go:287-296 | For names without `:` and `.`, equal caller keys mean the same file, receiver and name. |
| CallEdges.KeysEqualIff | internal/store/resolver.go:287-296 | For any files and names, two caller keys are equal iff file and qualified name are, or the longer file is the shorter with a colon, or with the separator and the start of the other's qualified name. |
| CallEdges.QualifiedEqualIff | internal/store/resolver.go:291-295 | Two qualified names are equal iff receiver and name are, or the longer receiver takes in the start of the other's name up to a dot. |
| CallEdges.CallerKeysCollide | internal/store/resolver.go:287-296 | Two declarations of one file, and two of different files, that share a key. |
| CallEdges.ScanCallers | internal/tool/nodeedges.go:333-382 | The live scan lists the callers in other files in scan order, all of them below the limit and a prefix of them at it. |
| CallMeaning.ScanListsTheCallers | internal/tool/nodeedges.go:333-382 | In terms of the trees: a scan without a limit lists exactly the named functions and methods of other files with such a call of the name, each as often as it is listed. |
| CallEdges.ScanAgreesWithIndex | internal/tool/nodeedges.go:347-366 | The scan's visitor, which stops below a match, finds a name in a body iff the index's collecting visitor lists it, and that list has no repetition. |
| CallEdges.IndexAgreesWithScan | internal/store/resolver.go:78-82 | On an unchanged repository, for any two file orders, the index's answer restricted to other files and the live scan have the same callers with the same multiplicity. |
| CallEdges.CallersBothWays | internal/tool/nodeedges.go:289-383 | Building the index in some order of the files and asking it gives the recorded edges with this callee, sorted; restricted to other files they name the callers, with multiplicity, that a scan in some order finds. The scan returns those, all below the limit and a prefix at it; for an empty name both return nothing. |
| Sanitize.SanitizeName | internal/domain/sanitize.go:43-56 | The byte loop with its fast path computes the sanitized name. |
| Sanitize.ContainsDangerous | internal/domain/sanitize.go:64-74 | True iff some byte is one of the three lead bytes. |
| Sanitize.DecodeEncoded | internal/domain/sanitize.go:79-115 | Decoding an encoded rune below 0x200000, whatever follows, gives the rune and its width. |
| Sanitize.WellFormedIsFiltered | internal/domain/sanitize.go:43-56 | On well-formed UTF-8 (section 3 of RFC 3629) the result is the encoding of the text with exactly the dangerous runes removed. |
| Sanitize.SanitizedTwice | internal/domain/sanitize.go:43-56 | On every byte string, sanitizing again changes nothing. |
| Sanitize.FastPathAgreesIff | internal/domain/sanitize.go:44-46 | Without a lead byte of a dangerous rune, the slow path would return the string unchanged iff it is an encoding of runes. |
| Sanitize.LoneContinuationByte | internal/domain/sanitize.go:84-85 | A single byte 0x80 is where the two paths differ. |
| Sanitize.NoDangerousBytes | internal/domain/sanitize.go:43-56 | Whatever the input, the bytes of a dangerous rune occur nowhere in the result. |
| Sanitize.ReadsSafeIff | internal/domain/sanitize.go:79-102 | The code's decoder reads only safe runes in the result iff the input has a lead byte of a dangerous rune or no overlong four-byte form of one where a rune starts. |
| Sanitize.OverlongIsKept | internal/domain/sanitize.go:96-100 | The bytes F0 82 80 8B, which the decoder reads as U+200B, are returned unchanged. |
| Sanitize.DangerousRunesAre | internal/domain/sanitize.go:17-33 | The runes removed are the fifteen the comment lists. |
| Sanitize.EncodingIsUtf8 | internal/domain/sanitize.go:104-115 | Every rune below 0x200000 is encoded with the lead bytes and six-bit tails of UTF-8 (section 3 of RFC 3629), no longer than needed. |
| Sanitize.StrayBytesAreRunes | internal/domain/sanitize.go:79-102 | On the slow path a byte that starts no rune, or a lead byte with too few bytes after it, becomes the two-byte encoding of its value, and the rest is read afresh. |
| Sanitize.TailsByLowBits | internal/domain/sanitize.go:87-101 | A lead byte takes as many bytes as its rune needs, whatever they are, and of the further ones only the low six bits count. |
| RrfMerge.Accumulate | internal/hybrid/merge.go:45-61 | Each ID has the sum of its reciprocal-rank terms and the hit of its first occurrence. |
| RrfMerge.RrfMerge | internal/hybrid/merge.go:29-87 | The result is the first `limit` of the ranking of all IDs by score and then ID, for every order of the map. |
| RrfMeaning.MergedHit | internal/hybrid/merge.go:45-76 | A returned hit's score is the sum over the channels of one over k plus its rank there, ranks counted from one and k being 60 if not positive; its payload is that of its first place in the first channel that has it. |
| RrfMeaning.MergedOrder | internal/hybrid/merge.go:77-83 | Larger scores come first, and of equal scores the id that is first in string order; no id comes twice. |
| RrfMeaning.MergedAll | internal/hybrid/merge.go:84-86 | No listed id is missing unless the limit is reached, and then none missing has a larger score than one returned. |
| RrfMerge.MergeIsUnique | internal/hybrid/merge.go:77-86 | Only one list satisfies that description. |
| RrfMerge.DominanceOfScores | internal/hybrid/merge.go:55-59 | With unique IDs per channel, a document ranked no worse in every channel scores no less, and strictly more if better in one. |
| RrfMerge.DominatorComesFirst | internal/hybrid/merge.go:77-86 | Such a document comes strictly before the one it dominates whenever that one is returned. |
| MergeRanges.MergeRanges | internal/tool/detectchanges.go:448-470 | Sorts the caller's slice in place, by start and then end, and returns ranges in ascending order, with a gap between any two, covering the same lines. |
| MergeRanges.MergedCoversTheSameLines | internal/tool/detectchanges.go:458-468 | No line is lost or added, for every input, empty and inverted ranges included. |
| MergeRanges.MergedOfPermutation | internal/tool/detectchanges.go:446-447 | The result is the same for every order of the input. |
| MergeRanges.MergedIsFixedIff | internal/tool/detectchanges.go:445-447 | A list is left as it is iff it is ascending with gaps; merging twice is merging once. |
| MergeRanges.MergedIsTheNormalForm | internal/tool/detectchanges.go:445-447 | For non-empty ranges, the result is the one list of non-empty ranges, ascending with gaps, that covers the same lines. |

## Left out

- Tree-sitter grammars and the language drivers: trees are a datatype with kind, byte range, content and children; symbol extraction is an arbitrary function of path and content.
- Child processes, pipes, git, directory walking, the format and directory of the disk cache, hashing, JSON and MCP schemas, HTTP handlers, the command line, the audit log: input and output, or plumbing.
- The client's handshake in `New`, stderr draining and the waiting and killing in `Close`: the initial state allows any number of ids already drawn; 64-bit overflow of ids is not modelled.
- LspProtocol.ClosedCallsReturn: says by which steps a call can return, not that the scheduler or the pipe lets it: fairness is not modelled, and that a write to a full pipe ends at all is the other end's doing.
- LspFraming.ReadLoop: frames only; bodies that fail to unmarshal are dropped by the code after framing, and the poll of `closeCh` is part of the protocol model instead. White space is trimmed for ASCII only, and lengths above the 64-bit range are an error as in `Atoi`.
- The cost of the cache; each of its methods is one step, as it runs under one lock. `Store` describes a lookup whose `stat` and read see one disk, `StoreProtocol` one whose steps interleave with others.
- Store.LookupsAreNeverStale: rests on path and modification time determining content, which is what the code itself assumes; `StoreProtocol` asks in addition that a later write has a later time.
- Store.Repo.Load: which entries the size limit of the disk cache evicts, and which writes to it fail, is arbitrary; entries are keyed by path, not by its hash; the errors of walking and of reading the cache directory are not modelled.
- SessionManager.SessionManager.Allocate: the session id is fresh, and a child of a cancelled context is cancelled; `Lookup`, `Count` and `All` only read.
- QueryTraversal.BfsFromSeeds: for several follow kinds, completeness over all walks does not hold, and for unequal weights the maximum over all walks does not, because a node is expanded once; completeness and maxima are those of the hits the run makes. The metadata of an edge is carried as part of the edge. `scanFor` is an arbitrary function of kind and node; its `limit` argument is part of that function.
- The scanners for tests, imports, callees and overrides, and the language-server tier of the callers scan: the tree-sitter tier is the one the index must agree with.
- `resolveImport` (internal/tool/architecture.go:456-482): its suffix match depends on map order; the import graph takes the file an entry resolves to as given.
- CallEdges.RebuildIndex: collects a body's callee names during the walk and files them after it, in the same order; the symbol and import parts of the index are not modelled.
- `SliceWithTrivia`, `Tokens`, `LocateSymbol`, `normaliseFollow`, `locateSeeds`, `enclosingSymbol`, `parseUnifiedDiff`: small functions whose members would be easy, or, for `LocateSymbol`, ambiguous by design.
- BM25, vector scores and the rounding of floats: scores are reals, so ties that rounding creates are not seen.
