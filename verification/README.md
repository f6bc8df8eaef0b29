# ZVS: a verified model of its graph, chunkers, search merge, link and text machines

This project models the pure and stateful cores of ZVS in Dafny and proves what they promise. It is
independent of the database, the terminal and the host process.

| files | what they model |
|---|---|
| `Prelude.dfy` | options and results, white space and trimming, string order, the stable sort |
| `GraphModel` to `GraphStore` | the in-memory relation graph: `GraphModel.dfy` is the graph as a value with the laws of its runs, `GraphSearch.dfy` and `GraphBalls.dfy` are shortest walks and hop balls over that value, `GraphState.dfy`, `GraphListing.dfy`, `GraphTrace.dfy`, `GraphHops.dfy` and `GraphNeighbors.dfy` relate the store's maps and loop variables to it, and `GraphStore.dfy` is the class with its methods |
| `GraphAnswers`, `GraphHistory` | what queries answer and what runs of mutations leave, said of keys, ids and routes alone |
| `TokenEstimate`, `TokenScripts`, `Words`, `Greedy`, `Chunk*` | the two text chunkers, from characters to whole documents; `ChunkTextLaws.dfy` and `ChunkLaws.dfy` have the end-to-end theorems |
| `LinkModel`, `LinkLaws`, `LinkPromises`, `LinkDelivery`, `Link` | the request/response link: atomic steps, the invariant of all interleavings, what callers can rely on and that calls get through, and the classes whose methods are the lock regions and steps |
| `Calendar`, `IsoStamps`, `IsoText`, `DateText`, `StampLaws` | timestamps read as milliseconds and shown as days, and what their characters mean |
| `Fusion`, `FusionPlaces`, `HybridMerge`, `HybridLaws`, `HybridSources` | reciprocal rank fusion and the merge of hybrid search, and both said by places in the lists |
| `Expansion`, `Split`, `SqlList`, `Normalise` | the capped neighbour expansion and three character machines; `ExpansionPlaces`, `SplitWords`, `SqlText` and `NormaliseLaws` say in plain terms what comes out |

How the source maps to the model:

- The stable digraph is two maps keyed by indices that are fresh when handed out; `view` and `at` are ghost
  fields that every method keeps in step with them. Iteration over nodes and edges is in arbitrary order, so
  every order in a result comes from the code's own sorting.
- Mutating methods are proved against functions on the graph value, and runs of those functions are what
  `GraphModel.RunsConserve` is about. Searches are proved against walks and balls that mention no loop.
- Byte ranges are positions in a sequence of characters. Grapheme clusters and sentence bounds are
  arguments: any partition of the text, as Unicode Standard Annex 29 (sections 3 and 5) would give one.
- Scores, weights and the fusion constant are reals, and a fused score may also be infinite; a weight may also
  be non-finite, which the graph rejects.
- The link is a state machine whose steps are the lock regions, atomic operations and channel operations;
  `since` and `lines` are history. A step that is not enabled leaves the state alone, so every sequence of
  steps is an interleaving. `InOrder` says that some steps happen in their order with any others in between.
- Some loop bodies are methods of their own (`Store.TakeStep`, `ChunkPack.Emit`, `HybridMerge.SelectOne` and
  others), and `iso_millis` is split at its field boundaries. `neighbors` repeats the loop and the order of
  `step`; the model's `Neighbors` calls `Step` and describes each hop.

Where the code and its text differ, the model follows the code:

- `iso_millis` documents a `T` before the time; it also takes a blank, a second of 60, and offsets up to 99:99.
- It takes any day from 1 to 31 in any month. `Calendar.RoundTripsExactlyWhenItExists` says when that matters,
  and `Calendar.FebruaryThirtyFirst` gives a date that does not come back.

## Model

| member | source | states |
|---|---|---|
| `GraphStore.Store.AddNode` | crates/zvs-core/src/graph.rs:172-186 | upserts one node and reports whether the id is new; a name that trims to nothing is an error and changes nothing; the store still represents its graph value |
| `GraphStore.Store.AddNodes` | crates/zvs-core/src/graph.rs:188-204 | the first bad node of a batch leaves the store untouched; otherwise the count is the growth of the node map; a cancellation leaves exactly a prefix of the batch applied |
| `GraphStore.Store.ValidatedEdge` | crates/zvs-core/src/graph.rs:536-551 | the first failing check, in the order of the code, or the two live ends and the trimmed relation |
| `GraphStore.Store.AddEdge` | crates/zvs-core/src/graph.rs:206-221 | upserts by (from, to, relation) and reports whether the key is new |
| `GraphStore.Store.AddEdges` | crates/zvs-core/src/graph.rs:223-239 | as for nodes: all or nothing on validation (the per-item add cannot fail after the check), a prefix on cancellation, the count is the growth of the edge map |
| `GraphStore.Store.RemoveEdge` | crates/zvs-core/src/graph.rs:241-250 | removes exactly the edge of a key and reports whether it was there |
| `GraphStore.Store.Detach` | crates/zvs-core/src/graph.rs:441-452 | removes exactly the arcs that meet a node and counts them, each once |
| `GraphStore.Store.RemoveEdgesTouching` | crates/zvs-core/src/graph.rs:252-255 | removes every edge at a node and returns how many there were, nothing for an unknown id |
| `GraphStore.Store.RemoveNode` | crates/zvs-core/src/graph.rs:257-262 | removes the node with its edges; ids, nodes and arcs stay in bijection with the graph value |
| `GraphStore.Store.RemoveNodes` | crates/zvs-core/src/graph.rs:264-277 | removes a batch; the count is the loss of the node map; a cancellation leaves exactly a prefix applied |
| `GraphStore.Store.EdgeBetween` | crates/zvs-core/src/graph.rs:517-522 | finds the arc of a key exactly when the key is in the graph |
| `GraphStore.Store.Step` | crates/zvs-core/src/graph.rs:454-488 | every selected arc in an allowed direction once, by far id, then relation, then outgoing first |
| `GraphStore.Store.Neighbors` | crates/zvs-core/src/graph.rs:279-316 | lists exactly the selected edges at a node with their far ends, once each and in the fixed order; an unknown id is an error |
| `GraphStore.Store.ShortestPath` | crates/zvs-core/src/graph.rs:318-358 | the least shortest path, nothing exactly when no walk exists, an error for an unknown id |
| `GraphStore.Store.Rebuild` | crates/zvs-core/src/graph.rs:490-508 | following the back pointers ends, never fails, and gives the walk the target was discovered by |
| `GraphStore.Store.KHopSubgraph` | crates/zvs-core/src/graph.rs:360-439 | the induced subgraph on the ball with true distances, or the limit error exactly when the ball is larger than the budget |
| `GraphStore.Store.Hydrate` | crates/zvs-core/src/graph.rs:125-130 | a store only when no entry has a fault, holding what adding them in order gives; otherwise the first faulty node's error, else the first faulty edge's, else the cancellation |
| `GraphStore.Store.Nodes` | crates/zvs-core/src/graph.rs:156-160 | every node once, by id |
| `GraphStore.Store.Edges` | crates/zvs-core/src/graph.rs:162-170 | every edge once, by (from, to, relation) |
| `GraphModel.RunsConserve` | crates/zvs-core/src/graph.rs:172-277 | over any run of adds and removes the graph stays well formed (no dangling edge, no self loop, trimmed names), and the replies add up to the change in size |
| `GraphModel.NoEdgeFaults` | crates/zvs-core/src/graph.rs:223-239 | an up-front check without a finding means no edge of the batch has a fault |
| `GraphModel.EdgesStep` | crates/zvs-core/src/graph.rs:223-239 | in the middle of a batch what was valid before it is still valid, and each reply is the change in size |
| `GraphModel.RemoveNodeUndoesAdd` | crates/zvs-core/src/graph.rs:172-186 | removing a node that was new restores the graph exactly |
| `GraphModel.RemoveEdgeUndoesAdd` | crates/zvs-core/src/graph.rs:206-250 | removing an edge that was new restores the graph exactly |
| `GraphModel.HydrateInvertsListing` | crates/zvs-core/src/graph.rs:125-170 | hydrating from the sorted listings of a graph gives that graph back |
| `GraphState.SizesMatch` | crates/zvs-core/src/graph.rs:100-103 | ids, live nodes and arcs are as many as the ids and edges of the graph value |
| `GraphState.ParallelArcsAreEqual` | crates/zvs-core/src/graph.rs:517-522 | at most one arc has given ends and relation |
| `GraphState.ArcOfKey` | crates/zvs-core/src/graph.rs:517-522 | the arc kept for an edge key joins the key's ends under its relation |
| `GraphState.SortedStepsAreOrdered` | crates/zvs-core/src/graph.rs:473-487 | the stable sort fixes the order of steps, ties included, whatever order the arcs came in |
| `GraphSearch.DiscoveryIsLeast` | crates/zvs-core/src/graph.rs:335-355 | the walk a node is discovered by is the least walk to it: shortest first, then id by id |
| `GraphSearch.DiscoverKeeps` | crates/zvs-core/src/graph.rs:335-355 | each discovery keeps the invariant of the search |
| `GraphSearch.AdvanceKeeps` | crates/zvs-core/src/graph.rs:335-355 | finishing a queue entry keeps the invariant of the search |
| `GraphSearch.ExhaustionIsComplete` | crates/zvs-core/src/graph.rs:335-357 | an empty queue means every reachable node was discovered |
| `GraphSearch.LeastIsUnique` | crates/zvs-core/src/graph.rs:318-358 | there is at most one least walk |
| `GraphSearch.AnswerIsUnique` | crates/zvs-core/src/graph.rs:318-358 | nodes and edges of the answer are fixed by the graph value alone |
| `GraphSearch.LeastWalkIsSimple` | crates/zvs-core/src/graph.rs:318-358 | the path visits no node twice |
| `GraphTrace.StepTracks` | crates/zvs-core/src/graph.rs:344-354 | one discovery of the loop keeps seen, back pointers and queue in step with the search |
| `GraphTrace.RetracedIsAnswer` | crates/zvs-core/src/graph.rs:490-508 | the reversed trail is the least path with its preferred edges |
| `GraphTrace.PathReplyIsUnique` | crates/zvs-core/src/graph.rs:318-358 | stores holding the same graph give the same reply, whatever order they were filled in |
| `GraphNeighbors.NeighborReplyIsUnique` | crates/zvs-core/src/graph.rs:279-316 | the neighbour list depends on the graph value only |
| `GraphBalls.BallIsReach` | crates/zvs-core/src/graph.rs:382-405 | the ball is exactly what walks of at most that many steps reach |
| `GraphBalls.DepthIsShortestPathLength` | crates/zvs-core/src/graph.rs:360-439 | the reported hop count is the number of edges of the shortest path |
| `GraphBalls.BallSettles` | crates/zvs-core/src/graph.rs:401-404 | once a layer is empty, further hops reach nothing new |
| `GraphBalls.SubgraphNodesAreTheBall` | crates/zvs-core/src/graph.rs:406-439 | a subgraph reply lists exactly the nodes within the hops, each with its distance |
| `GraphBalls.SubgraphIsUnique` | crates/zvs-core/src/graph.rs:406-439 | the whole reply is fixed by the graph value |
| `GraphHops.KHopReplyIsUnique` | crates/zvs-core/src/graph.rs:360-439 | equal graphs, equal replies, error cases included |
| `GraphHops.GatheredIsSubgraph` | crates/zvs-core/src/graph.rs:406-439 | the gathered nodes and edges, sorted, are the induced subgraph |
| `GraphAnswers.PathUsesAllowedEdges` | crates/zvs-core/src/graph.rs:318-358 | a path runs from the one id to the other over edges of the graph with the wanted relation and direction, and repeats no id |
| `GraphAnswers.PathComesFirst` | crates/zvs-core/src/graph.rs:318-358 | wherever a route over such edges exists a path is found, no longer than any route, and with the smaller id at the first difference from any other of its length |
| `GraphAnswers.PathTakesFirstParallel` | crates/zvs-core/src/graph.rs:473-487 | of parallel edges a path takes the one of the least relation, and of two such the outgoing one |
| `GraphAnswers.NeighborsAreAllowed` | crates/zvs-core/src/graph.rs:279-316 | each neighbour listed is over an edge of the wanted relation, in the direction it is listed under |
| `GraphAnswers.AllowedEdgesAreListed` | crates/zvs-core/src/graph.rs:279-316 | each edge of the wanted relation at the node is listed, under every wanted direction it has |
| `GraphAnswers.NeighborsAreOrdered` | crates/zvs-core/src/graph.rs:305-314 | neighbours come by id, then relation, outgoing first |
| `GraphAnswers.SubgraphIsReach` | crates/zvs-core/src/graph.rs:382-405 | the subgraph lists exactly the ids that a route of at most that many edges reaches |
| `GraphAnswers.SubgraphIsInduced` | crates/zvs-core/src/graph.rs:406-439 | its edges are exactly the graph's edges of the wanted relation between listed nodes |
| `GraphAnswers.HopsAreDistances` | crates/zvs-core/src/graph.rs:382-439 | each node is listed with the edge count of a shortest route to it |
| `GraphAnswers.KHopErrors` | crates/zvs-core/src/graph.rs:360-404 | when a k-hop query fails: above 8 hops, a budget of 0 or above 65 536, or more ids in reach than the budget, 4096 by default |
| `GraphAnswers.SubgraphIsOrdered` | crates/zvs-core/src/graph.rs:425-438 | subgraph nodes come nearest first, then by id; edges by source, target, relation |
| `GraphAnswers.ListingsAreOrdered` | crates/zvs-core/src/graph.rs:156-170 | the full listings come in the same orders, without repeats |
| `GraphHistory.EdgeStays` | crates/zvs-core/src/graph.rs:172-277 | over any run an edge that no operation is about stays as it is, there or not |
| `GraphHistory.OfferedEdgeIsKept` | crates/zvs-core/src/graph.rs:206-221 | an offered edge with two different known ends, a relation and no infinite weight is there with its own weight and metadata after any run that is not about it; any other offer is refused and changes nothing |
| `GraphHistory.DroppedEdgeIsGone` | crates/zvs-core/src/graph.rs:241-277 | an edge that was removed, alone or with a node, stays away until it is offered again |
| `GraphHistory.EdgeComesByOffer` | crates/zvs-core/src/graph.rs:172-277 | an edge of the graph was offered by some operation of the run |
| `GraphHistory.NodeIsAsLastSet` | crates/zvs-core/src/graph.rs:172-186 | a node has the kind it was last added with until it is added again or removed |
| `Ordering.LessIsFirstDifference` | crates/zvs-core/src/graph.rs:473-487 | the order of ids: equal up to some position, where the first ends or has the smaller character |
| `Text.TrimIsInner` | crates/zvs-core/src/graph.rs:172-175 | trimming takes a blank stretch off each end and leaves no white space there |
| `TokenEstimate.EstimateTokens` | crates/zvs-core/src/chunk.rs:110-130 | one pass counts the scripts; the result is the rounded-up sum |
| `TokenEstimate.EstimateIsSubadditive` | crates/zvs-core/src/chunk.rs:110-130 | splitting a text never lowers its estimate |
| `TokenEstimate.GapIsFree` | crates/zvs-core/src/chunk.rs:110-130 | blank text between two pieces costs nothing |
| `TokenEstimate.EstimateIsZeroIffBlank` | crates/zvs-core/src/chunk.rs:110-130 | the estimate is zero exactly for blank text |
| `TokenScripts.EstimateIsByScript` | crates/zvs-core/src/chunk.rs:110-130 | each ideograph is a token, every three Cyrillic characters are one and every four others are one, rounded up script by script, white space free |
| `TokenScripts.CommonScripts` | crates/zvs-core/src/chunk.rs:112-127 | which of these the blank, the ASCII, the basic Cyrillic and the unified ideographs are |
| `Words.ScanWords` | crates/zvs-core/src/chunk.rs:41-55 | the word scan computes the maximal runs of clusters that are not blank |
| `Words.WordsAreMaximalRuns` | crates/zvs-core/src/chunk.rs:41-55 | words are apart, cover all that is not white space, and consist of exactly the clusters that are not blank |
| `ChunkText.Chunks` | crates/zvs-core/src/chunk.rs:29-90 | the word chunker: the configuration error, or one chunk for each window |
| `ChunkText.FindCut` | crates/zvs-core/src/chunk.rs:61-75 | the downward search finds the specified cut |
| `ChunkText.CutIsLastSentenceEnd` | crates/zvs-core/src/chunk.rs:61-75 | an inner cut is at the last sentence end beyond the overlap, if the window has one, else at the limit |
| `ChunkText.EndsAtTerminator` | crates/zvs-core/src/chunk.rs:66-72 | a word ends a sentence exactly when only closing quotes and brackets follow some terminator in it |
| `ChunkText.CutsReachEnd` | crates/zvs-core/src/chunk.rs:57-86 | the windows start at the first word, end at the last and stop |
| `ChunkText.CutsAreProper` | crates/zvs-core/src/chunk.rs:57-86 | every window has at least one and at most `size` words |
| `ChunkText.CutsSlide` | crates/zvs-core/src/chunk.rs:57-86 | consecutive windows share exactly `overlap` words and move on |
| `ChunkText.ChunksRestoreWords` | crates/zvs-core/src/chunk.rs:57-86 | dropping the first `overlap` words of every later chunk and concatenating gives back the word list |
| `ChunkTextLaws.TextChunksKeepTheirPromise` | crates/zvs-core/src/chunk.rs:29-90 | for every text, size and overlap: no text is lost, each chunk is a slice of at most `size` words, cut at the last sentence end in reach past the overlap where there is one, neighbours share exactly `overlap` words, and gluing restores the words |
| `Greedy.GreedyEndIsLargest` | crates/zvs-core/src/chunk.rs:275-283 | the greedy window is the longest that fits (or a single item) |
| `Greedy.FillsAndBacksUp` | crates/zvs-core/src/chunk.rs:275-310 | in plain sums: the window could not take one unit more, and the next one starts at a sentence start with a carry of at most `overlap` that leaves room for the next unit, or where the window ended; any earlier sentence start would carry more than `overlap` or leave no room |
| `Greedy.RestartAdvances` | crates/zvs-core/src/chunk.rs:275-310 | even after backing up, the next window ends later than the last |
| `Greedy.WindowsCover` | crates/zvs-core/src/chunk.rs:264-313 | all units are covered in order, ends strictly increase, every window is as full as it can be, and any two in a row carry over as in the row above, the lower bound on the carry included |
| `ChunkPack.BackUp` | crates/zvs-core/src/chunk.rs:297-310 | the back-off loop computes the restart, which `Greedy.FillsAndBacksUp` pins in plain sums |
| `ChunkPack.Pack` | crates/zvs-core/src/chunk.rs:264-313 | the packing loop emits one chunk for each window of the specification |
| `ChunkUnits.PushWords` | crates/zvs-core/src/chunk.rs:227-251 | the word loop for a large sentence computes the specified fold |
| `ChunkUnits.AllWordsPack` | crates/zvs-core/src/chunk.rs:227-259 | the fold closes exactly the greedy pieces, with their token sums |
| `ChunkUnits.PushUnits` | crates/zvs-core/src/chunk.rs:187-262 | the sentence loop pushes exactly the units of the segment |
| `ChunkUnitLaws.PieceIsFair` | crates/zvs-core/src/chunk.rs:230-259 | the token count of a piece bounds the estimate of its text |
| `ChunkUnitLaws.SegmentObeys` | crates/zvs-core/src/chunk.rs:187-262 | units are in order, cover all that is not white space, and count exactly: a sentence that fits is one unit with its own estimate, a larger one is runs of words that count their words' sum and could not take one word more, above the size only as one oversized word |
| `ChunkSegments.JoinIsLayout` | crates/zvs-core/src/chunk.rs:150-158 | segments stand in the joined text at their offsets with only the separator between them |
| `ChunkSegments.Chunk` | crates/zvs-core/src/chunk.rs:139-185 | the section chunker: the configuration error, or the chunks of the specification |
| `ChunkLaws.ChunksKeepTheirPromise` | crates/zvs-core/src/chunk.rs:139-313 | for every document: no text is lost, no chunk mixes two top-level sections, the count bounds the estimate and stays within the size but for one oversized word, no chunk begins or ends inside a sentence that fits the size, overlaps start a sentence and cost at most `overlap`; and inside a section every chunk is as full as it can be and the next one starts at the earliest sentence the overlap permits |
| `Link.Waiters.Insert` | crates/zvs-cli/src/link.rs:162-168 | the region of a caller: refused once closed, otherwise the sender is in the table |
| `Link.Waiters.Remove` | crates/zvs-cli/src/link.rs:116-121 | the region of the reader for a result: takes the waiter out, so a second result finds none |
| `Link.Waiters.Close` | crates/zvs-cli/src/link.rs:139-143 | the last region: closed and empty in one step |
| `Link.Connection.Step` | crates/zvs-cli/src/link.rs:113-178 | each atomic step of a caller, the reader or a failure has exactly the effect of the state machine |
| `Link.Connection.Perform` | crates/zvs-cli/src/link.rs:113-178 | any interleaving of steps is a run of the state machine |
| `LinkLaws.RegistersAfresh` | crates/zvs-cli/src/link.rs:160-167 | an id is inserted once, so inserting never displaces a waiter |
| `LinkLaws.StepIsHealthy` | crates/zvs-cli/src/link.rs:113-178 | every step keeps the invariant |
| `LinkLaws.RunsAreHealthy` | crates/zvs-cli/src/link.rs:113-178 | every reachable state satisfies the invariant |
| `LinkPromises.ClosedMeansEmpty` | crates/zvs-cli/src/link.rs:139-144 | closed implies an empty table, and the end flag implies closed, in every reachable state |
| `LinkPromises.AnswersAreFirstReplies` | crates/zvs-cli/src/link.rs:114-125 | a call is answered by the first result with its id after it registered; it is cut off only if there was none and the link is closed |
| `LinkPromises.RunsSettle` | crates/zvs-cli/src/link.rs:113-178 | what a call was told is never changed or repeated by any continuation of the run, and what was sent stays sent |
| `LinkPromises.NoneIsPending` | crates/zvs-cli/src/link.rs:139-143 | after the close no registered call has a sender left to wait for |
| `LinkPromises.EveryCallReturns` | crates/zvs-cli/src/link.rs:159-178 | after the close every running call has ended once its remaining own steps have come in order, whatever steps of others come before, between and after |
| `LinkPromises.InterleavedCallReturns` | crates/zvs-cli/src/link.rs:159-178 | the same for the three steps of a call written out, with arbitrary steps before, between and after each |
| `LinkPromises.LateCallsAreRefused` | crates/zvs-cli/src/link.rs:159-178 | in every continuation of a run, a call begun after the close is never more than refused: its id is never in the table and never sent to the host |
| `LinkPromises.IdsAreDistinct` | crates/zvs-cli/src/link.rs:160-161 | no two calls of a run have the same id |
| `LinkPromises.RepliesArrive` | crates/zvs-cli/src/link.rs:122-124 | a taken result is not lost: once a hand-over and then the last step of the waiting call have come, whatever comes before, between and after, the call is answered with its first result, or it was given up by a step of its own |
| `LinkPromises.ReaderStops` | crates/zvs-cli/src/link.rs:113-138 | in every reachable state a hand-over and the end of the input take the reader out of its loop |
| `LinkPromises.ReaderEnds` | crates/zvs-cli/src/link.rs:139-145 | out of its loop the reader is done once its remaining steps have come in order, whatever comes between, and the table is then closed and empty and the flag set |
| `LinkPromises.InboxIsInOrder` | crates/zvs-cli/src/link.rs:126-145 | the consumer has every pushed line in order, and `Closed` once and last |
| `LinkPromises.EachCallIsSentOnce` | crates/zvs-cli/src/link.rs:169-175 | the host gets one message for each call that passed the queueing step |
| `LinkPromises.OthersAreUntouched` | crates/zvs-cli/src/link.rs:113-178 | short of the final clearing a step changes no call but its own |
| `LinkDelivery.CallsAreBegun` | crates/zvs-cli/src/link.rs:160-161 | there are as many calls as were begun, numbered from 1 in that order |
| `LinkDelivery.LiveWriterSends` | crates/zvs-cli/src/link.rs:169-175 | over any run in which the writer did not fail, no call is told that its message could not be sent |
| `LinkDelivery.OpenCallsAreSent` | crates/zvs-cli/src/link.rs:159-175 | progress: a begun call that registers and then queues, whatever happens around that, is sent to the host if the table is open at the end and the writer never failed |
| `LinkDelivery.ReplyIsDelivered` | crates/zvs-cli/src/link.rs:114-125 | the first result the reader takes for a sent call is what the call returns with after a hand-over and its last step, unless it gave up itself |
| `LinkDelivery.CallGetsItsReply` | crates/zvs-cli/src/link.rs:113-178 | end to end: register, queue, first result, hand-over and last step, in order with anything around them, answer the call with that result, unless it gave up itself |
| `LinkDelivery.EndsAreKnown` | crates/zvs-cli/src/link.rs:126-145 | the consumer listens exactly until it hangs up, and the writer lives exactly until it fails |
| `LinkDelivery.LinesCame` | crates/zvs-cli/src/link.rs:113-138 | the reader takes no line that did not come |
| `LinkDelivery.AbandonedByItself` | crates/zvs-cli/src/link.rs:176-178 | a call that was given up was given up by its own step |
| `Calendar.FollowingIsNext` | crates/zvs-copilot/src/lib.rs:201-206 | consecutive dates have consecutive day numbers under the 4/100/400 rule |
| `Calendar.EpochIsZero` | crates/zvs-copilot/src/lib.rs:201-206 | 1 January 1970 has day number 0 |
| `Calendar.DateOfInverts` | crates/zvs-cli/src/format.rs:98-113 | the second conversion undoes the first for every date of the calendar, any year |
| `Calendar.DayNumberInverts` | crates/zvs-cli/src/format.rs:98-113 | every day number is a date of the calendar with that number, before the epoch too |
| `Calendar.OverflowMovesOn` | crates/zvs-copilot/src/lib.rs:198-206 | a day past the end of its month is read as a day of the next month |
| `Calendar.RoundTripsExactlyWhenItExists` | crates/zvs-copilot/src/lib.rs:198-206 | the conversions agree exactly when the month has the day |
| `Calendar.FebruaryThirtyFirst` | crates/zvs-copilot/src/lib.rs:198-206 | the counterexample: 31 February 2023 is accepted and comes back as 3 March |
| `IsoText.IsoMillis` | crates/zvs-copilot/src/lib.rs:189-248 | a value exactly for the texts of the grammar, and then the instant they write |
| `IsoText.ReadClock` | crates/zvs-copilot/src/lib.rs:212-247 | the time part: a value exactly for the clock texts of the grammar |
| `IsoText.ReadZone` | crates/zvs-copilot/src/lib.rs:233-246 | the zone: exactly nothing, Z, z or a signed offset of two-digit hours and minutes |
| `IsoText.SkipFraction` | crates/zvs-copilot/src/lib.rs:225-231 | the fraction is the longest run of digits and may not be empty |
| `DateText.WrittenDayIsShown` | crates/zvs-cli/src/format.rs:98-113 | without a clock, date after reading shows the written day exactly when the month has it |
| `DateText.UtcDayIsShown` | crates/zvs-cli/src/format.rs:98-113 | for every timestamp the parser accepts: the written day is shown exactly when the calendar has that day and the instant lies within it in UTC |
| `DateText.OverflowIsNamed` | crates/zvs-cli/src/format.rs:98-113 | a written day its month does not have is shown as that many days into the next month, whatever the year |
| `DateText.LeapSecondMovesOn` | crates/zvs-copilot/src/lib.rs:221-223 | 23:59:60 reads as the first instant of the next day |
| `DateText.ShownIsInjective` | crates/zvs-cli/src/format.rs:112-112 | different dates are shown differently |
| `StampLaws.ZonesShift` | crates/zvs-copilot/src/lib.rs:233-247 | `+hh:mm` makes the instant that much earlier than `Z`, `-hh:mm` that much later, and no zone is `Z` |
| `StampLaws.ClockTicks` | crates/zvs-copilot/src/lib.rs:212-232 | an hour, minute or second more is 3 600 000, 60 000 or 1000 milliseconds more; fractions do not count |
| `StampLaws.MidnightIsDay` | crates/zvs-copilot/src/lib.rs:208-211 | a date alone is its midnight |
| `StampLaws.DaysPass` | crates/zvs-copilot/src/lib.rs:201-207 | the following date is 86 400 000 milliseconds later, and 1970 starts at 0 |
| `StampLaws.DateAloneMeans` | crates/zvs-copilot/src/lib.rs:189-211 | character by character: what ten characters of a date are read as |
| `StampLaws.InstantMeans` | crates/zvs-copilot/src/lib.rs:189-248 | character by character: what a full timestamp with seconds and a signed offset is read as |
| `StampLaws.DateShowsTheText` | crates/zvs-cli/src/format.rs:98-113 | of any accepted text whose day exists and holds its instant, `date` shows the text's own day, month and year characters, in that order |
| `StampLaws.ShownInCharacters` | crates/zvs-cli/src/format.rs:112-112 | two digits for the day, a dot, two for the month, a dot, and a minus exactly for negative years |
| `Fusion.ReciprocalRankFusion` | crates/zvs-core/src/index.rs:154-194 | for any real constant: every distinct id once, with its first rank in each list and the matching score, in comparator order |
| `Fusion.FusionIsUnique` | crates/zvs-core/src/index.rs:180-192 | one list satisfies that |
| `Fusion.BetterRanksComeFirst` | crates/zvs-core/src/index.rs:154-194 | for constants of at least -1: an id ranked no worse in both lists and better in one has a higher score and comes first |
| `Fusion.EarlierIsWorthMore` | crates/zvs-core/src/index.rs:176-176 | the exact condition behind that: every earlier rank is worth more than every later one exactly when the constant is at least -1 |
| `Fusion.RepeatsDoNotCount` | crates/zvs-core/src/index.rs:160-178 | listing an id again at the end of either list changes nothing |
| `FusionPlaces.OneListScores` | crates/zvs-core/src/index.rs:174-177 | an id of one list scores the reciprocal of the constant plus its first place there, counted from 1 |
| `FusionPlaces.TwoListsScore` | crates/zvs-core/src/index.rs:174-177 | an id of both lists scores the sum of its two reciprocals |
| `FusionPlaces.TiesAreBroken` | crates/zvs-core/src/index.rs:180-192 | said by places: scores never rise along the list; between equal ones keyword hits go first, then what stands first in either list, then the smaller id |
| `HybridMerge.Gather` | crates/zvs-core/src/index.rs:601-630 | the hit of an id: rescored if the query ran, else the last semantic, else the first keyword one |
| `HybridMerge.HybridSearch` | crates/zvs-core/src/index.rs:587-641 | the first `k` passing rows of the fused list |
| `HybridLaws.FusedIdsHaveHits` | crates/zvs-core/src/index.rs:601-634 | no fused id is without a hit |
| `HybridLaws.EveryIdIsAccountedFor` | crates/zvs-core/src/index.rs:631-641 | an id is a hit, or only semantic and below `min_score`, or shut out by `k` better ones; a keyword hit is never dropped for its score |
| `HybridLaws.HitsAreLabelled` | crates/zvs-core/src/index.rs:633-639 | provenance is list membership; fused and keyword scores are those of the id |
| `HybridLaws.HitsAreInOrder` | crates/zvs-core/src/index.rs:631-641 | hits keep the fused order and repeat no id |
| `HybridLaws.MergeIsUnique` | crates/zvs-core/src/index.rs:587-641 | one list of hits satisfies the specification |
| `HybridSources.HitShowsItsSource` | crates/zvs-core/src/index.rs:601-630 | by indices: a hit has the score and chunk of the last rescored hit of its id if some keyword hit needed rescoring, else of the last semantic one, else of the first keyword one |
| `HybridSources.KeywordOnlyHitIsRescored` | crates/zvs-core/src/index.rs:611-627 | an id only the keyword search found shows what the rescoring query returned for it |
| `HybridSources.HitShowsItsKeywordScore` | crates/zvs-core/src/index.rs:601-641 | the keyword score is that of the last keyword hit of the id, and absent without one |
| `HybridSources.RescoringIsIgnored` | crates/zvs-core/src/index.rs:611-627 | when the semantic search has every keyword hit, the merge does not depend on the rescored list |
| `HybridSources.NoneIsDroppedEarly` | crates/zvs-core/src/index.rs:631-641 | below `k` hits, every keyword id and every semantic id that scores enough is a hit |
| `Expansion.MergeGraphNeighbors` | crates/zvs-contract/src/graph_expansion.rs:30-73 | the nested loops with early return equal flatten, keep, first occurrences, take `cap` |
| `Expansion.PickedAreDistinct` | crates/zvs-contract/src/graph_expansion.rs:47-57 | picked documents are eligible and distinct |
| `Expansion.FirstIsPicked` | crates/zvs-contract/src/graph_expansion.rs:47-57 | the first candidate of every eligible document is picked |
| `ExpansionPlaces.ExpansionsArePlaced` | crates/zvs-contract/src/graph_expansion.rs:30-73 | by places: the answer is the first `cap` documents that are no hits, each at its first listing and in that order, with its relation, direction and via, the path and chunk count of the last document listed under the id, or the id and no count |
| `ExpansionPlaces.NeighborIsCandidate` | crates/zvs-contract/src/graph_expansion.rs:46-50 | the candidates are the neighbours, document by document, in order |
| `ExpansionPlaces.CandidatesAreCounted` | crates/zvs-contract/src/graph_expansion.rs:46-50 | and nothing else |
| `Split.Split` | crates/zvs-cli/src/mcp_add.rs:6-38 | the character loop computes the fold of its steps |
| `Split.LinesAreSplit` | crates/zvs-cli/src/mcp_add.rs:6-38 | every line of the quoting grammar is split into exactly its words |
| `Split.SplitsAreLines` | crates/zvs-cli/src/mcp_add.rs:6-38 | whatever is split is such a line, with those words |
| `Split.FailsIffQuoteIsOpen` | crates/zvs-cli/src/mcp_add.rs:31-33 | it fails exactly when a quote is left open, and exactly when no line of the grammar reads so |
| `Split.SplitsConcatenate` | crates/zvs-cli/src/mcp_add.rs:6-38 | a balanced line, white space and a second line give the words of both |
| `Split.PrintedIsSplit` | crates/zvs-cli/src/mcp_add.rs:6-38 | any word list, empty words and both quotes included, survives quoting and splitting |
| `SplitWords.PlainWordIsItself` | crates/zvs-cli/src/mcp_add.rs:6-38 | a word without white space and quotes splits into itself |
| `SplitWords.QuotedIsOneWord` | crates/zvs-cli/src/mcp_add.rs:6-38 | what stands between two double or two single quotes is one word, the other quote and blanks included |
| `SplitWords.QuotedGoesOn` | crates/zvs-cli/src/mcp_add.rs:6-38 | a quote inside a word does not end it |
| `SplitWords.BlanksSeparate` | crates/zvs-cli/src/mcp_add.rs:6-38 | white space between two plain words makes them two |
| `SqlList.LiteralIsRead` | crates/zvs-core/src/index.rs:872-874 | reading a literal stops at its own closing quote whatever the value holds |
| `SqlList.ListIsRead` | crates/zvs-core/src/index.rs:876-882 | any nonempty list of values comes back |
| `SqlList.ReadsExactlyLists` | crates/zvs-core/src/index.rs:876-882 | a text reads as a list exactly when it is the printed list |
| `SqlList.LiteralIsInjective` | crates/zvs-core/src/index.rs:872-874 | different values have different literals |
| `SqlText.PlainValueIsQuoted` | crates/zvs-core/src/index.rs:872-874 | a value without an apostrophe is printed between two |
| `SqlText.ApostropheIsDoubled` | crates/zvs-core/src/index.rs:872-874 | an apostrophe is printed as two, with what surrounds it as on its own |
| `SqlText.ListIsJoined` | crates/zvs-core/src/index.rs:876-882 | the list of two lists is the two with a comma between, of one value its literal, of none empty |
| `Normalise.Normalise` | crates/zvs-core/src/pdf.rs:207-224 | the line loop and the final trim give the normal form of the marked lines |
| `Normalise.ContentIsKept` | crates/zvs-core/src/pdf.rs:207-224 | read back, the result has the same non-blank lines and gaps, up to what precedes the first line |
| `Normalise.NormalIsTidy` | crates/zvs-core/src/pdf.rs:207-224 | no two blank lines in a row, no trailing space, neither end blank |
| `Normalise.NormalIsIdempotent` | crates/zvs-core/src/pdf.rs:207-224 | normalising twice is normalising once |
| `NormaliseLaws.InkIsKept` | crates/zvs-core/src/pdf.rs:207-224 | every character that is not white space stays, in its order, and no other comes in |
| `NormaliseLaws.TidyTextStays` | crates/zvs-core/src/pdf.rs:207-224 | lines without trailing space, no two blank in a row, neither end blank and the first not indented: their text is its own normal form |
| `NormaliseLaws.LineEndings` | crates/zvs-core/src/pdf.rs:207-224 | a line feed ends a line, with or without a carriage return before it |

## Left out

- Graph statistics (`stats`), `contains_node` and `node`: counts and lookups of the same maps.
- The wording of errors: reasons are an enumeration, and which reason is reported is proved.
- Floating-point rounding, and ties it may create between scores: reals are used throughout.
- LanceDB and Arrow code, vector metrics and index maintenance: library input and output; `nearest`, `keyword_search` and the rescoring query are arbitrary lists.
- Cancellation outside the graph: the chunkers are modelled for runs that are not cancelled.
- Unicode tables other than white space and the script ranges of the token estimate.
- Byte offsets of multi-byte characters: positions count characters, so `byte_range` is modelled as a character range.
- Greeting, JSON and pipe transport of the link, and the unwrapping of result envelopes: messages are values on channels.
- Wrap-around of the 64-bit call id after 2^64 calls: ids are unbounded.
- A panic while the lock is held: the code recovers the poisoned lock, and the model has no panics.
- `parse` on top of `split`, number and plural formatting, PDF parsing and image extraction, request validation of the contract crate: one reading settles them or a library does them.
- Fusion constants that are not finite: the constant is any real, and one that cancels a rank makes the score infinite, as division by zero does in the code.
