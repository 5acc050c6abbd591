# oigrap, verified

A Dafny model of the hard parts of the oigrap database: its Raft consensus, its
B+ tree on slotted pages, its buffer pool, JSONB with the GIN index, HNSW vector
search, the shortest-path query, zone-map pruning, hash joins and MVCC snapshots.
`dafny verify dfyconfig.toml` checks everything.

| files | what they model |
|---|---|
| `RaftLog`, `RaftNode` | the log and the message handlers of one node, as classes proved against functions on values |
| `RaftCluster`, `RaftInvariants`, `RaftSafety`, `RaftDivergence` | the cluster as a step relation; what every run keeps; a run in which committed logs part |
| `RaftProgress`, `RaftAvailability` | what heartbeats bring about; how any run can go on |
| `BTree`, `SlottedPage`, `BTreePage` | the index over pages; the page as bytes; entries and pages of the index as bytes |
| `BufferPool` | the page cache and its LRU replacer |
| `JsonValue`, `Json`, `JsonGrammar`, `JsonReading`, `JsonRoundTrip` | JSON text: printer and parser; the grammar apart from them; that the parser reads exactly that; the round trip |
| `Jsonb`, `Containment` | the binary form; what `@>` means |
| `Gin`, `GinIndex`, `GinQuery` | key extraction, posting lists, the accelerated `@>` query |
| `Hnsw`, `HnswIndex` | beam search through one layer; insertion and search |
| `Bfs` | the shortest-path function |
| `Columnar`, `Vectorized` | run-length columns and zone maps; the pruned filter |
| `Spill`, `HashJoin` | the spilled row format; nested-loop, in-memory and partitioned joins |
| `Mvcc` | the transaction manager |

## What holds, and what does not

* **Raft.** In every run, for any set of node ids, at most one node leads a term and logs
  match. Requests may be lost, repeated and late; a vote reply answers a call of
  the candidate's current round, once per peer, as the sequential rounds of
  `crates/raft/src/cluster.rs` have it. Committed entries agree, and later leaders
  hold them, in every run where each accepted success reply belongs to the leader's
  current term and its report is true: up to the index reported the follower had the
  leader's log. What any two nodes apply is then one a prefix of the other. A success
  reports the follower's last index, and that is true exactly when the leader has an
  entry there of the follower's last term (`ReportTrueIff`); a reordered duplicate may
  truly report more than it carried (`MoreThanSent`). A stale tail makes the report
  false, and then safety is lost: `CommittedLogsDiverge` is a run of three nodes that
  ends with two different committed entries at index 1.
  The cluster is never stuck: from every reachable state, whatever was lost, some
  node can win an election, bring every follower to its log and get a new entry
  committed on all nodes (`AlwaysAvailable`).
* **JSON text.** The parser accepts exactly the texts of a grammar written apart from it
  and reads them as the grammar says (`ParseIff`). Against RFC 8259 it takes more: form
  feeds as blanks, control characters in strings, leading zeros, points without digits on
  one side, a plus as first digit after `\u`, and any byte for the quote that opens a key.
  A value survives printing and parsing exactly when all its strings are ASCII, since the
  parser turns each byte above 127 into a character of its own, and all its floats are
  printed with a point. Whole floats of 1e15 and more are printed without one: they come
  back as integers, and beyond 64 bits the document does not parse at all.
* **GIN.** Of the documents that contain a query, exactly those are found that are
  objects, or whose words hold the query's keys, and only for a query object with
  a key. A document that is no object is missed by every query with a key that holds
  anything but digits and small letters.
* **Zone maps** are rebuilt only when a zone of 1000 rows fills up, and rows after
  the last zone that has a map are not read at all: the answer is right exactly when
  none of those rows passes. `col <= NULL` and `col = NULL` lose rows
  exactly in zones that are partly NULL. Comparisons with a value lose no row of a
  zone exactly when each of its numbers lies within the zone's bounds as SQL orders
  numbers (`PruneIff`). Zone maps do not compare integers with floats, so a number of
  the other kind may lie outside. Inserted through SQL each value is coerced to the type
  of its column (`crates/sql/src/executor.rs:253-258`), so only a direct caller of
  `insert_rows` can mix the two.
* **Spilled rows** come back as written. A file cut short inside a row is an error, but cut
  inside the count of columns it passes for a shorter file.
* **Hash joins** match NULL keys, which SQL does not: they equal the nested-loop
  join exactly when not both sides have a NULL key.
* **MVCC.** The comment on `Snapshot` says that all transactions below `xmin` are
  committed; in the code `xmin` is the smallest committed id, so none of them is. The
  model follows the code. Visibility is stable all the same.

## Model

| member | source | states |
|---|---|---|
| `RaftLog.Log.constructor` | crates/raft/src/log.rs:39-49 | a new log is empty, nothing committed or applied |
| `RaftLog.Log.Append` | crates/raft/src/log.rs:52-56 | the entry becomes the last one, under the next index |
| `RaftLog.Log.TruncateAfter` | crates/raft/src/log.rs:79-92 | the entries up to the index remain; the base is never cut |
| `RaftLog.Log.AdvanceCommit` | crates/raft/src/log.rs:100-104 | the commit index moves forward only, and not past the log |
| `RaftLog.Log.TakeApplicable` | crates/raft/src/log.rs:126-135 | the loop delivers the committed entries not yet applied |
| `RaftLog.Log.Compact` | crates/raft/src/log.rs:139-175 | entries up to the snapshot go, those after it stay |
| `RaftLog.OperationAt` | crates/raft/src/log.rs:52-175 | what each operation does to the entry at every index and to the two marks |
| `RaftLog.StepRefines` | crates/raft/src/log.rs:52-175 | each operation on a compacted log does what it does on the full log, and delivers the same |
| `RaftLog.RunRefines` | crates/raft/src/log.rs:52-175 | so does any sequence of operations: `get` agrees above the base |
| `RaftLog.DeliversEachIndexOnce` | crates/raft/src/log.rs:126-175 | over any sequence of operations the delivered batches concatenate to the entries 1, 2, 3, … without gap or repeat |
| `RaftNode.Node.constructor` | crates/raft/src/node.rs:49-63 | a fresh follower in term 0 |
| `RaftNode.Node.MatchPrevious` | crates/raft/src/node.rs:115-136 | whether the entry before the new ones is as the leader says; a mismatch cuts the log there |
| `RaftNode.Node.MergeEntry` | crates/raft/src/node.rs:138-151 | one entry of the leader: a conflicting tail is cut, a missing entry appended |
| `RaftNode.Node.MergeEntries` | crates/raft/src/node.rs:138-151 | the loop over all entries is the fold of the single merge |
| `RaftNode.Node.HandleAppendEntries` | crates/raft/src/node.rs:98-165 | the whole handler: new state and reply as functions of state and request; the log's own commit index stays the node's if the request spares what is committed |
| `RaftNode.Node.Replicate` | crates/raft/src/node.rs:115-158 | the predecessor, the entries and the leader's commit index |
| `RaftNode.Node.HandleRequestVote` | crates/raft/src/node.rs:168-197 | new state and reply of a vote request |
| `RaftNode.Node.Propose` | crates/raft/src/node.rs:203-209 | a leader appends; others refuse and change nothing |
| `RaftNode.Node.Heartbeat` | crates/raft/src/node.rs:213-239 | the request for each peer carries the whole suffix from its next index |
| `RaftNode.HighestCommittableIsMaximal` | crates/raft/src/node.rs:257-272 | the index found by the loop is the highest of the current term that a majority holds |
| `RaftNode.Node.AdvanceCommit` | crates/raft/src/node.rs:257-272 | the loop over candidate indexes commits that index |
| `RaftNode.Node.HandleAppendResponse` | crates/raft/src/node.rs:242-284 | match and next index, commit, and stepping down on a higher term |
| `RaftNode.Node.BecomeLeader` | crates/raft/src/node.rs:343-354 | role and the next and match index of every peer |
| `RaftNode.Node.StartElection` | crates/raft/src/node.rs:290-317 | a new term, a vote for oneself, a request to each peer; alone, victory |
| `RaftNode.Node.HandleVoteResponse` | crates/raft/src/node.rs:320-339 | votes counted up to a majority; stepping down on a higher term |
| `RaftNode.Node.AdvanceCommitIfSolo` | crates/raft/src/node.rs:427-436 | a node without peers commits its log; the log's own commit index follows |
| `RaftNode.Node.TakeApplicable` | crates/raft/src/node.rs:421-423 | the entries between what was applied and the commit index, in order |
| `RaftInvariants.QuorumsMeet` | crates/raft/src/node.rs:331-337 | two majorities of one cluster share a node |
| `RaftCluster.Matching` | crates/raft/src/node.rs:115-151 | two logs backed by leaders' logs that agree on a term at an index agree up to it |
| `RaftCluster.MergeLeaderSlice` | crates/raft/src/node.rs:138-151 | merging a slice of a leader's log yields that log's prefix, or keeps a log that already has it |
| `RaftInvariants.AcceptLog` | crates/raft/src/node.rs:98-165 | an accepted append leaves the follower's log backed, and equal to the leader's up to what was sent |
| `RaftInvariants.NextOk` | crates/raft/src/node.rs:98-354 | every step of the cluster keeps the invariant |
| `RaftInvariants.RunOk` | crates/raft/src/node.rs:98-354 | so the invariant holds in every state of every run |
| `RaftInvariants.RunGrows` | crates/raft/src/node.rs:98-354 | what has happened in a run stays so: ballots, elections and leaders' logs only grow |
| `RaftInvariants.ElectionSafety` | crates/raft/src/node.rs:168-197 | two leaders of one term, at any two moments of any run, are the same node |
| `RaftInvariants.LogMatching` | crates/raft/src/node.rs:98-165 | in any state of any run, two logs with the same term at an index are identical up to it |
| `RaftSafety.LeaderCompleteness` | crates/raft/src/node.rs:168-197 | an entry a majority acknowledged in its leader's term is in the log of every later leader when elected |
| `RaftSafety.NextSafe` | crates/raft/src/node.rs:98-354 | a step that relies only on acknowledged reports keeps the commit invariant, the follower's `min(leader_commit, last_index)` rule included |
| `RaftSafety.RunSafe` | crates/raft/src/node.rs:98-354 | the commit invariant in every state of every run whose accepted reports are true |
| `RaftSafety.StateMachineSafety` | crates/raft/src/node.rs:98-165 | in such runs the logs of two nodes, at any two moments, agree at every index both have committed |
| `RaftSafety.LaterLeadersHoldCommitted` | crates/raft/src/node.rs:213-284 | in such runs a leader holds what any node of its term or an earlier one had committed |
| `RaftSafety.CommitNeverFalls` | crates/raft/src/node.rs:98-165 | in such runs a node's commit index never falls and no truncation reaches what it has committed |
| `RaftSafety.AppliedIsCommitted` | crates/raft/src/log.rs:126-135 | whenever a node takes entries off its log, what it has applied is its committed log from index 1 on |
| `RaftSafety.AppliedAgree` | crates/raft/src/log.rs:126-135 | what any two nodes have applied, at any two moments, is one a prefix of the other |
| `RaftSafety.TakenIsDelivered` | crates/raft/src/log.rs:126-135 | what a node is said to take is what its log delivers |
| `RaftSafety.RequestsSpareCommitted` | crates/raft/src/node.rs:115-151 | in such runs no request touches what its receiver has committed, so that the log's commit index stays the node's |
| `RaftProgress.AcceptsIff` | crates/raft/src/node.rs:98-165 | when a request is accepted; what a refused one costs the log; the reply gives the last index |
| `RaftProgress.AcceptCommits` | crates/raft/src/node.rs:153-158 | in every run a follower that accepts a request commits all that was sent and that the leader says is committed |
| `RaftProgress.HeartbeatCommits` | crates/raft/src/node.rs:213-239 | a follower that accepts a heartbeat, whenever it arrives, has the log the leader had and has committed what the leader had |
| `RaftProgress.TakeIsComplete` | crates/raft/src/log.rs:126-135 | a take leaves nothing committed unapplied |
| `RaftProgress.HeartbeatApplies` | crates/raft/src/node.rs:421-423 | and from its next take on it has applied that |
| `RaftProgress.LaterTermsRule` | crates/raft/src/node.rs:98-339 | terms never fall; a later term makes any receiver a follower in it; an earlier one is refused |
| `RaftProgress.VotesIff` | crates/raft/src/node.rs:168-197 | exactly which vote requests are granted, and what is recorded |
| `RaftAvailability.Refused` | crates/raft/src/node.rs:274-283 | a refused heartbeat moves the leader back for that peer, behind the follower's end and by at least one |
| `RaftAvailability.RepliedTo` | crates/raft/src/node.rs:252-272 | an accepted one sets match and next index of that peer, and the leader commits all it may |
| `RaftAvailability.CatchUp` | crates/raft/src/node.rs:213-284 | from any reachable state exchanges bring any follower of no higher term to the leader's log |
| `RaftAvailability.LeaderCommits` | crates/raft/src/node.rs:257-272 | a leader no node is ahead of can commit its log, through its followers or alone |
| `RaftAvailability.Elects` | crates/raft/src/node.rs:290-354 | a node with a most recent log that no node is ahead of can win an election, and has then heard of nobody |
| `RaftAvailability.ProposalCommits` | crates/raft/src/node.rs:203-209 | such a leader gets a proposal committed, at the index it returned, on all nodes |
| `RaftAvailability.AlwaysAvailable` | crates/raft/src/cluster.rs:147-286 | every run of every cluster can go on so that a new entry is committed on all nodes |
| `RaftDivergence.ReportTrueIff` | crates/raft/src/node.rs:160-164 | in every run a success reports the follower's last index, and its log up to there is the leader's exactly when the leader has an entry there of the follower's last term |
| `RaftDivergence.MoreThanSent` | crates/raft/src/node.rs:153-164 | a follower that holds more of the leader's log than an older request carries reports more than was sent, and truly |
| `RaftDivergence.CommittedLogsDiverge` | crates/raft/src/node.rs:242-272 | a run of three nodes whose over-reported match index makes two nodes commit different entries at index 1 |
| `BTree.Descend` | crates/storage/src/btree.rs:406-437 | binary search finds the child whose region holds the key |
| `BTree.FindInLeaf` | crates/storage/src/btree.rs:439-457 | the entry with the key, if there is one |
| `BTree.LeafInsertPos` | crates/storage/src/btree.rs:460-472 | after the keys not larger and before the larger ones |
| `BTree.InternalInsertPos` | crates/storage/src/btree.rs:474-486 | the position that keeps separators sorted |
| `BTree.LeafInsertedOk` | crates/storage/src/btree.rs:214-232 | putting an entry into its leaf keeps the tree's invariant for the map with the entry |
| `BTree.LeafSplitOk` | crates/storage/src/btree.rs:234-281 | cutting a leaf keeps it but for one pending separator: halves, regions and sibling links fit |
| `BTree.SplitListedOk` | crates/storage/src/btree.rs:283-305 | listing the pending separator in the parent restores it |
| `BTree.InternalSplitOk` | crates/storage/src/btree.rs:306-342 | cutting an internal page keeps it but for the separator moved up |
| `BTree.RootGrownOk` | crates/storage/src/btree.rs:71-104 | a new root over the two halves restores it, one level higher |
| `BTree.LeafOverflow` | crates/storage/src/btree.rs:234-281 | both halves of a full leaf fit their pages |
| `BTree.InternalOverflow` | crates/storage/src/btree.rs:306-342 | both halves of a full internal page fit theirs |
| `BTree.PathNests` | crates/storage/src/btree.rs:406-437 | each step down a path is one level down and into part of the region above |
| `BTree.LeavesEquallyDeep` | crates/storage/src/btree.rs:184-342 | all paths from the root to a leaf have the same length |
| `BTree.SeparatorsBound` | crates/storage/src/btree.rs:283-342 | every key below a child lies between the separators around it |
| `BTree.ChainReaches` | crates/storage/src/btree.rs:234-281 | following the `next` links from a leaf reaches every leaf further right, in key order |
| `BTree.ScanStep` | crates/storage/src/btree.rs:127-180 | one entry further, the results are still exactly the entries of the scanned range, ascending |
| `BTree.BigEndianKeys` | crates/sql/src/value.rs:47-53 | keys of one length compare as byte strings as the numbers they spell compare |
| `BTreePage.LeafBack` | crates/storage/src/btree.rs:354-378 | an encoded leaf entry decodes to its key and tuple id and takes the bytes charged for it |
| `BTreePage.InternalBack` | crates/storage/src/btree.rs:380-399 | the same for an internal entry |
| `BTreePage.LayoutExample` | crates/storage/src/btree.rs:355-387 | field order and byte order, in an example |
| `BTreePage.LeafPut` | crates/storage/src/btree.rs:224-232 | inserting into a leaf value is putting the encoded entry into the bytes of the page |
| `BTreePage.InternalPut` | crates/storage/src/btree.rs:290-301 | the same for an internal page |
| `BTreePage.PutAt` | crates/storage/src/btree.rs:224-232 | on the bytes the insertion is refused exactly when the tree finds no room, and else gives the list with the entry |
| `BTreePage.Rewrite` | crates/storage/src/btree.rs:248-270 | clearing a page and appending entries leaves exactly their bytes |
| `BTree.Index.constructor` | crates/storage/src/btree.rs:30-49 | a new tree holds the empty map |
| `BTree.Index.FindLeaf` | crates/storage/src/btree.rs:107-123 | the descent loop ends at the leaf whose region holds the key |
| `BTree.Index.Lookup` | crates/storage/src/btree.rs:107-123 | exactly the tid stored under the key, or none |
| `BTree.Index.RangeScan` | crates/storage/src/btree.rs:127-180 | exactly the entries with start <= key < end, ascending, without repeats |
| `BTree.Index.LeafInsert` | crates/storage/src/btree.rs:214-281 | the map gains the entry; pages above the leaf are untouched; a split exactly when the page has no room, pending as returned |
| `BTree.Index.SplitLeaf` | crates/storage/src/btree.rs:234-281 | the same for a full leaf, shared out over two pages by halves |
| `BTree.Index.InternalInsert` | crates/storage/src/btree.rs:283-342 | the pending split is listed, and another may be pending one level up |
| `BTree.Index.SplitInternal` | crates/storage/src/btree.rs:306-342 | the same for a full page, by halves, the middle separator moving up |
| `BTree.Index.InsertRecursive` | crates/storage/src/btree.rs:184-212 | insertion below a page, by recursion on its level |
| `BTree.Index.Insert` | crates/storage/src/btree.rs:71-104 | the tree holds the old map and the new entry, whatever splits |
| `BTree.Index.InsertAll` | crates/storage/src/btree.rs:71-104 | any sequence of inserts of distinct keys leaves exactly those entries |
| `SlottedPage.PutU16Reads` | crates/storage/src/page.rs:372-400 | a little-endian write reads back |
| `SlottedPage.InsertIsListInsert` | crates/storage/src/page.rs:239-268 | on bytes, the insertion is insertion into the list of tuples; every other slot reads as before |
| `SlottedPage.DeleteIsListClear` | crates/storage/src/page.rs:226-234 | deletion clears one element and keeps the rest |
| `SlottedPage.ClearIsEmptyList` | crates/storage/src/page.rs:273-280 | clearing leaves the empty list and the special area |
| `SlottedPage.NewIsEmptyList` | crates/storage/src/page.rs:60-67 | a fresh page is the empty list |
| `SlottedPage.PutTuple` | crates/storage/src/page.rs:239-268 | the array writes of an insertion give those bytes |
| `SlottedPage.Page.constructor` | crates/storage/src/page.rs:60-67 | a valid empty page |
| `SlottedPage.Page.SlotCount` | crates/storage/src/page.rs:162-164 | the length of the list |
| `SlottedPage.Page.FreeSpace` | crates/storage/src/page.rs:155-159 | the bytes between slots and tuples |
| `SlottedPage.Page.GetTuple` | crates/storage/src/page.rs:212-223 | the tuple of the slot; an error exactly for a missing or deleted one |
| `SlottedPage.Page.InsertTupleAt` | crates/storage/src/page.rs:239-268 | insertion at a slot, or the error for too little space or a slot out of range, nothing changed |
| `SlottedPage.Page.InsertTuple` | crates/storage/src/page.rs:192-209 | insertion at the end, or the space error |
| `SlottedPage.Page.DeleteTuple` | crates/storage/src/page.rs:226-234 | the slot reads as deleted, or the error |
| `SlottedPage.Page.ClearTuples` | crates/storage/src/page.rs:273-280 | the empty list, the special area kept |
| `BufferPool.Replacer.RecordAccess` | crates/storage/src/replacer.rs:33-42 | the frame becomes the most recently used |
| `BufferPool.Replacer.Evict` | crates/storage/src/replacer.rs:59-70 | the victim is the least recently used evictable frame; none exactly when there is no such frame |
| `BufferPool.Replacer.Remove` | crates/storage/src/replacer.rs:73-79 | the frame is forgotten, the order of the rest kept |
| `BufferPool.FullIffAllPinned` | crates/storage/src/buffer_pool.rs:223-245 | no frame is free and none can be evicted exactly when all are pinned |
| `BufferPool.OldestBy` | crates/storage/src/replacer.rs:59-70 | the frame with the oldest timestamp holds, of the unpinned pages, the one fetched longest ago in the sequence of all fetches |
| `BufferPool.FetchedOk` | crates/storage/src/replacer.rs:33-42 | recording an access keeps timestamps the times of the last fetches |
| `BufferPool.Pool.constructor` | crates/storage/src/buffer_pool.rs:42-52 | all frames free, the store is the disk |
| `BufferPool.Pool.FindFreeFrame` | crates/storage/src/buffer_pool.rs:223-245 | a free frame, or, written back, the unpinned one whose page was fetched longest ago; pinned frames are untouched |
| `BufferPool.Pool.FetchPage` | crates/storage/src/buffer_pool.rs:58-84 | the frame holds the page of the flat store and is the latest fetched; all other frames are as before; a page thrown out was fetched longest ago of those unpinned; `BufferFull` exactly when the page is absent and all frames are pinned |
| `BufferPool.Pool.Repin` | crates/storage/src/buffer_pool.rs:58-66 | a page already in a frame gains a pin and becomes the latest fetched |
| `BufferPool.Pool.NewPage` | crates/storage/src/buffer_pool.rs:89-105 | a page new to the store, pinned, the latest fetched; a page thrown out was fetched longest ago; `BufferFull` exactly when all frames are pinned |
| `BufferPool.Pool.ReadPage` | crates/storage/src/buffer_pool.rs:111-113 | the contents of a frame |
| `BufferPool.Pool.PageMut` | crates/storage/src/buffer_pool.rs:116-118 | the store changes at that page alone |
| `BufferPool.Pool.UnpinPage` | crates/storage/src/buffer_pool.rs:123-142 | a pin less, dirty kept, errors for absent and unpinned pages; the store is unchanged |
| `BufferPool.Pool.FlushPage` | crates/storage/src/buffer_pool.rs:145-158 | the disk gets the page; the store is unchanged |
| `BufferPool.Pool.FlushAll` | crates/storage/src/buffer_pool.rs:161-179 | afterwards no frame is dirty, and if no pinned frame holds an unmarked change the disk is the store |
| `BufferPool.Pool.DeletePage` | crates/storage/src/buffer_pool.rs:184-200 | the page leaves pool and store, unless it is pinned |
| `Json.JsonParser.SkipWs` | crates/storage/src/jsonb.rs:313-317 | the position moves over blanks, as the grammar function does (`JsonReading.SkipBlank` says which bytes) |
| `Json.JsonParser.ExpectLiteral` | crates/storage/src/jsonb.rs:352-360 | success exactly when the literal follows |
| `Json.JsonParser.ParseEscape` | crates/storage/src/jsonb.rs:369-397 | one escape, four hexadecimal digits included |
| `Json.JsonParser.ParseStr` | crates/storage/src/jsonb.rs:362-401 | the loop reads the string the grammar function reads, and stops where it stops |
| `Json.JsonParser.ParseNum` | crates/storage/src/jsonb.rs:403-440 | the same for numbers |
| `Json.JsonParser.ParseArr` | crates/storage/src/jsonb.rs:471-490 | the same for arrays |
| `Json.JsonParser.ParseObj` | crates/storage/src/jsonb.rs:442-469 | the same for objects |
| `Json.JsonParser.ParseVal` | crates/storage/src/jsonb.rs:329-350 | the same for any value |
| `Json.Parse` | crates/storage/src/jsonb.rs:493-501 | a whole text, with nothing but blanks after the value; `ParseIff` says which texts |
| `JsonReading.ParseIff` | crates/storage/src/jsonb.rs:303-501 | the parser succeeds on exactly the texts that spell a value in the grammar, with that value |
| `JsonReading.SpeltIsRead` | crates/storage/src/jsonb.rs:303-501 | every spelling is read as its meaning: blanks around all tokens, escapes, code points, fractions and exponents |
| `JsonReading.ReadWasSpelt` | crates/storage/src/jsonb.rs:303-501 | every text that is read has a spelling |
| `JsonReading.EncodesOnly` | crates/storage/src/jsonb.rs:381-393 | a code point is pushed as its UTF-8 encoding |
| `JsonReading.NumeralReads` | crates/storage/src/jsonb.rs:403-440 | a numeral is scanned to its end, as an integer or kept whole as a float |
| `JsonRoundTrip.ParseOfFormat` | crates/storage/src/jsonb.rs:171-211 | parsing what was printed gives the value with each byte above 127 made a character and floats without a point made integers, at any depth |
| `JsonRoundTrip.RoundTripIff` | crates/storage/src/jsonb.rs:171-211 | printing and parsing gives the value back exactly when its strings are ASCII and its floats are printed with a point or exponent |
| `JsonRoundTrip.NonAsciiIsChanged` | crates/storage/src/jsonb.rs:362-400 | a one-character string that does not come back |
| `JsonRoundTrip.HugeFloatIsLost` | crates/storage/src/jsonb.rs:176-183 | a whole float too large for 64 bits is printed as a text that does not parse |
| `JsonRoundTrip.FormatOneLine` | crates/storage/src/jsonb.rs:171-211 | whatever its strings hold, a value is printed without line breaks and tabs |
| `Jsonb.DecodeOfEncode` | crates/storage/src/jsonb.rs:39-162 | decoding an encoded value, whatever follows, gives the value and consumes exactly its bytes |
| `Jsonb.DecodeIff` | crates/storage/src/jsonb.rs:88-162 | decoding succeeds on exactly the encodings of values, with that value and that rest |
| `Jsonb.LayoutExample` | crates/storage/src/jsonb.rs:39-76 | tags, counts and their order, in examples |
| `Jsonb.ContainsReflexive` | crates/storage/src/jsonb.rs:263-289 | every value contains itself |
| `Jsonb.ContainsTransitive` | crates/storage/src/jsonb.rs:263-289 | containment is transitive, arrays holding scalars and repeated keys included |
| `Containment.ContainsIffEmbeds` | crates/storage/src/jsonb.rs:263-289 | containment is the existence of an embedding: equal scalars, children under equal keys, or into one item of an array |
| `Containment.LeavesAreMet` | crates/storage/src/jsonb.rs:263-289 | every scalar inside the inner value is inside the outer one, under the same keys |
| `Containment.DroppedIsContained` | crates/storage/src/jsonb.rs:263-289 | dropping an item or a member, at any depth, gives a contained value |
| `Containment.Wrapped` | crates/storage/src/jsonb.rs:263-289 | containment is kept inside arrays and objects; an array contains what its items contain |
| `Containment.ContainsVal` | crates/storage/src/jsonb.rs:263-289 | the recursion with its loops decides containment |
| `Containment.JsonbContains` | crates/storage/src/jsonb.rs:248-261 | on encoded values; malformed ones contain nothing |
| `Jsonb.EncodeVal` | crates/storage/src/jsonb.rs:39-76 | the buffer gains the value's encoding |
| `Jsonb.DecodeVal` | crates/storage/src/jsonb.rs:88-162 | the position advances as the decoder function says; errors coincide |
| `Gin.SkipOfEncode` | crates/storage/src/gin.rs:257-295 | one encoded value is stepped over exactly |
| `Gin.TokensOfEncode` | crates/storage/src/gin.rs:216-254 | the tokens of an encoded object are its keys in order; other values have none |
| `Gin.SkipValue` | crates/storage/src/gin.rs:257-295 | the recursion with its loops is the function on what is left |
| `Gin.JsonbTokens` | crates/storage/src/gin.rs:216-254 | the loop collects the tokens, stopping at malformed bytes |
| `Gin.TextTokens` | crates/storage/src/gin.rs:298-313 | the loop splits a text into its words |
| `Gin.WordsAreRuns` | crates/storage/src/gin.rs:298-313 | the words are the maximal runs of letters and digits, all of them, in order, in small letters |
| `Gin.WordsAreSmall` | crates/storage/src/gin.rs:298-313 | words are not empty and of digits and small letters only |
| `GinIndex.InsertPosting` | crates/storage/src/gin.rs:22-29 | a list stays sorted and without repeats and gains the tuple |
| `GinIndex.Index.constructor` | crates/storage/src/gin.rs:14-16 | nothing is filed |
| `GinIndex.Index.Insert` | crates/storage/src/gin.rs:19-30 | the tuple is filed under the tokens, besides those it had; lists stay exact |
| `GinIndex.Index.Remove` | crates/storage/src/gin.rs:67-73 | the tuple is filed under nothing; empty lists go |
| `GinIndex.Index.Lookup` | crates/storage/src/gin.rs:33-35 | exactly the tuples filed under the token, sorted |
| `GinIndex.Index.LookupAll` | crates/storage/src/gin.rs:38-64 | exactly the tuples filed under every token, sorted; none for no tokens |
| `GinIndex.ByLength` | crates/storage/src/gin.rs:46-47 | the lists by length, none lost |
| `GinIndex.Intersect` | crates/storage/src/gin.rs:49-63 | the tuples in every list, in order |
| `GinQuery.ContainedKeys` | crates/storage/src/jsonb.rs:263-273 | containment of objects gives containment of keys |
| `GinQuery.FoundIff` | crates/sql/src/executor.rs:571-599 | a document that contains the query is found exactly when the query has a key and the document is an object or its words are the query's keys |
| `GinQuery.ArrayIsMissed` | crates/sql/src/executor.rs:299-307 | a document that is no object, filed under the words of its text, is missed by every query with a key that is no small word, and by the empty query; an array may contain either |
| `GinQuery.Candidates` | crates/sql/src/executor.rs:571-599 | encoding the query, taking its tokens and looking them up finds exactly those documents |
| `Hnsw.SearchBeam` | crates/storage/src/hnsw.rs:218-266 | the loop ends; it keeps the `ef` nearest of the nodes visited, all of them reachable, and has visited every neighbour of a kept node |
| `Hnsw.SearchLayer` | crates/storage/src/hnsw.rs:218-273 | those, by distance; all reachable nodes if there are at most `ef` |
| `Hnsw.Visit` | crates/storage/src/hnsw.rs:250-265 | a node seen for the first time: adding and trimming keeps the nearest |
| `Hnsw.NearestSwapped` | crates/storage/src/hnsw.rs:255-264 | the nearest with one more node and without the farthest are the nearest |
| `Hnsw.AllFound` | crates/storage/src/hnsw.rs:233-267 | with room for every reachable node nothing is dropped and nothing missed |
| `HnswIndex.Prune` | crates/storage/src/hnsw.rs:155-175 | the nearest `m_max` links, the new one always among them; none dropped is nearer than one kept |
| `HnswIndex.Unmet` | crates/storage/src/hnsw.rs:106-142 | the search of an insertion never meets the node being inserted |
| `HnswIndex.Index.constructor` | crates/storage/src/hnsw.rs:83-94 | an empty graph |
| `HnswIndex.Index.Connect` | crates/storage/src/hnsw.rs:145-178 | the new node takes the neighbour; the neighbour's list takes it in and loses its farthest link if too long; no other list changes |
| `HnswIndex.Index.JoinLayer` | crates/storage/src/hnsw.rs:133-179 | the new node's links are the first `m_max` of a search of the layer, exactly those nodes take it in, no other list changes |
| `HnswIndex.Index.Descend` | crates/storage/src/hnsw.rs:124-130 | one layer of the descent ends at the nearest node visited, no farther than where it began |
| `HnswIndex.JoinedHasNeighbour` | crates/storage/src/hnsw.rs:133-179 | a node that joins a layer has a neighbour there |
| `HnswIndex.Index.Approach` | crates/storage/src/hnsw.rs:197-206 | the way down to the bottom layer never leads away from the query |
| `HnswIndex.Index.Insert` | crates/storage/src/hnsw.rs:106-186 | so at every layer up to the node's level; other layers and all points are untouched; links stay in range, distinct and bounded; the entry moves to a higher node |
| `HnswIndex.Index.Search` | crates/storage/src/hnsw.rs:189-215 | ids and distances, nearest first, of the `k` nearest of nodes that include every neighbour of a returned node; of all nodes, if the bottom layer is connected and the beam has room for them |
| `Bfs.WalksVisited` | crates/sql/src/executor.rs:1910-1920 | when all levels below `d` are expanded, all nodes within `d` hops are visited |
| `Bfs.Expand` | crates/sql/src/executor.rs:1911-1919 | one node's edges: the target, or its neighbours queued one level on |
| `Bfs.ShortestPath` | crates/sql/src/executor.rs:1896-1921 | the fewest hops; none exactly when no walk leads to the target; 0 exactly when source and target coincide |
| `Columnar.OneOrder` | crates/storage/src/columnar.rs:18-31 | within one kind both orders are the same total order |
| `Columnar.Push` | crates/storage/src/columnar.rs:47-57 | the column gains the value; runs stay compact |
| `Columnar.Materialize` | crates/storage/src/columnar.rs:59-68 | the values of all runs |
| `Columnar.Get` | crates/storage/src/columnar.rs:70-81 | the value of a row, or none past the end |
| `Columnar.ZoneOf` | crates/storage/src/columnar.rs:351-370 | minimum and maximum bound every value of their kind; NULL exactly without values |
| `Columnar.ZonesOf` | crates/storage/src/columnar.rs:341-380 | one such map for each zone of the column |
| `Columnar.ColumnarStore.constructor` | crates/storage/src/columnar.rs:283-289 | an empty store |
| `Columnar.ColumnarStore.BuildZoneMaps` | crates/storage/src/columnar.rs:341-380 | the maps cover all rows |
| `Columnar.ColumnarStore.AddRow` | crates/storage/src/columnar.rs:301-313 | each column gains its value, more values are ignored; the maps cover all full zones |
| `Columnar.ColumnarStore.InsertRows` | crates/storage/src/columnar.rs:292-314 | each column gains its cells in order; the maps cover all full zones |
| `Vectorized.FlipTurns` | crates/sql/src/vectorized.rs:428-436 | turning the operator round means turning the operands round |
| `Vectorized.CmpOpMeans` | crates/sql/src/vectorized.rs:416-426 | the comparisons are SQL's: numbers by size, texts by first difference, NULL and other kinds unordered |
| `Vectorized.OneOfThree` | crates/sql/src/value.rs:73-87 | of two values of one kind exactly one of `<`, `=`, `>` holds |
| `Vectorized.PruneExact` | crates/sql/src/vectorized.rs:505-543 | a zone is pruned exactly when no value between its bounds could meet the comparison |
| `Vectorized.PruneSound` | crates/sql/src/vectorized.rs:505-543 | a pruned zone whose numbers lie within its bounds holds no row that passes |
| `Vectorized.PruneIff` | crates/sql/src/vectorized.rs:505-543 | over all comparisons with a value, pruning a zone loses no row exactly when all its numbers lie within its bounds |
| `Vectorized.OneKindBounded` | crates/storage/src/columnar.rs:351-370 | they do when integers and floats are not mixed in the zone |
| `Vectorized.PruneNullIff` | crates/sql/src/vectorized.rs:505-543 | with a NULL literal and `<=` or `=`, that is so exactly in zones not partly NULL |
| `Vectorized.MixedIsLost` | crates/storage/src/columnar.rs:18-31 | a zone of floats that hides an integer from `>` |
| `Vectorized.PrunedPassing` | crates/sql/src/vectorized.rs:462-582 | filtering the surviving zones gives the rows, in order, of filtering all zones |
| `Vectorized.Filter` | crates/sql/src/vectorized.rs:40-90 | every column keeps, in order, exactly the rows that meet the clause |
| `Vectorized.FilterAnswers` | crates/sql/src/vectorized.rs:40-90 | the places of those rows, the same for all columns |
| `Vectorized.EqualOrNot` | crates/sql/src/vectorized.rs:416-420 | the answers to `=` and `<>` make up the rows: all and none of their keys are the literal |
| `Vectorized.PruneWithZoneMaps` | crates/sql/src/vectorized.rs:462-544 | the zones not pruned; all zones without a usable clause or a map |
| `Vectorized.BatchFromZones` | crates/sql/src/vectorized.rs:547-582 | every column holds the rows of the zones listed |
| `Vectorized.FromColumnar` | crates/sql/src/vectorized.rs:26-38 | all rows |
| `Vectorized.QueryBatch` | crates/sql/src/vectorized.rs:181-200 | however old the maps are, the batch the aggregates are computed from is the answer over the rows seen: all without maps, else up to the end of the last zone with a map, or of the rows its map covers if it is pruned |
| `Vectorized.ReachBounds` | crates/sql/src/vectorized.rs:181-200 | the rows seen are at least those covered, and just those when maps are fresh or end at a zone's end |
| `Vectorized.AnswerIff` | crates/sql/src/vectorized.rs:181-200 | that is the answer over all rows exactly when no later row passes |
| `Vectorized.StaleIsLost` | crates/storage/src/columnar.rs:308-312 | in any store of 1001 ones filled by insertion, `col > 0` sees 1000 rows, and no batch that is the answer over those is the answer over all |
| `Vectorized.LoseRow` | crates/sql/src/vectorized.rs:181-200 | inserting those rows and asking gives an answer that is not the answer |
| `Spill.ReadOfWrite` | crates/sql/src/spill.rs:25-137 | a file reads back as the rows written, in order |
| `Spill.TruncatedIff` | crates/sql/src/spill.rs:85-137 | a file whose last row is cut is an error exactly when at least the count of columns is left |
| `Spill.LayoutExample` | crates/sql/src/spill.rs:25-53 | tags and lengths, in an example |
| `Spill.AppendRow` | crates/sql/src/spill.rs:25-53 | the file gains the row's bytes |
| `Spill.ReadAll` | crates/sql/src/spill.rs:85-137 | the loops read what the reader function reads; errors coincide |
| `HashJoin.HashJoinIff` | crates/sql/src/executor.rs:2580-2597 | the hash join is the nested-loop join, as a sequence and as a multiset, exactly when not both sides have a NULL key |
| `HashJoin.JoinedIsJoin` | crates/sql/src/executor.rs:2667-2702 | the join lists exactly the pairs of rows whose keys match, once, left row before right row, in order |
| `HashJoin.NullKeysMeet` | crates/sql/src/executor.rs:2580-2597 | two NULL keys that join |
| `HashJoin.PartitionedJoin` | crates/sql/src/executor.rs:2706-2753 | joining bucket by bucket gives the same rows for every number of buckets and every hash |
| `HashJoin.NestedLoopJoin` | crates/sql/src/executor.rs:2667-2702 | the loops give the pairs with equal keys, NULL equal to nothing, in order |
| `HashJoin.MemoryJoin` | crates/sql/src/executor.rs:2580-2597 | building and probing gives the pairs with the same printed key, in order |
| `HashJoin.BuildTable` | crates/sql/src/executor.rs:2581-2586 | under each printed key its rows, in order |
| `HashJoin.Probe` | crates/sql/src/executor.rs:2587-2596 | the pairs of every left row |
| `HashJoin.Partition` | crates/sql/src/spill.rs:140-154 | one file for each bucket, with the bucket's rows in order |
| `HashJoin.SpillJoin` | crates/sql/src/executor.rs:2706-2753 | through the files, the rows of the in-memory join |
| `HashJoin.InnerJoin` | crates/sql/src/executor.rs:2571-2597 | below or above the threshold, SQL's join exactly when not both sides have a NULL key |
| `Mvcc.StatesPartIds` | crates/storage/src/mvcc.rs:90-203 | in every run committed, aborted and active are disjoint and cover the ids issued |
| `Mvcc.SnapshotStable` | crates/storage/src/mvcc.rs:206-253 | a snapshot keeps its answers through every later run: creator committed when it was taken, deleter not |
| `Mvcc.CrossedNotBothCommit` | crates/storage/src/mvcc.rs:125-183 | of two active transactions that each read what the other wrote, no run commits both |
| `Mvcc.StateOfHistory` | crates/storage/src/mvcc.rs:103-203 | ids are issued in order; a transaction is active from its beginning to its end, committed or aborted exactly by the action that ended it |
| `Mvcc.TouchedInHistory` | crates/storage/src/mvcc.rs:110-117 | read and write sets hold exactly what was recorded since the transaction last ended |
| `Mvcc.LoneCommits` | crates/storage/src/mvcc.rs:154-253 | a transaction that only reads or only writes commits when the log takes the record, and later snapshots see its tuples |
| `Mvcc.TransactionManager.constructor` | crates/storage/src/mvcc.rs:91-100 | the initial state |
| `Mvcc.TransactionManager.BeginTransaction` | crates/storage/src/mvcc.rs:103-107 | a new id, active |
| `Mvcc.TransactionManager.CheckConflict` | crates/storage/src/mvcc.rs:125-151 | the loop finds a conflict exactly when some transaction wrote what this one read and read what it wrote |
| `Mvcc.TransactionManager.CommitTransaction` | crates/storage/src/mvcc.rs:154-183 | done exactly when active, the log took the record and no other transaction both wrote what it read and read what it wrote; else aborted, refused, or unchanged |
| `Mvcc.TransactionManager.AbortTransaction` | crates/storage/src/mvcc.rs:186-203 | aborted, refused, or unchanged on a log error |
| `Mvcc.TransactionManager.TakeSnapshot` | crates/storage/src/mvcc.rs:206-216 | next id, active set and smallest committed id |

## Left out

Numbers are unbounded unless a format cuts them: terms, indexes, page ids and transaction
ids do not wrap. Disk and log calls succeed in the buffer pool and the index; where the code
returns a log error, `Mvcc` takes it as a parameter. Floats are their text (`Json`), their bits (`Jsonb`, `Spill`) or
real numbers (`Columnar`, `Hnsw`), without NaN or signed zero.

- Raft snapshots, InstallSnapshot, and restarts: the model keeps the whole log in the cluster; the cluster loop never creates a snapshot, and nothing is persisted.
- Raft peers are a set, and next and match index maps over it; the requests of a round are a map from peer to request. Timers and the transport are steps that may happen or not.
- RaftSafety.StateMachineSafety: for runs in which accepted success replies are of the current term and true, because without that it is false (`CommittedLogsDiverge`).
- RaftSafety.LaterLeadersHoldCommitted: under the same hypothesis, for the same reason.
- BTree.Index.Insert: keys of one length, each stored once; of two entries with one key in two leaves the descent reaches only the right one, so that a tree with duplicates is no map from keys to tuples.
- BTree.Index.InsertAll: the same.
- BTree.Index.InsertRecursive: the same.
- BTree.Index.LeafInsert: the same.
- BTree.Index.SplitLeaf: the same.
- BTree.Index.Lookup: search keys of the tree's own length.
- BTree.Index.RangeScan: a start key of the tree's own length.
- B+ tree keys are the big-endian numbers of byte strings; deletion does not exist in the source. The meta page, page flags, sibling links in the special space and reopening are left out.
- BufferPool.Pool.UnpinPage: a changed page is marked dirty no later than at its last unpin, as callers must; without that the change lasts until the page is evicted.
- Buffer pool pages are values of any type; checksums and the log sequence number are left out.
- JsonRoundTrip.RoundTripIff: a float is the text it is printed as, since printing and reading one is library code; the text is a numeral, and without a point one of 64 bits.
- JsonRoundTrip.ParseOfFormat: the same.
- Gin.TextTokens: texts of ASCII characters. Saving and loading the index is left out.
- HnswIndex.Index.Insert: the drawn level is a parameter; that older nodes stay reachable is not claimed, since pruning may cut them off.
- HNSW serialization and recall are left out; a heap is the set of its node indexes, and ties may pop either way.
- Columnar.ColumnarStore.AddRow: rows have a value for every column; after a shorter row the columns differ in length, and building maps goes out of bounds.
- Columnar.ColumnarStore.InsertRows: the same; run counts do not overflow. Columns are values of the store rather than objects of their own.
- Vectorized.QueryBatch: the clause's column is given by its place in the schema. The aggregates and the grouping themselves are left out: they are functions of the batch.
- HashJoin.InnerJoin: the printing of keys is injective and the hash any function. Outer joins are left out.
- Spill.ReadOfWrite: for rows whose counts and lengths fit 32 bits and whose texts are UTF-8.
- MVCC tuple headers are the two ids; recovery, vacuum, the lock manager and full serializability are left out.
- Dictionary and delta columns, the free-space map, two-phase commit, the shard router, SQL parsing and planning, the wire protocol: easier than what is here, or plumbing.
