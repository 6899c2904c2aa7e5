# LiteDB, modelled and proved in Dafny

Models of LiteDB's replication, transaction and storage algorithms, and proofs of what they promise. Each model follows one
of the source's files: pure code as functions, code that changes things in place as classes and methods with loops, each
proved against functions on values about which the results are then shown.

- **Raft** (`RaftNode`, `RaftCluster`, `RaftInvariant`, `RaftMonotone`, `RaftHistory`, `RaftSteps`, `RaftReplication`,
  `RaftSafety`, `RaftProgress`, `RaftStall`, `RaftGroup`): a replica's handlers as functions; a cluster as a step system with lost, repeated, late and
  reordered messages, crashes between and within the writes to disk; an invariant over the history of terms; and the class
  whose methods do the same in place. Three departures from the Raft paper are in the model: a candidate that steps down in
  its own term forgets its vote, a follower acknowledges its whole log, and its commit index is cut at its log's length.
- **Shards and two-phase commit** (`Commands`, `ShardStore`, `ShardGroup`, `TwoPhase`, `Coordinator`): the state machine behind
  a shard's log; a shard whose leader checks a write for conflicts before proposing it, on top of the Raft step system;
  transactions over several shards with a coordinator that may crash at any moment; and the coordinator's methods, shown to
  take only steps of that system.
- **B+ tree** (`SortedEntries`, `TreeShape`, `BPlusTree`): linked nodes on the heap, changed in place, with a ghost tree that
  says what they hold. Keys are real numbers, into which every countable total order can be put.
- **LSM engine** (`KeyOrder`, `SSTable`, `Wal`, `Recovery`, `MemTable`, `LsmEngine`, `LsmSession`): bytes, Bloom filter bits,
  sparse index, log frames, replay, flush and compaction, which together stand for one map. A log file may be any bytes.
- **MVCC** (`VersionKeys`, `Snapshots`, `VersionScans`, `Mvcc`): version keys in byte order, histories as a step system, what
  scans of physical keys make of them, and the engine, for any keys.
- **JSON** (`Json`, `JsonText`, `JsonIo`): printing and parsing as functions; the texts of a value as sections 2 to 7 of RFC 8259
  define them; and the buffer and the cursor that print and parse.
- **Consistent hashing** (`Ring`, `Sharding`): the ring with its sorted list and dictionary, and the store that moves keys when
  nodes come and go.
- **SQL layer** (`RowKeys`, `TypeCodec`, `Relations`, `RelationalEngine`): definitions, rows and index entries as keys of one
  sorted store; plans with and without an index.
- `Seqs` holds facts about sequences.

`dafny verify dfyconfig.toml` checks everything.

## Model

| member | source | states |
|---|---|---|
| `RaftSafety.StateMachineSafety` | litedb-python/raft_node.py:496-511 | in every run with crashes and lost, repeated, late or reordered messages, no two replicas, in any incarnation, hand different commands to their state machines at the same index |
| `RaftSafety.ElectionSafety` | litedb-python/raft_node.py:267-301 | leaders of the same term, met at any two moments of a run, are one replica, although a candidate that steps down in its own term forgets its vote; and its log only grew in between |
| `RaftSafety.LogsMatch` | litedb-python/raft_node.py:433-490 | in every reachable state two logs that agree on the term at an index are equal up to that index |
| `RaftSafety.LaterLeadersHoldCommitted` | litedb-python/raft_node.py:331-365 | what was committed at any moment is a first part of the log of every later leader |
| `RaftSafety.SoundAcknowledgement` | litedb-python/raft_node.py:485-490 | a follower that answers success names the length of its whole log, and all of that log is in the log of the leader of that term whenever that leader is met later |
| `RaftSafety.AcknowledgedLog` | litedb-python/raft_node.py:433-490 | the same for one step, against the log the leader of the term had |
| `RaftSafety.ReadyLeaderIsCaughtUp` | litedb-python/raft_node.py:567-572 | a leader that has applied an entry of its own term has applied everything committed in earlier terms |
| `RaftSafety.ReadyHoldsCommitted` | litedb-python/raft_node.py:567-572 | the same for any state that satisfies the invariant |
| `RaftSafety.StepHolds` | litedb-python/raft_node.py:175-532 | every step of the system keeps the invariant, and the history, the voters and what was applied only grow |
| `RaftSafety.RunHolds` | litedb-python/raft_node.py:175-511 | the invariant holds at every moment of every run, and between two moments nothing recorded is lost |
| `RaftSafety.EverythingApplied` | litedb-python/raft_node.py:496-511 | at every moment of every run each replica has handed over every entry up to its applied index, none left out |
| `RaftSafety.ProposalApplied` | litedb-python/raft_node.py:523-532 | a command that was answered with an index is what the leader hands over at that index, once it has applied that far in the same term |
| `RaftProgress.MajorityCanApply` | litedb-python/raft_node.py:207-511 | every run of a group of at least two replicas can be continued, by steps of any majority alone, so that all of this majority hand a given command to their state machines at the same index |
| `RaftProgress.CanElect` | litedb-python/raft_node.py:219-365 | from every state with the invariant any majority can get one of its own elected, whatever terms, votes and logs its replicas have |
| `RaftProgress.ElectFavoured` | litedb-python/raft_node.py:219-365 | a follower whose term and log nobody in the majority is ahead of is elected through pre-votes and votes, without a crash |
| `RaftProgress.SyncOne` | litedb-python/raft_node.py:381-490 | round by round the leader finds where a follower's log parts from its own, and the follower ends up with the leader's log; once a majority has, all of it is committed |
| `RaftProgress.AlwaysHanded` | litedb-python/raft_node.py:421-511 | at every moment of every run a replica has applied all it knows to be committed |
| `RaftProgress.AloneNeverLeads` | litedb-python/raft_node.py:267-301 | an input: in a group of one replica nobody ever leads, because only the answer to a vote call makes a leader |
| `RaftProgress.LeaderIff` | litedb-python/raft_node.py:267-301 | a group can get a leader if and only if it has at least two replicas |
| `RaftStall.SplitVote` | litedb-python/raft_node.py:219-301 | an input: two replicas whose timers fire before either hears from the other both campaign in term 1, and no continuation without a crash has a leader |
| `RaftStall.ElectableIff` | litedb-python/raft_node.py:248-301 | in a group of at least two whose replicas are in one term with equally recent logs, a leader can come about without a crash if and only if not all are candidates |
| `RaftStall.ContestLasts` | litedb-python/raft_node.py:219-365 | replicas that all campaign in one term do so until one of them crashes |
| `RaftNode.AppliedBetweenIs` | litedb-python/raft_node.py:496-503 | the hand-over is entry by entry what the log holds between the two indexes |
| `RaftNode.ProposeAnswers` | litedb-python/raft_node.py:523-532 | a leader answers with the place of the new entry, which carries the command and the term, and its log up to there is as it was; nobody else takes the command |
| `RaftHistory.QuorumsMeet` | litedb-python/raft_node.py:303-305 | two majorities of the same voters share a voter |
| `RaftHistory.LeaderCompleteness` | litedb-python/raft_node.py:331-365 | by induction over terms: every leader elected after a term holds what was committed in it |
| `RaftHistory.FirstOfItsTerm` | litedb-python/raft_node.py:287-301 | a candidate with a majority of votes is the first leader of its term |
| `RaftHistory.HistElect` | litedb-python/raft_node.py:185-201 | an election keeps the history: the no-op of the new leader extends a log that holds everything committed |
| `RaftHistory.CommittedAgree` | litedb-python/raft_node.py:421-431 | two committed first parts agree as far as both reach |
| `RaftReplication.LogMatching` | litedb-python/raft_node.py:450-475 | logs made of pieces of leaders' logs agree up to any index where their terms agree |
| `RaftReplication.MergeLog` | litedb-python/raft_node.py:461-475 | merging received entries one by one leaves a log that is made of pieces of leaders' logs and begins with what the leader sent |
| `RaftReplication.WholeLogFromLeader` | litedb-python/raft_node.py:489-490 | after a successful append the whole log is the leader's, because the last entry sent is of the leader's own term |
| `RaftReplication.HoldersCommit` | litedb-python/raft_node.py:421-431 | an index that a majority holds in the leader's own term is committed |
| `RaftReplication.TornAppendStep` | litedb-python/raft_node.py:134-155 | a crash after the term was saved, after any number of the received entries were written, or after a conflicting entry was cut off keeps the invariant |
| `RaftReplication.RecvAppendStep` | litedb-python/raft_node.py:433-490 | receiving an append request, accepted or refused, keeps the invariant |
| `RaftReplication.AppendReplyStep` | litedb-python/raft_node.py:405-419 | an answer in the term of its request, or with a newer term, keeps the invariant |
| `RaftReplication.SendAppendStep` | litedb-python/raft_node.py:381-402 | what the leader sends is part of its log |
| `RaftReplication.ProposeStep` | litedb-python/raft_node.py:523-532 | a proposal extends the leader's own log |
| `RaftSteps.RecvVoteStep` | litedb-python/raft_node.py:331-365 | a vote, granted or refused, keeps the invariant |
| `RaftSteps.VoteReplyStep` | litedb-python/raft_node.py:287-301 | counting a vote, and winning the election with it, keeps the invariant |
| `RaftSteps.PreVoteReplyStep` | litedb-python/raft_node.py:248-265 | counting a pre-vote, and campaigning with it, keeps the invariant |
| `RaftSteps.TimeoutStep` | litedb-python/raft_node.py:219-246 | an election timeout keeps the invariant |
| `RaftGroup.RaftGroup.constructor` | litedb-python/raft_node.py:112-124 | a restarted replica has its term, vote and log back and everything else reset |
| `RaftGroup.RaftGroup.BecomeFollower` | litedb-python/raft_node.py:175-183 | in place what the step system does: term adopted, vote forgotten |
| `RaftGroup.RaftGroup.BecomeLeader` | litedb-python/raft_node.py:185-201 | progress of every peer reset and the no-op appended, as the step system says |
| `RaftGroup.RaftGroup.StartPreElection` | litedb-python/raft_node.py:219-246 | in place what a timeout does in the step system |
| `RaftGroup.RaftGroup.StartElection` | litedb-python/raft_node.py:267-285 | in place what a campaign does in the step system |
| `RaftGroup.RaftGroup.OnPreVoteReply` | litedb-python/raft_node.py:248-265 | in place what a pre-vote answer does |
| `RaftGroup.RaftGroup.OnVoteReply` | litedb-python/raft_node.py:287-301 | in place what a vote does, the change to leader included |
| `RaftGroup.RaftGroup.HandleVote` | litedb-python/raft_node.py:331-365 | the answer and the new state are those of the step system |
| `RaftGroup.RaftGroup.ReplicateTo` | litedb-python/raft_node.py:381-402 | the request sent is the one of the step system |
| `RaftGroup.RaftGroup.OnAppendReply` | litedb-python/raft_node.py:405-419 | progress and commit index move as in the step system |
| `RaftGroup.RaftGroup.CountHolders` | litedb-python/raft_node.py:421-427 | the number counted is the size of the set of voters known to hold the index |
| `RaftGroup.RaftGroup.AdvanceCommit` | litedb-python/raft_node.py:421-431 | the loop from the end of the log finds the highest index that may be committed |
| `RaftGroup.RaftGroup.HandleAppend` | litedb-python/raft_node.py:433-490 | the answer and the new state are those of the step system, and all commands up to the applied index have been handed over |
| `RaftGroup.RaftGroup.AppendEntries` | litedb-python/raft_node.py:461-475 | the loop over received entries leaves the merged log |
| `RaftGroup.RaftGroup.ApplyCommitted` | litedb-python/raft_node.py:496-511 | what has been handed over are the first commands of the log, up to the commit index, one by one and in order |
| `RaftGroup.RaftGroup.Propose` | litedb-python/raft_node.py:523-532 | the index answered is the place of the new entry, which has the command and the term, and everything before it is the old log |
| `ShardGroup.KeyExclusion` | litedb-python/shard_replica.py:88-119 | of two granted writes to a key, the later one in the log comes after an entry that ended the earlier transaction or made it give up the key, however often leadership moved in between; and a commit in between is in the later one's snapshot |
| `ShardGroup.UnresolvedDisjoint` | litedb-python/shard_replica.py:101-119 | if a transaction always prepares the same writes, it has been committed or aborted before another one is granted one of its keys |
| `ShardGroup.FirstWriterWins` | litedb-python/shard_replica.py:67-97 | a granted single-shard write is in the snapshot of every granted write to one of its keys that comes later in the log, across leader changes |
| `ShardGroup.GrantedIsRead` | litedb-python/shard_replica.py:67-97 | a granted single-shard write is read back on every replica that has applied its index, at its timestamp or later, until the key gets another version |
| `ShardGroup.GrantedInLog` | litedb-python/shard_replica.py:67-97 | every replica that has applied the index of a granted write has that write there |
| `ShardGroup.EventKeeps` | litedb-python/shard_replica.py:67-135 | every event of a shard keeps the invariant that ties granted calls to the committed log |
| `ShardGroup.CheckedAfter` | litedb-python/raft_node.py:567-572 | what a ready leader checked a write against had every earlier granted write applied |
| `ShardGroup.LeadersStay` | litedb-python/raft_node.py:185-201 | after a step a leader either led its term before or leads a term nobody had led |
| `ShardStore.RestartConverges` | litedb-python/shard_store.py:48-111 | re-applying a log from its first entry over a store that had applied any first part of it gives exactly the store of a run from scratch, if no transaction appears first with its commit |
| `ShardStore.RestartConvergesIff` | litedb-python/shard_store.py:48-111 | the exact condition: restarts over a log and any prepares after it converge, from every point and every reopened store, just when no transaction of the log appears first with its commit |
| `ShardStore.RestartKeepsIntents` | litedb-python/shard_store.py:48-111 | for any log, the intents after such a replay are those of a run from scratch |
| `ShardStore.CommitFirstDiverges` | litedb-python/shard_store.py:80-97 | a commit before its prepare makes a replay differ from a run from scratch |
| `ShardStore.ApplyCoherent` | litedb-python/shard_store.py:65-111 | every command keeps the cached intents equal to the stored ones, and no version newer than the newest timestamp |
| `ShardStore.VersionsStay` | litedb-python/shard_store.py:65-111 | versions and the newest timestamp only grow along a log |
| `ShardStore.LiveStore.constructor` | litedb-python/shard_store.py:35-63 | the loops over a reopened engine rebuild the intents and the newest timestamp |
| `ShardStore.LiveStore.ApplyCommand` | litedb-python/shard_store.py:65-111 | the state changed in place is the one of the replay function, whose versions, intents and newest timestamp are described by `ShardStore.VersionIs`, `ShardStore.PendingIs` and `ShardStore.SnapshotTsIs` |
| `ShardStore.VersionIs` | litedb-python/shard_store.py:65-111 | after any log a key has a version at a timestamp if and only if a single-shard write or the commit of a prepared transaction wrote it there, and its value is that of the last such write |
| `ShardStore.PendingIs` | litedb-python/shard_store.py:65-111 | after any log a transaction has an intent if and only if the last entry about it is a prepare, and the intent is the one of that entry |
| `ShardStore.SnapshotTsIs` | litedb-python/shard_store.py:113-115 | after any log the newest timestamp is the greatest of those that entries brought |
| `ShardStore.WrittenIsRead` | litedb-python/shard_store.py:129-134 | what a single-shard write or a committed transaction wrote is what reads at or after its timestamp return, until the key gets another version |
| `ShardStore.PutIsRead` | litedb-python/shard_store.py:99-108 | the same for a single-shard write by itself |
| `ShardStore.UpToDateIsClear` | litedb-python/shard_replica.py:88-99 | a write over an up-to-date snapshot to keys that nobody else holds is never refused |
| `ShardStore.LiveStore.Read` | litedb-python/shard_store.py:129-134 | the value of the newest version at or before the timestamp, nothing if that is a deletion or there is none |
| `ShardStore.LiveStore.NewestCommittedTs` | litedb-python/shard_store.py:153-156 | the greatest timestamp of a version of the key, or 0 |
| `ShardStore.LiveStore.CheckConflicts` | litedb-python/shard_replica.py:88-99 | a conflict is answered if and only if one of the keys has a version newer than the snapshot or is held by another transaction |
| `ShardStore.LiveStore.WriteVersions` | litedb-python/shard_store.py:84-108 | the loop writes one version per write, the last write to a key winning |
| `ShardStore.LiveStore.IntentLocking` | litedb-python/shard_store.py:117-127 | the loop finds a transaction other than the excluded one that holds the key if and only if there is one |
| `TwoPhase.Atomicity` | litedb-python/node.py:431-496 | at no two moments of any run is a transaction committed on one shard and aborted on another |
| `TwoPhase.CommitPointIsPrepared` | litedb-python/node.py:458-465 | once the commit decision is recorded every participant's log holds its prepare |
| `TwoPhase.RemovedIsResolved` | litedb-python/node.py:478-496 | a record is gone only once every participant's log holds the decision, the same one on all |
| `TwoPhase.CommitsFollowPrepares` | litedb-python/shard_store.py:80-97 | in every shard log a commit comes after its prepare, which is what replay after a restart needs |
| `TwoPhase.CommittedIsVisible` | litedb-python/shard_store.py:80-97 | the writes of a committed transaction are there as versions at its timestamp, with the value of its last write to each key, as long as nobody else writes the key at the same timestamp |
| `TwoPhase.StepKeeps` | litedb-python/node.py:271-285 | every step, crashes and repeated messages included, keeps the invariant and loses nothing recorded |
| `TwoPhase.RunHolds` | litedb-python/node.py:255-285 | the invariant holds at every moment of every run |
| `Coordinator.Coordinator.constructor` | litedb-python/node.py:255-285 | a coordinator that starts over any records a crash left is in a state of the step system in which no request runs |
| `Coordinator.Coordinator.CoordinateTwoPhase` | litedb-python/node.py:431-470 | the method takes only steps of the step system; the answer is yes if and only if every participant has a leader and voted yes; the record left says the decision, or is gone if all acknowledged |
| `Coordinator.Coordinator.PreparePhase` | litedb-python/node.py:444-457 | the loop stops at the first no; a prepare may have been logged without a yes |
| `Coordinator.Coordinator.Finish` | litedb-python/node.py:456-470 | the decision is recorded before any participant is told |
| `Coordinator.Coordinator.DriveTxn` | litedb-python/node.py:478-496 | the record is removed if and only if every participant acknowledged |
| `Coordinator.Coordinator.SweepRecord` | litedb-python/node.py:271-285 | an undecided record becomes an abort, a decided one is driven again with the same decision |
| `Coordinator.Coordinator.Sweep` | litedb-python/node.py:271-285 | after a sweep over all leftover records every transaction is decided, committed exactly if it was committing, and a record stays exactly where an acknowledgement is missing |
| `BPlusTree.BPlusTree.constructor` | litedb-java/src/main/java/com/litedb/btree/BPlusTree.java:75-83 | the empty tree stands for the empty map |
| `BPlusTree.BPlusTree.Insert` | litedb-java/src/main/java/com/litedb/btree/BPlusTree.java:85-96 | the tree stands for the map with the key set; size counts its entries; order, balance, filling and the leaf list are kept |
| `BPlusTree.BPlusTree.Delete` | litedb-java/src/main/java/com/litedb/btree/BPlusTree.java:102-112 | the tree stands for the map without the key; the answer says whether it was there; every node but the root keeps at least ORDER keys through borrows, merges and root collapse |
| `BPlusTree.BPlusTree.Get` | litedb-java/src/main/java/com/litedb/btree/BPlusTree.java:98-100 | the map's value |
| `BPlusTree.BPlusTree.Range` | litedb-java/src/main/java/com/litedb/btree/BPlusTree.java:115-131 | exactly the map's entries from lo to hi, in order |
| `BPlusTree.BPlusTree.ScanFrom` | litedb-java/src/main/java/com/litedb/btree/BPlusTree.java:119-129 | walking the next pointers from a leaf yields the entries from there on, up to hi |
| `BPlusTree.BPlusTree.InsertRecursive` | litedb-java/src/main/java/com/litedb/btree/BPlusTree.java:149-181 | the subtree has become one subtree or two with a separator that hold the key as well, within the same bounds and leaf neighbours |
| `BPlusTree.BPlusTree.SplitIfFull` | litedb-java/src/main/java/com/litedb/btree/BPlusTree.java:170-180 | a node is split only if its child was split and it has become too full |
| `BPlusTree.BPlusTree.SplitLeaf` | litedb-java/src/main/java/com/litedb/btree/BPlusTree.java:184-200 | the halves hold the leaf's entries and are linked in its place in both directions |
| `BPlusTree.BPlusTree.SplitInternal` | litedb-java/src/main/java/com/litedb/btree/BPlusTree.java:202-214 | the halves and the promoted separator hold the node's entries, each with at least ORDER keys |
| `BPlusTree.BPlusTree.DeleteRecursive` | litedb-java/src/main/java/com/litedb/btree/BPlusTree.java:240-261 | the subtree holds its entries without the key, within the same bounds and leaf neighbours |
| `BPlusTree.BPlusTree.RebalanceLeaf` | litedb-java/src/main/java/com/litedb/btree/BPlusTree.java:263-303 | a leaf one key short is mended by a borrow or a merge, and the leaf list with it |
| `BPlusTree.BPlusTree.RebalanceInternal` | litedb-java/src/main/java/com/litedb/btree/BPlusTree.java:305-325 | an internal node one key short is mended by a merge |
| `BPlusTree.BPlusTree.ShiftLeft` | litedb-java/src/main/java/com/litedb/btree/BPlusTree.java:266-275 | one entry moves to the end of the leaf on the left and nothing else changes |
| `BPlusTree.BPlusTree.ShiftRight` | litedb-java/src/main/java/com/litedb/btree/BPlusTree.java:277-285 | one entry moves to the front of the leaf on the right and nothing else changes |
| `BPlusTree.BPlusTree.MergeLeaves` | litedb-java/src/main/java/com/litedb/btree/BPlusTree.java:287-303 | the merged leaf holds both leaves' entries and takes their place in the leaf list |
| `BPlusTree.BPlusTree.MergeInternals` | litedb-java/src/main/java/com/litedb/btree/BPlusTree.java:305-325 | the merged node holds both nodes' children with the old separator between them |
| `BPlusTree.BPlusTree.CollapseRoot` | litedb-java/src/main/java/com/litedb/btree/BPlusTree.java:106-110 | an internal root without a separator gives way to its only child and the map is the same |
| `BPlusTree.SearchLeaf` | litedb-java/src/main/java/com/litedb/btree/BPlusTree.java:220-228 | the descent finds the value of the map the subtree stands for |
| `BPlusTree.FindLeaf` | litedb-java/src/main/java/com/litedb/btree/BPlusTree.java:230-234 | the descent finds the leaf whose bounds hold the key |
| `BPlusTree.FindChildIndex` | litedb-java/src/main/java/com/litedb/btree/BPlusTree.java:333-338 | the child whose bounds hold the key |
| `TreeShape.FormedSorted` | litedb-java/src/main/java/com/litedb/btree/BPlusTree.java:43-60 | the entries of a well formed tree ascend |
| `TreeShape.SplicedSubtree` | litedb-java/src/main/java/com/litedb/btree/BPlusTree.java:165-180 | replacing a run of children by others within the same bounds gives a subtree again |
| `SortedEntries.PutIsUpdate` | litedb-java/src/main/java/com/litedb/btree/BPlusTree.java:85-96 | setting a key among sorted entries is the update of the map they stand for |
| `SortedEntries.WithoutIsRemove` | litedb-java/src/main/java/com/litedb/btree/BPlusTree.java:102-112 | removing a key from sorted entries removes it from the map and lowers their number exactly if it was there |
| `SortedEntries.BetweenIsRange` | litedb-java/src/main/java/com/litedb/btree/BPlusTree.java:115-131 | the entries between two keys are exactly the map's entries in that range |
| `LsmEngine.LsmEngine.constructor` | litedb-python/lsm_engine.py:383-439 | over any bytes a crash left as the log: the engine stands for the tables with what the readable part of the log replays to; it is durable exactly if the file is whole frames and does not end inside a batch |
| `LsmEngine.LsmEngine.Get` | litedb-python/lsm_engine.py:179-204 | the value of the one map |
| `LsmEngine.LsmEngine.Scan` | litedb-python/lsm_engine.py:206-246 | exactly the live entries in range, in order, each with its newest value |
| `LsmEngine.LsmEngine.Set` | litedb-python/lsm_engine.py:107-122 | the map with the key set; it fails, and changes nothing, exactly if the line does not fit a log frame; a durable engine stays durable, and a crash leaves what it might have left before, or everything |
| `LsmEngine.LsmEngine.Delete` | litedb-python/lsm_engine.py:124-136 | the map without the key, with the same failure case |
| `LsmEngine.LsmEngine.WriteBatch` | litedb-python/lsm_engine.py:141-163 | the map with all writes applied in order, or unchanged; on failure the log is left inside a batch unless the BEGIN did not fit |
| `LsmEngine.LsmEngine.LogBatch` | litedb-python/lsm_engine.py:147-154 | what got into the log before the first line that did not fit |
| `LsmEngine.LsmEngine.FlushMemtable` | litedb-python/lsm_engine.py:252-290 | the map is the same, and the log empty: afterwards the engine is durable whatever state the log was in |
| `LsmEngine.LsmEngine.Flush` | litedb-python/lsm_engine.py:450-456 | the same at once, for what fits a table |
| `LsmEngine.LsmEngine.CompactL0ToL1` | litedb-python/lsm_engine.py:296-377 | the map is the same with all tables merged into one without tombstones |
| `LsmEngine.LsmEngine.MergeTables` | litedb-python/lsm_engine.py:318-343 | the merged table holds the live entries of all tables, the newest for each key |
| `LsmEngine.LsmEngine.Recover` | litedb-python/lsm_engine.py:404-439 | the loop leaves what the replay function says: a batch takes effect at its COMMIT |
| `LsmEngine.LsmEngine.Restart` | litedb-python/lsm_engine.py:383-439 | a new engine over the files of a durable one stands for the same map |
| `LsmEngine.LsmEngine.CrashAndRestart` | litedb-python/lsm_engine.py:383-439 | over any first part of the log file the new engine stands for the tables and some first operations since the last flush, each of them whole |
| `LsmEngine.GetLevel` | litedb-python/lsm_engine.py:192-202 | looking from the newest table to the oldest finds the value of the stacked map |
| `LsmEngine.MergeInto` | litedb-python/lsm_engine.py:233-240 | keeping the lowest priority per key lets the newest source win |
| `LsmEngine.LiveBelow` | litedb-python/lsm_engine.py:333-337 | dropping the tombstones of everything below changes nothing a reader sees |
| `LsmEngine.StackCompacted` | litedb-python/lsm_engine.py:345-370 | one run without tombstones in place of all tables shows a reader the same map |
| `LsmSession.Session` | litedb-python/lsm_engine.py:107-163 | a session of a write, a batch, a deletion and a restart over a payload format that is written out reads what it wrote |
| `LsmSession.CrashSession` | litedb-python/lsm_engine.py:383-439 | the same session with a crash that leaves any first part of the log: the reads see its first operations, and never half of the batch |
| `LsmSession.CodecSound` | litedb-python/wal.py:109-118 | there is a payload format that meets what the log asks of one |
| `MemTable.MemTable.Set` | litedb-python/memtable.py:63-72 | the dictionary with the key set, and the running count still the weight of its entries |
| `MemTable.MemTable.Delete` | litedb-python/memtable.py:74-90 | the dictionary with a tombstone, and the count with it |
| `MemTable.MemTable.Get` | litedb-python/memtable.py:92-101 | the stored value, a tombstone included |
| `MemTable.MemTable.Scan` | litedb-python/memtable.py:103-116 | exactly the entries in range, in order |
| `MemTable.MemTable.ItemsSorted` | litedb-python/memtable.py:118-128 | exactly the entries, in order |
| `MemTable.MemTable.Clear` | litedb-python/memtable.py:141-149 | empty, with a count of zero |
| `SSTable.BloomFilter.Add` | litedb-python/sstable.py:80-84 | afterwards the filter covers the key and every key it covered before |
| `SSTable.MightContain` | litedb-python/sstable.py:86-92 | yes if and only if all bits of the key are set, so never no for a key that was added |
| `SSTable.Write` | litedb-python/sstable.py:116-169 | the file, the sparse index and the filter hold the sorted entries; it fails exactly if a key or value does not fit its length field |
| `SSTable.Get` | litedb-python/sstable.py:219-251 | through the filter, the index and the bytes: the value of the entries' map |
| `SSTable.Scan` | litedb-python/sstable.py:253-277 | exactly the entries in range |
| `SSTable.IterAll` | litedb-python/sstable.py:295-303 | all entries back |
| `SSTable.NetworkOrder` | litedb-python/sstable.py:135-145 | length fields hold their number to base 256, the most significant byte first |
| `SSTable.ReadBack` | litedb-python/sstable.py:279-293 | reading where an entry was written gives that entry, whatever follows |
| `Wal.TornPrefix` | litedb-python/wal.py:124-166 | reading any first part of a log file yields exactly the records whose frames survived whole |
| `Wal.ParseFrames` | litedb-python/wal.py:124-166 | a file written to its end is read to its end |
| `Wal.AppendAfterCrash` | litedb-python/wal.py:77-118 | what is appended behind a crash is read back if the crash cut at the end of a frame; behind a torn frame none of it is, unless the mixture passes the checksum |
| `Wal.TornHides` | litedb-python/wal.py:124-166 | an input: one byte of a frame, then whole frames, reads as nothing |
| `Wal.WriteAheadLog.constructor` | litedb-python/wal.py:77-91 | over any bytes: the next number is one after the highest that can be read, or 0 |
| `Wal.WriteAheadLog.Append` | litedb-python/wal.py:97-118 | the file grows by the record's frame; it fails after using up the number exactly if the payload is too long; a clean file stays clean |
| `Wal.WriteAheadLog.ReadAll` | litedb-python/wal.py:124-166 | the loop reads what the parse function says |
| `Wal.WriteAheadLog.Truncate` | litedb-python/wal.py:168-177 | an empty clean file |
| `Recovery.TornRecovery` | litedb-python/lsm_engine.py:404-433 | whatever first part of the log file survives, recovery gives the state after some first operations, each whole, and these are all whose bytes survived |
| `Recovery.ReplayAll` | litedb-python/lsm_engine.py:404-433 | replaying a whole log gives the state after all its operations |
| `Recovery.ReplayPart` | litedb-python/lsm_engine.py:404-433 | replaying any first lines gives the state after exactly the operations that are whole in them |
| `Recovery.WritesAfterCrash` | litedb-python/lsm_engine.py:404-433 | what is written after a crash survives the next restart if and only if the crash cut at the end of a frame and the write is a batch or the log does not end inside one (or it changes nothing) |
| `Recovery.LostBehindBegin` | litedb-python/lsm_engine.py:404-433 | an input: behind a BEGIN left by a crash a single write is lost |
| `Recovery.LostBehindTorn` | litedb-python/wal.py:124-166 | an input: behind a torn frame everything is lost, batches included |
| `VersionKeys.HexOrder` | litedb-python/mvcc.py:54-56 | fixed-width hexadecimal keeps the order of numbers |
| `VersionKeys.VersionOrder` | litedb-python/mvcc.py:54-56 | versions of a key come newest first |
| `VersionKeys.Decoded` | litedb-python/mvcc.py:58-63 | a version key says which version it is of which key |
| `VersionKeys.ReadRange` | litedb-python/mvcc.py:82-87 | the range a point read asks for holds exactly the versions of the key at or before the timestamp, unless a clashing key is stored |
| `VersionKeys.CheckRange` | litedb-python/mvcc.py:108-111 | the range of the conflict check holds a version of another key if and only if that key runs on from it by a NUL and a tail below the upper end |
| `VersionKeys.KeysDecide` | litedb-python/mvcc.py:54-63 | physical keys sort as user keys do, if neither runs on from the other |
| `VersionKeys.SplitExact` | litedb-python/mvcc.py:54-63 | versions of one key stand between two of another if and only if it runs on by a NUL and a tail between the digits of the newest and the oldest version |
| `VersionKeys.BoundsExact` | litedb-python/mvcc.py:89-91 | all versions of a key are where a scan with given bounds expects them if and only if no bound that runs on from the key by a NUL parts them |
| `VersionKeys.ClashExact` | litedb-python/mvcc.py:54-63 | another key has versions among those of a key if and only if it runs on from it by a NUL and a tail that sorts among the digits |
| `VersionKeys.NulKeysMix` | litedb-python/mvcc.py:10-11 | an input: the key "a", a NUL and "5" has its versions among those of the key "a" |
| `VersionScans.ReadRightIff` | litedb-python/mvcc.py:82-87 | point reads of a key are right over all histories of a set of keys if and only if none of the others clashes with it |
| `VersionScans.CheckRightIff` | litedb-python/mvcc.py:108-111 | the conflict check of a key is right over all histories of a set of keys if and only if none of the others runs on from it |
| `VersionScans.CheckMisses` | litedb-python/mvcc.py:108-111 | an input: with "a" and a NUL committed at 1 and "a" at 2 the check of "a" finds 1 |
| `VersionScans.ScanRightIff` | litedb-python/mvcc.py:89-106 | scans with given bounds are right over all histories of a set of keys if and only if the bounds part no key's versions and no key splits one in range |
| `VersionScans.ScansGoWrong` | litedb-python/mvcc.py:89-106 | two inputs: a lower bound that runs on from a key, and a key that splits another |
| `VersionScans.ScanSorted` | litedb-python/mvcc.py:89-106 | the result is sorted as it stands if no key runs on from another |
| `VersionScans.Resolve` | litedb-python/mvcc.py:90-106 | the loop, for any entries: of each run of rows of one key the first that is old enough, unless it is a deletion |
| `VersionScans.Garbage` | litedb-python/mvcc.py:129-146 | the loop, for any entries: the physical keys of all old enough rows but the first of each run |
| `VersionScans.GarbageIsVacuum` | litedb-python/mvcc.py:129-147 | whatever the keys, only versions go that no snapshot at or after the mark can see |
| `VersionScans.SweepsAllIff` | litedb-python/mvcc.py:129-147 | all of them go, over all histories of a set of keys, if and only if the keys sort before U+10FFFF and none splits another |
| `VersionScans.RecoverRightIff` | litedb-python/mvcc.py:152-158 | the newest timestamp is found again over all histories of a set of keys if and only if they sort before U+10FFFF |
| `VersionScans.RecoverMisses` | litedb-python/mvcc.py:152-158 | an input: the key U+10FFFF committed at 1 is not seen, so timestamps start again at 1 |
| `Mvcc.MVCCEngine.constructor` | litedb-python/mvcc.py:66-73 | timestamps go on from the newest one of a key below U+10FFFF, which is a restart of the history if there are no others |
| `Mvcc.MVCCEngine.Read` | litedb-python/mvcc.py:82-87 | the first entry of the key's range: what the snapshot shows of the key, if no stored key clashes with it |
| `Mvcc.MVCCEngine.Scan` | litedb-python/mvcc.py:89-106 | one pass over the range, for any keys; if bounds and keys fit, one live version per key from lo up to the extensions of hi, the newest at or before the timestamp |
| `Mvcc.MVCCEngine.NewestCommittedTs` | litedb-python/mvcc.py:108-111 | the timestamp of the first entry of the range; if no key runs on from it, the newest one of the key, or 0 |
| `Mvcc.MVCCEngine.Commit` | litedb-python/mvcc.py:115-127 | all writes at the next timestamp, or none if the check finds a newer version; if no stored key runs on from one written, the step of the history, which keeps its invariant |
| `Mvcc.MVCCEngine.HasConflict` | litedb-python/mvcc.py:116-119 | yes if and only if the check finds a version newer than the snapshot; under the same condition, if and only if there is one |
| `Mvcc.MVCCEngine.Vacuum` | litedb-python/mvcc.py:129-147 | a vacuum of the history, for any keys, and the number of entries dropped; exactly the versions no snapshot at or after the mark can see, if the sweep sees all keys whole |
| `Mvcc.MVCCEngine.RecoverMaxTs` | litedb-python/mvcc.py:152-158 | the newest timestamp among keys below U+10FFFF |
| `Mvcc.LostUpdate` | litedb-python/mvcc.py:115-127 | an input: a commit goes through although another transaction committed the key after the snapshot |
| `Mvcc.ScanSeesIff` | litedb-python/mvcc.py:187-198 | a transaction's scan shows of every key in range what the transaction sees of it if and only if its writes beyond hi change nothing |
| `Mvcc.OwnDeleteShown` | litedb-python/mvcc.py:187-198 | an input: a transaction that deletes "ba" and scans from "a" to "b" is shown "ba" |
| `Mvcc.Transaction.Get` | litedb-python/mvcc.py:180-185 | own writes over the snapshot |
| `Mvcc.Transaction.Scan` | litedb-python/mvcc.py:187-198 | sorted; if bounds and keys fit, up to hi what the transaction sees, and beyond hi, among its extensions, the snapshot without own writes |
| `Mvcc.Transaction.Commit` | litedb-python/mvcc.py:208-212 | once: the next timestamp and the step of the history, or nothing on a conflict; afterwards it is over |
| `Mvcc.Transaction.Put` | litedb-python/mvcc.py:200-202 | staged, unless it is over |
| `Mvcc.Transaction.Delete` | litedb-python/mvcc.py:204-206 | staged as a tombstone, unless it is over |
| `Snapshots.SnapshotStability` | litedb-python/mvcc.py:82-147 | a read at a timestamp gives the same answer in every later state, whatever commits and whatever a vacuum up to it removes, over restarts that find a version at or after it |
| `Snapshots.FirstCommitterWins` | litedb-python/mvcc.py:115-127 | of two transactions that wrote the same key the later one's snapshot held the earlier one's commit, in every run with vacuums and restarts |
| `Snapshots.VisibleIs` | litedb-python/mvcc.py:82-87 | a snapshot shows the version that no other at or before it is newer than |
| `Snapshots.ConflictsIff` | litedb-python/mvcc.py:116-119 | a commit conflicts if and only if one of its keys has a version newer than its snapshot |
| `Snapshots.VacuumedIff` | litedb-python/mvcc.py:129-147 | a full vacuum leaves exactly the versions that some snapshot at or after the mark finds newest |
| `Mvcc.SeesAsCommitted` | litedb-python/mvcc.py:180-212 | what a transaction sees of its own writes is what everybody sees once it has committed; of other keys it sees its snapshot |
| `Snapshots.VacuumKeeps` | litedb-python/mvcc.py:129-147 | a vacuum changes nothing for snapshots at or after its mark |
| `Snapshots.CommitKeeps` | litedb-python/mvcc.py:115-127 | a commit changes nothing for earlier snapshots |
| `Snapshots.CommitShows` | litedb-python/mvcc.py:115-127 | a commit shows its writes to snapshots from its timestamp on |
| `JsonText.EncodeIsText` | litedb-java/src/main/java/com/litedb/cluster/Json.java:26-81 | what is printed for a value of null, booleans, 64-bit integers, strings, lists and objects is one of its texts by the grammar of RFC 8259, without white space |
| `JsonText.ValueRead` | litedb-java/src/main/java/com/litedb/cluster/Json.java:92-197 | every text of such a value by that grammar, with any white space, escapes and hexadecimal digits it allows, is parsed as that value, and the parser stops where the text ends |
| `JsonText.MessageRead` | litedb-java/src/main/java/com/litedb/cluster/Json.java:85-90 | the same for a whole message with white space around it |
| `JsonText.OneValue` | litedb-java/src/main/java/com/litedb/cluster/Json.java:85-90 | a text belongs to one value |
| `JsonText.CharsRead` | litedb-java/src/main/java/com/litedb/cluster/Json.java:150-178 | every spelling of a string is read as that string |
| `JsonText.NumeralRead` | litedb-java/src/main/java/com/litedb/cluster/Json.java:180-197 | every numeral of a 64-bit integer is read as that integer |
| `JsonText.RoundTrip` | litedb-java/src/main/java/com/litedb/cluster/Json.java:19-197 | what is printed is parsed back, and the parser stops exactly at its end before any delimiter |
| `JsonText.WireRoundTrip` | litedb-java/src/main/java/com/litedb/cluster/Json.java:19-90 | the same for a whole message |
| `JsonIo.Printer.Write` | litedb-java/src/main/java/com/litedb/cluster/Json.java:26-60 | the buffer grows by one of the value's texts, without white space |
| `JsonIo.Printer.WriteString` | litedb-java/src/main/java/com/litedb/cluster/Json.java:62-81 | the buffer grows by the quoted text |
| `JsonIo.Parser.ParseValue` | litedb-java/src/main/java/com/litedb/cluster/Json.java:102-114 | the cursor parser gives what the parse function gives and stops where it stops, and fails where it fails |
| `JsonIo.Parser.ParseObject` | litedb-java/src/main/java/com/litedb/cluster/Json.java:116-133 | the same for objects, a repeated key keeping its place with the last value |
| `JsonIo.Parser.ParseArray` | litedb-java/src/main/java/com/litedb/cluster/Json.java:135-148 | the same for lists |
| `JsonIo.Parser.String` | litedb-java/src/main/java/com/litedb/cluster/Json.java:150-178 | the same for strings |
| `JsonIo.Parser.ReadEscape` | litedb-java/src/main/java/com/litedb/cluster/Json.java:157-172 | the character an escape stands for |
| `JsonIo.Parser.Number` | litedb-java/src/main/java/com/litedb/cluster/Json.java:180-197 | the same for numbers |
| `JsonIo.Parser.SkipBlanks` | litedb-java/src/main/java/com/litedb/cluster/Json.java:98-100 | the cursor moves over white space |
| `JsonIo.ToText` | litedb-java/src/main/java/com/litedb/cluster/Json.java:19-24 | the message is a text of the value, and parsing it gives the value back |
| `JsonIo.FromText` | litedb-java/src/main/java/com/litedb/cluster/Json.java:85-90 | whichever value the message is a text of, that value is read |
| `Ring.NearestIsNext` | litedb-python/sharding.py:147-157 | the nearest position is the lowest above, or the lowest of all if none is above |
| `Ring.AddMoves` | litedb-python/sharding.py:101-121 | when a node joins, a position's owner stays or becomes the new node, also if positions collide |
| `Ring.RemoveMoves` | litedb-python/sharding.py:123-145 | when a node leaves, no position of another owner changes hands |
| `Ring.AddThenRemove` | litedb-python/sharding.py:101-145 | leaving undoes joining if and only if the node's positions differed from each other and from those in the ring |
| `Ring.LookupsSurvive` | litedb-python/sharding.py:123-157 | after a node has joined and left again every lookup works if and only if its positions were apart |
| `Ring.RemoveUsable` | litedb-python/sharding.py:123-145 | a ring stays usable when a node leaves if and only if no other virtual node was ever put at one of its positions |
| `Ring.AddSound` | litedb-python/sharding.py:101-121 | joining keeps every virtual node at a position of its own if and only if the positions are apart |
| `Ring.RemoveSound` | litedb-python/sharding.py:123-145 | leaving always does |
| `Ring.CollisionExample` | litedb-python/sharding.py:101-145 | an input: two nodes at one position; when the second leaves, the position is in the list without a virtual node |
| `Ring.LastNode` | litedb-python/sharding.py:123-145 | in a sound ring nobody is left exactly if the last node leaves |
| `Ring.ReplicaCount` | litedb-python/sharding.py:159-184 | as many nodes as asked for, or all there are on the walk, if and only if at least one is asked for |
| `Ring.NoneGetsAll` | litedb-python/sharding.py:167-184 | an input: asked for none, a walk over two nodes gives both |
| `Ring.ReplicasComeFirst` | litedb-python/sharding.py:159-184 | each node picked has a virtual node clockwise before all those of any node not picked |
| `Ring.ConsistentHashRing.AddNode` | litedb-python/sharding.py:101-121 | the loop leaves the sorted list, the dictionary and the nodes as the ring function says, collisions included |
| `Ring.ConsistentHashRing.RemoveNode` | litedb-python/sharding.py:123-145 | the same for leaving, with the number of virtual nodes removed |
| `Ring.ConsistentHashRing.GetNode` | litedb-python/sharding.py:147-157 | the owner of the nearest position clockwise, whenever the position has its virtual node, and always if the ring is usable |
| `Ring.ConsistentHashRing.GetNodes` | litedb-python/sharding.py:159-184 | the first distinct nodes met clockwise, as many as asked for if and only if that is at least one |
| `Sharding.ShardedStore.Get` | litedb-python/sharding.py:331-337 | the value of the one map |
| `Sharding.ShardedStore.Set` | litedb-python/sharding.py:321-329 | the map with the key set, in the owner's shard |
| `Sharding.ShardedStore.Delete` | litedb-python/sharding.py:339-348 | the map without the key, and whether it was there |
| `Sharding.ShardedStore.AddNode` | litedb-python/sharding.py:271-296 | the map is the same and each key with its owner; if the node was there already its keys are gone, so the map is the same exactly if the node is new or its shard was empty |
| `Sharding.ShardedStore.RemoveNode` | litedb-python/sharding.py:298-319 | the map is the same, or empty if no virtual node is left; the store stays in order exactly if no other virtual node was ever put at a position of the node, and otherwise only keys of the node can be lost; in a sound ring all keys are lost exactly if the last node leaves |
| `Sharding.AddTwice` | litedb-python/sharding.py:271-278 | an input: a key is gone after its node was added again |
| `Sharding.RemoveLast` | litedb-python/sharding.py:298-319 | an input: a key is gone after the only node was removed |
| `RelationalEngine.RelationalEngine.Select` | litedb-python/relational_engine.py:177-197 | the rows selected, each once, are those the condition means, comparing numbers as numbers and texts by their first difference, whether an index is used or not; with an index and a literal with NUL, those of them that the scan reaches |
| `RelationalEngine.RelationalEngine.BothPlans` | litedb-python/relational_engine.py:186-197 | an index scan and a full scan with the same comparison give the same multiset of rows if and only if the index scan reaches all rows that match, which it does if the literal has no NUL |
| `RelationalEngine.RelationalEngine.IndexScan` | litedb-python/relational_engine.py:246-267 | through byte ranges, the first NUL and the encoded values: exactly the rows that the comparison accepts and the bounds reach, each once |
| `RelationalEngine.RelationalEngine.FullScan` | litedb-python/relational_engine.py:192-196 | exactly the rows the condition accepts, each once |
| `RelationalEngine.RelationalEngine.ScanRows` | litedb-python/relational_engine.py:231-232 | a table's key range holds exactly its rows |
| `RelationalEngine.RelationalEngine.CreateTable` | litedb-python/relational_engine.py:116-122 | the new table is empty, and the store still holds exactly one entry per row and index |
| `RelationalEngine.RelationalEngine.DropTable` | litedb-python/relational_engine.py:124-134 | the table is gone with its rows and indexes and all their keys |
| `RelationalEngine.RelationalEngine.CreateIndex` | litedb-python/relational_engine.py:136-149 | the new index has exactly one entry per row; all error cases |
| `RelationalEngine.RelationalEngine.DropIndex` | litedb-python/relational_engine.py:151-157 | all entries of the index are gone and no others |
| `RelationalEngine.RelationalEngine.Insert` | litedb-python/relational_engine.py:161-175 | the row is there with one entry in each index on its table; all error cases |
| `RelationalEngine.RelationalEngine.Delete` | litedb-python/relational_engine.py:212-227 | exactly the rows the condition accepts are gone, with their entries |
| `RelationalEngine.RelationalEngine.DeletePrefix` | litedb-python/relational_engine.py:234-236 | the prefix range holds exactly the index's entries |
| `RelationalEngine.BuildRow` | litedb-python/relational_engine.py:299-317 | without names the values are the columns; with names each column has the value of the last one for it; no row if and only if numbers differ or a name is unknown |
| `RelationalEngine.FilledColumn` | litedb-python/relational_engine.py:311-317 | a column holds the value of the last name that stands for it, or is empty |
| `RelationalEngine.FilledKnown` | litedb-python/relational_engine.py:311-317 | there is a row if and only if all names are known |
| `Relations.CompareMeans` | litedb-python/type_codec.py:39-41 | a comparison holds if and only if the relation its operator names holds between the two numbers, or the two texts in the order of their first difference |
| `Relations.ChosenIsMeant` | litedb-python/relational_engine.py:280-297 | the rows a condition accepts are those of its meaning: comparisons by the values of columns, AND as intersection, OR as union, NOT as complement |
| `Relations.BothChosen` | litedb-python/relational_engine.py:280-297 | AND and OR choose the rows both or either choose |
| `Relations.NotChosen` | litedb-python/relational_engine.py:280-297 | NOT chooses the other rows |
| `Relations.ColumnIndexIs` | litedb-python/table_schema.py:21-25 | the first column of the name, or -1 if and only if there is none |
| `Relations.PlansAgree` | litedb-python/relational_engine.py:186-197 | two selections are the same up to order if and only if they choose the same rows |
| `Relations.SelectionsAgree` | litedb-python/relational_engine.py:177-197 | two selections of the same rows are the same up to order |
| `RowKeys.KeysDiffer` | litedb-python/relational_engine.py:106-112 | different definitions, rows and entries have different keys, for names without a slash that are not reserved and values without NUL |
| `RowKeys.RowRange` | litedb-python/relational_engine.py:231-232 | a key lies in a table's scan range if and only if it is a row of it |
| `RowKeys.EntryRange` | litedb-python/relational_engine.py:234-236 | a key lies in an index's range if and only if it is an entry of it |
| `RowKeys.ScanCoversIff` | litedb-python/relational_engine.py:250-255 | an entry that matches, for any literal, lies within the bounds of the index scan if and only if the literal does not run on from its value by a NUL and a tail below its key |
| `RowKeys.LiteralMisses` | litedb-python/relational_engine.py:250-255 | an input: with the literal "a", NUL, "b" the value "a" under the key "c" matches and is not reached |
| `RowKeys.KeysApart` | litedb-python/relational_engine.py:106-112 | no key of the SQL layer runs on from another by a NUL, so the version store keeps their versions apart |
| `RowKeys.RowFoundIff` | litedb-python/relational_engine.py:231-232 | a row is found by the scan of its table exactly if its key sorts below two U+10FFFF |
| `RowKeys.ReadBackIff` | litedb-python/relational_engine.py:258-261 | the value read back from an entry's key is the one put there exactly if it has no NUL |
| `RowKeys.EntryFoundIff` | litedb-python/relational_engine.py:234-236 | an entry is found by the scan of its index exactly if its value sorts below two U+10FFFF |
| `RowKeys.TextLost` | litedb-python/relational_engine.py:231-261 | two inputs: a value with NUL is read back cut off, and a row with a key from two U+10FFFF on is not found |
| `RowKeys.CatalogRow` | litedb-python/relational_engine.py:106-112 | an input: in a table named __catalog__ the row "table/n" is the definition of table n |
| `RowKeys.IdxRows` | litedb-python/relational_engine.py:231-232 | an input: a scan over a table named __idx__ finds the entries of other tables' indexes |
| `RowKeys.ReservedIff` | litedb-python/relational_engine.py:106-112 | for every name without a slash: no definition or entry is in the table's range or under the key of one of its rows if and only if the name is neither __idx__ nor __catalog__ |
| `TypeCodec.IntOrder` | litedb-python/type_codec.py:27-29 | within 64 bits the encodings sort as the numbers do |
| `TypeCodec.IntOrderIff` | litedb-python/type_codec.py:27-29 | the exact condition for any two integers of any size: across zero always, above it by the leading digits of the longer one, below it against them |
| `TypeCodec.BigIntExample` | litedb-python/type_codec.py:27-29 | an input: 2**63 sorts before 2**63 - 1 |
| `TypeCodec.CompareMatches` | litedb-python/type_codec.py:39-41 | the sign of a comparison says how the encodings compare |

## Findings

Properties that the code does not have on all inputs, each with an input and the exact condition under which it has it.

- **Writes after a crash.** The log file is opened for appending and a torn frame at its end is never cut off
  (litedb-python/wal.py:84), while reading stops at the first bad frame (litedb-python/wal.py:133-166). A batch that a crash cut
  short also stays in the log, and the next single write is read as part of it (litedb-python/lsm_engine.py:410-425). Inputs:
  `Recovery.LostBehindTorn`, `Recovery.LostBehindBegin`. Condition: `Recovery.WritesAfterCrash`. A flush of the MemTable heals
  the log (`LsmEngine.LsmEngine.Flush`). A batch line too long for the log does the same without a crash
  (`LsmEngine.LsmEngine.WriteBatch`).
- **Keys with NUL.** litedb-python/mvcc.py:10-11 says that user keys may contain the separator. Point reads: input
  `VersionKeys.NulKeysMix`, condition `VersionScans.ReadRightIff`. The conflict check scans from further below
  (litedb-python/mvcc.py:108-111) and can miss a commit: inputs `VersionScans.CheckMisses`, `Mvcc.LostUpdate`, condition
  `VersionScans.CheckRightIff`. Scans: inputs `VersionScans.ScansGoWrong`, condition `VersionScans.ScanRightIff`. A vacuum stays
  safe but may leave versions: `VersionScans.GarbageIsVacuum`, `VersionScans.SweepsAllIff`. The SQL layer's keys meet all
  conditions on keys (`RowKeys.KeysApart`).
- **Keys from U+10FFFF on** are not seen when the newest timestamp is recovered (litedb-python/mvcc.py:152-158), so that
  timestamps are given twice. Input: `VersionScans.RecoverMisses`. Condition: `VersionScans.RecoverRightIff`.
- **Own writes beyond the upper bound of a scan.** A transaction's scan returns snapshot keys up to the extensions of `hi` but
  overlays own writes only up to `hi` (litedb-python/mvcc.py:187-198). Input: `Mvcc.OwnDeleteShown`. Condition:
  `Mvcc.ScanSeesIff`.
- **Colliding ring positions.** A virtual node overwrites another at the same position, but the list then has the position
  twice (litedb-python/sharding.py:112-118). Input: `Ring.CollisionExample`. Conditions: `Ring.AddThenRemove`,
  `Ring.LookupsSurvive`, `Ring.RemoveUsable`.
- **Adding a node that is there** empties its shard before the ring refuses it (litedb-python/sharding.py:277-278). Input:
  `Sharding.AddTwice`. Condition: `Sharding.ShardedStore.AddNode`.
- **Removing the last node** drops its keys (litedb-python/sharding.py:313-317). Input: `Sharding.RemoveLast`. Condition:
  `Sharding.ShardedStore.RemoveNode`, with `Ring.LastNode`.
- **Asking for no replicas** gets all of them (litedb-python/sharding.py:180). Input: `Ring.NoneGetsAll`. Condition:
  `Ring.ReplicaCount`.
- **Replay after a restart** needs that no transaction appears first with its commit. Input: `ShardStore.CommitFirstDiverges`.
  Condition: `ShardStore.RestartConvergesIff`.
  Two-phase commit sees to it: `TwoPhase.CommitsFollowPrepares`.
- **Reserved table names.** Nothing refuses a table named `__idx__` or `__catalog__`. Inputs: `RowKeys.CatalogRow`,
  `RowKeys.IdxRows`. Condition: `RowKeys.ReservedIff`.
- **Text in rows** with NUL or from two U+10FFFF on is read back wrong or not found. Inputs: `RowKeys.TextLost`. Conditions:
  `RowKeys.ReadBackIff`, `RowKeys.RowFoundIff`, `RowKeys.EntryFoundIff`.
- **Literals with NUL** in a comparison with an index can miss rows that a full scan finds. Input: `RowKeys.LiteralMisses`.
  Condition: `RowKeys.ScanCoversIff`, for whole plans `RelationalEngine.RelationalEngine.BothPlans`.
- **Sortable integers** sort as numbers within 64 bits (`TypeCodec.IntOrder`) and not beyond. Input: `TypeCodec.BigIntExample`.
  Condition: `TypeCodec.IntOrderIff`.
- **Groups of one.** A replica becomes leader only when a vote call is answered (litedb-python/raft_node.py:287-301), so a group
  with a single voter has no leader, ever. Input: `RaftProgress.AloneNeverLeads`. Condition: `RaftProgress.LeaderIff`.
- **Split votes.** The timer of a candidate starts a round of pre-votes, but a candidate ignores their answers
  (litedb-python/raft_node.py:255-256). Replicas in one term and with equally recent logs that all campaign stay candidates until
  one of them is restarted. Input: `RaftStall.SplitVote`. Condition: `RaftStall.ElectableIff`. With restarts any majority can go on:
  `RaftProgress.MajorityCanApply`.
- **Documentation.** The head of litedb-python/raft_node.py says there is no pre-vote; the code has one (219-265) and so has the
  model.

## Left out

- Raft membership change, learners, placement and fencing: the voters are fixed.
- Timing: elections, heartbeats, retries and timeouts are steps that may happen at any moment or never. What is shown is that a majority can go on, not that its timers make it do so; that a replica which hears from a leader grants no pre-vote is in the model, and no result is about it.
- RaftReplication.AppendReplyStep: an answer is taken in the term its request was sent, or because it carries a newer term; the code compares only for newer terms and relies on short blocking calls (litedb-python/raft_node.py:402-415).
- ShardGroup.EventKeeps: a wait for commit that succeeds means that the entry this call proposed was applied at its index (litedb-python/raft_node.py:551-561); the store a leader checks against is the replay of what it has applied.
- Coordinator.Coordinator.Sweep: a record still preparing is aborted only if no request is running, which is what the prepare timeout stands for (litedb-python/node.py:47).
- BPlusTree.BPlusTree.Delete: no upper bound on the keys of internal nodes is claimed; a merge may leave more than twice ORDER, which the code does not split either. The rebalancing that the callee does for its parent is done by the caller after the call, with the same effects.
- Recovery.WritesAfterCrash: torn bytes that, followed by later frames, pass the checksum are excluded by name.
- Sharding.ShardedStore.Set: one copy of each key. With more copies rebalancing moves only the primary's, and that is not modelled. Node names are not empty.
- RelationalEngine.RelationalEngine.Select: projection, ORDER BY and LIMIT, and the text of answers. Statements are given parsed; BEGIN, COMMIT and ROLLBACK are not modelled, so each statement is a transaction of its own and none conflicts.
- Snapshots.SnapshotStability: a restart that finds no version at or after the timestamp is excluded; it happens after commits without writes, and transactions do not outlive a restart.
- Mvcc.MVCCEngine.Commit: there is a timestamp left below 2**63; so for reads and vacuums at given timestamps.
- RelationalEngine.RelationalEngine.CreateTable: table names are not reserved and names have no slash, see the findings.
- RelationalEngine.RelationalEngine.Insert: values have no NUL and sort below two U+10FFFF, see the findings.
- Text formats and functions that are given: the log's payload and checksum, a table's footer, the rows and definitions of the SQL layer, how text is read as an integer, and all hash functions.
- Sizes of files and their names, directories and fsync: a file is its bytes, and a write to it is whole, cut at any byte by a crash (log), or whole (tables). The order of tables is the order of their numbers.
- A crash during compaction's deletion of files, and threads in the LSM engine. litedb-python/lsm_engine.py:263 and 308 take the same lock, which cannot be taken twice by one thread, so the fourth flush waits for ever; the model compacts.
- The value index of the LSM engine (litedb-python/lsm_engine.py:114-118) and litedb-python/btree.py under it.
- Strings are their UTF-8 bytes, or for JSON 16-bit units; floating point numbers are left out of JSON (their text is kept) and of the SQL layer.
- Cross-shard snapshot reads and clocks: commit timestamps are given.
- The Java mirrors of the cluster, litedb-python/raft.py and litedb-python/transactions.py: the same algorithms in simpler form.
- Network, servers, clients, dashboards, gossip, authentication and the SQL parser.
