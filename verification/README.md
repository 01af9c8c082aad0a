# The Raft core of a replicated key-value store, in Dafny

This project models the consensus core of a small C++ Raft implementation (`RaftNode`, `RaftLog`, the read barrier of
`NodeService`), the storage that makes it crash-safe (the journal, snapshots), the replicated map with its client
sessions, the membership bookkeeping of one node, and the wire format, and proves what these parts are for.

## How it is built

1. **Logs and nodes.** `LogSpec` and `NodeSpec` give one function per operation of `RaftLog` and per handler of
   `RaftNode`: the new fields, the images handed to the persistence barrier in order, and the reply. The classes in
   `RaftLog.dfy`, `RaftNode.dfy` and `CommitIndex.dfy` carry the source's fields and loops and are proved equal to them.
   `HandlerLaws` says what each handler does without naming its helpers: exactly when a vote is granted, an election won
   or a batch taken, where a leader resumes, and that every reply carries the messages due.
2. **The cluster.** `Cluster` is the deployed system: handlers over disks, a network that may lose, repeat and reorder,
   and a crash after any number of the saves of any handler, followed by a restart from the last image. `Protocol` breaks
   every handler into atomic steps and keeps a history of leaders' logs, votes, acknowledgements and commits that no step
   reads. `Invariant` is what every reachable protocol state satisfies; `Stability`, `Elections` and `Replication` prove
   that every step keeps it. `Simulation` and `Runs` show that each step of the cluster, crashes in mid-handler included,
   is a sequence of protocol steps, so `ClusterSafety` can state its theorems about runs of the cluster alone, between
   any two nodes at any two moments.
3. **Reads.** `ReadBarrier` is the read service (a class and its specification), `ReadSystem` puts one on every node,
   beside a state machine that applies what is committed and is rebuilt at a restart. `ReadMachines` proves that every
   machine of every run reflects its node's committed log. `ReadSafety` proves linearizability, of indexes and of the
   values answered. `ReadRequests` follows the requests themselves: each is answered once. `StaleRead` is a complete run in which the service as written answers with a stale value.
4. **Repair.** `Repair` follows a leader and a follower through a lossless exchange until the logs agree; every request
   but the first is the one found in the reply of the leader's response handler.
5. **Storage.** `Bytes`, `JournalCodec`, `Journal` and `JournalFile` model the journal file byte by byte;
   `JournalLaws` says which states can be written, and as what. `StateMachineSpec`, `StateMachine` and
   `SnapshotPublication` model applying, snapshots and their publication; `LastWrite` says what the map holds in terms of
   the log alone. `SnapshotTransfer` models sending a snapshot in chunks.
6. **Membership and wire.** `ClusterConfig`, `Membership` and `MembershipNode` model configurations and joint
   consensus inside one node, `MembershipLaws` what each of its steps means; `RaftProtocol` and `RaftStream` model frames and byte streams.

State Machine Safety is proved for every batch limit from 1 up, not only when a request carries the sender's whole
suffix. The follower does clamp the commit index to the end of its log instead of the last entry it checked, but with
fixed membership the leader's cursor never skips the follower's first conflict, so an accepted batch leaves no conflict
above it (`Invariant.Covered`, `Replication.AcceptSettles`).

### What the proofs found in the code

- **Stale reads.** Section 7.6 of docs/architecture.md asks that a read be confirmed by same-term responses under a unique
  context. The code numbers contexts from 1 again in every process and never compares a response's term.
  `StaleRead.StaleAnswer` is a run of three nodes in which a read is told that a key is absent although another node had
  committed and applied its put before the read's barrier was created. The branch that is missing is the condition:
  `ReadSafety.LinearizableWithOwnTermAcks` shows that every run of the code is linearizable, restarts and reused contexts
  included, as long as no success of another term is delivered for an open batch, `ReadSafety.OwnTermAcksDecide` that
  without this condition it is not, and `ReadSafety.RisingContextsOwnTerm` that context numbers that never fall back
  imply it. `ReadSafety.LinearizableUnlessAsWritten` shows that either repair suffices, keeping the numbering across
  restarts or comparing the term.
- **An image that saves but does not load.** `encodeState` compares the 64 MiB limit before it appends the extension;
  `load` compares the whole payload. `Journal.SavedButNotLoadable` gives such a state, and `Journal.CrashReplay` is
  the exact condition, for whole and for cut files: a file loads if and only if every payload whose size can be read from
  it is within the limit.
- **A refused proposal that is not without effect.** `proposeConfChange` enters the joint phase before it encodes the
  entry. `Membership.RefusedProposal` shows that a refused proposal leaves the node unchanged, except for an addition
  under operation id 0 that passes every check and has a host above 255 bytes: then the node counts joint quorums for an
  entry that is in no log. While that configuration stays set the node accepts no further change
  (`Membership.NoMoreProposals`), and its next save is refused, which stops it (`Membership.NextSaveFails`).
  `Membership.JointWithoutEntry` is such a call. Clients cannot make it: the client protocol refuses operation id 0 and
  long hosts (src/network/protocol.cpp:188, 381-391 and 410-412). A direct caller of `RaftNode::proposeConfChange` can, and 0 is the
  default of its operation id (src/raft/raft_node.h:115-117).

Only the decoder limits the entry count of an append response to 256 (`RaftProtocol.AppendAnswerBack`). The limit is never
met: `RaftProtocol.AnswersToDecodedComeBack` shows that the response to any request that came off the wire comes back.

## Model

| member | source | states |
|---|---|---|
| LogSpec.OffsetOf | src/raft/raft_log.cpp:208-218 | an index has an offset exactly when it lies between the first and last index, and it is the offset of the entry with that index |
| LogSpec.Overlap | src/raft/raft_log.cpp:82-104 | the number of leading batch entries already stored: all those are held, the next is not |
| LogSpec.FirstOfTermFinds | src/raft/raft_log.cpp:120-127 | the first entry of a term, or no entry of it |
| LogSpec.LastOfTermFinds | src/raft/raft_log.cpp:129-136 | the last entry of a term, or no entry of it |
| LogSpec.AppendFromMeaning | src/raft/raft_log.cpp:63-113 | an accepted batch is held whole, everything up to its predecessor is kept, and a stale batch that matches drops nothing |
| LogSpec.AppendFromIdempotent | src/raft/raft_log.cpp:63-113 | delivering a batch again changes nothing |
| LogSpec.CompactedReads | src/raft/raft_log.cpp:25-61 | from the boundary on a compacted log answers `termAt`, `entryAt` and `entriesFrom` as the full log does |
| LogSpec.CompactionCommutesWithAppend | src/raft/raft_log.cpp:41-45 | appending after compaction is compacting after appending |
| LogSpec.CompactionCommutesWithAppendFrom | src/raft/raft_log.cpp:63-165 | a batch after the boundary has the same outcome, errors included, on the compacted and on the full log |
| LogSpec.CompactionComposes | src/raft/raft_log.cpp:142-165 | compacting twice is compacting at the later boundary |
| LogSpec.CompactsExactly | src/raft/raft_log.cpp:142-165 | a log can be compacted exactly at an entry it has, named by index and term, and at the sentinel only as such |
| RaftLogClass.RaftLog.constructor | src/raft/raft_log.cpp:9-11 | starts with the sentinel alone |
| RaftLogClass.RaftLog.Append | src/raft/raft_log.cpp:41-45 | appends one entry under the next index |
| RaftLogClass.RaftLog.AppendFrom | src/raft/raft_log.cpp:63-113 | computes the specified outcome and leaves the log unchanged on every failure |
| RaftLogClass.RaftLog.CheckBatch | src/raft/raft_log.cpp:76-83 | accepts exactly the batches numbered from the predecessor on |
| RaftLogClass.RaftLog.SkipPresent | src/raft/raft_log.cpp:85-104 | stops at the first batch entry the log does not hold |
| RaftLogClass.RaftLog.FirstIndexOfTerm | src/raft/raft_log.cpp:120-127 | finds the first index of a term |
| RaftLogClass.RaftLog.LastIndexOfTerm | src/raft/raft_log.cpp:129-136 | finds the last index of a term |
| RaftLogClass.RaftLog.CompactTo | src/raft/raft_log.cpp:142-165 | keeps the boundary and the suffix, or changes nothing |
| RaftLogClass.RaftLog.Restore | src/raft/raft_log.cpp:167-198 | accepts exactly contiguous, well-formed logs |
| NodeSpec.PersistBeforeReply | src/raft/raft_node.cpp:1046-1065 | at the return of every handler the last saved image is the term, vote, log and commit index in memory; terms never fall and a vote never changes within its term |
| NodeSpec.ElectionPersists | src/raft/raft_node.cpp:698-772 | the same for elections, with their up to three saves |
| NodeSpec.AppendPersists | src/raft/raft_node.cpp:269-387 | the same for append requests |
| NodeSpec.VoteResponsePersists | src/raft/raft_node.cpp:247-267 | the same for vote responses |
| NodeSpec.AppendResponsePersists | src/raft/raft_node.cpp:389-436 | the same for append responses |
| NodeSpec.RestartResumes | src/raft/raft_node.cpp:63-101 | a restart after any handler resumes its term, vote, log and commit index, and is accepted exactly when these pass the constructor's checks or were never saved |
| RaftNodeClass.RaftNode.constructor | src/raft/raft_node.cpp:35-61 | a node with nothing on disk |
| RaftNodeClass.RaftNode.Load | src/raft/raft_node.cpp:64-101 | accepts exactly the loadable images and takes over their fields |
| RaftNodeClass.RaftNode.BecomeFollower | src/raft/raft_node.cpp:733-746 | a newer term clears the vote; cursors and votes are dropped |
| RaftNodeClass.RaftNode.HasReplicationQuorum | src/raft/raft_node.cpp:882-894 | counts the node and the peers that reached an index |
| RaftNodeClass.RaftNode.AdvanceCommitIndex | src/raft/raft_node.cpp:804-822 | scans down to the highest committable index and saves if it moved |
| RaftNodeClass.RaftNode.MakeAppendEntries | src/raft/raft_node.cpp:774-790 | the request for one peer at its cursor |
| RaftNodeClass.RaftNode.ReplicateToAll | src/raft/raft_node.cpp:792-802 | one request for every peer, in order |
| RaftNodeClass.RaftNode.MakeReadBarrier | src/raft/raft_node.cpp:548-561 | the same requests under a read context, from a leader only |
| RaftNodeClass.RaftNode.InitializeProgress | src/raft/raft_node.cpp:754-760 | every peer starts unmatched behind the log's end |
| RaftNodeClass.RaftNode.BecomeLeader | src/raft/raft_node.cpp:748-772 | takes office: no-op, save, commit scan, replication |
| RaftNodeClass.RaftNode.StartElection | src/raft/raft_node.cpp:698-731 | campaigns, and takes office at once with a majority of one |
| RaftNodeClass.RaftNode.HandleRequestVote | src/raft/raft_node.cpp:213-245 | the vote handler |
| RaftNodeClass.RaftNode.HandleRequestVoteResponse | src/raft/raft_node.cpp:247-267 | the vote counter |
| RaftNodeClass.RaftNode.Conflict | src/raft/raft_node.cpp:306-318 | the conflict hint |
| RaftNodeClass.RaftNode.StoreBatch | src/raft/raft_node.cpp:335-386 | stores a matching batch and clamps the commit index to the log's end |
| RaftNodeClass.RaftNode.HandleAppendEntries | src/raft/raft_node.cpp:269-387 | the append handler, all its refusals included |
| RaftNodeClass.RaftNode.HandleAppendEntriesResponse | src/raft/raft_node.cpp:389-436 | the response handler, implausible and outdated responses included |
| RaftNodeClass.RaftNode.Propose | src/raft/raft_node.cpp:438-447 | a leader's own append |
| RaftNodeClass.NextIndexAfterConflict | src/raft/log_replication.cpp:10-26 | where a leader resumes after a conflict |
| HandlerLaws.VoteRule | src/raft/raft_node.cpp:213-245 | a vote is granted exactly to a voter whose term is not behind, while the vote of that term is free or the candidate's, and whose log is at least as up to date; only a newer term or the grant changes anything |
| HandlerLaws.VoteCounted | src/raft/raft_node.cpp:247-267 | a candidate granted a vote of its term leads from then on if and only if more than half of the members have voted for it, and then sends every peer what is due; otherwise it keeps counting in silence |
| HandlerLaws.VoteNotCounted | src/raft/raft_node.cpp:249-260 | every other vote response changes nothing, but for a newer term, which makes a follower without a vote |
| HandlerLaws.ElectionStarted | src/raft/raft_node.cpp:698-731 | a timeout starts a new term with the node's own vote, and every peer is asked for its vote by a request that names the end of the log |
| HandlerLaws.ElectedAlone | src/raft/raft_node.cpp:698-731 | the only member leads at once and commits its no-op |
| HandlerLaws.SameElectionRule | src/raft/raft_node.cpp:865-868 | elections of a fixed membership and of a node outside the joint phase are decided alike |
| HandlerLaws.OfficeTaken | src/raft/raft_node.cpp:748-772 | a new leader has a no-op of its term at the end of its log, cursors behind the old end for every peer, and sends all of them the rest |
| HandlerLaws.AdvanceCommits | src/raft/raft_node.cpp:804-822 | the commit index moves to the greatest index of the own term held by more than half of the members, if there is one above |
| HandlerLaws.SendsWhatIsDue | src/raft/raft_node.cpp:774-790 | a request carries the entries from the peer's cursor on, as many as the batch limit allows, behind the entry before them |
| HandlerLaws.BroadcastReachesAll | src/raft/raft_node.cpp:792-802 | every peer gets the request due to it, in order |
| HandlerLaws.BeatsAndBarriers | src/raft/raft_node.cpp:193-204 | a leader's heartbeat and read barriers reach every peer and change nothing; any other node is silent |
| HandlerLaws.ProposalStored | src/raft/raft_node.cpp:438-447 | a leader stores a command one past its log's end, tells that index, and sends it to every peer; any other node refuses |
| HandlerLaws.SenderFollowed | src/raft/raft_node.cpp:269-300 | a node takes the sender of a request for its leader exactly if it may lead |
| HandlerLaws.BatchTaken | src/raft/raft_node.cpp:302-387 | a batch is taken exactly if its sender may lead, the log has the entry before it and it can be stored there; it is acknowledged up to its last index and the commit index is taken over as far as the log goes |
| HandlerLaws.StorableExactly | src/raft/raft_log.cpp:63-113 | a batch can be stored exactly if it is numbered on from an entry of the log and the first entry the log lacks does not clash with one of the same index and term |
| HandlerLaws.RefusalHint | src/raft/raft_node.cpp:302-318 | a refusal points behind the log's end, or names the term of the conflicting entry and the first index of that term |
| HandlerLaws.EveryRequestAnswered | src/raft/raft_node.cpp:213-387 | every request that names its sender gets exactly one answer, to that sender |
| HandlerLaws.EveryResponseHandled | src/raft/raft_node.cpp:247-447 | responses and commands go to their handlers, whose messages are all sent |
| HandlerLaws.SuccessAnswered | src/raft/raft_node.cpp:408-426 | a success moves the peer's cursors forward and the commit index where it belongs; the answer is the request due next if anything is left to send, and silence otherwise |
| HandlerLaws.SomethingIsSent | src/raft/raft_node.cpp:422-425 | that request is never empty |
| HandlerLaws.ResumesThere | src/raft/log_replication.cpp:10-26 | a leader resumes behind its last entry of the hint's term, or at the hint, within its log and above the boundary |
| HandlerLaws.RefusalAnswered | src/raft/raft_node.cpp:428-435 | a refusal of the last request moves the cursor to where the hint says, and the answer is the request due from there |
| HandlerLaws.ResponseIgnored | src/raft/raft_node.cpp:391-407 | strangers, old terms, impossible indexes and outdated refusals change nothing; a newer term makes a follower without a vote |
| CommitIndex.CalculateCommitIndex | src/raft/log_replication.cpp:28-51 | the greatest committable index, or the old commit index |
| CommitIndex.AdvanceAgrees | src/raft/raft_node.cpp:804-816 | the node's scan finds what `calculateCommitIndex` finds, and nothing else does |
| CommitIndex.QuorumIsMajority | src/raft/leader_election.cpp:13-21 | the counted quorum is a strict majority of the set of members |
| CommitIndex.CommitIsExact | src/raft/raft_node.cpp:804-816 | the commit index is the greatest current-term index held by a strict majority, else the old one; it never falls and stays within the log |
| Quorum.QuorumsMeet | src/raft/leader_election.cpp:13-21 | any two strict majorities share a member |
| Elections.CampaignKeeps | src/raft/raft_node.cpp:698-731 | starting an election keeps the invariant |
| Elections.RaiseKeeps | src/raft/raft_node.cpp:733-746 | stepping down, and a restart, keep the invariant |
| Elections.UpToDateInherits | src/raft/leader_election.cpp:5-11 | a candidate at least as up to date as its voter holds everything the voter acknowledged that can still be chosen |
| Elections.GrantKeeps | src/raft/raft_node.cpp:225-244 | granting a vote keeps the invariant |
| Elections.CountKeeps | src/raft/raft_node.cpp:262-263 | counting a vote keeps the invariant |
| Elections.NoRival | src/raft/raft_node.cpp:263-265 | a candidate with a majority has no rival leader in its term |
| Elections.WinnerInherits | src/raft/raft_node.cpp:748-772 | the winner's log holds every entry of earlier terms that can still be chosen |
| Elections.OfficeKeeps | src/raft/raft_node.cpp:748-772 | taking office keeps the invariant |
| Replication.ExtendKeeps | src/raft/raft_node.cpp:438-447 | a leader's append keeps the invariant |
| Replication.CommittableIsChosen | src/raft/raft_node.cpp:882-894 | an index the scan commits is stored in this term by a majority |
| Replication.AdvanceKeeps | src/raft/raft_node.cpp:804-822 | advancing the commit index keeps the invariant |
| Replication.SendKeeps | src/raft/raft_node.cpp:774-790 | every request sent is a stretch of the leader's log that leaves no conflict behind it |
| Replication.RejectTermKeeps | src/raft/raft_node.cpp:306-318 | a conflict hint points at or above the first conflict |
| Replication.AppendFromLeader | src/raft/raft_log.cpp:63-113 | a batch of the leader's log is stored whole and never clashes in payload |
| Replication.AcceptSettles | src/raft/raft_node.cpp:335-386 | after an accepted batch the follower's log is a prefix of the leader's |
| Replication.AcceptCommit | src/raft/raft_node.cpp:372-380 | the clamped commit index covers only committed entries, and no committed entry is lost |
| Replication.AcceptKeeps | src/raft/raft_node.cpp:269-387 | accepting a batch keeps the invariant |
| Replication.MatchKeeps | src/raft/raft_node.cpp:408-426 | recording a match keeps the invariant |
| Replication.HintCovers | src/raft/log_replication.cpp:10-26 | following a hint never skips the follower's first conflict |
| Replication.BackoffKeeps | src/raft/raft_node.cpp:428-435 | stepping back keeps the invariant |
| Simulation.AccountFor | src/raft/raft_node.cpp:193-447 | whatever a node handles, the protocol has a state for each of its saves and for its return |
| Runs.CrashPoint | src/raft/raft_node.cpp:1046-1065 | after any number of saves of any handler, some reachable protocol state has exactly what the disk holds |
| Runs.CrashedFollows | src/raft/raft_node.cpp:63-101 | a crash inside a handler and the restart are protocol steps |
| Runs.RunTraced | src/raft/raft_node.cpp:193-447 | every run of the cluster is traced by states that satisfy the invariant, each later than the last |
| ClusterSafety.ElectionSafety | src/raft/raft_node.cpp:213-267 | a term has at most one leader, over every run and between any two moments |
| ClusterSafety.OneVotePerTerm | src/raft/raft_node.cpp:231-244 | no node votes twice in a term, not even around a crash |
| ClusterSafety.LogMatching | src/raft/raft_node.cpp:302-318 | entries with one index and term are the same entry after the same entries |
| ClusterSafety.BatchesNeverClash | src/raft/raft_log.cpp:96-99 | no deliverable batch reaches the branches for gaps or for another payload under one index and term |
| ClusterSafety.CommittedForever | src/raft/raft_node.cpp:372-386 | terms and commit indexes never fall and committed entries are never lost, crashes included |
| ClusterSafety.StateMachineSafety | src/raft/raft_node.cpp:372-386 | no two nodes ever have different entries at an index both count as committed, whatever the batch limit |
| ClusterSafety.LeaderCompleteness | src/raft/raft_node.cpp:804-822 | what a node has committed by some term is in the log of every leader of a later term |
| ClusterSafety.RestartSucceeds | src/raft/raft_node.cpp:63-101 | a node killed anywhere starts again exactly when its log's indexes fit a word |
| ReadMachines.MachinesReflectLogs | src/raft/raft_kv_service.cpp:450-469 | at every moment of every run each machine is what a stretch of its node's committed log makes of the empty one, and lacks a committed entry only if that cannot be applied |
| ReadMachines.ReplicasAgree | src/raft/state_machine.cpp:13-98 | of any two machines at any two moments the one further on is what the other becomes by applying the entries between |
| ReadMachines.RetriesChangeNothing | src/raft/state_machine.cpp:45-70 | in every run an entry that decodes to a command committed before it, by whatever node, only moves the last applied index of every machine that applies it |
| ReadMachines.RetriesAreInvisible | src/raft/state_machine.cpp:45-70 | machines that have applied up to such an entry and up to just before it have the same map and sessions, at any nodes and moments |
| ReadMachines.AnswersAreCurrent | src/server/node_service.cpp:702-714 | in a linearizable run every value answered is what the committed log says about its key, after a prefix containing everything committed before the barrier |
| ReadMachines.AnswerIsLastWrite | src/server/node_service.cpp:702-714 | a current answer is the value of the last put of its key in that prefix, repeated requests not counted, or absence if there is none or a delete came after it |
| Repair.DivergedFollower | src/raft/log_replication.cpp:10-26 | after a conflict the cursor falls, but not below what is known to match |
| Repair.RefusedRound | src/raft/raft_node.cpp:428-435 | a refusal strictly lowers the next index and keeps the match index |
| Repair.AcceptedRound | src/raft/raft_node.cpp:408-426 | an acceptance moves both cursors past the batch, which the follower then holds |
| Repair.RoundProgress | src/raft/raft_node.cpp:389-436 | every round brings the pair strictly closer |
| Repair.ReactionIsRound | src/raft/raft_node.cpp:389-436 | what the leader's handler sends in reply is the request of the next round |
| Repair.RepairConverges | src/raft/raft_node.cpp:302-435 | a lossless exchange, in which each request is the one found in the leader's reply to the last response, ends with the leader's log a prefix of the follower's and the match index at its end; then the leader is silent |
| Repair.ClusterRepairs | src/raft/raft_node.cpp:302-435 | every leader and follower that a run brings together are such a pair |
| ReadBarrier.ReadService.Defer | src/server/node_service.cpp:469-472 | a read joins the end of the waiting batch, whose window opens with the first |
| ReadBarrier.ReadService.Collect | src/server/node_service.cpp:318-325 | an acknowledgement counts for the batch whose context it carries |
| ReadBarrier.ReadService.StartReadBatchIfReady | src/server/node_service.cpp:607-654 | opens a batch, or answers why it cannot be opened |
| ReadBarrier.ReadService.SweepOne | src/server/node_service.cpp:684-718 | the fate of one batch in a sweep |
| ReadBarrier.ReadService.CompletePending | src/server/node_service.cpp:683-720 | keeps exactly the batches that must wait and answers every request of the others |
| ReadBarrier.StoreAnswersAre | src/server/node_service.cpp:702-714 | a value answered belongs to a batch that completed in the sweep and is what the store says about its key |
| ReadRequests.SweptBatch | src/server/node_service.cpp:684-718 | a batch waits exactly while the node leads its term, the deadline is ahead and a majority or its index is missing; otherwise every one of its requests gets one answer, in order |
| ReadRequests.OpenedBatch | src/server/node_service.cpp:607-654 | a leader with a commit in its own term opens one batch of all waiting reads under an unused context and probes its peers; a leader without one turns every read away as not ready, any other node as no leader |
| ReadRequests.CollectedAck | src/server/node_service.cpp:318-325 | a success adds its sender to the batch of its context if that is of the receiver's term, and nothing else changes |
| ReadRequests.SweepAnswersAll | src/server/node_service.cpp:683-720 | a sweep answers exactly the requests of the batches it closes, each as often as it was asked |
| ReadRequests.EveryReadAnsweredOnce | src/server/node_service.cpp:469-720 | whatever happens to a service, at every moment every request asked of it waits or has been answered, exactly as often as it was asked |
| ReadSteps.SentAnswers | src/raft/raft_node.cpp:269-300 | a success answers the term's leader, from a node not ahead of it, under the request's context |
| ReadSafety.LeaderKnowsCommits | src/server/node_service.cpp:626-648 | while a majority is in no later term, a leader that committed in its own term has committed everything anyone has |
| ReadSafety.ReadsLinearizable | src/server/node_service.cpp:607-715 | with contexts kept, or terms compared, whatever a batch may be answered from contains all that anyone had committed when its barrier was created |
| ReadSafety.ReadsReturnCurrentValues | src/server/node_service.cpp:684-715 | with either repair every value answered in any run is the key's value after such a prefix of the committed log |
| ReadSafety.LinearizableWithOwnTermAcks | src/server/node_service.cpp:318-325 | the service as written is linearizable and its values current in every run, restarts included, in which no success of another term is delivered for an open batch |
| ReadSafety.OwnTermAcksDecide | src/server/node_service.cpp:318-325 | the runs of the code are all linearizable if and only if that condition is asked of them |
| ReadSafety.RisingContextsOwnTerm | src/server/node_service.cpp:639-652 | the condition follows, and with it linearizability, when context numbers never fall back |
| ReadSafety.LinearizableUnlessAsWritten | src/server/node_service.cpp:318-325 | of the three rules exactly the one in the code admits a stale read |
| StaleRead.StaleAnswer | src/server/node_service.cpp:318-325 | a run in which a reused context and an old acknowledgement complete a read, which is told that a key is absent that another node held in its map when the barrier was created |
| StaleRead.StaleReadHappens | src/server/node_service.cpp:318-325 | so not every run of the code is linearizable |
| Bytes.AppendInt | src/raft/file_raft_persistence.cpp:35-47 | the shift loop writes the big-endian encoding |
| Bytes.ReadLoop | src/raft/file_raft_persistence.cpp:49-64 | the read loop computes the value |
| Bytes.ValueOfBig | src/raft/file_raft_persistence.cpp:35-64 | reading inverts writing |
| ClusterConfig.ValidateClusterConfiguration | src/raft/cluster_config.cpp:119-147 | accepts exactly sorted, duplicate-free, reachable members that include the local node |
| ClusterConfig.MemberBack | src/raft/cluster_config.cpp:75-115 | a member comes back |
| ClusterConfig.ConfigurationBack | src/raft/cluster_config.cpp:223-271 | a configuration comes back, whatever follows it |
| ClusterConfig.OperationBack | src/raft/cluster_config.cpp:179-221 | a membership operation comes back |
| ClusterConfig.ChangeBack | src/raft/cluster_config.cpp:273-377 | a change entry comes back; a removal carries only the id |
| JournalCodec.EntriesBack | src/raft/file_raft_persistence.cpp:419-441 | entries come back |
| JournalCodec.EntriesOnly | src/raft/file_raft_persistence.cpp:419-441 | whatever decodes as entries is the encoding of those entries, with commands within the limit |
| JournalCodec.ExtensionsBack | src/raft/file_raft_persistence.cpp:189-245 | the optional configurations and operations come back |
| JournalCodec.StateBack | src/raft/file_raft_persistence.cpp:347-454 | a full image decodes to the state it encodes |
| JournalCodec.CommonPrefix | src/raft/file_raft_persistence.cpp:479-484 | the longest common prefix |
| JournalCodec.DeltaBack | src/raft/file_raft_persistence.cpp:463-637 | a delta applied to the state it was made from gives the state it was made for |
| JournalLaws.ImageEncodes | src/raft/file_raft_persistence.cpp:347-387 | a full image is refused exactly if the log is malformed or too long, a command or the part before the extension too large, or a configuration or operation cannot be written |
| JournalLaws.DeltaEncodes | src/raft/file_raft_persistence.cpp:463-524 | a delta is refused exactly if term or commit index would fall, a log is malformed or too long, the logs do not begin alike, or the part that differs is too large |
| JournalLaws.DeltaIsMinimal | src/raft/file_raft_persistence.cpp:479-524 | a delta carries exactly the entries behind what both logs have in common |
| JournalLaws.RecordKind | src/raft/file_raft_persistence.cpp:836-870 | a save writes a delta exactly if a state was written before with the same first entry, configurations and operations |
| Journal.ReplayRecord | src/raft/file_raft_persistence.cpp:763-825 | a whole record is applied and reading goes on behind it |
| Journal.ReplayTorn | src/raft/file_raft_persistence.cpp:765-806 | any proper prefix of a record is cut off |
| Journal.CrashReplay | src/raft/file_raft_persistence.cpp:750-834 | cut at any byte behind the header, a journal loads if and only if every size that can be read is within the limit, and then as the state of the last record wholly contained |
| Journal.DeltasAtEnd | src/raft/file_raft_persistence.cpp:814-825 | a load counts the deltas behind the last full image |
| Journal.DamageRefused | src/raft/file_raft_persistence.cpp:763-825 | a whole record within the limit whose checksum does not fit makes the load fail, whatever follows it |
| Journal.DamageIsFound | src/raft/file_raft_persistence.cpp:763-825 | a file in which the payload of one record was altered to one with another checksum does not load |
| Journal.LastSaveLoads | src/raft/file_raft_persistence.cpp:750-891 | an uncut journal loads if and only if every payload is within the limit, and then as the state saved last |
| Journal.SavedButNotLoadable | src/raft/file_raft_persistence.cpp:378-386 | a state that is encoded without complaint and cannot be loaded |
| JournalFile.ValidateEntries | src/raft/file_raft_persistence.cpp:266-287 | accepts exactly contiguous, well-formed logs |
| JournalFile.EncodeImage | src/raft/file_raft_persistence.cpp:347-387 | the full image, or a refusal |
| JournalFile.EncodePatch | src/raft/file_raft_persistence.cpp:463-524 | the delta, or a refusal |
| JournalFile.DecodeImage | src/raft/file_raft_persistence.cpp:389-454 | the decoded image, or a refusal |
| JournalFile.ApplyDelta | src/raft/file_raft_persistence.cpp:533-637 | the patched state, or a refusal |
| JournalFile.WrittenBack | src/raft/file_raft_persistence.cpp:836-870 | reading a written record back gives the state it was written for |
| JournalFile.FileRaftPersistence.Open | src/raft/file_raft_persistence.cpp:686-748 | an empty file gets a header, any other must start with it |
| JournalFile.FileRaftPersistence.ReadRecord | src/raft/file_raft_persistence.cpp:763-825 | judges one record as torn, damaged or taken |
| JournalFile.FileRaftPersistence.Load | src/raft/file_raft_persistence.cpp:750-834 | replays any file with a valid header and keeps exactly its whole records |
| JournalFile.FileRaftPersistence.Save | src/raft/file_raft_persistence.cpp:836-891 | appends a full image or a delta, compacts at a limit, and keeps the file replayable to the saved state; after a success the file is one full image or below both limits |
| JournalFile.FileRaftPersistence.CompactLocked | src/raft/file_raft_persistence.cpp:893-954 | replaces the file by one full image |
| JournalFile.FileRaftPersistence.CrashAndLoad | src/raft/file_raft_persistence.cpp:750-834 | whatever the file holds, cut anywhere and loaded it gives the last state wholly contained, under the exact condition |
| JournalFile.FileRaftPersistence.SaveAll | src/raft/file_raft_persistence.cpp:836-954 | all states are written, or saving stopped because the next one was refused or the last one written could not be compacted; on file are the states written, but for those before a compaction |
| JournalFile.FileRaftPersistence.SaveAllThenCrash | src/raft/file_raft_persistence.cpp:750-954 | after any such sequence of saves a cut file loads, under the exact condition, as the last state written whose record is wholly contained, and an uncut one as the last state written |
| Membership.PeersAlwaysMatch | src/raft/raft_node.cpp:908-960 | across every sequence of restarts, proposals, commits, appends and rollbacks both configurations are valid and the peers are the duplicate-free union of their members without the node |
| Membership.MajorityIsQuorum | src/raft/raft_node.cpp:869-880 | the counting loop decides a strict majority of the configuration |
| Membership.JointQuorumsMeet | src/raft/raft_node.cpp:865-906 | a joint quorum meets every majority of the old and of the new configuration, at a peer or at the node |
| Membership.QuorumsAlwaysMeet | src/raft/raft_node.cpp:865-906 | so it is at every point of every such sequence, and any two quorums counted there meet |
| Membership.QuorumsMeetBetween | src/raft/raft_node.cpp:865-906 | quorums counted at two moments meet while the stable configuration is the same, or has become the joint one of the earlier |
| Membership.QuorumsMeetAcross | src/raft/raft_node.cpp:908-960 | a quorum counted before entering, leaving or rolling back the joint phase meets every quorum counted after |
| Membership.RestartsAreLegal | src/raft/file_raft_persistence.cpp:113-137 | whatever bytes a journal holds, the configurations a restart loads from it are valid, and it refuses one with a configuration exactly if an operation is under way without a joint configuration |
| Membership.StableQuorumIsMajority | src/raft/raft_node.cpp:865-868 | outside the joint phase the count is a majority of the configuration |
| Membership.TargetIsOneChange | src/raft/raft_node.cpp:470-493 | an accepted change keeps the members sorted and valid and adds or removes exactly the named one |
| Membership.ExitRebuilds | src/raft/raft_node.cpp:962-998 | the exit entry rebuilt from the two configurations describes the accepted change |
| Membership.ExitSurvivesLog | src/raft/raft_node.cpp:1013-1026 | the exit entry can be written exactly when every host of the target is at most 255 bytes long, and then comes back from the log |
| Membership.RefusedProposal | src/raft/raft_node.cpp:449-524 | a proposal is accepted exactly when it passes the checks and can be written; a refused one leaves the node unchanged except in one case |
| Membership.NoMoreProposals | src/raft/raft_node.cpp:452-458 | a node in the joint phase refuses every proposal and stays as it is |
| Membership.NextSaveFails | src/raft/raft_node.cpp:1046-1065 | a joint configuration that cannot be written makes the next save fail, whatever else is saved |
| Membership.JointWithoutEntry | src/raft/raft_node.cpp:500-519 | a call that is refused and leaves the node in the joint phase |
| MembershipLaws.QuorumExactly | src/raft/raft_node.cpp:865-906 | in the joint phase a set is a quorum exactly with more than half of the old and more than half of the new members; outside it, exactly with more than half of the node and its peers |
| MembershipLaws.TargetExactly | src/raft/raft_node.cpp:470-493 | an addition is accepted exactly for a reachable, caught-up learner that is no member yet and has room, a removal exactly for another member |
| MembershipLaws.ProposalEnters | src/raft/raft_node.cpp:449-524 | an accepted proposal enters the joint phase towards the target and appends an entry that reads back as that change |
| MembershipLaws.EntryTakesEffect | src/raft/raft_node.cpp:908-960 | a joint entry begins the joint phase towards its target; an exit entry makes it the stable configuration and ends the phase; a leader then waits for the exit entry it appends, any other node for nothing |
| MembershipLaws.ExitAppended | src/raft/raft_node.cpp:931-943 | what a leader appends for a joint entry reads back as the change that leads to its target |
| MembershipLaws.OverwrittenEndsJoint | src/raft/raft_node.cpp:320-357 | a follower whose awaited joint entry is overwritten leaves the joint phase, with the peers of the stable configuration; while the entry is there nothing changes |
| MembershipLaws.NothingToRollBack | src/raft/raft_node.cpp:320-357 | a follower that awaits no uncommitted, readable change is not affected |
| MembershipLaws.NoJointEntry | src/raft/raft_node.cpp:357-370 | a batch without a readable joint entry above the commit index changes nothing |
| MembershipLaws.LastJointEntryCounts | src/raft/raft_node.cpp:357-370 | after a batch the node is in the joint phase towards the target of its last such entry, and waits for that entry |
| MembershipLaws.RestartTakesOver | src/raft/raft_node.cpp:103-189 | a restart takes over what the image holds and waits for the first uncommitted entry that leads to the joint configuration |
| MembershipNodeClass.MembershipNode.constructor | src/raft/raft_node.cpp:128-142 | the peers of a bootstrap configuration |
| MembershipNodeClass.MembershipNode.ApplyPeersFromConfiguration | src/raft/raft_node.cpp:15-24 | the other members, in order |
| MembershipNodeClass.MembershipNode.LoadConfigurations | src/raft/raft_node.cpp:103-189 | loaded configurations and operations are validated and taken over, the peers rebuilt and the pending entry found |
| MembershipNodeClass.MembershipNode.FindPending | src/raft/raft_node.cpp:170-189 | the first uncommitted entry that leads to the joint configuration |
| MembershipNodeClass.MembershipNode.SetJointPeers | src/raft/raft_node.cpp:505-512 | the peers of the joint phase |
| MembershipNodeClass.MembershipNode.ProposeConfChange | src/raft/raft_node.cpp:449-524 | every refusal, the joint phase, and the entry to append |
| MembershipNodeClass.MembershipNode.ApplyConfigurationEntry | src/raft/raft_node.cpp:908-960 | joint and exit entries take effect; a leader answers a joint entry with the exit entry |
| MembershipNodeClass.MembershipNode.RollBackIfOverwritten | src/raft/raft_node.cpp:320-357 | the joint phase is undone exactly when the awaited uncommitted joint entry is no longer in the log |
| MembershipNodeClass.MembershipNode.FollowBatch | src/raft/raft_node.cpp:320-370 | the same, and then the joint entries of the batch take effect |
| MembershipNodeClass.MembershipNode.HasElectionQuorum | src/raft/raft_node.cpp:865-880 | both majorities in the joint phase |
| MembershipNodeClass.MembershipNode.HasReplicationQuorum | src/raft/raft_node.cpp:882-906 | replication is counted over the same quorums as votes, in both phases |
| MembershipNodeClass.MembershipNode.MakeJointExitEntry | src/raft/raft_node.cpp:962-998 | the loops compute the exit entry |
| StateMachineSpec.AnswerRemembered | src/raft/state_machine.cpp:45-98 | whatever follows it, an applied command stays remembered with the answer it got, until its client's next request |
| StateMachineSpec.ReappendingChangesNothing | src/raft/state_machine.cpp:45-70 | a command already in the log, in whatever encoding, changes neither map nor sessions; a retry of the latest request gets the answer the command got in the log, an older one is told it is stale |
| StateMachineSpec.CatchUpIs | src/raft/raft_kv_service.cpp:450-469 | the loop applies exactly the stretch of the log it covers, and stops only when all is applied or at an entry that is absent or fails |
| StateMachineSpec.RestoreInvertsSnapshot | src/raft/state_machine.cpp:109-159 | restoring an image of a machine gives that machine |
| StateMachineSpec.RestoreLosesNothing | src/raft/state_machine.cpp:129-159 | whatever image is accepted, the restored map and sessions are exactly what it lists, none of them reserved |
| LastWrite.RefusedEntry | src/raft/state_machine.cpp:13-44 | an entry is refused exactly if it is out of order, a no-op with a payload, a change without one, or an unreadable command; a refusal changes nothing |
| LastWrite.NewCommand | src/raft/state_machine.cpp:45-98 | a new put gives its key its value, a new delete removes its key and says whether it was there; every other key and session stays, and the client's session has the answer |
| LastWrite.OldCommand | src/raft/state_machine.cpp:45-70 | a command that is not new changes neither map nor sessions |
| LastWrite.StoreIsLastWrite | src/raft/state_machine.cpp:13-98 | after the log is applied a key is there exactly if the last command about it, repeated requests not counted, is a put, and then with its value |
| StateMachineSpec.SnapshotsAreTransparent | src/raft/state_machine.cpp:109-159 | any snapshots and restores along the log give the same map, sessions and results |
| StateMachineClass.StateMachine.constructor | src/raft/state_machine.cpp:11-11 | an unapplied machine |
| StateMachineClass.StateMachine.Apply | src/raft/state_machine.cpp:13-98 | applies one entry, with every failure |
| StateMachineClass.StateMachine.ApplyCommitted | src/raft/raft_kv_service.cpp:450-469 | applies the committed log in order and stops at an entry that is absent or fails |
| StateMachineClass.StateMachine.Snapshot | src/raft/state_machine.cpp:109-127 | an image that lists every key and session once, sessions in order |
| StateMachineClass.StateMachine.Restore | src/raft/state_machine.cpp:129-159 | accepts exactly images without duplicates or reserved ids |
| StateMachineClass.StateMachine.ReplaceAll | src/storage/kv_store.cpp:47-62 | accepts exactly lists without duplicate keys |
| SnapshotPublication.ReplayReaches | src/raft/raft_kv_service.cpp:450-469 | replay from a snapshot reaches the machine of the whole committed log |
| SnapshotPublication.ConsistentRecovers | src/raft/raft_kv_service.cpp:16-46 | a consistent disk passes the constructor's checks and rebuilds the state of the whole committed log |
| SnapshotPublication.RefusedSnapshot | src/raft/raft_kv_service.cpp:16-46 | a snapshot ahead of the commit index, with a boundary not in the log, or malformed, is refused |
| SnapshotPublication.RaftKVService.constructor | src/raft/raft_kv_service.cpp:16-46 | starts exactly over disks that can be recovered, and always over one an earlier service left |
| SnapshotPublication.RaftKVService.ApplyCommitted | src/raft/raft_kv_service.cpp:450-469 | applies everything committed, or stops at an entry that is absent or fails |
| SnapshotPublication.RaftKVService.Progress | src/raft/raft_kv_service.cpp:82-101 | growing the log and the commit index keeps the disk recoverable |
| SnapshotPublication.RaftKVService.TryPublishSnapshot | src/raft/raft_kv_service.cpp:197-234 | publishes when the threshold is reached and the image was written; every disk content on the way recovers to the same machine, and so does every earlier one |
| SnapshotTransfer.ReadBytes | src/raft/file_snapshot_store.cpp:433-492 | a chunk of the file and whether it is the last |
| SnapshotTransfer.ReceivedKeeps | src/raft/file_snapshot_store.cpp:533-608 | the receiver keeps a prefix of the boundary's file and publishes only whole files |
| SnapshotTransfer.Reassembles | src/raft/raft_kv_service.cpp:339-369 | the same over every stream of lost, repeated, reordered and restarted chunks |
| SnapshotTransfer.ChunkTaken | src/raft/raft_kv_service.cpp:339-369 | a chunk that does not go on where the receiver stopped ends the transfer and publishes nothing; any other is kept, and after the last one the file is published exactly if it is accepted |
| SnapshotTransfer.DeliveryPublishes | src/raft/raft_kv_service.cpp:272-369 | chunks sent in order from the start publish the whole file |
| SnapshotTransfer.SnapshotFileReceiver.AppendChunk | src/raft/file_snapshot_store.cpp:533-608 | takes the next chunk of the active transfer or refuses it and leaves the transfer |
| SnapshotTransfer.SnapshotFileReceiver.Handle | src/raft/raft_kv_service.cpp:339-369 | restarts at offset zero, cancels on any mismatch, publishes after the last chunk |
| RaftProtocol.AppendAnswerBack | src/network/raft_protocol.cpp:158-167 | an append response comes back if and only if its entry count is within the decoder's limit |
| RaftProtocol.PayloadBack | src/network/raft_protocol.cpp:116-348 | every payload comes back, with that one exception |
| RaftProtocol.AnswersToDecodedComeBack | src/network/raft_protocol.cpp:222-348 | the response to any request that came off the wire is within the limit and comes back |
| RaftStream.FrameBack | src/network/raft_protocol.cpp:352-435 | a whole frame is decoded and removed, whatever follows it |
| RaftStream.PartialFrame | src/network/raft_protocol.cpp:386-416 | a proper prefix of a frame needs more data |
| RaftStream.RefusedFrame | src/network/raft_protocol.cpp:386-435 | a frame with another magic or version, an unknown kind, a size above the limit, or a payload that does not decode is refused |
| RaftStream.StreamDecodes | src/network/raft_protocol.cpp:386-435 | however a list of messages is cut into pieces, decoding gives exactly that list and leaves nothing |
| RaftStream.StreamDecoder.TryDecodeOne | src/network/raft_protocol.cpp:386-435 | consumes at most one frame and leaves the buffer alone otherwise |
| RaftStream.StreamDecoder.Receive | src/network/raft_protocol.cpp:386-435 | buffers a piece and takes out every complete frame |

## Left out

- Threads, sockets, queues, timers and their randomness, command-line programs: delivery is a bag of messages and timeouts are steps that may happen at any time.
- `fsync`, `rename`, file locks and the arithmetic of CRC32C: a file is a sequence of bytes, replaced at once, and the checksum is any function of the payload.
- A persistence failure reported to a running node: the source throws and stops, so no further step of that node is modelled.
- Cluster-wide safety across membership changes, learners and compaction: the cluster theorems have a fixed set of voters and uncompacted logs; membership is covered inside one node, compaction as the equivalence of logs. A learner starts with its cursor at 1 and would break the argument that the cursor never skips a conflict.
- Installing a received snapshot into the log, and a crash between publishing it and saving the journal.
- Leader-side progress of snapshot sending, and the early exits of `handleInstallSnapshot` for old terms and covered boundaries.
- The client protocol, the KV command codec (a parameter here), the snapshot file's payload codec and the standalone write-ahead log.
- RaftLogClass.RaftLog.Append: does not model wrap-around of a 64-bit index; indexes are naturals, and `RestartSucceeds` says from where on a restart is refused.
- RaftNodeClass.RaftNode.constructor: the checks on timeouts, ids and duplicate members are left out; a cluster starts from configurations that pass them.
- RaftNodeClass.RaftNode.Load: the configurations and operations of an image are in `MembershipNode.LoadConfigurations`.
- RaftNodeClass.RaftNode.HasReplicationQuorum: counts fixed voters; both phases are in `MembershipNode.HasReplicationQuorum`.
- RaftNodeClass.RaftNode.AdvanceCommitIndex: committed configuration entries take effect in `MembershipNode.ApplyConfigurationEntry`.
- RaftNodeClass.RaftNode.ReplicateToAll: sends to voters, not to learners.
- RaftNodeClass.RaftNode.InitializeProgress: has cursors for voters, not for learners.
- RaftNodeClass.RaftNode.BecomeLeader: the recovery of the exit entry is in `MembershipNode.MakeJointExitEntry` and the step `OfficeTaken` of `Membership`.
- RaftNodeClass.RaftNode.StoreBatch: configuration entries of a batch take effect in `MembershipNode.FollowBatch`.
- RaftNodeClass.RaftNode.HandleAppendEntries: configuration entries in a batch are ordinary entries here; what they change is in `MembershipNode`.
- ReadBarrier.ReadService.StartReadBatchIfReady: read contexts are naturals and never wrap to 0 in a run.
- ReadMachines.MachinesReflectLogs: a node whose machine meets an entry it cannot apply goes on in the model, where the source turns its answer into a refusal and stops; commands submitted by clients always decode.
- Membership.QuorumsMeetAcross: speaks of steps that keep to the two phases; that a cluster takes only such steps is part of safety across membership changes.
- MembershipNodeClass.MembershipNode.LoadConfigurations: the check that a loaded vote names a member is in `RaftNode.Load`.
- StateMachineClass.StateMachine.ApplyCommitted: the results kept for local clients are left out.
- StateMachineClass.StateMachine.Snapshot: the order of keys in an image is left open.
- SnapshotPublication.RaftKVService.Progress: the new log and commit index of the node's handler are parameters.
- SnapshotTransfer.SnapshotFileReceiver.Handle: the header, length, checksum and decoding checks on a complete file are one predicate given as a parameter.
- The byte encoders and decoders are functions of the bytes written and of the bytes not yet read, instead of buffers and cursors updated in place; the loops over entries, records, members and frames are methods.
