/** The consensus fields of `RaftNode` and what each of its handlers does to them: the new fields,
    the images handed to the persistence barrier in order, and the reply. Voters are fixed. */
module NodeSpec {
  import opened RaftTypes
  import opened LogSpec

  /** The fields `persistOrThrow` writes. */
  datatype Image = Image(term: Term, votedFor: Option<NodeId>, entries: seq<LogEntry>, commit: LogIndex)

  datatype NodeState = NodeState(
    self: NodeId,
    peers: seq<NodeId>,
    batch: nat,
    role: Role,
    term: Term,
    votedFor: Option<NodeId>,
    leaderId: Option<NodeId>,
    log: seq<LogEntry>,
    commit: LogIndex,
    votes: set<NodeId>,
    next: map<NodeId, LogIndex>,
    matched: map<NodeId, LogIndex>)
  {
    function Durable(): Image {
      Image(term, votedFor, log, commit)
    }

    predicate IsVoter(id: NodeId) {
      id == self || id in peers
    }
  }

  datatype Done<+R> = Done(node: NodeState, saves: seq<Image>, reply: R)

  // ---------------------------------------------------------------- leader_election.cpp

  predicate UpToDate(lastIndex: LogIndex, lastTerm: Term, local: seq<LogEntry>)
    requires |local| > 0
  {
    lastTerm > LastTerm(local) || (lastTerm == LastTerm(local) && lastIndex >= LastIndex(local))
  }

  function QuorumSize(members: nat): nat {
    members / 2 + 1
  }

  predicate HasQuorum(granted: nat, members: nat) {
    granted >= QuorumSize(members)
  }

  // ---------------------------------------------------------------- log_replication.cpp

  function NextAfterConflict(log: seq<LogEntry>, conflictIndex: LogIndex, conflictTerm: Option<Term>): LogIndex
    requires |log| > 0
  {
    var hinted :=
      if conflictTerm.Some? && LastOfTerm(log, conflictTerm.value).Some?
      then LastOfTerm(log, conflictTerm.value).value + 1
      else conflictIndex;
    var floor := if FirstIndex(log) == MAX_WORD then FirstIndex(log) else FirstIndex(log) + 1;
    Min(Max(floor, hinted), LastIndex(log) + 1)
  }

  // ---------------------------------------------------------------- quorums

  predicate Reached(matched: map<NodeId, LogIndex>, id: NodeId, index: LogIndex) {
    id in matched && matched[id] >= index
  }

  function CountReached(peers: seq<NodeId>, matched: map<NodeId, LogIndex>, index: LogIndex): (count: nat)
    ensures count <= |peers|
  {
    if peers == [] then 0
    else CountReached(peers[..|peers| - 1], matched, index) +
         (if Reached(matched, peers[|peers| - 1], index) then 1 else 0)
  }

  predicate HasReplicationQuorum(n: NodeState, index: LogIndex)
    requires |n.log| > 0
  {
    HasQuorum((if LastIndex(n.log) >= index then 1 else 0) + CountReached(n.peers, n.matched, index), |n.peers| + 1)
  }

  predicate HasElectionQuorum(n: NodeState) {
    |n.votes| >= QuorumSize(|n.peers| + 1)
  }

  // ---------------------------------------------------------------- transitions

  function BecomeFollower(n: NodeState, term: Term, leader: Option<NodeId>): NodeState {
    var n1 := if term > n.term then n.(term := term, votedFor := None) else n;
    n1.(role := Follower, leaderId := leader, votes := {}, next := map[], matched := map[])
  }

  /** Committable: an entry of the leader's own term that a strict majority holds. */
  predicate Committable(n: NodeState, index: LogIndex)
    requires |n.log| > 0
  {
    TermAt(n.log, index) == Some(n.term) && HasReplicationQuorum(n, index)
  }

  /** The scan of `advanceCommitIndex`, from `candidate` down to the old commit index. */
  function ScanCommit(n: NodeState, candidate: LogIndex): LogIndex
    requires |n.log| > 0
  {
    if candidate <= n.commit then n.commit
    else if Committable(n, candidate) then candidate
    else ScanCommit(n, candidate - 1)
  }

  function Advance(n: NodeState): NodeState
    requires |n.log| > 0
  {
    if n.role != Leader then n else n.(commit := ScanCommit(n, LastIndex(n.log)))
  }

  function AdvanceSaves(n: NodeState): seq<Image>
    requires |n.log| > 0
  {
    if Advance(n).commit != n.commit then [Advance(n).Durable()] else []
  }

  function MakeAppend(n: NodeState, peer: NodeId, context: nat): Outbound
    requires |n.log| > 0
  {
    var next := if peer in n.next then n.next[peer] else LastIndex(n.log) + 1;
    var previous := if next == 0 then MAX_WORD else next - 1;
    var previousTerm := match TermAt(n.log, previous) case None => 0 case Some(t) => t;
    Outbound(peer, Append(AppendRequest(n.term, n.self, previous, previousTerm,
                                        EntriesFrom(n.log, next, n.batch), n.commit, context)))
  }

  function ReplicateToAll(n: NodeState, context: nat): seq<Outbound>
    requires |n.log| > 0
  {
    seq(|n.peers|, i requires 0 <= i < |n.peers| => MakeAppend(n, n.peers[i], context))
  }

  function RequestVotes(n: NodeState): seq<Outbound>
    requires |n.log| > 0
  {
    seq(|n.peers|, i requires 0 <= i < |n.peers| =>
      Outbound(n.peers[i], AskVote(VoteRequest(n.term, n.self, LastIndex(n.log), LastTerm(n.log)))))
  }

  /** The fields right after the no-op is appended, before the commit scan. */
  function TakeOffice(n: NodeState): NodeState
    requires |n.log| > 0
  {
    var voters := set p | p in n.peers;
    n.(role := Leader, leaderId := Some(n.self), votes := {},
       next := map p | p in voters :: LastIndex(n.log) + 1,
       matched := map p | p in voters :: 0,
       log := AppendOne(n.log, n.term, NoOp, []))
  }

  function BecomeLeader(n: NodeState): Done<seq<Outbound>>
    requires |n.log| > 0
  {
    var n1 := TakeOffice(n);
    var n2 := Advance(n1);
    Done(n2, [n1.Durable()] + AdvanceSaves(n1), ReplicateToAll(n2, 0))
  }

  function Campaign(n: NodeState): NodeState {
    n.(role := Candidate, term := n.term + 1, votedFor := Some(n.self), leaderId := None, votes := {n.self})
  }

  function StartElection(n: NodeState): Done<seq<Outbound>>
    requires |n.log| > 0
  {
    if n.term >= MAX_WORD then Done(n, [], [])
    else
      var n1 := Campaign(n);
      if HasElectionQuorum(n1) then
        var r := BecomeLeader(n1);
        Done(r.node, [n1.Durable()] + r.saves, r.reply)
      else
        Done(n1, [n1.Durable()], RequestVotes(n1))
  }

  // ---------------------------------------------------------------- handlers

  function HandleVoteRequest(n: NodeState, request: VoteRequest): Done<VoteResponse>
    requires |n.log| > 0
  {
    if !n.IsVoter(request.candidateId) || request.term < n.term then
      Done(n, [], VoteResponse(n.term, request.term, false))
    else
      var raised := request.term > n.term;
      var n1 := if raised then BecomeFollower(n, request.term, None) else n;
      var canVote := n1.votedFor == None || n1.votedFor == Some(request.candidateId);
      if canVote && UpToDate(request.lastLogIndex, request.lastLogTerm, n1.log) then
        var n2 := n1.(votedFor := Some(request.candidateId));
        Done(n2, if raised || n1.votedFor == None then [n2.Durable()] else [],
             VoteResponse(n2.term, request.term, true))
      else
        Done(n1, if raised then [n1.Durable()] else [],
             VoteResponse(n1.term, request.term, false))
  }

  function HandleVoteResponse(n: NodeState, source: NodeId, response: VoteResponse): Done<seq<Outbound>>
    requires |n.log| > 0
  {
    if !n.IsVoter(source) || source == n.self then Done(n, [], [])
    else if response.term > n.term then
      var n1 := BecomeFollower(n, response.term, None);
      Done(n1, [n1.Durable()], [])
    else if n.role != Candidate || response.term != n.term || response.electionTerm != n.term || !response.granted then
      Done(n, [], [])
    else
      var n1 := n.(votes := n.votes + {source});
      if HasElectionQuorum(n1) then BecomeLeader(n1) else Done(n1, [], [])
  }

  /** Where the leader should resume after a failed consistency check. */
  function ConflictHint(log: seq<LogEntry>, previous: LogIndex): (LogIndex, Option<Term>)
    requires |log| > 0
  {
    match TermAt(log, previous)
    case Some(t) =>
      ((match FirstOfTerm(log, t) case Some(i) => i case None => FirstIndex(log) + 1), Some(t))
    case None =>
      (if previous < FirstIndex(log) then FirstIndex(log) + 1 else LastIndex(log) + 1, None)
  }

  function FollowLeader(n: NodeState, request: AppendRequest): NodeState {
    if request.term > n.term || n.role != Follower
    then BecomeFollower(n, request.term, Some(request.leaderId))
    else n.(leaderId := Some(request.leaderId))
  }

  function HandleAppend(n: NodeState, request: AppendRequest): Done<AppendResponse>
    requires Contiguous(n.log)
  {
    var refused := AppendResponse(n.term, false, request.prevIndex, |request.entries|, 0,
                                  LastIndex(n.log) + 1, None, request.readContext);
    if !n.IsVoter(request.leaderId) || request.term < n.term then Done(n, [], refused)
    else
      var n1 := FollowLeader(n, request);
      var raised := request.term > n.term;
      var early := if raised then [n1.Durable()] else [];
      if request.prevIndex > LastIndex(n1.log) then
        Done(n1, early, refused.(term := n1.term))
      else if TermAt(n1.log, request.prevIndex) != Some(request.prevTerm) then
        var (index, term) := ConflictHint(n1.log, request.prevIndex);
        Done(n1, early, refused.(term := n1.term, conflictIndex := index, conflictTerm := term))
      else
        match AppendFrom(n1.log, request.prevIndex, request.entries)
        case Refused(_) => Done(n1, early, refused.(term := n1.term))
        case Appended(log) =>
          var n2 := n1.(log := log);
          var n3 := if request.leaderCommit > n2.commit && |log| > 0
                    then n2.(commit := Min(request.leaderCommit, LastIndex(log))) else n2;
          var top := if request.entries == [] then request.prevIndex
                     else request.entries[|request.entries| - 1].index;
          Done(n3,
               if raised || request.entries != [] || n3.commit != n2.commit then [n3.Durable()] else [],
               AppendResponse(n3.term, true, request.prevIndex, |request.entries|, top, top + 1, None,
                              request.readContext))
  }

  /** The correlation checks a success response must pass before it moves any cursor. */
  predicate PlausibleSuccess(n: NodeState, response: AppendResponse)
    requires |n.log| > 0
  {
    && response.prevIndex <= response.matchIndex <= LastIndex(n.log)
    && response.entryCount <= MAX_WORD - Min(MAX_WORD, response.prevIndex)
    && response.matchIndex == response.prevIndex + response.entryCount
  }

  function RecordMatch(n: NodeState, source: NodeId, index: LogIndex): NodeState
    requires source in n.next && source in n.matched
  {
    n.(matched := n.matched[source := Max(n.matched[source], index)],
       next := n.next[source := Max(n.next[source], index + 1)])
  }

  function HandleAppendResponse(n: NodeState, source: NodeId, response: AppendResponse): Done<seq<Outbound>>
    requires |n.log| > 0
  {
    if !n.IsVoter(source) || source == n.self then Done(n, [], [])
    else if response.term > n.term then
      var n1 := BecomeFollower(n, response.term, None);
      Done(n1, [n1.Durable()], [])
    else if n.role != Leader || response.term != n.term || source !in n.next || source !in n.matched then
      Done(n, [], [])
    else if response.success then
      if !PlausibleSuccess(n, response) then Done(n, [], [])
      else
        var n1 := RecordMatch(n, source, response.matchIndex);
        var n2 := Advance(n1);
        Done(n2, AdvanceSaves(n1),
             if n2.next[source] <= LastIndex(n2.log) then [MakeAppend(n2, source, 0)] else [])
    else if n.next[source] == 0 || response.prevIndex != n.next[source] - 1 ||
            n.matched[source] > response.prevIndex then
      Done(n, [], [])
    else
      var n1 := n.(next := n.next[source :=
                     NextAfterConflict(n.log, response.conflictIndex, response.conflictTerm)]);
      Done(n1, [], [MakeAppend(n1, source, 0)])
  }

  function Propose(n: NodeState, command: seq<Byte>): Done<Option<(LogIndex, seq<Outbound>)>>
    requires |n.log| > 0
  {
    if n.role != Leader then Done(n, [], None)
    else
      var n1 := n.(log := AppendOne(n.log, n.term, Command, command));
      var n2 := Advance(n1);
      Done(n2, [n1.Durable()] + AdvanceSaves(n1), Some((LastIndex(n1.log), ReplicateToAll(n2, 0))))
  }

  function ReadBarrier(n: NodeState, context: nat): seq<Outbound>
    requires |n.log| > 0
  {
    if n.role != Leader || context == 0 then [] else ReplicateToAll(n, context)
  }

  // ---------------------------------------------------------------- construction and restart

  function Fresh(self: NodeId, peers: seq<NodeId>, batch: nat): NodeState {
    NodeState(self, peers, batch, Follower, 0, None, None, [Sentinel], 0, {}, map[], map[])
  }

  /** The checks of the constructor on a loaded image. */
  predicate Loadable(image: Image, self: NodeId, peers: seq<NodeId>) {
    && image.term != 0
    && Restorable(image.entries)
    && image.commit <= LastIndex(image.entries)
    && (forall j :: 0 <= j < |image.entries| ==> image.entries[j].term <= image.term)
    && (image.votedFor.Some? ==> image.votedFor.value == self || image.votedFor.value in peers)
  }

  /** `RaftNode`'s constructor over the last saved image: None is a refused start. */
  function Restart(disk: Option<Image>, self: NodeId, peers: seq<NodeId>, batch: nat): Option<NodeState> {
    match disk
    case None => Some(Fresh(self, peers, batch))
    case Some(image) =>
      if !Loadable(image, self, peers) then None
      else Some(Fresh(self, peers, batch).(term := image.term, votedFor := image.votedFor,
                                           log := image.entries, commit := image.commit))
  }

  /** The image on disk once a handler's saves are through. */
  function DiskAfter(disk: Option<Image>, saves: seq<Image>): Option<Image> {
    if saves == [] then disk else Some(saves[|saves| - 1])
  }

  /** What the disk holds of a node that has not crashed. */
  predicate DiskCurrent(disk: Option<Image>, n: NodeState) {
    match disk
    case None => n.Durable() == Image(0, None, [Sentinel], 0)
    case Some(image) => image == n.Durable()
  }

  // ---------------------------------------------------------------- one event of the event thread

  datatype Event =
    | ElectionTimeout
    | Heartbeat
    | Client(command: seq<Byte>)
    | Barrier(context: nat)
    | Deliver(source: NodeId, payload: Payload)

  /** How `NodeService` dispatches an event; requests that misstate their sender are dropped. */
  function React(n: NodeState, event: Event): Done<seq<Outbound>>
    requires Contiguous(n.log)
  {
    match event
    case ElectionTimeout => if n.role == Leader then Done(n, [], []) else StartElection(n)
    case Heartbeat => Done(n, [], if n.role == Leader then ReplicateToAll(n, 0) else [])
    case Client(command) =>
      var r := Propose(n, command);
      Done(r.node, r.saves, if r.reply.Some? then r.reply.value.1 else [])
    case Barrier(context) => Done(n, [], ReadBarrier(n, context))
    case Deliver(source, AskVote(request)) =>
      if request.candidateId != source then Done(n, [], [])
      else
        var r := HandleVoteRequest(n, request);
        Done(r.node, r.saves, [Outbound(source, AnswerVote(r.reply))])
    case Deliver(source, AnswerVote(response)) => HandleVoteResponse(n, source, response)
    case Deliver(source, Append(request)) =>
      if request.leaderId != source then Done(n, [], [])
      else
        var r := HandleAppend(n, request);
        Done(r.node, r.saves, [Outbound(source, AnswerAppend(r.reply))])
    case Deliver(source, AnswerAppend(response)) => HandleAppendResponse(n, source, response)
  }

  // ---------------------------------------------------------------- persist before reply

  /** The saves bring the disk up to date with the new fields; the term has not fallen and a
      vote cast in a term has not changed within it. */
  predicate Persisted(disk: Option<Image>, before: NodeState, after: NodeState, saves: seq<Image>) {
    && DiskCurrent(DiskAfter(disk, saves), after)
    && before.term <= after.term
    && (before.term == after.term && before.votedFor.Some? ==> after.votedFor == before.votedFor)
  }

  lemma AdvancePersists(disk: Option<Image>, before: NodeState, n: NodeState, saves: seq<Image>)
    requires |n.log| > 0 && Persisted(disk, before, n, saves)
    ensures Persisted(disk, before, Advance(n), saves + AdvanceSaves(n))
  {
    if AdvanceSaves(n) == [] {
      assert saves + AdvanceSaves(n) == saves;
      assert Advance(n).Durable() == n.Durable();
    }
  }

  lemma ElectionPersists(disk: Option<Image>, n: NodeState)
    requires |n.log| > 0 && DiskCurrent(disk, n)
    ensures Persisted(disk, n, StartElection(n).node, StartElection(n).saves)
  {
    if n.term < MAX_WORD {
      var n1 := Campaign(n);
      AdvancePersists(disk, n, TakeOffice(n1), [n1.Durable(), TakeOffice(n1).Durable()]);
      assert [n1.Durable()] + ([TakeOffice(n1).Durable()] + AdvanceSaves(TakeOffice(n1))) ==
             [n1.Durable(), TakeOffice(n1).Durable()] + AdvanceSaves(TakeOffice(n1));
    }
  }

  lemma AppendPersists(disk: Option<Image>, n: NodeState, request: AppendRequest)
    requires Contiguous(n.log) && DiskCurrent(disk, n)
    ensures Persisted(disk, n, HandleAppend(n, request).node, HandleAppend(n, request).saves)
  {
    var n1 := FollowLeader(n, request);
    if request.term == n.term {
      assert n1.Durable() == n.Durable();
    }
  }

  lemma VoteResponsePersists(disk: Option<Image>, n: NodeState, source: NodeId, response: VoteResponse)
    requires |n.log| > 0 && DiskCurrent(disk, n)
    ensures var done := HandleVoteResponse(n, source, response);
            Persisted(disk, n, done.node, done.saves)
  {
    var office := TakeOffice(n.(votes := n.votes + {source}));
    AdvancePersists(disk, n, office, [office.Durable()]);
  }

  lemma AppendResponsePersists(disk: Option<Image>, n: NodeState, source: NodeId, response: AppendResponse)
    requires |n.log| > 0 && DiskCurrent(disk, n)
    ensures var done := HandleAppendResponse(n, source, response);
            Persisted(disk, n, done.node, done.saves)
  {
    hide MakeAppend, NextAfterConflict;
    if source in n.next && source in n.matched {
      var n1 := RecordMatch(n, source, response.matchIndex);
      AdvancePersists(disk, n, n1, []);
      assert [] + AdvanceSaves(n1) == AdvanceSaves(n1);
    }
  }

  /** At the return of every handler the last saved image equals term, vote, log and commit
      index in memory, so nothing a reply depends on is lost by a crash. */
  lemma PersistBeforeReply(disk: Option<Image>, n: NodeState, event: Event)
    requires Contiguous(n.log) && DiskCurrent(disk, n)
    ensures Persisted(disk, n, React(n, event).node, React(n, event).saves)
  {
    match event
    case ElectionTimeout => ElectionPersists(disk, n);
    case Heartbeat =>
    case Barrier(_) =>
    case Client(command) =>
      var n1 := n.(log := AppendOne(n.log, n.term, Command, command));
      AdvancePersists(disk, n, n1, [n1.Durable()]);
    case Deliver(source, AskVote(request)) =>
    case Deliver(source, AnswerVote(response)) => VoteResponsePersists(disk, n, source, response);
    case Deliver(source, Append(request)) => AppendPersists(disk, n, request);
    case Deliver(source, AnswerAppend(response)) => AppendResponsePersists(disk, n, source, response);
  }

  /** Restarting from that image resumes the same term, vote, log and commit index, and the
      constructor accepts it exactly when the fields in memory pass its checks or were never saved. */
  lemma RestartResumes(disk: Option<Image>, n: NodeState, event: Event)
    requires Contiguous(n.log) && DiskCurrent(disk, n)
    ensures var done := React(n, event);
            var saved := DiskAfter(disk, done.saves);
            var again := Restart(saved, n.self, n.peers, n.batch);
            && (again.Some? <==> saved.None? || Loadable(done.node.Durable(), n.self, n.peers))
            && (again.Some? ==> again.value.Durable() == done.node.Durable() && again.value.role == Follower)
  {
    PersistBeforeReply(disk, n, event);
  }
}
