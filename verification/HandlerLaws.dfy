/** What the handlers of `RaftNode` promise, said in terms of a node's fields and of the messages alone: when
    a vote is granted, when a candidate wins, when a batch is taken, what a leader sends and when. */
module HandlerLaws {
  import opened RaftTypes
  import opened LogSpec
  import opened NodeSpec
  import opened Quorum
  import opened CommitIndex
  import Membership

  predicate Voter(n: NodeState, id: NodeId) {
    id == n.self || id in n.peers
  }

  // ---------------------------------------------------------------- votes

  /** A vote is granted exactly to a voter whose term is not behind, while the node's vote of that term is free
      or the candidate's, and whose log ends in a later term, or in the same term no earlier. Only a
      newer term, or the grant, changes anything. */
  lemma VoteRule(n: NodeState, request: VoteRequest)
    requires |n.log| > 0
    ensures var done, last := HandleVoteRequest(n, request), n.log[|n.log| - 1];
            var heard := Voter(n, request.candidateId) && request.term >= n.term;
            var newer := heard && request.term > n.term;
            && (done.reply.granted <==>
                  && heard && (newer || n.votedFor == None || n.votedFor == Some(request.candidateId))
                  && (request.lastLogTerm > last.term ||
                      (request.lastLogTerm == last.term && request.lastLogIndex >= last.index)))
            && done.reply.electionTerm == request.term && done.reply.term == done.node.term
            && done.node.term == (if newer then request.term else n.term)
            && done.node.role == (if newer then Follower else n.role)
            && done.node.votedFor == (if done.reply.granted then Some(request.candidateId)
                                      else if newer then None else n.votedFor)
            && done.node.log == n.log && done.node.commit == n.commit
            && (!newer ==> done.node == n.(votedFor := done.node.votedFor))
  {
  }

  // ---------------------------------------------------------------- what a leader sends

  /** The request is the one due to the peer: from its cursor on, as much of the log as the batch limit allows,
      behind the entry before it. */
  ghost predicate DueTo(n: NodeState, peer: NodeId, context: nat, o: Outbound) {
    && |n.log| > 0 && o.destination == peer && o.payload.Append?
    && var q, first := o.payload.append, n.log[0].index;
       var next := if peer in n.next then n.next[peer] else n.log[|n.log| - 1].index + 1;
       && q.term == n.term && q.leaderId == n.self && q.leaderCommit == n.commit && q.readContext == context
       && (first < next <= first + |n.log| ==>
             var at := next - first;
             && q.prevIndex == next - 1 && q.prevTerm == n.log[at - 1].term
             && q.entries == n.log[at..at + Min(|n.log| - at, n.batch)])
  }

  lemma SendsWhatIsDue(n: NodeState, peer: NodeId, context: nat)
    requires Contiguous(n.log)
    ensures DueTo(n, peer, context, MakeAppend(n, peer, context))
  {
    var first := n.log[0].index;
    var next := if peer in n.next then n.next[peer] else LastIndex(n.log) + 1;
    if first < next <= first + |n.log| {
      assert OffsetOf(n.log, next - 1) == Some(next - 1 - first);
      if next - first == |n.log| {
        assert n.log[next - first..next - first] == [];
      }
    }
  }

  /** Every peer gets the request due to it, in order. */
  ghost predicate SentToAll(n: NodeState, context: nat, out: seq<Outbound>) {
    |out| == |n.peers| && forall i :: 0 <= i < |out| ==> DueTo(n, n.peers[i], context, out[i])
  }

  lemma BroadcastReachesAll(n: NodeState, context: nat)
    requires Contiguous(n.log)
    ensures SentToAll(n, context, ReplicateToAll(n, context))
  {
    hide DueTo, MakeAppend;
    forall i | 0 <= i < |n.peers| ensures DueTo(n, n.peers[i], context, ReplicateToAll(n, context)[i]) {
      SendsWhatIsDue(n, n.peers[i], context);
    }
  }

  /** A leader's heartbeat and its read barriers reach every peer, and change nothing; any other node is silent. */
  lemma BeatsAndBarriers(n: NodeState, context: nat)
    requires Contiguous(n.log)
    ensures React(n, Heartbeat).node == n && React(n, Barrier(context)).node == n
    ensures if n.role == Leader then SentToAll(n, 0, React(n, Heartbeat).reply) else React(n, Heartbeat).reply == []
    ensures if n.role == Leader && context != 0 then SentToAll(n, context, React(n, Barrier(context)).reply)
            else React(n, Barrier(context)).reply == []
  {
    hide SentToAll, ReplicateToAll;
    BroadcastReachesAll(n, 0);
    BroadcastReachesAll(n, context);
  }

  // ---------------------------------------------------------------- committing

  /** The commit index has moved to the greatest index of the leader's term that a strict majority of the
      members holds, if there is one above the old one. */
  ghost predicate CommittedExactly(n: NodeState, old_: LogIndex) {
    && |n.log| > 0 && old_ <= n.commit
    && (n.commit != old_ ==> TermAt(n.log, n.commit) == Some(n.term) && 2 * |Holders(n, n.commit)| > |n.peers| + 1)
    && forall k: LogIndex :: k > n.commit && TermAt(n.log, k) == Some(n.term) ==>
         2 * |Holders(n, k)| <= |n.peers| + 1
  }

  ghost predicate Member(n: NodeState) {
    Contiguous(n.log) && Distinct(n.peers) && n.self !in n.peers && n.commit <= LastIndex(n.log)
  }

  lemma AdvanceCommits(n: NodeState)
    requires Member(n) && n.role == Leader
    ensures Advance(n) == n.(commit := Advance(n).commit) && CommittedExactly(Advance(n), n.commit)
  {
    CommitIsExact(n);
    SameHolders(n, Advance(n).commit);
  }

  lemma SameHolders(n: NodeState, c: LogIndex)
    requires |n.log| > 0
    ensures forall k: LogIndex :: Holders(n.(commit := c), k) == Holders(n, k)
  {
  }

  // ---------------------------------------------------------------- winning an election

  /** A leader that has just taken office: its log has grown by a no-op of its term, every peer is taken to
      need the rest of the log from there on, and gets it. */
  ghost predicate InOffice(n: NodeState, n': NodeState, out: seq<Outbound>) {
    && |n.log| > 0 && n'.role == Leader && n'.term == n.term && n'.votedFor == n.votedFor
    && n'.leaderId == Some(n.self) && n'.self == n.self && n'.peers == n.peers && n'.batch == n.batch
    && n'.log == n.log + [LogEntry(n.log[|n.log| - 1].index + 1, n.term, NoOp, [])]
    && n'.next.Keys == n'.matched.Keys == Elements(n.peers)
    && (forall p :: p in n'.next ==> n'.next[p] == n.log[|n.log| - 1].index + 1 && n'.matched[p] == 0)
    && CommittedExactly(n', n.commit) && SentToAll(n', 0, out)
  }

  lemma OfficeTaken(n: NodeState, votes: set<NodeId>)
    requires Member(n)
    ensures var done := BecomeLeader(n.(votes := votes));
            done.node.role == Leader && InOffice(n, done.node, done.reply)
  {
    hide CommittedExactly, SentToAll, Advance, ReplicateToAll;
    var n1 := TakeOffice(n.(votes := votes));
    assert Elements(n.peers) == set p | p in n.peers;
    AdvanceCommits(n1);
    BroadcastReachesAll(Advance(n1), 0);
  }

  /** A candidate that is granted a vote of its term by another voter leads from then on if and only if more
      than half of the members have now voted for it; otherwise it goes on counting, in silence. */
  lemma VoteCounted(n: NodeState, source: NodeId, response: VoteResponse)
    requires Member(n) && n.role == Candidate && source in n.peers
    requires response.term == n.term == response.electionTerm && response.granted
    ensures var done, votes := HandleVoteResponse(n, source, response), n.votes + {source};
            && (done.node.role == Leader <==> 2 * |votes| > |n.peers| + 1)
            && (done.node.role == Leader ==> InOffice(n, done.node, done.reply))
            && (done.node.role != Leader ==> done == Done(n.(votes := votes), [], []))
  {
    hide InOffice, BecomeLeader;
    OfficeTaken(n, n.votes + {source});
  }

  /** A vote that does not count: from the node itself or a stranger, of another term, to no candidate, or
      refused. A newer term makes the node a follower of that term without a vote. */
  lemma VoteNotCounted(n: NodeState, source: NodeId, response: VoteResponse)
    requires |n.log| > 0
    requires || n.role != Candidate || source !in n.peers || source == n.self || response.term != n.term
             || response.electionTerm != n.term || !response.granted
    ensures var done, stepsDown := HandleVoteResponse(n, source, response),
                                   source in n.peers && source != n.self && response.term > n.term;
            && (!stepsDown ==> done.node == n) && done.reply == []
            && (stepsDown ==> && done.node.role == Follower && done.node.term == response.term
                              && done.node.votedFor == None && done.node.log == n.log && done.node.commit == n.commit)
  {
  }

  /** An election timeout starts a new term with the node's own vote, and every peer is asked for its vote, by
      a request that names the end of the log. */
  lemma ElectionStarted(n: NodeState)
    requires Contiguous(n.log) && n.role != Leader && n.term < MAX_WORD && n.peers != []
    ensures var done, last := React(n, ElectionTimeout), n.log[|n.log| - 1];
            && done.node == n.(role := Candidate, term := n.term + 1, votedFor := Some(n.self), leaderId := None,
                               votes := {n.self})
            && |done.reply| == |n.peers|
            && forall i :: 0 <= i < |n.peers| ==>
                 done.reply[i] == Outbound(n.peers[i], AskVote(VoteRequest(n.term + 1, n.self, last.index, last.term)))
  {
    hide BecomeLeader;
    var n1, last := Campaign(n), n.log[|n.log| - 1];
    assert !HasElectionQuorum(n1);
    assert React(n, ElectionTimeout) == Done(n1, [n1.Durable()], RequestVotes(n1));
    forall i | 0 <= i < |n.peers|
      ensures RequestVotes(n1)[i] ==
              Outbound(n.peers[i], AskVote(VoteRequest(n.term + 1, n.self, last.index, last.term)))
    {
      assert RequestVotes(n1)[i] ==
             Outbound(n1.peers[i], AskVote(VoteRequest(n1.term, n1.self, LastIndex(n1.log), LastTerm(n1.log))));
    }
  }

  /** The only member leads at once, and commits its no-op. */
  lemma ElectedAlone(n: NodeState)
    requires Member(n) && n.role != Leader && n.term < MAX_WORD && n.peers == []
    ensures var done, last := React(n, ElectionTimeout), n.log[|n.log| - 1];
            && done.node.role == Leader && done.node.term == n.term + 1 && done.node.votedFor == Some(n.self)
            && done.node.log == n.log + [LogEntry(last.index + 1, n.term + 1, NoOp, [])]
            && done.node.commit == last.index + 1
  {
    hide BecomeLeader, CommittedExactly;
    var n1 := Campaign(n);
    OfficeTaken(n1, n1.votes);
    assert n1.(votes := n1.votes) == n1;
    CommitsAlone(n1, BecomeLeader(n1).node);
  }

  lemma CommitsAlone(n: NodeState, n': NodeState)
    requires Member(n) && n'.peers == [] && n'.self == n.self && n'.term == n.term && CommittedExactly(n', n.commit)
    requires n'.log == n.log + [LogEntry(LastIndex(n.log) + 1, n.term, NoOp, [])]
    ensures n'.commit == LastIndex(n.log) + 1
  {
    var k := LastIndex(n.log) + 1;
    assert OffsetOf(n'.log, k) == Some(|n.log|);
    assert Holders(n', k) == {n.self};
  }

  /** A leader ignores the timer, and at the last term no election starts. */
  lemma NoElection(n: NodeState)
    requires Contiguous(n.log) && (n.role == Leader || n.term >= MAX_WORD)
    ensures React(n, ElectionTimeout) == Done(n, [], [])
  {
  }

  /** Elections of a fixed membership and of a node outside the joint phase are decided alike. */
  lemma SameElectionRule(n: NodeState, m: Membership.Members)
    requires m.peers == n.peers && m.joint.None?
    ensures HasElectionQuorum(n) <==> Membership.HasQuorum(m, n.votes)
    ensures HasElectionQuorum(n) <==> 2 * |n.votes| > |n.peers| + 1
  {
  }

  // ---------------------------------------------------------------- a leader's own entries

  /** A leader stores a command one past its log's end under its term, tells that index, and sends it to every
      peer; any other node refuses. */
  lemma ProposalStored(n: NodeState, command: seq<Byte>)
    requires Member(n)
    ensures var done := Propose(n, command);
            if n.role != Leader then done == Done(n, [], None)
            else
              && done.reply.Some? && var (index, out) := done.reply.value;
                 && index == n.log[|n.log| - 1].index + 1
                 && done.node == n.(log := n.log + [LogEntry(index, n.term, Command, command)],
                                    commit := done.node.commit)
                 && EntryAt(done.node.log, index) == Some(LogEntry(index, n.term, Command, command))
                 && CommittedExactly(done.node, n.commit) && SentToAll(done.node, 0, out)
  {
    hide CommittedExactly, SentToAll, Advance, ReplicateToAll;
    if n.role == Leader {
      var n1 := n.(log := AppendOne(n.log, n.term, Command, command));
      AdvanceCommits(n1);
      BroadcastReachesAll(Advance(n1), 0);
      assert OffsetOf(n1.log, LastIndex(n.log) + 1) == Some(|n.log|);
    }
  }

  // ---------------------------------------------------------------- append requests

  /** The request is from a voter in a term not behind the node's. */
  predicate FromCurrentLeader(n: NodeState, request: AppendRequest) {
    Voter(n, request.leaderId) && request.term >= n.term
  }

  /** The log has the entry before the batch. */
  predicate Continues(log: seq<LogEntry>, request: AppendRequest) {
    exists j :: 0 <= j < |log| && log[j].index == request.prevIndex && log[j].term == request.prevTerm
  }

  /** Whatever it answers, a node takes the sender for its leader exactly if the sender may be it. */
  lemma SenderFollowed(n: NodeState, request: AppendRequest)
    requires Contiguous(n.log)
    ensures var done := HandleAppend(n, request);
            && done.reply.prevIndex == request.prevIndex && done.reply.entryCount == |request.entries|
            && done.reply.readContext == request.readContext && done.reply.term == done.node.term
            && (FromCurrentLeader(n, request) ==>
                  && done.node.role == Follower && done.node.term == request.term
                  && done.node.leaderId == Some(request.leaderId)
                  && (request.term == n.term ==> done.node.votedFor == n.votedFor))
            && (!FromCurrentLeader(n, request) ==> done.node == n && done.saves == [] && !done.reply.success)
  {
  }

  /** A batch is taken exactly if its sender may lead, the log has the entry before it, and it can be stored
      there. Then it is acknowledged up to its last index, and a later commit index of the leader is taken
      over as far as the log goes. Otherwise log and commit index stay. */
  lemma BatchTaken(n: NodeState, request: AppendRequest)
    requires Contiguous(n.log)
    ensures var done, stored := HandleAppend(n, request), AppendFrom(n.log, request.prevIndex, request.entries);
            && (done.reply.success <==>
                  FromCurrentLeader(n, request) && Continues(n.log, request) && stored.Appended?)
            && (done.reply.success ==>
                  && done.node.log == stored.entries && |done.node.log| > 0
                  && done.reply.matchIndex == request.prevIndex + |request.entries|
                  && done.node.commit == if request.leaderCommit > n.commit
                                         then Min(request.leaderCommit, LastIndex(done.node.log)) else n.commit)
            && (!done.reply.success ==> done.node.log == n.log && done.node.commit == n.commit)
  {
    hide AppendFrom, ConflictHint, FollowLeader, TermAt, Continues;
    FollowKeeps(n, request);
    ContinuesIs(n.log, request);
    if AppendFrom(n.log, request.prevIndex, request.entries).Appended? {
      BatchNumbered(n.log, request.prevIndex, request.entries);
    }
  }

  lemma FollowKeeps(n: NodeState, request: AppendRequest)
    ensures FollowLeader(n, request).log == n.log && FollowLeader(n, request).commit == n.commit
  {
  }

  lemma ContinuesIs(log: seq<LogEntry>, request: AppendRequest)
    requires Contiguous(log)
    ensures Continues(log, request) <==> TermAt(log, request.prevIndex) == Some(request.prevTerm)
    ensures Continues(log, request) ==> request.prevIndex <= LastIndex(log)
  {
    if Continues(log, request) {
      var j :| 0 <= j < |log| && log[j].index == request.prevIndex && log[j].term == request.prevTerm;
      assert OffsetOf(log, request.prevIndex) == Some(j);
    }
    if OffsetOf(log, request.prevIndex).Some? {
      var j := OffsetOf(log, request.prevIndex).value;
      assert log[j].index == request.prevIndex;
    }
  }

  lemma BatchNumbered(e: seq<LogEntry>, previous: LogIndex, incoming: seq<LogEntry>)
    requires Contiguous(e) && AppendFrom(e, previous, incoming).Appended?
    ensures incoming != [] ==> incoming[|incoming| - 1].index == previous + |incoming|
    ensures |AppendFrom(e, previous, incoming).entries| > 0
  {
  }

  /** A batch is stored exactly if its predecessor's index is in the log and, unless it is empty, it is
      numbered on from there and its first entry that the log lacks does not clash with an entry of the same
      index and term. */
  lemma StorableExactly(e: seq<LogEntry>, previous: LogIndex, incoming: seq<LogEntry>)
    requires Contiguous(e)
    ensures AppendFrom(e, previous, incoming).Appended? <==>
              && e[0].index <= previous <= e[|e| - 1].index
              && (incoming != [] ==>
                    && previous != MAX_WORD
                    && (forall j :: 0 <= j < |incoming| ==>
                          incoming[j].index == previous + 1 + j && incoming[j].term != 0)
                    && !(exists j :: 0 <= j < |incoming| && Clashes(e, incoming, j)))
  {
    hide EntryAt, TermAt;
    if incoming != [] && OffsetOf(e, previous).Some? && previous != MAX_WORD && BatchValid(previous, incoming) {
      var k := Overlap(e, incoming);
      if k < |incoming| {
        ClashIs(e, incoming, k);
      }
      forall j | 0 <= j < |incoming| && Clashes(e, incoming, j) ensures j == k {
        ClashIs(e, incoming, j);
      }
    }
  }

  /** The log holds the batch up to entry j, but has another entry of its index and term. */
  ghost predicate Clashes(e: seq<LogEntry>, incoming: seq<LogEntry>, j: nat)
    requires j < |incoming|
  {
    && (forall i :: 0 <= i < j ==> incoming[i] in e) && incoming[j] !in e
    && exists m :: 0 <= m < |e| && e[m].index == incoming[j].index && e[m].term == incoming[j].term
  }

  lemma HoldsIs(e: seq<LogEntry>, entry: LogEntry)
    requires Contiguous(e)
    ensures Holds(e, entry) <==> entry in e
    ensures TermAt(e, entry.index) == Some(entry.term) <==>
            exists m :: 0 <= m < |e| && e[m].index == entry.index && e[m].term == entry.term
  {
    if OffsetOf(e, entry.index).Some? {
      var j := OffsetOf(e, entry.index).value;
      assert e[j].index == entry.index;
    }
    if m :| 0 <= m < |e| && e[m].index == entry.index && e[m].term == entry.term {
      assert OffsetOf(e, entry.index) == Some(m);
    }
    if entry in e {
      var m :| 0 <= m < |e| && e[m] == entry;
      assert OffsetOf(e, entry.index) == Some(m);
    }
  }

  lemma ClashIs(e: seq<LogEntry>, incoming: seq<LogEntry>, j: nat)
    requires Contiguous(e) && j < |incoming|
    ensures Clashes(e, incoming, j) <==>
              j == Overlap(e, incoming) && TermAt(e, incoming[j].index) == Some(incoming[j].term)
  {
    hide EntryAt, TermAt, Holds;
    var k := Overlap(e, incoming);
    HoldsIs(e, incoming[j]);
    forall i | 0 <= i < |incoming| ensures Holds(e, incoming[i]) <==> incoming[i] in e {
      HoldsIs(e, incoming[i]);
    }
    if j < k {
      assert Holds(e, incoming[j]);
    } else if k < j {
      assert !Holds(e, incoming[k]);
    }
  }

  /** The log has an entry at the index, of this term, and `first` is the first index of that term. */
  ghost predicate FirstOfItsTerm(log: seq<LogEntry>, index: LogIndex, term: Term, first: LogIndex) {
    && (exists j :: 0 <= j < |log| && log[j].index == index && log[j].term == term)
    && exists j :: 0 <= j < |log| && log[j].index == first && log[j].term == term &&
         forall m :: 0 <= m < j ==> log[m].term != term
  }

  lemma HintIs(log: seq<LogEntry>, previous: LogIndex)
    requires Contiguous(log) && log[0].index <= previous <= LastIndex(log)
    ensures var (index, term) := ConflictHint(log, previous);
            term.Some? && FirstOfItsTerm(log, previous, term.value, index)
  {
    var at := OffsetOf(log, previous).value;
    assert log[at].index == previous && TermAt(log, previous) == Some(log[at].term);
    FirstOfTermFinds(log, log[at].term);
  }

  /** The hint of a follower without the entry before the batch: behind its log's end if the log is too short,
      otherwise the term of the entry it has there and the first index of that term. */
  lemma RefusalHint(n: NodeState, request: AppendRequest)
    requires Contiguous(n.log) && n.log[0].index <= request.prevIndex
    requires FromCurrentLeader(n, request) && !Continues(n.log, request)
    ensures var r, last := HandleAppend(n, request).reply, n.log[|n.log| - 1].index;
            if request.prevIndex > last then r.conflictIndex == last + 1 && r.conflictTerm == None
            else r.conflictTerm.Some? && FirstOfItsTerm(n.log, request.prevIndex, r.conflictTerm.value, r.conflictIndex)
  {
    hide AppendFrom, ConflictHint, FollowLeader, TermAt, Continues, FirstOfItsTerm;
    FollowKeeps(n, request);
    ContinuesIs(n.log, request);
    if request.prevIndex <= LastIndex(n.log) {
      HintIs(n.log, request.prevIndex);
    }
  }

  /** Every request that names its sender gets exactly one answer, to that sender; one that does not is dropped. */
  lemma EveryRequestAnswered(n: NodeState, source: NodeId, ask: VoteRequest, append: AppendRequest)
    requires Contiguous(n.log)
    ensures var done, handled := React(n, Deliver(source, AskVote(ask))), HandleVoteRequest(n, ask);
            if ask.candidateId != source then done == Done(n, [], [])
            else done == Done(handled.node, handled.saves, [Outbound(source, AnswerVote(handled.reply))])
    ensures var done, handled := React(n, Deliver(source, Append(append))), HandleAppend(n, append);
            if append.leaderId != source then done == Done(n, [], [])
            else done == Done(handled.node, handled.saves, [Outbound(source, AnswerAppend(handled.reply))])
  {
    hide HandleVoteRequest, HandleAppend;
  }

  /** Responses and client commands go to their handlers, whose messages are all sent. */
  lemma EveryResponseHandled(n: NodeState, source: NodeId, vote: VoteResponse, answer: AppendResponse,
                             command: seq<Byte>)
    requires Contiguous(n.log)
    ensures React(n, Deliver(source, AnswerVote(vote))) == HandleVoteResponse(n, source, vote)
    ensures React(n, Deliver(source, AnswerAppend(answer))) == HandleAppendResponse(n, source, answer)
    ensures var done, proposed := React(n, Client(command)), Propose(n, command);
            && done.node == proposed.node && done.saves == proposed.saves
            && done.reply == if proposed.reply.Some? then proposed.reply.value.1 else []
  {
    hide HandleVoteResponse, HandleAppendResponse, Propose;
  }

  // ---------------------------------------------------------------- append responses

  /** A response from a peer whose progress the leader follows, of the leader's term. */
  predicate OfOwnTerm(n: NodeState, source: NodeId, r: AppendResponse) {
    && n.role == Leader && source in n.peers && source != n.self && source in n.next && source in n.matched
    && r.term == n.term
  }

  /** The indexes of a success fit together and lie in the log. */
  predicate Plausible(n: NodeState, r: AppendResponse)
    requires |n.log| > 0
  {
    && r.prevIndex <= r.matchIndex <= LastIndex(n.log) && r.matchIndex == r.prevIndex + r.entryCount
    && r.matchIndex <= MAX_WORD
  }

  lemma PlausibleIs(n: NodeState, r: AppendResponse)
    requires |n.log| > 0 && LastIndex(n.log) <= MAX_WORD
    ensures PlausibleSuccess(n, r) <==> Plausible(n, r)
  {
  }

  /** A success moves the peer's cursors forward and the commit index where it belongs. The answer is the next
      batch if anything is left to send, and silence otherwise. */
  lemma SuccessAnswered(n: NodeState, source: NodeId, r: AppendResponse)
    requires Member(n) && LastIndex(n.log) <= MAX_WORD && OfOwnTerm(n, source, r) && r.success && Plausible(n, r)
    ensures var done := HandleAppendResponse(n, source, r);
            var n' := done.node;
            && n' == n.(matched := n.matched[source := Max(n.matched[source], r.matchIndex)],
                        next := n.next[source := Max(n.next[source], r.matchIndex + 1)], commit := n'.commit)
            && CommittedExactly(n', n.commit)
            && if n'.next[source] <= LastIndex(n.log)
               then |done.reply| == 1 && DueTo(n', source, 0, done.reply[0]) else done.reply == []
  {
    hide CommittedExactly, DueTo, Advance, MakeAppend;
    PlausibleIs(n, r);
    var n1 := RecordMatch(n, source, r.matchIndex);
    AdvanceCommits(n1);
    SendsWhatIsDue(Advance(n1), source, 0);
  }

  /** That batch is never empty. */
  lemma SomethingIsSent(n: NodeState, source: NodeId, o: Outbound)
    requires Contiguous(n.log) && DueTo(n, source, 0, o) && source in n.next && n.batch >= 1
    requires n.log[0].index < n.next[source] <= LastIndex(n.log)
    ensures o.payload.append.entries != [] && o.payload.append.entries[0].index == n.next[source]
  {
  }

  /** Where a leader resumes: one past its last entry of the term in the hint, if it has one, else at the index in
      the hint; within its log, never at or below the boundary. */
  ghost predicate ResumesAt(log: seq<LogEntry>, hint: LogIndex, term: Option<Term>, next: LogIndex)
    requires |log| > 0
  {
    var first, last := log[0].index, log[|log| - 1].index;
    var floor := if first == MAX_WORD then first else first + 1;
    if term.Some? && (exists j :: 0 <= j < |log| && log[j].term == term.value) then
      exists j :: 0 <= j < |log| && log[j].term == term.value &&
        (forall m :: j < m < |log| ==> log[m].term != term.value) &&
        next == Min(Max(floor, log[j].index + 1), last + 1)
    else next == Min(Max(floor, hint), last + 1)
  }

  lemma ResumesThere(log: seq<LogEntry>, hint: LogIndex, term: Option<Term>)
    requires |log| > 0
    ensures ResumesAt(log, hint, term, NextAfterConflict(log, hint, term))
  {
    if term.Some? {
      LastOfTermFinds(log, term.value);
    }
  }

  /** A refusal of the request last sent moves the cursor to where the hint says, and the answer is the request due
      from there. */
  lemma RefusalAnswered(n: NodeState, source: NodeId, r: AppendResponse)
    requires Contiguous(n.log) && OfOwnTerm(n, source, r) && !r.success
    requires n.next[source] > 0 && r.prevIndex == n.next[source] - 1 && n.matched[source] <= r.prevIndex
    ensures var done := HandleAppendResponse(n, source, r);
            && source in done.node.next && ResumesAt(n.log, r.conflictIndex, r.conflictTerm, done.node.next[source])
            && done.node == n.(next := n.next[source := done.node.next[source]])
            && |done.reply| == 1 && DueTo(done.node, source, 0, done.reply[0])
  {
    hide DueTo, MakeAppend, NextAfterConflict, ResumesAt;
    ResumesThere(n.log, r.conflictIndex, r.conflictTerm);
    var n1 := n.(next := n.next[source := NextAfterConflict(n.log, r.conflictIndex, r.conflictTerm)]);
    SendsWhatIsDue(n1, source, 0);
  }

  /** Anything else is ignored: strangers, old terms, impossible indexes, outdated refusals. A newer term makes
      the node a follower of that term without a vote. */
  lemma ResponseIgnored(n: NodeState, source: NodeId, r: AppendResponse)
    requires |n.log| > 0 && LastIndex(n.log) <= MAX_WORD
    requires || !OfOwnTerm(n, source, r)
             || (r.success && !Plausible(n, r))
             || (!r.success && (n.next[source] == 0 || r.prevIndex != n.next[source] - 1 ||
                                n.matched[source] > r.prevIndex))
    ensures var done := HandleAppendResponse(n, source, r);
            var stepsDown := source in n.peers && source != n.self && r.term > n.term;
            && (!stepsDown ==> done.node == n) && done.reply == []
            && (stepsDown ==> && done.node.role == Follower && done.node.term == r.term
                              && done.node.votedFor == None && done.node.log == n.log && done.node.commit == n.commit)
  {
    hide MakeAppend, NextAfterConflict, Advance;
    PlausibleIs(n, r);
  }
}
