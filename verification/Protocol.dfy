/** The consensus core as a system of atomic steps over all nodes: each step is one change that
    the source makes durable before anything depends on it.

    Messages stay in the network for ever, so every loss, duplication and reordering is some
    choice of deliveries. The history records what terms did; no step reads it. A handler of the
    source is a few of these steps in a row; `Simulation` says which. */
module Protocol {
  import opened RaftTypes
  import opened LogSpec
  import opened NodeSpec

  datatype Message = Message(source: NodeId, destination: NodeId, payload: Payload)

  datatype History = History(
    logs: map<Term, seq<LogEntry>>,               // the longest log of each elected leader
    leaders: map<Term, NodeId>,
    commits: map<Term, LogIndex>,                 // what each leader committed in its own term
    cands: map<(Term, NodeId), seq<LogEntry>>,    // the log each candidate campaigned with
    votes: map<(Term, NodeId), NodeId>,           // whom each voter chose
    acks: map<(Term, NodeId), LogIndex>)          // how far each node stored its leader's log

  datatype State = State(nodes: map<NodeId, NodeState>, net: set<Message>, hist: History)

  function From(source: NodeId, out: seq<Outbound>): set<Message> {
    set o | o in out :: Message(source, o.destination, o.payload)
  }

  predicate IsNode(s: State, i: NodeId) {
    i in s.nodes && |s.nodes[i].log| > 0
  }

  function Put(s: State, i: NodeId, n: NodeState): State {
    s.(nodes := s.nodes[i := n])
  }

  // ---------------------------------------------------------------- steps

  /** startElection up to its save. */
  function CampaignStep(s: State, i: NodeId): State
    requires IsNode(s, i)
  {
    var n := Campaign(s.nodes[i]);
    Put(s, i, n).(net := s.net + From(i, RequestVotes(n)),
                  hist := s.hist.(cands := s.hist.cands[(n.term, i) := n.log],
                                  votes := s.hist.votes[(n.term, i) := i]))
  }

  /** becomeFollower, and, at the same term, a crash and restart. */
  function RaiseStep(s: State, i: NodeId, term: Term, leader: Option<NodeId>): State
    requires IsNode(s, i)
  {
    Put(s, i, BecomeFollower(s.nodes[i], term, leader))
  }

  predicate MayGrant(n: NodeState, request: VoteRequest)
    requires |n.log| > 0
  {
    && request.term == n.term
    && (n.votedFor == None || n.votedFor == Some(request.candidateId))
    && UpToDate(request.lastLogIndex, request.lastLogTerm, n.log)
  }

  /** The granting branch of handleRequestVote. */
  function GrantStep(s: State, i: NodeId, request: VoteRequest): State
    requires IsNode(s, i)
  {
    var n := s.nodes[i].(votedFor := Some(request.candidateId));
    var reply := Message(i, request.candidateId, AnswerVote(VoteResponse(n.term, request.term, true)));
    Put(s, i, n).(net := s.net + {reply},
                  hist := s.hist.(votes := s.hist.votes[(n.term, i) := request.candidateId]))
  }

  /** A refused vote is only a message. */
  function RefuseStep(s: State, i: NodeId, candidate: NodeId, term: Term): State
    requires IsNode(s, i)
  {
    s.(net := s.net + {Message(i, candidate, AnswerVote(VoteResponse(s.nodes[i].term, term, false)))})
  }

  function CountStep(s: State, i: NodeId, voter: NodeId): State
    requires IsNode(s, i)
  {
    Put(s, i, s.nodes[i].(votes := s.nodes[i].votes + {voter}))
  }

  /** becomeLeader up to its save. */
  function OfficeStep(s: State, i: NodeId): State
    requires IsNode(s, i)
  {
    var n := TakeOffice(s.nodes[i]);
    Put(s, i, n).(hist := s.hist.(logs := s.hist.logs[n.term := n.log],
                                  leaders := s.hist.leaders[n.term := i],
                                  acks := s.hist.acks[(n.term, i) := |n.log| - 1]))
  }

  /** A leader's local append. */
  function ExtendStep(s: State, i: NodeId, command: seq<Byte>): State
    requires IsNode(s, i)
  {
    var n := s.nodes[i].(log := AppendOne(s.nodes[i].log, s.nodes[i].term, Command, command));
    Put(s, i, n).(hist := s.hist.(logs := s.hist.logs[n.term := n.log],
                                  acks := s.hist.acks[(n.term, i) := |n.log| - 1]))
  }

  /** advanceCommitIndex. */
  function AdvanceStep(s: State, i: NodeId): State
    requires IsNode(s, i)
  {
    var n := Advance(s.nodes[i]);
    if n.commit == s.nodes[i].commit then s
    else Put(s, i, n).(hist := s.hist.(commits := s.hist.commits[n.term := n.commit]))
  }

  function SendStep(s: State, i: NodeId, peer: NodeId, context: nat): State
    requires IsNode(s, i)
  {
    s.(net := s.net + From(i, [MakeAppend(s.nodes[i], peer, context)]))
  }

  /** handleAppendEntries when the consistency check fails. */
  function RejectStep(s: State, i: NodeId, request: AppendRequest, conflictIndex: LogIndex,
                      conflictTerm: Option<Term>): State
    requires IsNode(s, i)
  {
    s.(net := s.net + {Message(i, request.leaderId, AnswerAppend(
         AppendResponse(s.nodes[i].term, false, request.prevIndex, |request.entries|, 0,
                        conflictIndex, conflictTerm, request.readContext)))})
  }

  /** handleAppendEntries when the log matches at the batch's predecessor: the merged log, the
      clamped commit index and the acknowledgement. */
  function AcceptStep(s: State, i: NodeId, request: AppendRequest, log: seq<LogEntry>): State
    requires IsNode(s, i) && |log| > 0
  {
    var n := Accepted(s.nodes[i], request, log);
    var top := request.prevIndex + |request.entries|;
    var key := (request.term, i);
    var reply := AppendResponse(n.term, true, request.prevIndex, |request.entries|, top, top + 1, None,
                                request.readContext);
    Put(s, i, n).(net := s.net + {Message(i, request.leaderId, AnswerAppend(reply))},
                  hist := s.hist.(acks := s.hist.acks[key := if key in s.hist.acks then Max(s.hist.acks[key], top)
                                                             else top]))
  }

  function Accepted(n: NodeState, request: AppendRequest, log: seq<LogEntry>): NodeState
    requires |log| > 0
  {
    n.(leaderId := Some(request.leaderId), log := log,
       commit := if request.leaderCommit > n.commit then Min(request.leaderCommit, |log| - 1) else n.commit)
  }

  /** The success branch of handleAppendEntriesResponse, before the commit scan. */
  function MatchStep(s: State, i: NodeId, source: NodeId, index: LogIndex): State
    requires IsNode(s, i) && source in s.nodes[i].next && source in s.nodes[i].matched
  {
    Put(s, i, RecordMatch(s.nodes[i], source, index))
  }

  /** The failure branch of handleAppendEntriesResponse. */
  function BackoffStep(s: State, i: NodeId, source: NodeId, response: AppendResponse): State
    requires IsNode(s, i)
  {
    var n := s.nodes[i];
    Put(s, i, n.(next := n.next[source := NextAfterConflict(n.log, response.conflictIndex, response.conflictTerm)]))
  }
}
