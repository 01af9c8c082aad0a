/** Every step of the cluster, crashes inside handlers included, is a sequence of protocol steps.

    A handler saves its durable fields between zero and three times and sends its messages last.
    For every event and every save on the way `AccountFor` gives a protocol state with exactly
    those durable fields, and one for the handler's return. All of them satisfy the invariant and
    differ from the state before the event only in the node that handled it.

    So a node that dies after some of the saves comes back in a state that the protocol knows, and
    nothing it sent before dying depends on what was lost. The lemmas go handler by handler: each
    names the protocol steps that the handler is made of and follows its saves. */
module Simulation {
  import opened RaftTypes
  import opened LogSpec
  import opened NodeSpec
  import opened Quorum
  import opened Protocol
  import opened Invariant
  import opened Stability
  import opened Elections
  import opened Replication
  import opened Cluster

  /** The disk holds the node's durable fields, and never an image of the unused term 0. */
  predicate DiskSound(disk: Option<Image>, n: NodeState) {
    DiskCurrent(disk, n) && (disk.Some? ==> n.term >= 1)
  }

  /** The protocol state that follows a cluster state. */
  ghost predicate Follows(s: State, c: Cluster) {
    && Inv(s)
    && s.nodes.Keys == c.servers.Keys
    && (forall i :: i in c.servers ==>
          s.nodes[i] == c.servers[i].node && DiskSound(c.servers[i].disk, c.servers[i].node))
    && c.net <= s.net
  }

  /** States that differ from s only at node i, in the network, and in a grown history. */
  ghost predicate Beside(s: State, s': State, i: NodeId) {
    && Inv(s') && Later(s, s') && i in s.nodes && s.net <= s'.net
    && forall j :: j in s.nodes && j != i ==> s'.nodes[j] == s.nodes[j]
  }

  /** One protocol state per save, each with that image as its durable fields. */
  ghost predicate SavePath(s: State, i: NodeId, saves: seq<Image>, path: seq<State>) {
    && |path| == |saves| + 1 && path[0] == s
    && forall k :: 0 <= k < |path| ==>
         && Beside(s, path[k], i)
         && path[k].nodes[i].self == s.nodes[i].self && path[k].nodes[i].peers == s.nodes[i].peers
         && path[k].nodes[i].batch == s.nodes[i].batch
         && (k > 0 ==> path[k].nodes[i].Durable() == saves[k - 1])
  }

  /** The protocol's account of one handler: the saves on the way, and the state at its return. */
  ghost predicate Account(s: State, i: NodeId, event: Event, path: seq<State>, end: State)
    requires i in s.nodes && Contiguous(s.nodes[i].log)
  {
    var done := React(s.nodes[i], event);
    && SavePath(s, i, done.saves, path)
    && Beside(s, end, i) && end.nodes[i] == done.node && From(i, done.reply) <= end.net
  }

  // ---------------------------------------------------------------- composition

  lemma CommitsInRange(s: State)
    requires Inv(s)
    ensures forall i :: i in s.nodes ==> s.nodes[i].commit < |s.nodes[i].log|
  {
    forall i | i in s.nodes ensures s.nodes[i].commit < |s.nodes[i].log| {
      assert NodeInv(s, i);
    }
  }

  lemma BesideSelf(s: State, i: NodeId)
    requires Inv(s) && i in s.nodes
    ensures Beside(s, s, i)
  {
  }

  lemma BesideThen(a: State, b: State, c: State, i: NodeId)
    requires Beside(a, b, i) && Beside(b, c, i)
    ensures Beside(a, c, i)
  {
    CommitsInRange(b);
    LaterTransitive(a, b, c);
  }

  // ---------------------------------------------------------------- leaders sending

  /** Replicating to every peer, with any read context. */
  lemma SendAll(s: State, i: NodeId, context: nat) returns (s': State)
    requires Inv(s) && i in s.nodes && IsNode(s, i) && s.nodes[i].role == Leader
    ensures Beside(s, s', i) && s'.nodes == s.nodes && From(i, ReplicateToAll(s.nodes[i], context)) <= s'.net
  {
    var n := s.nodes[i];
    s' := s;
    BesideSelf(s, i);
    for k := 0 to |n.peers|
      invariant Beside(s, s', i) && s'.nodes == s.nodes
      invariant forall j :: 0 <= j < k ==> Message(i, n.peers[j], MakeAppend(n, n.peers[j], context).payload) in s'.net
    {
      SendKeeps(s', i, n.peers[k], context);
      var s'' := SendStep(s', i, n.peers[k], context);
      assert MakeAppend(n, n.peers[k], context) in [MakeAppend(n, n.peers[k], context)];
      BesideThen(s, s', s'', i);
      s' := s'';
    }
  }

  ghost predicate SameConfig(n: NodeState, n': NodeState) {
    n'.self == n.self && n'.peers == n.peers && n'.batch == n.batch
  }

  lemma PathNone(s: State, i: NodeId)
    requires Inv(s) && i in s.nodes
    ensures SavePath(s, i, [], [s])
  {
  }

  lemma PathOne(s: State, s1: State, i: NodeId)
    requires Inv(s) && Beside(s, s1, i) && SameConfig(s.nodes[i], s1.nodes[i])
    ensures SavePath(s, i, [s1.nodes[i].Durable()], [s, s1])
  {
  }

  lemma PathMore(s: State, s1: State, i: NodeId, saves: seq<Image>, path: seq<State>)
    requires Inv(s) && Beside(s, s1, i) && SameConfig(s.nodes[i], s1.nodes[i]) && SavePath(s1, i, saves, path)
    ensures SavePath(s, i, [s1.nodes[i].Durable()] + saves, [s] + path)
  {
    forall k | 0 <= k < |path| ensures Beside(s, path[k], i) {
      BesideThen(s, s1, path[k], i);
    }
  }

  /** The commit scan and its save. */
  lemma Advanced(s: State, i: NodeId) returns (path: seq<State>, end: State)
    requires Inv(s) && i in s.nodes && IsNode(s, i) && s.nodes[i].role == Leader
    ensures SavePath(s, i, AdvanceSaves(s.nodes[i]), path)
    ensures Beside(s, end, i) && end.nodes[i] == Advance(s.nodes[i])
  {
    end := AdvanceStep(s, i);
    AdvanceKeeps(s, i);
    assert Beside(s, end, i);
    if AdvanceSaves(s.nodes[i]) == [] {
      PathNone(s, i);
      path := [s];
    } else {
      PathOne(s, end, i);
      path := [s, end];
    }
  }

  /** What follows a leader's own append: the commit scan, its save, and replication. */
  lemma AdvanceAndSend(s: State, i: NodeId) returns (path: seq<State>, end: State)
    requires Inv(s) && i in s.nodes && IsNode(s, i) && s.nodes[i].role == Leader
    ensures SavePath(s, i, AdvanceSaves(s.nodes[i]), path)
    ensures Beside(s, end, i) && end.nodes[i] == Advance(s.nodes[i])
    ensures From(i, ReplicateToAll(Advance(s.nodes[i]), 0)) <= end.net
  {
    var s1;
    path, s1 := Advanced(s, i);
    end := SendAll(s1, i, 0);
    BesideThen(s, s1, end, i);
  }

  lemma AccountOffice(s: State, i: NodeId) returns (path: seq<State>, end: State)
    requires Inv(s) && i in s.nodes && IsNode(s, i) && s.nodes[i].role == Candidate && HasElectionQuorum(s.nodes[i])
    ensures var done := BecomeLeader(s.nodes[i]);
            && SavePath(s, i, done.saves, path)
            && Beside(s, end, i) && end.nodes[i] == done.node && From(i, done.reply) <= end.net
  {
    var s1 := OfficeStep(s, i);
    OfficeKeeps(s, i);
    assert Beside(s, s1, i);
    var rest;
    rest, end := AdvanceAndSend(s1, i);
    PathMore(s, s1, i, AdvanceSaves(s1.nodes[i]), rest);
    path := [s] + rest;
    BesideThen(s, s1, end, i);
  }

  lemma AccountElection(s: State, i: NodeId) returns (path: seq<State>, end: State)
    requires Inv(s) && i in s.nodes && IsNode(s, i)
    ensures var done := StartElection(s.nodes[i]);
            && SavePath(s, i, done.saves, path)
            && Beside(s, end, i) && end.nodes[i] == done.node && From(i, done.reply) <= end.net
  {
    if s.nodes[i].term >= MAX_WORD {
      PathNone(s, i);
      return [s], s;
    }
    var s1 := CampaignStep(s, i);
    CampaignKeeps(s, i);
    assert Beside(s, s1, i);
    if HasElectionQuorum(s1.nodes[i]) {
      var rest;
      rest, end := AccountOffice(s1, i);
      PathMore(s, s1, i, BecomeLeader(s1.nodes[i]).saves, rest);
      path := [s] + rest;
      BesideThen(s, s1, end, i);
    } else {
      PathOne(s, s1, i);
      path, end := [s, s1], s1;
    }
  }

  lemma AccountClient(s: State, i: NodeId, command: seq<Byte>) returns (path: seq<State>, end: State)
    requires Inv(s) && i in s.nodes && IsNode(s, i) && Contiguous(s.nodes[i].log) && command != []
    ensures Account(s, i, Client(command), path, end)
  {
    if s.nodes[i].role != Leader {
      PathNone(s, i);
      return [s], s;
    }
    var s1 := ExtendStep(s, i, command);
    ExtendKeeps(s, i, command);
    assert Beside(s, s1, i);
    var rest;
    rest, end := AdvanceAndSend(s1, i);
    PathMore(s, s1, i, AdvanceSaves(s1.nodes[i]), rest);
    path := [s] + rest;
    BesideThen(s, s1, end, i);
  }

  // ---------------------------------------------------------------- votes

  /** becomeFollower with a newer term, as one protocol step with its save. */
  lemma Raised(s: State, i: NodeId, term: Term, leader: Option<NodeId>) returns (s1: State)
    requires Inv(s) && i in s.nodes && IsNode(s, i) && term >= s.nodes[i].term
    ensures s1 == RaiseStep(s, i, term, leader) && Beside(s, s1, i)
    ensures SavePath(s, i, [s1.nodes[i].Durable()], [s, s1])
  {
    s1 := RaiseStep(s, i, term, leader);
    RaiseKeeps(s, i, term, leader);
    PathOne(s, s1, i);
  }

  /** The answer to a vote request, once any newer term has been taken over. */
  lemma Answered(s: State, s1: State, i: NodeId, request: VoteRequest) returns (end: State)
    requires Beside(s, s1, i) && IsNode(s1, i) && Message(request.candidateId, i, AskVote(request)) in s.net
    ensures Beside(s, end, i)
    ensures end == if MayGrant(s1.nodes[i], request) then GrantStep(s1, i, request)
                   else RefuseStep(s1, i, request.candidateId, request.term)
  {
    assert MessageInv(s1, Message(request.candidateId, i, AskVote(request)));
    if MayGrant(s1.nodes[i], request) {
      end := GrantStep(s1, i, request);
      GrantKeeps(s1, i, request);
    } else {
      end := RefuseStep(s1, i, request.candidateId, request.term);
      RefuseKeeps(s1, i, request.candidateId, request.term);
    }
    BesideThen(s, s1, end, i);
  }

  lemma AccountAskRaised(s: State, i: NodeId, request: VoteRequest) returns (path: seq<State>, end: State)
    requires Inv(s) && i in s.nodes && IsNode(s, i) && Contiguous(s.nodes[i].log)
    requires Message(request.candidateId, i, AskVote(request)) in s.net
    requires s.nodes[i].IsVoter(request.candidateId) && request.term > s.nodes[i].term
    ensures Account(s, i, Deliver(request.candidateId, AskVote(request)), path, end)
  {
    hide Inv, SavePath, Later, Distinct, Elements, UpToDate;
    var s1 := Raised(s, i, request.term, None);
    end := Answered(s, s1, i, request);
    PathOne(s, end, i);
    path := [s, end];
  }

  lemma AccountAskSame(s: State, i: NodeId, request: VoteRequest) returns (path: seq<State>, end: State)
    requires Inv(s) && i in s.nodes && IsNode(s, i) && Contiguous(s.nodes[i].log)
    requires Message(request.candidateId, i, AskVote(request)) in s.net
    requires s.nodes[i].IsVoter(request.candidateId) && request.term == s.nodes[i].term
    ensures Account(s, i, Deliver(request.candidateId, AskVote(request)), path, end)
  {
    hide Inv, SavePath, Later, Distinct, Elements, UpToDate;
    BesideSelf(s, i);
    end := Answered(s, s, i, request);
    if MayGrant(s.nodes[i], request) && s.nodes[i].votedFor == None {
      PathOne(s, end, i);
      path := [s, end];
    } else {
      PathNone(s, i);
      path := [s];
    }
  }

  lemma AccountAskStale(s: State, i: NodeId, request: VoteRequest) returns (path: seq<State>, end: State)
    requires Inv(s) && i in s.nodes && IsNode(s, i) && Contiguous(s.nodes[i].log)
    requires Message(request.candidateId, i, AskVote(request)) in s.net
    requires request.term < s.nodes[i].term
    ensures Account(s, i, Deliver(request.candidateId, AskVote(request)), path, end)
  {
    hide Inv, SavePath, Later, Distinct, Elements, UpToDate;
    BesideSelf(s, i);
    end := Answered(s, s, i, request);
    PathNone(s, i);
    path := [s];
  }

  lemma AccountAsk(s: State, i: NodeId, request: VoteRequest) returns (path: seq<State>, end: State)
    requires Inv(s) && i in s.nodes && IsNode(s, i) && Contiguous(s.nodes[i].log)
    requires Message(request.candidateId, i, AskVote(request)) in s.net
    ensures Account(s, i, Deliver(request.candidateId, AskVote(request)), path, end)
  {
    SenderIsVoter(s, i, Message(request.candidateId, i, AskVote(request)));
    if request.term > s.nodes[i].term {
      path, end := AccountAskRaised(s, i, request);
    } else if request.term == s.nodes[i].term {
      path, end := AccountAskSame(s, i, request);
    } else {
      path, end := AccountAskStale(s, i, request);
    }
  }

  /** Messages only ever come from the other voters. */
  lemma SenderIsVoter(s: State, i: NodeId, m: Message)
    requires Inv(s) && i in s.nodes && m in s.net && m.destination == i
    ensures s.nodes[i].IsVoter(m.source) && m.source != s.nodes[i].self && m.source in s.nodes
  {
    assert MessageInv(s, m) && NodeInv(s, i);
    assert m.source in Elements(s.nodes[i].peers);
  }

  lemma AccountVote(s: State, i: NodeId, source: NodeId, response: VoteResponse) returns (path: seq<State>, end: State)
    requires Inv(s) && i in s.nodes && IsNode(s, i) && Contiguous(s.nodes[i].log)
    requires Message(source, i, AnswerVote(response)) in s.net
    ensures Account(s, i, Deliver(source, AnswerVote(response)), path, end)
  {
    var n := s.nodes[i];
    PathNone(s, i);
    BesideSelf(s, i);
    path, end := [s], s;
    if !n.IsVoter(source) || source == n.self {
    } else if response.term > n.term {
      end := Raised(s, i, response.term, None);
      path := [s, end];
    } else if n.role == Candidate && response.term == n.term && response.electionTerm == n.term && response.granted {
      var s1 := CountStep(s, i, source);
      CountKeeps(s, i, source, response);
      assert Beside(s, s1, i);
      if HasElectionQuorum(s1.nodes[i]) {
        path, end := AccountOffice(s1, i);
        BesideThen(s, s1, end, i);
        path := RebasePath(s, s1, i, BecomeLeader(s1.nodes[i]).saves, path);
      } else {
        end := s1;
      }
    }
  }

  /** A path that starts after a step with no save also starts before it. */
  lemma RebasePath(s: State, s1: State, i: NodeId, saves: seq<Image>, path: seq<State>) returns (path': seq<State>)
    requires Inv(s) && Beside(s, s1, i) && SameConfig(s.nodes[i], s1.nodes[i]) && SavePath(s1, i, saves, path)
    ensures SavePath(s, i, saves, path')
  {
    path' := path[0 := s];
    forall k | 0 <= k < |path'| ensures Beside(s, path'[k], i) {
      if k > 0 {
        BesideThen(s, s1, path[k], i);
      } else {
        BesideSelf(s, i);
      }
    }
  }

  // ---------------------------------------------------------------- append requests

  /** A follower notes who leads its term. */
  lemma Heard(s: State, i: NodeId, leader: NodeId) returns (s1: State)
    requires Inv(s) && i in s.nodes && s.nodes[i].role == Follower
    ensures s1 == Put(s, i, s.nodes[i].(leaderId := Some(leader))) && Beside(s, s1, i)
  {
    s1 := Put(s, i, s.nodes[i].(leaderId := Some(leader)));
    assert NodeInv(s, i);
    BasicsKept(s, s1, i);
    HistStable(s, s1, i);
    StepKeeps(s, s1, i);
  }

  /** Taking over the sender's term, and its leadership. */
  lemma Followed(s: State, i: NodeId, request: AppendRequest) returns (s1: State)
    requires Inv(s) && i in s.nodes && IsNode(s, i) && request.term >= s.nodes[i].term
    ensures Beside(s, s1, i) && s1 == Put(s, i, FollowLeader(s.nodes[i], request))
  {
    if request.term > s.nodes[i].term || s.nodes[i].role != Follower {
      s1 := Raised(s, i, request.term, Some(request.leaderId));
    } else {
      s1 := Heard(s, i, request.leaderId);
    }
  }

  ghost predicate Arrived(s: State, i: NodeId, request: AppendRequest) {
    && Inv(s) && i in s.nodes && IsNode(s, i) && Contiguous(s.nodes[i].log)
    && Message(request.leaderId, i, Append(request)) in s.net
  }

  /** The reply, in the protocol's steps, of a follower already in the request's term. */
  lemma Replied(s: State, i: NodeId, request: AppendRequest) returns (end: State)
    requires Arrived(s, i, request) && s.nodes[i].role == Follower && s.nodes[i].term == request.term
    requires s.nodes[i].leaderId == Some(request.leaderId)
    ensures var done := HandleAppend(s.nodes[i], request);
            && Beside(s, end, i) && end.nodes[i] == done.node
            && Message(i, request.leaderId, AnswerAppend(done.reply)) in end.net
  {
    var n := s.nodes[i];
    SenderIsVoter(s, i, Message(request.leaderId, i, Append(request)));
    if request.prevIndex > LastIndex(n.log) {
      RejectEndKeeps(s, i, request);
      end := RejectStep(s, i, request, LastIndex(n.log) + 1, None);
    } else if TermAt(n.log, request.prevIndex) != Some(request.prevTerm) {
      var (ci, ct) := ConflictHint(n.log, request.prevIndex);
      RejectTermKeeps(s, i, request);
      end := RejectStep(s, i, request, ci, ct);
    } else {
      end := Merges(s, i, request);
    }
  }

  /** A batch that matches where it starts. */
  lemma Merges(s: State, i: NodeId, request: AppendRequest) returns (end: State)
    requires Arrived(s, i, request) && s.nodes[i].role == Follower && s.nodes[i].term == request.term
    requires s.nodes[i].leaderId == Some(request.leaderId) && s.nodes[i].IsVoter(request.leaderId)
    requires request.prevIndex <= LastIndex(s.nodes[i].log)
    requires TermAt(s.nodes[i].log, request.prevIndex) == Some(request.prevTerm)
    ensures var done := HandleAppend(s.nodes[i], request);
            && Beside(s, end, i) && end.nodes[i] == done.node
            && Message(i, request.leaderId, AnswerAppend(done.reply)) in end.net
  {
    hide HandleAppend, Beside, Arrived, Accepts, AppendFrom, TermAt;
    Acceptable(s, i, request);
    if AppendFrom(s.nodes[i].log, request.prevIndex, request.entries).Refused? {
      RefusedIsHandled(s.nodes[i], request);
      end := Refuses(s, i, request);
    } else {
      AcceptedIsHandled(s.nodes[i], request, Merged(s, i, request));
      end := Stores(s, i, request);
    }
  }

  lemma Refuses(s: State, i: NodeId, request: AppendRequest) returns (end: State)
    requires Arrived(s, i, request) && s.nodes[i].role == Follower && s.nodes[i].term == request.term
    ensures Beside(s, end, i) && end.nodes[i] == s.nodes[i]
    ensures Message(i, request.leaderId, AnswerAppend(
              AppendResponse(request.term, false, request.prevIndex, |request.entries|, 0,
                             LastIndex(s.nodes[i].log) + 1, None, request.readContext))) in end.net
  {
    RejectEndKeeps(s, i, request);
    end := RejectStep(s, i, request, LastIndex(s.nodes[i].log) + 1, None);
  }

  lemma Stores(s: State, i: NodeId, request: AppendRequest) returns (end: State)
    requires Arrived(s, i, request) && Accepts(s, i, request) && |Merged(s, i, request)| > 0
    ensures Beside(s, end, i) && end.nodes[i] == Accepted(s.nodes[i], request, Merged(s, i, request))
    ensures var top := request.prevIndex + |request.entries|;
            Message(i, request.leaderId, AnswerAppend(
              AppendResponse(request.term, true, request.prevIndex, |request.entries|, top, top + 1, None,
                             request.readContext))) in end.net
  {
    AcceptKeeps(s, i, request);
    end := AcceptStep(s, i, request, Merged(s, i, request));
  }

  lemma Acceptable(s: State, i: NodeId, request: AppendRequest)
    requires Arrived(s, i, request) && s.nodes[i].role == Follower && s.nodes[i].term == request.term
    requires request.prevIndex <= LastIndex(s.nodes[i].log)
    requires TermAt(s.nodes[i].log, request.prevIndex) == Some(request.prevTerm)
    ensures Contiguous(s.nodes[i].log) && Accepts(s, i, request) && |Merged(s, i, request)| > 0
    ensures LastIndex(Merged(s, i, request)) == |Merged(s, i, request)| - 1
    ensures request.entries != [] ==>
              request.entries[|request.entries| - 1].index == request.prevIndex + |request.entries|
    ensures var r := AppendFrom(s.nodes[i].log, request.prevIndex, request.entries);
            r == Refused(IndexSpaceExhausted) || r == Appended(Merged(s, i, request))
  {
    assert MessageInv(s, Message(request.leaderId, i, Append(request)));
    assert NodeInv(s, i) && TermInv(s, request.term);
    assert Accepts(s, i, request);
    MergedOk(s, i, request);
    MergedIsAppendFrom(s, i, request);
  }

  /** What `handleAppendEntries` returns for an accepted batch. */
  lemma AcceptedIsHandled(n: NodeState, request: AppendRequest, r: seq<LogEntry>)
    requires Contiguous(n.log) && n.IsVoter(request.leaderId)
    requires n.role == Follower && n.term == request.term && n.leaderId == Some(request.leaderId)
    requires request.prevIndex <= LastIndex(n.log) && TermAt(n.log, request.prevIndex) == Some(request.prevTerm)
    requires AppendFrom(n.log, request.prevIndex, request.entries) == Appended(r)
    requires |r| > 0 && LastIndex(r) == |r| - 1
    requires request.entries != [] ==>
               request.entries[|request.entries| - 1].index == request.prevIndex + |request.entries|
    ensures var done := HandleAppend(n, request);
            var top := request.prevIndex + |request.entries|;
            && done.node == Accepted(n, request, r)
            && done.reply == AppendResponse(request.term, true, request.prevIndex, |request.entries|, top, top + 1,
                                            None, request.readContext)
  {
  }

  lemma RefusedIsHandled(n: NodeState, request: AppendRequest)
    requires Contiguous(n.log) && n.IsVoter(request.leaderId)
    requires n.role == Follower && n.term == request.term && n.leaderId == Some(request.leaderId)
    requires request.prevIndex <= LastIndex(n.log) && TermAt(n.log, request.prevIndex) == Some(request.prevTerm)
    requires AppendFrom(n.log, request.prevIndex, request.entries).Refused?
    ensures var done := HandleAppend(n, request);
            && done.node == n
            && done.reply == AppendResponse(request.term, false, request.prevIndex, |request.entries|, 0,
                                            LastIndex(n.log) + 1, None, request.readContext)
  {
  }

  /** The handler first follows the sender, then answers as a follower of its term. */
  lemma FollowsThenAnswers(n: NodeState, request: AppendRequest)
    requires Contiguous(n.log) && n.IsVoter(request.leaderId) && request.term >= n.term
    ensures var n1 := FollowLeader(n, request);
            && n1.role == Follower && n1.term == request.term && n1.leaderId == Some(request.leaderId)
            && n1.log == n.log
            && HandleAppend(n, request).node == HandleAppend(n1, request).node
            && HandleAppend(n, request).reply == HandleAppend(n1, request).reply
  {
  }

  lemma AppendSavesOnce(n: NodeState, request: AppendRequest)
    requires Contiguous(n.log)
    ensures var done := HandleAppend(n, request);
            && SameConfig(n, done.node)
            && (done.saves == [] || done.saves == [done.node.Durable()])
  {
  }

  lemma AccountAppendCurrent(s: State, i: NodeId, request: AppendRequest) returns (end: State)
    requires Arrived(s, i, request) && request.term >= s.nodes[i].term
    ensures var done := HandleAppend(s.nodes[i], request);
            && Beside(s, end, i) && end.nodes[i] == done.node
            && Message(i, request.leaderId, AnswerAppend(done.reply)) in end.net
  {
    SenderIsVoter(s, i, Message(request.leaderId, i, Append(request)));
    FollowsThenAnswers(s.nodes[i], request);
    var s1 := Followed(s, i, request);
    end := Replied(s1, i, request);
    BesideThen(s, s1, end, i);
  }

  lemma AccountAppendStale(s: State, i: NodeId, request: AppendRequest) returns (end: State)
    requires Arrived(s, i, request) && request.term < s.nodes[i].term
    ensures var done := HandleAppend(s.nodes[i], request);
            && Beside(s, end, i) && end.nodes[i] == done.node
            && Message(i, request.leaderId, AnswerAppend(done.reply)) in end.net
  {
    RejectEndKeeps(s, i, request);
    end := RejectStep(s, i, request, LastIndex(s.nodes[i].log) + 1, None);
  }

  lemma AccountAppend(s: State, i: NodeId, request: AppendRequest) returns (path: seq<State>, end: State)
    requires Arrived(s, i, request)
    ensures Account(s, i, Deliver(request.leaderId, Append(request)), path, end)
  {
    if request.term >= s.nodes[i].term {
      end := AccountAppendCurrent(s, i, request);
    } else {
      end := AccountAppendStale(s, i, request);
    }
    AppendSavesOnce(s.nodes[i], request);
    if HandleAppend(s.nodes[i], request).saves == [] {
      PathNone(s, i);
      path := [s];
    } else {
      PathOne(s, end, i);
      path := [s, end];
    }
  }

  // ---------------------------------------------------------------- append responses

  /** Sending to one peer, or to none. */
  lemma SendOne(s: State, i: NodeId, peer: NodeId) returns (s': State)
    requires Inv(s) && i in s.nodes && IsNode(s, i) && s.nodes[i].role == Leader && peer in s.nodes[i].peers
    ensures Beside(s, s', i) && s'.nodes == s.nodes && From(i, [MakeAppend(s.nodes[i], peer, 0)]) <= s'.net
  {
    SendKeeps(s, i, peer, 0);
    s' := SendStep(s, i, peer, 0);
  }

  lemma AccountMatch(s: State, i: NodeId, source: NodeId, response: AppendResponse)
    returns (path: seq<State>, end: State)
    requires Inv(s) && i in s.nodes && IsNode(s, i) && source in s.nodes[i].peers
    requires Message(source, i, AnswerAppend(response)) in s.net
    requires s.nodes[i].role == Leader && response.term == s.nodes[i].term && response.success
    requires source in s.nodes[i].next && source in s.nodes[i].matched && PlausibleSuccess(s.nodes[i], response)
    ensures var n2 := Advance(RecordMatch(s.nodes[i], source, response.matchIndex));
            && SavePath(s, i, AdvanceSaves(RecordMatch(s.nodes[i], source, response.matchIndex)), path)
            && Beside(s, end, i) && end.nodes[i] == n2 && |n2.log| > 0
            && From(i, [MakeAppend(n2, source, 0)]) <= end.net
  {
    var s1 := MatchStep(s, i, source, response.matchIndex);
    MatchKeeps(s, i, source, response);
    assert Beside(s, s1, i);
    var s2;
    path, s2 := Advanced(s1, i);
    path := RebasePath(s, s1, i, AdvanceSaves(s1.nodes[i]), path);
    end := SendOne(s2, i, source);
    BesideThen(s1, s2, end, i);
    BesideThen(s, s1, end, i);
  }

  lemma AccountBackoff(s: State, i: NodeId, source: NodeId, response: AppendResponse) returns (end: State)
    requires Inv(s) && i in s.nodes && IsNode(s, i) && source in s.nodes[i].peers
    requires Message(source, i, AnswerAppend(response)) in s.net
    requires s.nodes[i].role == Leader && response.term == s.nodes[i].term && !response.success
    requires source in s.nodes[i].next && source in s.nodes[i].matched
    ensures var n := s.nodes[i];
            var resumed := NextAfterConflict(n.log, response.conflictIndex, response.conflictTerm);
            var n1 := n.(next := n.next[source := resumed]);
            Beside(s, end, i) && end.nodes[i] == n1 && From(i, [MakeAppend(n1, source, 0)]) <= end.net
  {
    var s1 := BackoffStep(s, i, source, response);
    BackoffKeeps(s, i, source, response);
    assert Beside(s, s1, i);
    end := SendOne(s1, i, source);
    BesideThen(s, s1, end, i);
  }

  lemma AccountAnswer(s: State, i: NodeId, source: NodeId, response: AppendResponse)
    returns (path: seq<State>, end: State)
    requires Inv(s) && i in s.nodes && IsNode(s, i) && Contiguous(s.nodes[i].log)
    requires Message(source, i, AnswerAppend(response)) in s.net
    ensures Account(s, i, Deliver(source, AnswerAppend(response)), path, end)
  {
    var n := s.nodes[i];
    SenderIsVoter(s, i, Message(source, i, AnswerAppend(response)));
    PathNone(s, i);
    BesideSelf(s, i);
    path, end := [s], s;
    if response.term > n.term {
      end := Raised(s, i, response.term, None);
      path := [s, end];
    } else if n.role != Leader || response.term != n.term || source !in n.next || source !in n.matched {
    } else if response.success {
      if PlausibleSuccess(n, response) {
        path, end := AccountMatch(s, i, source, response);
      }
    } else if !(n.next[source] == 0 || response.prevIndex != n.next[source] - 1 ||
                n.matched[source] > response.prevIndex) {
      end := AccountBackoff(s, i, source, response);
    }
  }

  // ---------------------------------------------------------------- every event

  lemma AccountSend(s: State, i: NodeId, context: nat, event: Event) returns (path: seq<State>, end: State)
    requires Inv(s) && i in s.nodes && IsNode(s, i) && Contiguous(s.nodes[i].log)
    requires (event == Heartbeat && context == 0) || (event == Barrier(context) && context != 0)
    ensures Account(s, i, event, path, end)
  {
    PathNone(s, i);
    BesideSelf(s, i);
    path, end := [s], s;
    if s.nodes[i].role == Leader {
      end := SendAll(s, i, context);
    }
  }

  /** Whatever a node handles, the protocol has states for each of its saves and for its return. */
  lemma AccountFor(s: State, i: NodeId, event: Event) returns (path: seq<State>, end: State)
    requires Inv(s) && i in s.nodes && IsNode(s, i) && Contiguous(s.nodes[i].log)
    requires event.Deliver? ==> Message(event.source, i, event.payload) in s.net
    requires event.Client? ==> event.command != []
    ensures Account(s, i, event, path, end)
  {
    match event
    case ElectionTimeout =>
      if s.nodes[i].role == Leader {
        PathNone(s, i);
        BesideSelf(s, i);
        path, end := [s], s;
      } else {
        path, end := AccountElection(s, i);
      }
    case Heartbeat => path, end := AccountSend(s, i, 0, event);
    case Barrier(context) =>
      if context == 0 {
        PathNone(s, i);
        BesideSelf(s, i);
        path, end := [s], s;
      } else {
        path, end := AccountSend(s, i, context, event);
      }
    case Client(command) => path, end := AccountClient(s, i, command);
    case Deliver(source, payload) => path, end := AccountDelivery(s, i, source, payload);
  }

  lemma AccountDelivery(s: State, i: NodeId, source: NodeId, payload: Payload) returns (path: seq<State>, end: State)
    requires Inv(s) && i in s.nodes && IsNode(s, i) && Contiguous(s.nodes[i].log)
    requires Message(source, i, payload) in s.net
    ensures Account(s, i, Deliver(source, payload), path, end)
  {
    assert MessageInv(s, Message(source, i, payload));
    match payload
    case AskVote(request) => path, end := AccountAsk(s, i, request);
    case AnswerVote(response) => path, end := AccountVote(s, i, source, response);
    case Append(request) => path, end := AccountAppend(s, i, request);
    case AnswerAppend(response) => path, end := AccountAnswer(s, i, source, response);
  }
}
