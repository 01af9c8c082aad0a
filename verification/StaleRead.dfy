/** A run of three nodes, with the read service as written, in which a read is told that a key is
    absent although it was put, committed and applied before the read's barrier was created.

    Node 1 leads term 1 and probes node 2 under context 1; the answer stays in the network. Node 1
    restarts, is elected again in term 2 and commits. Node 2 is elected for term 3 by node 3,
    unseen by node 1, and commits a put at index 4. Node 1, still believing it leads, opens a batch: its
    process numbers contexts from 1 again, so the old answer completes the majority, and the read
    is answered from the first two entries.

    The first part says what single handlers do with nodes of this kind, the second plays the
    events one after the other and keeps track of the nodes and of the messages that matter, the
    third is the story itself, term by term. */
module StaleRead {
  import opened RaftTypes
  import opened LogSpec
  import opened NodeSpec
  import opened Quorum
  import opened Protocol
  import opened Cluster
  import opened ReadBarrier
  import opened ReadSystem
  import opened ReadMachines
  import StateMachineSpec

  // ---------------------------------------------------------------- the nodes on the way

  const N1 := LogEntry(1, 1, NoOp, [])
  const N2 := LogEntry(2, 2, NoOp, [])
  const N3 := LogEntry(3, 3, NoOp, [])
  const P4 := LogEntry(4, 3, Command, [1])
  const L0 := [Sentinel]
  const L1 := [Sentinel, N1]
  const L2 := [Sentinel, N1, N2]
  const L3 := [Sentinel, N1, N2, N3]
  const L4 := [Sentinel, N1, N2, N3, P4]

  const KEY: Key := [107]
  const VALUE: Value := [118]

  /** A decoder that reads every command as one put. */
  const DECODER: StateMachineSpec.Decoder := bytes => Some(StateMachineSpec.Put(1, 1, KEY, VALUE))

  function Following(self: NodeId, peers: seq<NodeId>, term: Term, votedFor: Option<NodeId>, leader: Option<NodeId>,
                     log: seq<LogEntry>, commit: LogIndex): NodeState {
    NodeState(self, peers, 64, Follower, term, votedFor, leader, log, commit, {}, map[], map[])
  }

  function Running(self: NodeId, peers: seq<NodeId>, term: Term, log: seq<LogEntry>, commit: LogIndex): NodeState {
    NodeState(self, peers, 64, Candidate, term, Some(self), None, log, commit, {self}, map[], map[])
  }

  function Leading(self: NodeId, peers: seq<NodeId>, term: Term, log: seq<LogEntry>, commit: LogIndex,
                   next: map<NodeId, LogIndex>, matched: map<NodeId, LogIndex>): NodeState {
    NodeState(self, peers, 64, Leader, term, Some(self), Some(self), log, commit, {}, next, matched)
  }

  function Two(term: Term, votedFor: Option<NodeId>, leader: Option<NodeId>, log: seq<LogEntry>,
               commit: LogIndex): NodeState {
    Following(2, [1, 3], term, votedFor, leader, log, commit)
  }

  function Three(term: Term, votedFor: Option<NodeId>, leader: Option<NodeId>, log: seq<LogEntry>,
                 commit: LogIndex): NodeState {
    Following(3, [1, 2], term, votedFor, leader, log, commit)
  }

  // ---------------------------------------------------------------- the handlers, one by one

  lemma Campaigns(n: NodeState, term: Term, to: NodeId)
    requires |n.log| > 0 && n.role == Follower && n.term + 1 == term <= MAX_WORD && |n.peers| == 2 && to in n.peers
    requires n.votes == {} && n.next == map[] && n.matched == map[] && n.batch == 64 && Contiguous(n.log)
    ensures React(n, ElectionTimeout).node == Running(n.self, n.peers, term, n.log, n.commit)
    ensures var ask := VoteRequest(term, n.self, LastIndex(n.log), LastTerm(n.log));
            Outbound(to, AskVote(ask)) in React(n, ElectionTimeout).reply
  {
    var n1 := Campaign(n);
    assert !HasElectionQuorum(n1);
    var k :| 0 <= k < |n.peers| && n.peers[k] == to;
    assert RequestVotes(n1)[k] == Outbound(to, AskVote(VoteRequest(term, n.self, LastIndex(n.log), LastTerm(n.log))));
  }

  lemma Grants(n: NodeState, request: VoteRequest)
    requires Contiguous(n.log) && n.role == Follower && request.candidateId in n.peers && request.term > n.term
    requires UpToDate(request.lastLogIndex, request.lastLogTerm, n.log)
    ensures var done := React(n, Deliver(request.candidateId, AskVote(request)));
            && done.node == BecomeFollower(n, request.term, None).(votedFor := Some(request.candidateId))
            && Outbound(request.candidateId, AnswerVote(VoteResponse(request.term, request.term, true))) in done.reply
  {
  }

  /** Two peers, counted one by one. */
  lemma CountTwo(a: NodeId, b: NodeId, matched: map<NodeId, LogIndex>, index: LogIndex)
    ensures CountReached([a, b], matched, index) ==
            (if Reached(matched, a, index) then 1 else 0) + (if Reached(matched, b, index) then 1 else 0)
  {
    assert [a, b][..1] == [a] && [a][..0] == [];
    assert CountReached([], matched, index) == 0;
    assert CountReached([a], matched, index) == if Reached(matched, a, index) then 1 else 0;
  }

  /** A leader that knows of no peer's progress commits nothing. */
  lemma {:induction false} CommitsNothing(n: NodeState, a: NodeId, b: NodeId, candidate: LogIndex)
    requires |n.log| > 0 && n.peers == [a, b] && n.matched == map[a := 0, b := 0]
    ensures ScanCommit(n, candidate) == n.commit
  {
    if candidate > n.commit {
      CountTwo(a, b, n.matched, candidate);
      CommitsNothing(n, a, b, candidate - 1);
    }
  }

  lemma Takes(n: NodeState, a: NodeId, b: NodeId, previous: LogIndex)
    requires n.peers == [a, b] && Contiguous(n.log) && previous == LastIndex(n.log)
    ensures TakeOffice(n) == n.(role := Leader, leaderId := Some(n.self), votes := {},
                                log := n.log + [LogEntry(previous + 1, n.term, NoOp, [])],
                                next := map[a := previous + 1, b := previous + 1], matched := map[a := 0, b := 0])
  {
    assert (set p | p in n.peers) == {a, b};
  }

  /** The vote that completes a majority of three. */
  lemma Wins(n: NodeState, a: NodeId, b: NodeId, voter: NodeId)
    requires n == Running(n.self, [a, b], n.term, n.log, n.commit) && Contiguous(n.log)
    requires voter in [a, b] && n.self != a && n.self != b && n.term > 0
    ensures var last := LastIndex(n.log);
            React(n, Deliver(voter, AnswerVote(VoteResponse(n.term, n.term, true)))) .node ==
            Leading(n.self, [a, b], n.term, n.log + [LogEntry(last + 1, n.term, NoOp, [])], n.commit,
                    map[a := last + 1, b := last + 1], map[a := 0, b := 0])
  {
    var n1 := n.(votes := n.votes + {voter});
    assert n1.votes == {n.self, voter};
    assert HasElectionQuorum(n1);
    Takes(n1, a, b, LastIndex(n.log));
    CommitsNothing(TakeOffice(n1), a, b, LastIndex(TakeOffice(n1).log));
  }

  /** What a leader that takes office sends first. */
  lemma WinsAndSends(n: NodeState, a: NodeId, b: NodeId, voter: NodeId, to: NodeId)
    requires n == Running(n.self, [a, b], n.term, n.log, n.commit) && Contiguous(n.log)
    requires voter in [a, b] && to in [a, b] && n.self != a && n.self != b && n.term > 0
    ensures var done := React(n, Deliver(voter, AnswerVote(VoteResponse(n.term, n.term, true))));
            MakeAppend(done.node, to, 0) in done.reply
  {
    Wins(n, a, b, voter);
    var done := React(n, Deliver(voter, AnswerVote(VoteResponse(n.term, n.term, true))));
    var n1 := n.(votes := n.votes + {voter});
    assert n1.votes == {n.self, voter};
    assert done == BecomeLeader(n1);
    var k := if to == a then 0 else 1;
    assert done.node.peers[k] == to;
    assert ReplicateToAll(done.node, 0)[k] == MakeAppend(done.node, to, 0);
  }

  lemma AppendsAtEnd(e: seq<LogEntry>, incoming: seq<LogEntry>)
    requires Contiguous(e) && BatchValid(LastIndex(e), incoming) && LastIndex(e) < MAX_WORD
    ensures AppendFrom(e, LastIndex(e), incoming) == Appended(e + incoming)
  {
    if incoming == [] {
      assert e + incoming == e;
    } else {
      assert OffsetOf(e, LastIndex(e)) == Some(|e| - 1);
      assert EntryAt(e, incoming[0].index) == None;
      assert e[..|e|] == e;
    }
  }

  /** A batch that starts where the follower's log ends. */
  lemma Appends(n: NodeState, request: AppendRequest)
    requires Contiguous(n.log) && n.role == Follower && n.term == request.term && request.leaderId in n.peers
    requires request.prevIndex == LastIndex(n.log) < MAX_WORD && request.prevTerm == LastTerm(n.log)
    requires BatchValid(request.prevIndex, request.entries)
    ensures var done := React(n, Deliver(request.leaderId, Append(request)));
            var log := n.log + request.entries;
            var top := request.prevIndex + |request.entries|;
            && done.node == n.(leaderId := Some(request.leaderId), log := log,
                               commit := if request.leaderCommit > n.commit then Min(request.leaderCommit, top)
                                         else n.commit)
            && var answer := AppendResponse(n.term, true, request.prevIndex, |request.entries|, top, top + 1, None,
                                            request.readContext);
               Outbound(request.leaderId, AnswerAppend(answer)) in done.reply
  {
    AppendsAtEnd(n.log, request.entries);
    assert OffsetOf(n.log, request.prevIndex) == Some(|n.log| - 1);
  }

  lemma CannotAppend(n: NodeState, request: AppendRequest)
    requires Contiguous(n.log) && n.role == Follower && n.term == request.term && request.leaderId in n.peers
    requires request.prevIndex > LastIndex(n.log)
    ensures var done := React(n, Deliver(request.leaderId, Append(request)));
            && done.node == n.(leaderId := Some(request.leaderId))
            && var answer := AppendResponse(n.term, false, request.prevIndex, |request.entries|, 0,
                                            LastIndex(n.log) + 1, None, request.readContext);
               Outbound(request.leaderId, AnswerAppend(answer)) in done.reply
  {
  }

  /** The acknowledgement of the whole log, by one of two peers, commits it. */
  lemma CommitsAll(n: NodeState, a: NodeId, b: NodeId, source: NodeId, response: AppendResponse)
    requires Contiguous(n.log) && n.role == Leader && n.peers == [a, b] && a != b && n.self != a && n.self != b
    requires source in [a, b]
    requires n.next.Keys == {a, b} && n.matched.Keys == {a, b}
    requires n.matched[source] <= response.matchIndex && n.next[source] <= response.matchIndex + 1
    requires response.term == n.term && response.success && PlausibleSuccess(n, response)
    requires response.matchIndex == LastIndex(n.log) > n.commit && LastTerm(n.log) == n.term
    ensures React(n, Deliver(source, AnswerAppend(response))).node ==
            n.(matched := n.matched[source := response.matchIndex], next := n.next[source := response.matchIndex + 1],
               commit := response.matchIndex)
  {
    var n1 := RecordMatch(n, source, response.matchIndex);
    CountTwo(a, b, n1.matched, response.matchIndex);
    assert OffsetOf(n.log, LastIndex(n.log)) == Some(|n.log| - 1);
    assert Committable(n1, response.matchIndex);
  }

  /** A leader that knows of no peer's progress stores a command and sends it on. */
  lemma Proposes(n: NodeState, a: NodeId, b: NodeId, command: seq<Byte>, to: NodeId)
    requires n.role == Leader && n.peers == [a, b] && n.matched == map[a := 0, b := 0]
    requires Contiguous(n.log) && to in [a, b]
    ensures var done := React(n, Client(command));
            && done.node == n.(log := n.log + [LogEntry(LastIndex(n.log) + 1, n.term, Command, command)])
            && MakeAppend(done.node, to, 0) in done.reply
  {
    var n1 := n.(log := AppendOne(n.log, n.term, Command, command));
    CommitsNothing(n1, a, b, LastIndex(n1.log));
    var done := React(n, Client(command));
    var k := if to == a then 0 else 1;
    assert ReplicateToAll(done.node, 0)[k] == MakeAppend(done.node, to, 0);
  }

  lemma StepsBack(n: NodeState, source: NodeId, response: AppendResponse)
    requires Contiguous(n.log) && FirstIndex(n.log) == 0 && LastIndex(n.log) >= 1 && n.role == Leader
    requires source in n.peers && source != n.self
    requires source in n.next && source in n.matched && n.matched[source] == 0 && n.next[source] >= 1
    requires response == AppendResponse(n.term, false, n.next[source] - 1, response.entryCount, 0, 1, None, 0)
    ensures var done := React(n, Deliver(source, AnswerAppend(response)));
            done.node == n.(next := n.next[source := 1]) && MakeAppend(done.node, source, 0) in done.reply
  {
  }

  // ---------------------------------------------------------------- the run, step by step

  /** The nodes and node 1's read service at the end of a run. */
  datatype Cast = Cast(nodes: map<NodeId, NodeState>, service: Service)

  function Last(xs: seq<System>): System
    requires |xs| > 0
  {
    xs[|xs| - 1]
  }

  ghost predicate Shows(x: System, cast: Cast) {
    && x.cluster.servers.Keys == x.services.Keys == x.machines.Keys == cast.nodes.Keys == {1, 2, 3}
    && x.decode == DECODER
    && (forall i :: i in cast.nodes ==> x.cluster.servers[i].node == cast.nodes[i])
    && x.services[1] == cast.service && DiskCurrent(x.cluster.servers[1].disk, cast.nodes[1])
  }

  ghost predicate Scene(xs: seq<System>, cast: Cast) {
    |xs| > 0 && ReadRun(AsWritten, xs) && Shows(Last(xs), cast)
  }

  /** The run goes on from xs, without losing messages. */
  ghost predicate Onward(xs: seq<System>, xs': seq<System>) {
    0 < |xs| < |xs'| && xs <= xs' && Last(xs).cluster.net <= Last(xs').cluster.net
  }

  lemma Extended(xs: seq<System>, x: System)
    requires ReadRun(AsWritten, xs) && Next(AsWritten, Last(xs), x, |xs| - 1)
    ensures ReadRun(AsWritten, xs + [x])
  {
    hide Next, Start;
    var xs' := xs + [x];
    forall k: nat | k < |xs'| - 1 ensures Next(AsWritten, xs'[k], xs'[k + 1], k) {
      if k < |xs| - 1 {
        assert Next(AsWritten, xs[k], xs[k + 1], k);
      }
    }
  }

  lemma Handling(x: System, cast: Cast, i: NodeId, event: Event) returns (x': System)
    requires Shows(x, cast) && i in cast.nodes && Contiguous(cast.nodes[i].log)
    requires !event.Barrier? && (event.Client? ==> event.command != [])
    requires event.Deliver? ==> Message(event.source, i, event.payload) in x.cluster.net
    ensures Handles(AsWritten, x, x', i, event)
  {
    var n := x.cluster.servers[i].node;
    x' := System(x.decode, Handled(x.cluster, i, event), x.services[i := Counted(AsWritten, x.services[i], n, event)],
                 x.machines[i := CaughtUp(x.machines[i], x.decode, React(n, event).node)], x.began);
  }

  lemma ShowsNext(x: System, x': System, cast: Cast, i: NodeId, event: Event, cast': Cast)
    requires Shows(x, cast) && Handles(AsWritten, x, x', i, event) && i in cast.nodes && Contiguous(cast.nodes[i].log)
    requires cast' == Cast(cast.nodes[i := React(cast.nodes[i], event).node],
                           if i == 1 then Counted(AsWritten, cast.service, cast.nodes[1], event) else cast.service)
    ensures Shows(x', cast') && x.cluster.net <= x'.cluster.net && x'.began == x.began
    ensures From(i, React(cast.nodes[i], event).reply) <= x'.cluster.net
  {
    var done := React(cast.nodes[i], event);
    PersistsAtOne(x, cast, i, event);
    ShowsUpdate(x, cast, i, Server(done.node, DiskAfter(x.cluster.servers[i].disk, done.saves)),
                Counted(AsWritten, x.services[i], cast.nodes[i], event), x.cluster.net + From(i, done.reply),
                CaughtUp(x.machines[i], x.decode, done.node), x.began);
  }

  lemma PersistsAtOne(x: System, cast: Cast, i: NodeId, event: Event)
    requires Shows(x, cast) && i in cast.nodes && Contiguous(cast.nodes[i].log)
    ensures i == 1 ==> DiskCurrent(DiskAfter(x.cluster.servers[1].disk, React(cast.nodes[1], event).saves),
                                   React(cast.nodes[1], event).node)
  {
    if i == 1 {
      PersistBeforeReply(x.cluster.servers[1].disk, cast.nodes[1], event);
    }
  }

  lemma ShowsUpdate(x: System, cast: Cast, i: NodeId, server: Server, sv: Service, net: set<Message>, machine: Machine,
                    began: map<(NodeId, nat), nat>)
    requires Shows(x, cast) && i in cast.nodes && (i == 1 ==> DiskCurrent(server.disk, server.node))
    ensures Shows(System(x.decode, Cluster(x.cluster.servers[i := server], net), x.services[i := sv],
                         x.machines[i := machine], began),
                  Cast(cast.nodes[i := server.node], if i == 1 then sv else cast.service))
  {
  }

  /** One node handles one event. */
  lemma Act(xs: seq<System>, cast: Cast, i: NodeId, event: Event, cast': Cast) returns (xs': seq<System>)
    requires Scene(xs, cast) && i in cast.nodes && Contiguous(cast.nodes[i].log)
    requires !event.Barrier? && (event.Client? ==> event.command != [])
    requires event.Deliver? ==> Message(event.source, i, event.payload) in Last(xs).cluster.net
    requires cast' == Cast(cast.nodes[i := React(cast.nodes[i], event).node],
                           if i == 1 then Counted(AsWritten, cast.service, cast.nodes[1], event) else cast.service)
    ensures Scene(xs', cast') && Onward(xs, xs') && |xs'| == |xs| + 1 && Last(xs').began == Last(xs).began
    ensures From(i, React(cast.nodes[i], event).reply) <= Last(xs').cluster.net
  {
    hide ReadRun, Shows, Handles, React, Counted;
    var x' := Handling(Last(xs), cast, i, event);
    ShowsNext(Last(xs), x', cast, i, event, cast');
    Extended(xs, x');
    xs' := xs + [x'];
  }

  /** The same, naming the node's new fields and one message it sends. */
  lemma Play(xs: seq<System>, cast: Cast, i: NodeId, event: Event, n: NodeState, o: Outbound)
    returns (xs': seq<System>, cast': Cast)
    requires Scene(xs, cast) && i in cast.nodes && Contiguous(cast.nodes[i].log)
    requires !event.Barrier? && (event.Client? ==> event.command != [])
    requires event.Deliver? ==> Message(event.source, i, event.payload) in Last(xs).cluster.net
    requires React(cast.nodes[i], event).node == n && o in React(cast.nodes[i], event).reply
    requires i == 1 ==> Counted(AsWritten, cast.service, cast.nodes[1], event) == cast.service
    ensures cast' == Cast(cast.nodes[i := n], cast.service)
    ensures Scene(xs', cast') && Onward(xs, xs') && Message(i, o.destination, o.payload) in Last(xs').cluster.net
  {
    cast' := Cast(cast.nodes[i := n], cast.service);
    xs' := Act(xs, cast, i, event, cast');
    assert Message(i, o.destination, o.payload) in From(i, React(cast.nodes[i], event).reply);
  }

  /** The same, for a handler that sends nothing of interest. */
  lemma PlaySilently(xs: seq<System>, cast: Cast, i: NodeId, event: Event, n: NodeState)
    returns (xs': seq<System>, cast': Cast)
    requires Scene(xs, cast) && i in cast.nodes && Contiguous(cast.nodes[i].log)
    requires !event.Barrier? && (event.Client? ==> event.command != [])
    requires event.Deliver? ==> Message(event.source, i, event.payload) in Last(xs).cluster.net
    requires React(cast.nodes[i], event).node == n
    requires i == 1 ==> Counted(AsWritten, cast.service, cast.nodes[1], event) == cast.service
    ensures cast' == Cast(cast.nodes[i := n], cast.service)
    ensures Scene(xs', cast') && Onward(xs, xs')
  {
    cast' := Cast(cast.nodes[i := n], cast.service);
    xs' := Act(xs, cast, i, event, cast');
  }

  function Elected(n: NodeState): NodeState
    requires |n.log| > 0 && |n.peers| == 2
  {
    var next := LastIndex(n.log) + 1;
    Leading(n.self, n.peers, n.term + 1, n.log + [LogEntry(next, n.term + 1, NoOp, [])], n.commit,
            map[n.peers[0] := next, n.peers[1] := next], map[n.peers[0] := 0, n.peers[1] := 0])
  }

  /** What the new leader sends first. */
  function FirstBatch(n: NodeState): AppendRequest
    requires |n.log| > 0
  {
    AppendRequest(n.term + 1, n.self, LastIndex(n.log), LastTerm(n.log),
                  [LogEntry(LastIndex(n.log) + 1, n.term + 1, NoOp, [])], n.commit, 0)
  }

  function Voted(w: NodeState, n: NodeState): NodeState {
    BecomeFollower(w, n.term + 1, None).(votedFor := Some(n.self))
  }

  ghost predicate Eligible(n: NodeState, w: NodeState) {
    && Contiguous(n.log) && |n.peers| == 2
    && n == Following(n.self, n.peers, n.term, n.votedFor, n.leaderId, n.log, n.commit)
    && n.term < MAX_WORD && w.self in n.peers && n.self !in n.peers
    && Contiguous(w.log) && w.role == Follower && n.self in w.peers && w.term <= n.term
    && UpToDate(LastIndex(n.log), LastTerm(n.log), w.log)
  }

  lemma AsksAndIsGranted(xs: seq<System>, cast: Cast, n: NodeState, w: NodeState)
    returns (xs': seq<System>, cast': Cast)
    requires Scene(xs, cast) && n.self in cast.nodes && cast.nodes[n.self] == n && w.self in cast.nodes
    requires cast.nodes[w.self] == w
    requires Eligible(n, w)
    ensures var asked := cast.nodes[n.self := Running(n.self, n.peers, n.term + 1, n.log, n.commit)];
            cast' == Cast(asked[w.self := Voted(w, n)], cast.service)
    ensures Scene(xs', cast') && Onward(xs, xs')
    ensures Message(w.self, n.self, AnswerVote(VoteResponse(n.term + 1, n.term + 1, true))) in Last(xs').cluster.net
  {
    hide React, ReadRun, Shows;
    var t := n.term + 1;
    var ask := VoteRequest(t, n.self, LastIndex(n.log), LastTerm(n.log));
    Campaigns(n, t, w.self);
    xs', cast' := Play(xs, cast, n.self, ElectionTimeout, Running(n.self, n.peers, t, n.log, n.commit),
                       Outbound(w.self, AskVote(ask)));
    Grants(w, ask);
    xs', cast' := Play(xs', cast', w.self, Deliver(n.self, AskVote(ask)), Voted(w, n),
                       Outbound(n.self, AnswerVote(VoteResponse(t, t, true))));
  }

  lemma TakesOver(n: NodeState, a: NodeId, b: NodeId, v: NodeId)
    requires Contiguous(n.log) && n.peers == [a, b] && v in [a, b] && n.self != a && n.self != b
    ensures var done := React(Running(n.self, n.peers, n.term + 1, n.log, n.commit),
                              Deliver(v, AnswerVote(VoteResponse(n.term + 1, n.term + 1, true))));
            done.node == Elected(n) && Outbound(v, Append(FirstBatch(n))) in done.reply
  {
    hide React;
    var running := Running(n.self, n.peers, n.term + 1, n.log, n.commit);
    Wins(running, a, b, v);
    WinsAndSends(running, a, b, v, v);
    SendsFirstBatch(n, v);
  }

  lemma SendsFirstBatch(n: NodeState, v: NodeId)
    requires Contiguous(n.log) && |n.peers| == 2 && v in n.peers
    ensures |Elected(n).log| > 0 && MakeAppend(Elected(n), v, 0) == Outbound(v, Append(FirstBatch(n)))
  {
    var leader, last := Elected(n), LastIndex(n.log);
    assert OffsetOf(leader.log, last) == Some(|n.log| - 1) && OffsetOf(leader.log, last + 1) == Some(|n.log|);
    assert v in leader.next && leader.next[v] == last + 1;
    assert EntriesFrom(leader.log, last + 1, 64) == [LogEntry(last + 1, n.term + 1, NoOp, [])];
  }

  /** Node n asks w, wins its vote, and sends it its first batch. */
  lemma Election(xs: seq<System>, cast: Cast, n: NodeState, w: NodeState) returns (xs': seq<System>, cast': Cast)
    requires Scene(xs, cast) && n.self in cast.nodes && cast.nodes[n.self] == n && w.self in cast.nodes
    requires cast.nodes[w.self] == w
    requires Eligible(n, w)
    ensures cast'.nodes == cast.nodes[w.self := Voted(w, n)][n.self := Elected(n)] && cast'.service == cast.service
    ensures Scene(xs', cast') && Onward(xs, xs')
    ensures Message(n.self, w.self, Append(FirstBatch(n))) in Last(xs').cluster.net
  {
    hide React, ReadRun, Shows;
    var xs1, cast1 := AsksAndIsGranted(xs, cast, n, w);
    assert n.peers == [n.peers[0], n.peers[1]];
    TakesOver(n, n.peers[0], n.peers[1], w.self);
    xs', cast' := Play(xs1, cast1, n.self, Deliver(w.self, AnswerVote(VoteResponse(n.term + 1, n.term + 1, true))),
                       Elected(n),
                       Outbound(w.self, Append(FirstBatch(n))));
  }

  function Stored(w: NodeState, request: AppendRequest): NodeState {
    w.(leaderId := Some(request.leaderId), log := w.log + request.entries,
       commit := if request.leaderCommit > w.commit
                 then Min(request.leaderCommit, request.prevIndex + |request.entries|) else w.commit)
  }

  function Success(request: AppendRequest): AppendResponse {
    var top := request.prevIndex + |request.entries|;
    AppendResponse(request.term, true, request.prevIndex, |request.entries|, top, top + 1, None, request.readContext)
  }

  ghost predicate FitsAtEnd(w: NodeState, request: AppendRequest) {
    && Contiguous(w.log) && w.role == Follower && w.term == request.term && request.leaderId in w.peers
    && request.prevIndex == LastIndex(w.log) < MAX_WORD && request.prevTerm == LastTerm(w.log)
    && BatchValid(request.prevIndex, request.entries)
  }

  /** A follower stores a batch at the end of its log and answers. */
  lemma Stores(xs: seq<System>, cast: Cast, w: NodeState, request: AppendRequest)
    returns (xs': seq<System>, cast': Cast)
    requires Scene(xs, cast) && w.self in cast.nodes && cast.nodes[w.self] == w && w.self != 1 && FitsAtEnd(w, request)
    requires Message(request.leaderId, w.self, Append(request)) in Last(xs).cluster.net
    ensures Scene(xs', cast') && Onward(xs, xs')
    ensures cast' == Cast(cast.nodes[w.self := Stored(w, request)], cast.service)
    ensures Message(w.self, request.leaderId, AnswerAppend(Success(request))) in Last(xs').cluster.net
  {
    hide React, ReadRun, Shows;
    Appends(w, request);
    xs', cast' := Play(xs, cast, w.self, Deliver(request.leaderId, Append(request)), Stored(w, request),
                       Outbound(request.leaderId, AnswerAppend(Success(request))));
  }

  function Grown(n: NodeState, source: NodeId, top: LogIndex): NodeState {
    n.(matched := n.matched[source := top], next := n.next[source := top + 1], commit := top)
  }

  /** The leader of three nodes hears that one peer stored its whole log. */
  ghost predicate Decisive(n: NodeState, source: NodeId, request: AppendRequest) {
    && Contiguous(n.log) && n.role == Leader && |n.peers| == 2 && n.peers[0] != n.peers[1]
    && n.self !in n.peers && source in n.peers
    && n.next.Keys == {n.peers[0], n.peers[1]} && n.matched.Keys == {n.peers[0], n.peers[1]}
    && n.matched[source] == 0 && request.term == n.term && LastTerm(n.log) == n.term && request.readContext == 0
    && request.prevIndex + |request.entries| == LastIndex(n.log) && n.next[source] <= LastIndex(n.log) + 1
    && n.commit < LastIndex(n.log) < MAX_WORD
  }

  lemma Commits(xs: seq<System>, cast: Cast, n: NodeState, source: NodeId, request: AppendRequest)
    returns (xs': seq<System>, cast': Cast)
    requires Scene(xs, cast) && n.self in cast.nodes && cast.nodes[n.self] == n && Decisive(n, source, request)
    requires Message(source, n.self, AnswerAppend(Success(request))) in Last(xs).cluster.net
    ensures Scene(xs', cast') && Onward(xs, xs')
    ensures cast' == Cast(cast.nodes[n.self := Grown(n, source, LastIndex(n.log))], cast.service)
  {
    hide React, ReadRun, Shows;
    assert n.peers == [n.peers[0], n.peers[1]];
    CommitsAll(n, n.peers[0], n.peers[1], source, Success(request));
    xs', cast' := PlaySilently(xs, cast, n.self, Deliver(source, AnswerAppend(Success(request))),
                               Grown(n, source, LastIndex(n.log)));
  }

  /** A batch travels to a follower, and its answer commits it. */
  lemma Replicates(xs: seq<System>, cast: Cast, n: NodeState, w: NodeState, request: AppendRequest)
    returns (xs': seq<System>, cast': Cast)
    requires Scene(xs, cast) && n.self in cast.nodes && cast.nodes[n.self] == n && w.self in cast.nodes
    requires cast.nodes[w.self] == w
    requires w.self != 1 && n.self != w.self && FitsAtEnd(w, request) && Decisive(n, w.self, request)
    requires request.leaderId == n.self
    requires Message(n.self, w.self, Append(request)) in Last(xs).cluster.net
    ensures Scene(xs', cast') && Onward(xs, xs')
    ensures cast' == Cast(cast.nodes[w.self := Stored(w, request)][n.self := Grown(n, w.self, LastIndex(n.log))],
                          cast.service)
  {
    hide React, ReadRun, Shows;
    var xs1, cast1 := Stores(xs, cast, w, request);
    xs', cast' := Commits(xs1, cast1, n, w.self, request);
  }

  // ---------------------------------------------------------------- reads and the restart

  const READ := Request(0, 0, KEY)

  lemma ShowsService(x: System, cast: Cast, sv: Service, net: set<Message>, began: map<(NodeId, nat), nat>)
    requires Shows(x, cast)
    ensures Shows(System(x.decode, Cluster(x.cluster.servers, net), x.services[1 := sv], x.machines, began),
                  Cast(cast.nodes, sv))
  {
  }

  lemma Asked(xs: seq<System>, cast: Cast) returns (xs': seq<System>, cast': Cast)
    requires Scene(xs, cast) && Contiguous(cast.nodes[1].log)
    ensures Scene(xs', cast') && Onward(xs, xs')
    ensures cast' == Cast(cast.nodes, cast.service.(deferred := cast.service.deferred + [READ]))
  {
    var x := Last(xs);
    var sv := x.services[1].(deferred := x.services[1].deferred + [READ]);
    var x' := x.(services := x.services[1 := sv]);
    assert Defers(x, x', 1, READ);
    ShowsService(x, cast, sv, x.cluster.net, x.began);
    Extended(xs, x');
    xs', cast' := xs + [x'], Cast(cast.nodes, sv);
  }

  lemma OpensAt(x: System, cast: Cast, context: nat, moment: nat) returns (x': System)
    requires Shows(x, cast) && Contiguous(cast.nodes[1].log) && MayOpen(cast.nodes[1])
    requires cast.service == Service(context, map[], [READ]) && context > 0
    ensures Opens(x, x', 1, moment) && x'.began == x.began[(1, context) := moment]
    ensures x'.cluster.net == x.cluster.net + From(1, ReplicateToAll(cast.nodes[1], context))
    ensures Shows(x', Cast(cast.nodes, Opened(cast.service, cast.nodes[1])))
  {
    var n := cast.nodes[1];
    x' := System(x.decode, Handled(x.cluster, 1, Barrier(context)), x.services[1 := Opened(x.services[1], n)],
                 x.machines, x.began[(1, context) := moment]);
    assert React(n, Barrier(context)) == Done(n, [], ReplicateToAll(n, context));
    assert x.cluster.servers[1 := Server(n, x.cluster.servers[1].disk)] == x.cluster.servers;
    ShowsService(x, cast, Opened(cast.service, n), x'.cluster.net, x'.began);
  }

  /** Node 1 opens a batch and probes node 2. */
  lemma Opening(xs: seq<System>, cast: Cast, context: nat) returns (xs': seq<System>, cast': Cast)
    requires Scene(xs, cast) && Contiguous(cast.nodes[1].log) && MayOpen(cast.nodes[1]) && 2 in cast.nodes[1].peers
    requires cast.service == Service(context, map[], [READ]) && context > 0
    ensures Scene(xs', cast') && Onward(xs, xs') && Last(xs').began == Last(xs).began[(1, context) := |xs| - 1]
    ensures cast' == Cast(cast.nodes, Opened(cast.service, cast.nodes[1]))
    ensures Message(1, 2, MakeAppend(cast.nodes[1], 2, context).payload) in Last(xs').cluster.net
  {
    hide ReadRun, Shows, Opens, Opened;
    var x := Last(xs);
    var x' := OpensAt(x, cast, context, |xs| - 1);
    Extended(xs, x');
    xs', cast' := xs + [x'], Cast(cast.nodes, Opened(cast.service, cast.nodes[1]));
    var n := cast.nodes[1];
    var k :| 0 <= k < |n.peers| && n.peers[k] == 2;
    assert ReplicateToAll(n, context)[k] == MakeAppend(n, 2, context);
  }

  lemma Restarted(x: System, cast: Cast, n: NodeState) returns (x': System)
    requires Shows(x, cast) && Contiguous(n.log) && cast.nodes[1] == n && n.term > 0
    requires Loadable(n.Durable(), n.self, n.peers)
    ensures Dies(AsWritten, x, x', 1, Heartbeat, 0) && x'.began == x.began && x'.cluster.net == x.cluster.net
    ensures Shows(x', Cast(cast.nodes[1 := BecomeFollower(n, n.term, None)], NewService()))
  {
    hide Crashed, CaughtUp, Loadable;
    var disk, again := x.cluster.servers[1].disk, BecomeFollower(n, n.term, None);
    var c' := Cluster(x.cluster.servers[1 := Server(again, disk)], x.cluster.net);
    CrashesIdle(x.cluster, c', n);
    var rebuilt := CaughtUp(StateMachineSpec.Empty(), x.decode, again);
    x' := System(x.decode, c', x.services[1 := NewService()], x.machines[1 := rebuilt], x.began);
    ShowsUpdate(x, cast, 1, Server(again, disk), NewService(), x.cluster.net, rebuilt, x.began);
  }

  /** Node 1 dies before it handles a heartbeat, and comes back from its disk. */
  lemma CrashesIdle(c: Cluster, c': Cluster, n: NodeState)
    requires 1 in c.servers && c.servers[1].node == n && DiskCurrent(c.servers[1].disk, n) && Contiguous(n.log)
    requires n.term > 0 && Loadable(n.Durable(), n.self, n.peers)
    requires c' == Cluster(c.servers[1 := Server(BecomeFollower(n, n.term, None), c.servers[1].disk)], c.net)
    ensures Crashed(c, c', 1, Heartbeat, 0)
  {
    var disk := c.servers[1].disk;
    assert React(n, Heartbeat).saves == [];
    assert DiskAtCrash(c.servers[1], Heartbeat, 0) == disk == Some(n.Durable());
    assert Restart(disk, n.self, n.peers, n.batch) == Some(BecomeFollower(n, n.term, None));
  }

  lemma Restarting(xs: seq<System>, cast: Cast, n: NodeState) returns (xs': seq<System>, cast': Cast)
    requires Scene(xs, cast) && Contiguous(n.log) && cast.nodes[1] == n && n.term > 0
    requires Loadable(n.Durable(), n.self, n.peers)
    ensures Scene(xs', cast') && Onward(xs, xs')
    ensures cast' == Cast(cast.nodes[1 := BecomeFollower(n, n.term, None)], NewService())
  {
    hide ReadRun, Shows, Dies, Loadable;
    var x' := Restarted(Last(xs), cast, n);
    Extended(xs, x');
    xs', cast' := xs + [x'], Cast(cast.nodes[1 := BecomeFollower(n, n.term, None)], NewService());
  }

  // ---------------------------------------------------------------- the story

  const THREE := Three(0, None, None, L0, 0)

  function Trio(one: NodeState, two: NodeState, three: NodeState): map<NodeId, NodeState> {
    map[1 := one, 2 := two, 3 := three]
  }

  const SERVERS: map<NodeId, Server> :=
    map[1 := Server(Fresh(1, [2, 3], 64), None), 2 := Server(Fresh(2, [1, 3], 64), None),
        3 := Server(Fresh(3, [1, 2], 64), None)]

  lemma FreshServer(i: NodeId)
    requires i in SERVERS
    ensures var n := SERVERS[i].node;
            && n == Fresh(i, n.peers, n.batch) && SERVERS[i].disk == None && n.batch >= 1
            && Elements(n.peers) == {1, 2, 3} - {i} && |n.peers| + 1 == 3
  {
    assert Elements([2, 3]) == {1, 2, 3} - {1};
    assert Elements([1, 3]) == {1, 2, 3} - {2};
    assert Elements([1, 2]) == {1, 2, 3} - {3};
  }

  lemma ThreeFreshServers()
    ensures Init(Cluster(SERVERS, {}))
  {
    hide Elements;
    assert SERVERS.Keys == {1, 2, 3};
    assert |SERVERS| == |SERVERS.Keys| == 3;
    forall i | i in SERVERS
      ensures var n := SERVERS[i].node;
              && n == Fresh(i, n.peers, n.batch) && SERVERS[i].disk == None && n.batch >= 1
              && Elements(n.peers) == SERVERS.Keys - {i} && |n.peers| + 1 == |SERVERS|
    {
      FreshServer(i);
    }
  }

  const FIRST := System(DECODER, Cluster(SERVERS, {}), map[1 := NewService(), 2 := NewService(), 3 := NewService()],
                        map[1 := StateMachineSpec.Empty(), 2 := StateMachineSpec.Empty(),
                            3 := StateMachineSpec.Empty()], map[])

  lemma Starts()
    ensures Start(FIRST)
  {
    hide Init;
    ThreeFreshServers();
    assert FIRST.services.Keys == SERVERS.Keys && FIRST.machines.Keys == SERVERS.Keys;
  }

  lemma FirstShows(cast: Cast)
    requires cast == Cast(Trio(Fresh(1, [2, 3], 64), Two(0, None, None, L0, 0), THREE), NewService())
    ensures Shows(FIRST, cast)
  {
    assert cast.nodes.Keys == {1, 2, 3} && FIRST.services.Keys == {1, 2, 3} && SERVERS.Keys == {1, 2, 3};
    assert FIRST.machines.Keys == {1, 2, 3};
  }

  lemma Beginning() returns (xs: seq<System>, cast: Cast)
    ensures Scene(xs, cast) && cast == Cast(Trio(Fresh(1, [2, 3], 64), Two(0, None, None, L0, 0), THREE), NewService())
  {
    hide Start, Shows;
    Starts();
    xs, cast := [FIRST], Cast(Trio(Fresh(1, [2, 3], 64), Two(0, None, None, L0, 0), THREE), NewService());
    FirstShows(cast);
  }

  const ONE_FIRST := Leading(1, [2, 3], 1, L1, 1, map[2 := 2, 3 := 1], map[2 := 1, 3 := 0])

  /** What a term of the story needs: an election, and a batch that commits. */
  ghost predicate TermGoes(n: NodeState, w: NodeState, leader: NodeState, voter: NodeState, batch: AppendRequest) {
    && Eligible(n, w) && Elected(n) == leader && Voted(w, n) == voter && FirstBatch(n) == batch
    && FitsAtEnd(voter, batch) && Decisive(leader, w.self, batch) && leader.self == n.self && voter.self == w.self
  }

  /** Node n is elected by w, and w's answer to the first batch commits it. */
  lemma TermPasses(xs: seq<System>, cast: Cast, n: NodeState, w: NodeState, leader: NodeState, voter: NodeState,
                   batch: AppendRequest)
    returns (xs': seq<System>, cast': Cast)
    requires Scene(xs, cast) && n.self in cast.nodes && cast.nodes[n.self] == n && w.self in cast.nodes
    requires cast.nodes[w.self] == w
    requires TermGoes(n, w, leader, voter, batch) && w.self != 1 && n.self != w.self
    ensures Scene(xs', cast') && Onward(xs, xs') && cast'.service == cast.service
    ensures var stored := cast.nodes[w.self := Stored(voter, batch)];
            cast'.nodes == stored[n.self := Grown(leader, w.self, LastIndex(leader.log))]
  {
    hide React, ReadRun, Shows, Eligible, Elected, Voted, FitsAtEnd, Decisive, Stored, Grown;
    var xs1, cast1 := Election(xs, cast, n, w);
    xs', cast' := Replicates(xs1, cast1, leader, voter, batch);
  }

  lemma FirstValues(one: NodeState, two: NodeState, leader: NodeState, voter: NodeState, batch: AppendRequest)
    requires one == Fresh(1, [2, 3], 64) && two == Two(0, None, None, L0, 0) && voter == Two(1, Some(1), None, L0, 0)
    requires leader == Leading(1, [2, 3], 1, L1, 0, map[2 := 1, 3 := 1], map[2 := 0, 3 := 0])
    requires batch == AppendRequest(1, 1, 0, 0, [N1], 0, 0)
    ensures TermGoes(one, two, leader, voter, batch)
    ensures Grown(leader, 2, LastIndex(leader.log)) == ONE_FIRST
    ensures Stored(voter, batch) == Two(1, Some(1), Some(1), L1, 0)
  {
  }

  /** Node 1 leads term 1 and commits with node 2. */
  lemma FirstTerm() returns (xs: seq<System>, cast: Cast)
    ensures Scene(xs, cast) && cast == Cast(Trio(ONE_FIRST, Two(1, Some(1), Some(1), L1, 0), THREE), NewService())
  {
    hide React, ReadRun, Shows, TermGoes, Grown, Stored;
    xs, cast := Beginning();
    var one, two, voter := Fresh(1, [2, 3], 64), Two(0, None, None, L0, 0), Two(1, Some(1), None, L0, 0);
    var leader, batch := Leading(1, [2, 3], 1, L1, 0, map[2 := 1, 3 := 1], map[2 := 0, 3 := 0]),
                         AppendRequest(1, 1, 0, 0, [N1], 0, 0);
    FirstValues(one, two, leader, voter, batch);
    xs, cast := TermPasses(xs, cast, one, two, leader, voter, batch);
    assert cast.nodes == Trio(ONE_FIRST, Two(1, Some(1), Some(1), L1, 0), THREE);
  }

  const PROBE := AppendRequest(1, 1, 1, 1, [], 1, 1)

  /** Its read barrier reaches node 2, whose answer stays in the network. */
  lemma ProbeAnswered() returns (xs: seq<System>, cast: Cast)
    ensures Scene(xs, cast) && cast.nodes == Trio(ONE_FIRST, Two(1, Some(1), Some(1), L1, 1), THREE)
    ensures Message(2, 1, AnswerAppend(Success(PROBE))) in Last(xs).cluster.net
  {
    hide React, ReadRun, Shows;
    var two := Two(1, Some(1), Some(1), L1, 0);
    xs, cast := FirstTerm();
    xs, cast := Asked(xs, cast);
    xs, cast := Opening(xs, cast, 1);
    assert MakeAppend(ONE_FIRST, 2, 1) == Outbound(2, Append(PROBE));
    xs, cast := Stores(xs, cast, two, PROBE);
    assert Stored(two, PROBE) == Two(1, Some(1), Some(1), L1, 1) by { assert L1 + [] == L1; }
    assert cast.nodes == Trio(ONE_FIRST, Two(1, Some(1), Some(1), L1, 1), THREE);
  }

  /** Then node 1 restarts. */
  lemma LostRead() returns (xs: seq<System>, cast: Cast)
    ensures Scene(xs, cast)
    ensures cast == Cast(Trio(Following(1, [2, 3], 1, Some(1), None, L1, 1), Two(1, Some(1), Some(1), L1, 1), THREE),
                         NewService())
    ensures Message(2, 1, AnswerAppend(Success(PROBE))) in Last(xs).cluster.net
  {
    hide React, ReadRun, Shows;
    xs, cast := ProbeAnswered();
    xs, cast := Restarting(xs, cast, ONE_FIRST);
    assert cast.nodes == Trio(Following(1, [2, 3], 1, Some(1), None, L1, 1), Two(1, Some(1), Some(1), L1, 1), THREE);
  }

  const ONE_SECOND := Leading(1, [2, 3], 2, L2, 2, map[2 := 3, 3 := 2], map[2 := 2, 3 := 0])

  lemma SecondValues(one: NodeState, two: NodeState, leader: NodeState, voter: NodeState, batch: AppendRequest)
    requires one == Following(1, [2, 3], 1, Some(1), None, L1, 1) && two == Two(1, Some(1), Some(1), L1, 1)
    requires voter == Two(2, Some(1), None, L1, 1)
    requires leader == Leading(1, [2, 3], 2, L2, 1, map[2 := 2, 3 := 2], map[2 := 0, 3 := 0])
    requires batch == AppendRequest(2, 1, 1, 1, [N2], 1, 0)
    ensures TermGoes(one, two, leader, voter, batch)
    ensures Grown(leader, 2, LastIndex(leader.log)) == ONE_SECOND
    ensures Stored(voter, batch) == Two(2, Some(1), Some(1), L2, 1)
  {
  }

  /** Node 1 leads again, in term 2. */
  lemma SecondTerm() returns (xs: seq<System>, cast: Cast)
    ensures Scene(xs, cast)
    ensures cast == Cast(Trio(ONE_SECOND, Two(2, Some(1), Some(1), L2, 1), THREE), NewService())
    ensures Message(2, 1, AnswerAppend(Success(PROBE))) in Last(xs).cluster.net
  {
    hide React, ReadRun, Shows, TermGoes, Grown, Stored;
    xs, cast := LostRead();
    var one, two, voter := Following(1, [2, 3], 1, Some(1), None, L1, 1), Two(1, Some(1), Some(1), L1, 1),
                           Two(2, Some(1), None, L1, 1);
    var leader, batch := Leading(1, [2, 3], 2, L2, 1, map[2 := 2, 3 := 2], map[2 := 0, 3 := 0]),
                         AppendRequest(2, 1, 1, 1, [N2], 1, 0);
    SecondValues(one, two, leader, voter, batch);
    xs, cast := TermPasses(xs, cast, one, two, leader, voter, batch);
    assert cast.nodes == Trio(ONE_SECOND, Two(2, Some(1), Some(1), L2, 1), THREE);
  }

  const TWO_THIRD := Leading(2, [1, 3], 3, L3, 1, map[1 := 3, 3 := 1], map[1 := 0, 3 := 0])

  /** Node 2 is elected for term 3 by node 3, unseen by node 1, and finds where node 3's log ends. */
  lemma ThirdTerm() returns (xs: seq<System>, cast: Cast)
    ensures Scene(xs, cast)
    ensures cast == Cast(Trio(ONE_SECOND, TWO_THIRD, Three(3, Some(2), Some(2), L0, 0)), NewService())
    ensures Message(2, 1, AnswerAppend(Success(PROBE))) in Last(xs).cluster.net
  {
    hide React, ReadRun, Shows;
    xs, cast := SecondTerm();
    var two := Two(2, Some(1), Some(1), L2, 1);
    xs, cast := Election(xs, cast, two, THREE);
    var leader := Leading(2, [1, 3], 3, L3, 1, map[1 := 3, 3 := 3], map[1 := 0, 3 := 0]);
    var three := Three(3, Some(2), None, L0, 0);
    assert Elected(two) == leader && Voted(THREE, two) == three;
    xs, cast := RefusedByThree(xs, cast, leader, three);
    assert cast.nodes == Trio(ONE_SECOND, TWO_THIRD, Three(3, Some(2), Some(2), L0, 0));
  }

  lemma RefusedByThree(xs: seq<System>, cast: Cast, leader: NodeState, three: NodeState)
    returns (xs': seq<System>, cast': Cast)
    requires Scene(xs, cast) && 2 in cast.nodes && 3 in cast.nodes && cast.nodes[2] == leader && cast.nodes[3] == three
    requires leader == Leading(2, [1, 3], 3, L3, 1, map[1 := 3, 3 := 3], map[1 := 0, 3 := 0])
    requires three == Three(3, Some(2), None, L0, 0)
    requires Message(2, 3, Append(AppendRequest(3, 2, 2, 2, [N3], 1, 0))) in Last(xs).cluster.net
    ensures Scene(xs', cast') && Onward(xs, xs')
    ensures cast' == Cast(cast.nodes[3 := Three(3, Some(2), Some(2), L0, 0)][2 := TWO_THIRD], cast.service)
  {
    hide React, ReadRun, Shows;
    var batch, no := AppendRequest(3, 2, 2, 2, [N3], 1, 0), AppendResponse(3, false, 2, 1, 0, 1, None, 0);
    CannotAppend(three, batch);
    xs', cast' := Play(xs, cast, 3, Deliver(2, Append(batch)), Three(3, Some(2), Some(2), L0, 0),
                       Outbound(2, AnswerAppend(no)));
    StepsBack(leader, 3, no);
    assert leader.(next := leader.next[3 := 1]) == TWO_THIRD;
    xs', cast' := PlaySilently(xs', cast', 2, Deliver(3, AnswerAppend(no)), TWO_THIRD);
  }

  const TWO_FOURTH := Leading(2, [1, 3], 3, L4, 1, map[1 := 3, 3 := 1], map[1 := 0, 3 := 0])

  const WHOLE := AppendRequest(3, 2, 0, 0, [N1, N2, N3, P4], 1, 0)

  lemma WholeLogFromTwo()
    ensures |TWO_FOURTH.log| > 0 && MakeAppend(TWO_FOURTH, 3, 0) == Outbound(3, Append(WHOLE))
  {
    assert OffsetOf(L4, 1) == Some(1);
    assert L4[1..5] == [N1, N2, N3, P4];
    assert EntriesFrom(L4, 1, 64) == [N1, N2, N3, P4];
  }

  /** A client puts the key at node 2, which sends its whole log to node 3. */
  lemma Puts() returns (xs: seq<System>, cast: Cast)
    ensures Scene(xs, cast)
    ensures cast == Cast(Trio(ONE_SECOND, TWO_FOURTH, Three(3, Some(2), Some(2), L0, 0)), NewService())
    ensures Message(2, 1, AnswerAppend(Success(PROBE))) in Last(xs).cluster.net
    ensures Message(2, 3, Append(WHOLE)) in Last(xs).cluster.net
  {
    hide React, ReadRun, Shows;
    xs, cast := ThirdTerm();
    Proposes(TWO_THIRD, 1, 3, [1], 3);
    assert L3 + [P4] == L4;
    WholeLogFromTwo();
    xs, cast := Play(xs, cast, 2, Client([1]), TWO_FOURTH, Outbound(3, Append(WHOLE)));
    assert cast.nodes == Trio(ONE_SECOND, TWO_FOURTH, Three(3, Some(2), Some(2), L0, 0));
  }

  const TWO_COMMITTED := Leading(2, [1, 3], 3, L4, 4, map[1 := 3, 3 := 5], map[1 := 0, 3 := 4])

  /** With node 3's answer, node 2 commits the put. */
  lemma ThirdCommit() returns (xs: seq<System>, cast: Cast)
    ensures Scene(xs, cast) && cast.service == NewService()
    ensures 1 in cast.nodes && 2 in cast.nodes && cast.nodes[1] == ONE_SECOND && cast.nodes[2] == TWO_COMMITTED
    ensures Message(2, 1, AnswerAppend(Success(PROBE))) in Last(xs).cluster.net
  {
    hide React, ReadRun, Shows;
    xs, cast := Puts();
    xs, cast := Replicates(xs, cast, TWO_FOURTH, Three(3, Some(2), Some(2), L0, 0), WHOLE);
    assert Grown(TWO_FOURTH, 3, 4) == TWO_COMMITTED;
  }

  lemma OnStage(xs: seq<System>, cast: Cast, i: NodeId)
    requires Scene(xs, cast) && i in cast.nodes
    ensures Hosts(xs, |xs| - 1, i) && NodeAt(xs, |xs| - 1, i) == cast.nodes[i]
    ensures i == 1 ==> 1 in Last(xs).services && Last(xs).services[1] == cast.service
  {
  }

  /** Node 1, which still believes it leads term 2, opens a batch under context 1 again. */
  lemma ReusedContext() returns (xs: seq<System>, cast: Cast, b: nat)
    ensures Scene(xs, cast) && cast.service == Service(2, map[1 := Pending([READ], 2, 2, {1})], [])
    ensures 1 in cast.nodes && cast.nodes[1] == ONE_SECOND
    ensures Hosts(xs, b, 2) && NodeAt(xs, b, 2) == TWO_COMMITTED && (1, 1) in Last(xs).began
    ensures Last(xs).began[(1, 1)] == b
    ensures Message(2, 1, AnswerAppend(Success(PROBE))) in Last(xs).cluster.net
  {
    hide React, ReadRun, Shows;
    xs, cast := ThirdCommit();
    xs, cast := Asked(xs, cast);
    b := |xs| - 1;
    OnStage(xs, cast, 2);
    xs, cast := Opening(xs, cast, 1);
  }

  /** The old answer from node 2 completes its majority. */
  lemma StaleRun() returns (xs: seq<System>, b: nat)
    ensures ReadRun(AsWritten, xs) && Waiting(xs, |xs| - 1, 1, 1) && Hosts(xs, b, 2)
    ensures NodeAt(xs, b, 2) == TWO_COMMITTED
    ensures NodeAt(xs, |xs| - 1, 1) == ONE_SECOND && (1, 1) in Last(xs).began && Last(xs).began[(1, 1)] == b
    ensures Last(xs).services[1] == Service(2, map[1 := Pending([READ], 2, 2, {1, 2})], []) && b < |xs| - 1
    ensures xs[0].decode == DECODER && Served(Last(xs), 1)
  {
    hide React, ReadRun, Shows;
    var cast: Cast;
    xs, cast, b := ReusedContext();
    OldAnswerIgnored();
    var event := Deliver(2, AnswerAppend(Success(PROBE)));
    var sv := Service(2, map[1 := Pending([READ], 2, 2, {1, 2})], []);
    OldAnswerCounted();
    assert cast.nodes[1 := ONE_SECOND] == cast.nodes;
    var xs2 := Act(xs, cast, 1, event, Cast(cast.nodes, sv));
    OnStage(xs2, Cast(cast.nodes, sv), 1);
    FirstDecodes(xs2, Cast(cast.nodes, sv));
    assert xs2[b] == xs[b];
    xs := xs2;
  }

  lemma FirstDecodes(xs: seq<System>, cast: Cast)
    requires Scene(xs, cast) && Contiguous(cast.nodes[1].log)
    ensures xs[0].decode == DECODER && Served(Last(xs), 1)
  {
    StaffedThroughout(AsWritten, xs, |xs| - 1);
  }

  lemma OldAnswerCounted()
    ensures Counted(AsWritten, Service(2, map[1 := Pending([READ], 2, 2, {1})], []), ONE_SECOND,
                    Deliver(2, AnswerAppend(Success(PROBE)))) ==
            Service(2, map[1 := Pending([READ], 2, 2, {1, 2})], [])
  {
    var sv := Service(2, map[1 := Pending([READ], 2, 2, {1})], []);
    assert {1} + {2} == {1, 2};
    assert Collected(sv, 2, 2, Success(PROBE)).pending == sv.pending[1 := sv.pending[1].(acks := {1, 2})];
    assert sv.pending[1 := sv.pending[1].(acks := {1, 2})] == map[1 := Pending([READ], 2, 2, {1, 2})];
  }

  lemma OldAnswerIgnored()
    ensures Contiguous(ONE_SECOND.log) && React(ONE_SECOND, Deliver(2, AnswerAppend(Success(PROBE)))).node == ONE_SECOND
  {
  }

  // ---------------------------------------------------------------- what the machines hold

  /** Nothing in this story fails to apply. */
  lemma Applies(m: Machine, e: LogEntry)
    requires e.index == m.lastApplied + 1 && (e.kind == NoOp <==> e.command == []) && e.kind != ConfChange
    ensures StateMachineSpec.Apply(m, DECODER, e).1 != StateMachineSpec.Failed
  {
  }

  /** So a machine that stopped has applied all that is committed. */
  lemma AllApplied(m: Machine, n: NodeState)
    requires MachineOk(m, DECODER, n)
    requires forall j :: 1 <= j < |n.log| ==> n.log[j].index == j && n.log[j].kind != ConfChange
    requires forall j :: 1 <= j < |n.log| ==> (n.log[j].kind == NoOp <==> n.log[j].command == [])
    ensures m == StateMachineSpec.ApplyAll(StateMachineSpec.Empty(), DECODER, n.log[1..n.commit + 1]).machine
  {
    hide StateMachineSpec.ApplyAll, StateMachineSpec.Apply;
    if m.lastApplied < n.commit {
      StateMachineSpec.EntryIs(n.log, m.lastApplied + 1);
      Applies(m, n.log[m.lastApplied + 1]);
    }
  }

  lemma AfterNoOp(m: Machine, entries: seq<LogEntry>, e: LogEntry)
    requires m == StateMachineSpec.ApplyAll(StateMachineSpec.Empty(), DECODER, entries).machine
    requires e == LogEntry(m.lastApplied + 1, e.term, NoOp, [])
    ensures StateMachineSpec.ApplyAll(StateMachineSpec.Empty(), DECODER, entries + [e]).machine ==
              m.(lastApplied := e.index)
  {
    assert (entries + [e])[..|entries|] == entries;
  }

  lemma AfterTwo()
    ensures StateMachineSpec.ApplyAll(StateMachineSpec.Empty(), DECODER, [N1, N2]).machine ==
              StateMachineSpec.Machine(map[], map[], 2)
  {
    StateMachineSpec.ApplyNothing(StateMachineSpec.Empty(), DECODER);
    AfterNoOp(StateMachineSpec.Empty(), [], N1);
    assert [] + [N1] == [N1];
    AfterNoOp(StateMachineSpec.Machine(map[], map[], 1), [N1], N2);
    assert [N1] + [N2] == [N1, N2];
  }

  lemma AfterFour()
    ensures StateMachineSpec.ApplyAll(StateMachineSpec.Empty(), DECODER, [N1, N2, N3, P4]).machine.store ==
              map[KEY := VALUE]
  {
    AfterTwo();
    AfterNoOp(StateMachineSpec.Machine(map[], map[], 2), [N1, N2], N3);
    assert [N1, N2] + [N3] == [N1, N2, N3];
    assert [N1, N2, N3, P4][..3] == [N1, N2, N3];
    var m: map<Key, Value> := map[];
    assert m[KEY := VALUE] == map[KEY := VALUE];
  }

  /** Node 1 has applied two no-ops and node 2 the put. */
  lemma MachinesHold(xs: seq<System>, k: nat, b: nat)
    requires ReadRun(AsWritten, xs) && xs[0].decode == DECODER && Hosts(xs, k, 1) && Hosts(xs, b, 2)
    requires NodeAt(xs, k, 1) == ONE_SECOND && NodeAt(xs, b, 2) == TWO_COMMITTED
    ensures MachineAt(xs, k, 1) == StateMachineSpec.Machine(map[], map[], 2)
    ensures MachineAt(xs, b, 2).store == map[KEY := VALUE]
  {
    hide ReadRun, MachineOk, StateMachineSpec.ApplyAll;
    MachinesReflectLogs(AsWritten, xs, k, 1);
    MachinesReflectLogs(AsWritten, xs, b, 2);
    AllApplied(MachineAt(xs, k, 1), ONE_SECOND);
    AllApplied(MachineAt(xs, b, 2), TWO_COMMITTED);
    assert L2[1..3] == [N1, N2] && L4[1..5] == [N1, N2, N3, P4];
    AfterTwo();
    AfterFour();
  }

  // ---------------------------------------------------------------- the answer

  const OPEN := Service(2, map[1 := Pending([READ], 2, 2, {1, 2})], [])

  lemma Answers(x: System, machine: Machine) returns (x': System)
    requires Served(x, 1) && x.services[1] == OPEN && x.cluster.servers[1].node == ONE_SECOND
    requires x.machines[1] == machine == StateMachineSpec.Machine(map[], map[], 2)
    ensures Sweeps(x, x', 1, [1], {}, [Answer(READ, NotFound)])
  {
    var read := Pending([READ], 2, 2, {1, 2});
    assert |{1, 2}| == 2;
    assert Completes(read, ONE_SECOND, 2, false);
    assert StoreAnswers([READ], map[]) == [Answer(READ, NotFound)];
    assert BatchAnswers(read, ONE_SECOND, machine, false) == [Answer(READ, NotFound)];
    assert [1][..0] == [];
    assert SweepAnswers(OPEN, [], ONE_SECOND, machine, {}) == [];
    assert SweepAnswers(OPEN, [1], ONE_SECOND, machine, {}) == [] + [Answer(READ, NotFound)];
    x' := x.(services := x.services[1 := Swept(OPEN, ONE_SECOND, 2, {})]);
  }

  /** The run ends with a sweep that answers a read with NotFound, although node 2 had the key in its
      map when the read's batch was opened at moment b. */
  ghost predicate AnsweredStale(xs: seq<System>, b: nat) {
    && |xs| >= 2 && Waiting(xs, |xs| - 2, 1, 1) && Hosts(xs, b, 2)
    && var k := |xs| - 2;
       && xs[k].services[1].pending[1].requests == [READ]
       && (1, 1) in xs[k].began && b == xs[k].began[(1, 1)] <= k && READ.key in MachineAt(xs, b, 2).store
       && Sweeps(xs[k], xs[k + 1], 1, [1], {}, [Answer(READ, NotFound)])
  }

  /** The read service as written is not linearizable. */
  lemma StaleAnswer() returns (xs: seq<System>, b: nat)
    ensures ReadRun(AsWritten, xs) && AnsweredStale(xs, b) && !Linearizable(xs) && !AnswersCurrent(xs)
  {
    hide ReadRun, Sweeps, Linearizable, AnswersCurrent;
    xs, b := StaleRun();
    var k := |xs| - 1;
    StaffedThroughout(AsWritten, xs, k);
    MachinesHold(xs, k, b);
    var x' := Answers(xs[k], MachineAt(xs, k, 1));
    Extended(xs, x');
    var ys := xs + [x'];
    SeenAlike(xs, ys, k, b);
    NotLinearizable(ys, k, b);
    xs := ys;
  }

  lemma SeenAlike(xs: seq<System>, ys: seq<System>, k: nat, b: nat)
    requires k < |xs| && b < |xs| && xs <= ys && Hosts(xs, k, 1) && Hosts(xs, b, 2)
    ensures ys[k] == xs[k] && ys[b] == xs[b] && Hosts(ys, k, 1) && Hosts(ys, b, 2)
    ensures NodeAt(ys, k, 1) == NodeAt(xs, k, 1) && MachineAt(ys, k, 1) == MachineAt(xs, k, 1)
    ensures NodeAt(ys, b, 2) == NodeAt(xs, b, 2) && MachineAt(ys, b, 2) == MachineAt(xs, b, 2)
  {
  }

  lemma NotLinearizable(xs: seq<System>, k: nat, b: nat)
    requires k + 1 < |xs| && Waiting(xs, k, 1, 1) && xs[k].services[1] == OPEN && NodeAt(xs, k, 1) == ONE_SECOND
    requires MachineAt(xs, k, 1).lastApplied == 2 && Hosts(xs, b, 2) && NodeAt(xs, b, 2) == TWO_COMMITTED
    requires (1, 1) in xs[k].began && xs[k].began[(1, 1)] == b
    requires Sweeps(xs[k], xs[k + 1], 1, [1], {}, [Answer(READ, NotFound)])
    ensures !Linearizable(xs) && !AnswersCurrent(xs)
  {
    hide Sweeps;
    assert |{1, 2}| == 2;
    assert MayAnswer(xs, k, 1, 1);
    assert !Contains(NodeAt(xs, k, 1), 2, NodeAt(xs, b, 2));
    assert !UpToDateSince(xs, k, 1, 1, 2);
    var a := Answer(READ, NotFound);
    assert a in [a] && FromStore(a);
    forall context: nat ensures !Current(xs, k, 1, context, a) {
    }
  }

  lemma StaleReadHappens() returns (xs: seq<System>)
    ensures ReadRun(AsWritten, xs) && !Linearizable(xs)
  {
    var b;
    xs, b := StaleAnswer();
  }
}
