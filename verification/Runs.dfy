/** Every run of the cluster has a run of the protocol beside it.

    One cluster step at a time: a handler that returns (`HandledFollows`), or one that dies after
    any number of its saves and restarts (`CrashedFollows`). `RunTraced` strings the steps
    together into one protocol state per moment of the run, each satisfying the invariant and
    each later than the ones before it, so that facts about different moments can be compared. */
module Runs {
  import opened RaftTypes
  import opened LogSpec
  import opened NodeSpec
  import opened Quorum
  import opened Protocol
  import opened Invariant
  import opened Stability
  import opened Elections
  import opened Cluster
  import opened Simulation

  // ---------------------------------------------------------------- saved terms

  /** Term 0 belongs to no message and no candidate or leader. */
  lemma TermsUsed(s: State, i: NodeId)
    requires Inv(s) && i in s.nodes
    ensures s.nodes[i].term == 0 ==> s.nodes[i].role == Follower
    ensures forall m :: m in s.net && m.payload.AskVote? ==> m.payload.ask.term >= 1
    ensures forall m :: m in s.net && m.payload.Append? ==> m.payload.append.term >= 1
  {
    assert NodeInv(s, i);
    if s.nodes[i].role == Candidate {
      assert CandInv(s, (s.nodes[i].term, i));
    } else if s.nodes[i].role == Leader {
      assert TermInv(s, s.nodes[i].term);
    }
    forall m | m in s.net && m.payload.AskVote? ensures m.payload.ask.term >= 1 {
      assert MessageInv(s, m);
      assert CandInv(s, (m.payload.ask.term, m.source));
    }
    forall m | m in s.net && m.payload.Append? ensures m.payload.append.term >= 1 {
      assert MessageInv(s, m);
      assert TermInv(s, m.payload.append.term);
    }
  }

  ghost predicate Used(saves: seq<Image>) {
    forall k :: 0 <= k < |saves| ==> saves[k].term >= 1
  }

  lemma ElectionSavesUsed(n: NodeState)
    requires |n.log| > 0
    ensures Used(StartElection(n).saves)
  {
  }

  lemma ResponseSavesUsed(n: NodeState, source: NodeId, vote: VoteResponse, answer: AppendResponse)
    requires |n.log| > 0 && (n.term == 0 ==> n.role == Follower)
    ensures Used(HandleVoteResponse(n, source, vote).saves)
    ensures Used(HandleAppendResponse(n, source, answer).saves)
  {
  }

  lemma RequestSavesUsed(n: NodeState, ask: VoteRequest, append: AppendRequest)
    requires Contiguous(n.log) && ask.term >= 1 && append.term >= 1
    ensures Used(HandleVoteRequest(n, ask).saves)
    ensures Used(HandleAppend(n, append).saves)
  {
  }

  /** No handler saves an image of term 0. */
  lemma SavedTerms(n: NodeState, event: Event)
    requires Contiguous(n.log) && (n.term == 0 ==> n.role == Follower)
    requires event.Deliver? && event.payload.AskVote? ==> event.payload.ask.term >= 1
    requires event.Deliver? && event.payload.Append? ==> event.payload.append.term >= 1
    ensures Used(React(n, event).saves)
  {
    match event
    case ElectionTimeout => ElectionSavesUsed(n);
    case Heartbeat =>
    case Barrier(_) =>
    case Client(_) =>
    case Deliver(_, AskVote(request)) => RequestSavesUsed(n, request, AppendRequest(1, 0, 0, 0, [], 0, 0));
    case Deliver(source, AnswerVote(response)) =>
      ResponseSavesUsed(n, source, response, AppendResponse(0, false, 0, 0, 0, 0, None, 0));
    case Deliver(_, Append(request)) => RequestSavesUsed(n, VoteRequest(1, 0, 0, 0), request);
    case Deliver(source, AnswerAppend(response)) =>
      ResponseSavesUsed(n, source, VoteResponse(0, 0, false), response);
  }

  // ---------------------------------------------------------------- one step

  lemma OfferedToNode(s: State, c: Cluster, i: NodeId, event: Event)
    requires Follows(s, c) && Offered(c, i, event)
    ensures i in s.nodes && IsNode(s, i) && Contiguous(s.nodes[i].log)
    ensures event.Deliver? ==> Message(event.source, i, event.payload) in s.net
    ensures Used(React(s.nodes[i], event).saves)
  {
    assert NodeInv(s, i);
    TermsUsed(s, i);
    if event.Deliver? {
      assert Message(event.source, i, event.payload) in s.net;
    }
    SavedTerms(s.nodes[i], event);
  }

  lemma DiskStaysSound(disk: Option<Image>, n: NodeState, event: Event)
    requires Contiguous(n.log) && DiskSound(disk, n)
    requires Used(React(n, event).saves)
    ensures DiskSound(DiskAfter(disk, React(n, event).saves), React(n, event).node)
  {
    PersistBeforeReply(disk, n, event);
  }

  lemma FollowsFrom(s: State, c: Cluster, s': State, i: NodeId, disk: Option<Image>, net: set<Message>)
    requires Follows(s, c) && Beside(s, s', i) && DiskSound(disk, s'.nodes[i]) && net <= s'.net
    ensures Follows(s', Cluster(c.servers[i := Server(s'.nodes[i], disk)], net))
  {
  }

  /** A handler that runs to its end. */
  lemma HandledFollows(s: State, c: Cluster, i: NodeId, event: Event) returns (s': State)
    requires Follows(s, c) && Offered(c, i, event)
    ensures Follows(s', Handled(c, i, event)) && Beside(s, s', i)
  {
    OfferedToNode(s, c, i, event);
    s' := HandledBeside(s, c, i, event);
    FollowsFrom(s, c, s', i, DiskAfter(c.servers[i].disk, React(s.nodes[i], event).saves),
                c.net + From(i, React(s.nodes[i], event).reply));
  }

  lemma HandledBeside(s: State, c: Cluster, i: NodeId, event: Event) returns (s': State)
    requires Follows(s, c) && Offered(c, i, event)
    requires i in s.nodes && IsNode(s, i) && Contiguous(s.nodes[i].log) && Used(React(s.nodes[i], event).saves)
    requires event.Deliver? ==> Message(event.source, i, event.payload) in s.net
    ensures Beside(s, s', i) && s'.nodes[i] == React(s.nodes[i], event).node
    ensures c.net + From(i, React(s.nodes[i], event).reply) <= s'.net
    ensures DiskSound(DiskAfter(c.servers[i].disk, React(s.nodes[i], event).saves), s'.nodes[i])
  {
    var path;
    path, s' := AccountFor(s, i, event);
    DiskStaysSound(c.servers[i].disk, s.nodes[i], event);
  }

  /** The fields a restart reads back are those of the state after the last save. */
  lemma RestartIsFollower(n: NodeState, disk: Option<Image>)
    requires DiskSound(disk, n) && Restart(disk, n.self, n.peers, n.batch).Some?
    ensures Restart(disk, n.self, n.peers, n.batch).value == BecomeFollower(n, n.term, None)
    ensures DiskSound(disk, BecomeFollower(n, n.term, None))
  {
  }

  lemma DiskOnPath(s: State, i: NodeId, disk: Option<Image>, saves: seq<Image>, path: seq<State>, k: nat)
    requires i in s.nodes && SavePath(s, i, saves, path) && Used(saves)
    requires DiskSound(disk, s.nodes[i]) && k <= |saves|
    ensures |path| == |saves| + 1 && Beside(s, path[k], i) && SameConfig(s.nodes[i], path[k].nodes[i])
    ensures DiskSound(DiskAfter(disk, saves[..k]), path[k].nodes[i])
  {
  }

  /** Some protocol state has exactly what the disk holds after k saves. */
  lemma CrashPoint(s: State, c: Cluster, i: NodeId, event: Event, k: nat) returns (mid: State)
    requires Follows(s, c) && Offered(c, i, event) && k <= |React(c.servers[i].node, event).saves|
    ensures Beside(s, mid, i) && IsNode(mid, i) && SameConfig(c.servers[i].node, mid.nodes[i])
    ensures DiskSound(DiskAtCrash(c.servers[i], event, k), mid.nodes[i])
  {
    OfferedToNode(s, c, i, event);
    var path, end := AccountFor(s, i, event);
    DiskOnPath(s, i, c.servers[i].disk, React(s.nodes[i], event).saves, path, k);
    mid := path[k];
    assert NodeInv(mid, i);
  }

  /** A handler that dies after k of its saves, and the restart. */
  lemma CrashedFollows(s: State, c: Cluster, c': Cluster, i: NodeId, event: Event, k: nat) returns (s': State)
    requires Follows(s, c) && Crashed(c, c', i, event, k)
    ensures Follows(s', c') && Beside(s, s', i)
  {
    var mid := CrashPoint(s, c, i, event, k);
    var disk := DiskAtCrash(c.servers[i], event, k);
    RestartIsFollower(mid.nodes[i], disk);
    s' := Recovered(s, mid, i);
    FollowsFrom(s, c, s', i, disk, c.net);
  }

  lemma Recovered(s: State, mid: State, i: NodeId) returns (s': State)
    requires Beside(s, mid, i) && IsNode(mid, i)
    ensures Beside(s, s', i) && s'.nodes[i] == BecomeFollower(mid.nodes[i], mid.nodes[i].term, None)
  {
    s' := RaiseStep(mid, i, mid.nodes[i].term, None);
    RaiseKeeps(mid, i, mid.nodes[i].term, None);
    BesideThen(s, mid, s', i);
  }

  lemma StepFollows(s: State, c: Cluster, c': Cluster) returns (s': State)
    requires Follows(s, c) && Step(c, c')
    ensures Follows(s', c') && Later(s, s')
  {
    if c' == c {
      s' := s;
    } else if i, event :| Offered(c, i, event) && c' == Handled(c, i, event) {
      s' := HandledFollows(s, c, i, event);
    } else {
      var i, event, k: nat :| Crashed(c, c', i, event, k);
      s' := CrashedFollows(s, c, c', i, event, k);
    }
  }

  // ---------------------------------------------------------------- runs

  /** Before anything has happened the history is empty. */
  function FirstState(c: Cluster): State {
    State(map i | i in c.servers :: c.servers[i].node, {}, History(map[], map[], map[], map[], map[], map[]))
  }

  lemma FirstNode(c: Cluster, i: NodeId)
    requires Init(c) && i in c.servers
    ensures NodeInv(FirstState(c), i)
  {
    var s := FirstState(c);
    assert s.nodes.Keys == c.servers.Keys && |s.nodes| == |s.nodes.Keys|;
    assert s.nodes[i].log == [Sentinel];
  }

  lemma InitFollows(c: Cluster) returns (s: State)
    requires Init(c)
    ensures Follows(s, c)
  {
    hide NodeInv;
    s := FirstState(c);
    forall i | i in s.nodes ensures NodeInv(s, i) {
      FirstNode(c, i);
    }
  }

  ghost predicate Traces(ss: seq<State>, cs: seq<Cluster>) {
    && |ss| == |cs|
    && (forall k {:trigger Follows(ss[k], cs[k])} :: 0 <= k < |cs| ==> Follows(ss[k], cs[k]))
    && (forall a, b {:trigger Later(ss[a], ss[b])} :: 0 <= a <= b < |cs| ==> Later(ss[a], ss[b]))
  }

  /** Every run of the cluster is traced by reachable protocol states, each later than the last. */
  lemma {:induction false} RunTraced(cs: seq<Cluster>) returns (ss: seq<State>)
    requires Run(cs)
    ensures Traces(ss, cs)
    decreases |cs|
  {
    if |cs| == 1 {
      ss := TraceFirst(cs);
    } else {
      var front, last := cs[..|cs| - 1], cs[|cs| - 1];
      RunShorter(cs);
      ss := RunTraced(front);
      ss := TraceNext(ss, front, last);
      assert cs == front + [last];
    }
  }

  lemma RunShorter(cs: seq<Cluster>)
    requires Run(cs) && |cs| > 1
    ensures Run(cs[..|cs| - 1]) && Step(cs[..|cs| - 1][|cs| - 2], cs[|cs| - 1])
  {
    var front := cs[..|cs| - 1];
    forall k | 0 <= k < |front| - 1 ensures Step(front[k], front[k + 1]) {
      assert Step(cs[k], cs[k + 1]);
    }
    assert Step(cs[|cs| - 2], cs[|cs| - 2 + 1]);
  }

  lemma TraceFirst(cs: seq<Cluster>) returns (ss: seq<State>)
    requires |cs| == 1 && Init(cs[0])
    ensures Traces(ss, cs)
  {
    var s := InitFollows(cs[0]);
    ss := [s];
  }

  lemma TraceNext(ss: seq<State>, cs: seq<Cluster>, c: Cluster) returns (ss': seq<State>)
    requires |cs| > 0 && Traces(ss, cs) && Step(cs[|cs| - 1], c)
    ensures Traces(ss', cs + [c])
  {
    assert Follows(ss[|cs| - 1], cs[|cs| - 1]);
    var s := StepFollows(ss[|cs| - 1], cs[|cs| - 1], c);
    LaterThanAll(ss, cs, s);
    TracesMore(ss, cs, s, c);
    ss' := ss + [s];
  }

  lemma LaterThanAll(ss: seq<State>, cs: seq<Cluster>, s: State)
    requires |cs| > 0 && Traces(ss, cs) && Inv(s) && Later(ss[|ss| - 1], s)
    ensures forall a :: 0 <= a < |ss| ==> Later(ss[a], s)
  {
    var last := ss[|ss| - 1];
    assert Follows(last, cs[|ss| - 1]);
    CommitsInRange(last);
    forall a | 0 <= a < |ss| ensures Later(ss[a], s) {
      assert Later(ss[a], ss[|ss| - 1]);
      LaterTransitive(ss[a], last, s);
    }
  }

  lemma TracesMore(ss: seq<State>, cs: seq<Cluster>, s: State, c: Cluster)
    requires Traces(ss, cs) && Follows(s, c) && forall a :: 0 <= a < |ss| ==> Later(ss[a], s)
    ensures Traces(ss + [s], cs + [c])
  {
    var ss', cs' := ss + [s], cs + [c];
    forall a, b | 0 <= a <= b < |cs'| ensures Later(ss'[a], ss'[b]) {
      if b < |ss| {
        assert Later(ss[a], ss[b]);
      }
    }
    forall k | 0 <= k < |cs'| ensures Follows(ss'[k], cs'[k]) {
      if k < |ss| {
        assert Follows(ss[k], cs[k]);
      }
    }
  }
}
