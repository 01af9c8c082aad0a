/** A leader and one follower exchange append requests and responses without loss. However their
    logs have diverged, the exchange ends with the leader's log stored on the follower. */
module Repair {
  import opened RaftTypes
  import opened LogSpec
  import opened NodeSpec
  import opened Quorum
  import opened Protocol
  import opened Invariant
  import opened Stability
  import opened Replication
  import opened Cluster
  import opened Simulation
  import opened Runs
  import opened ClusterSafety

  datatype Pair = Pair(leader: NodeState, follower: NodeState)

  function Request(n: NodeState, peer: NodeId): AppendRequest
    requires |n.log| > 0
  {
    MakeAppend(n, peer, 0).payload.append
  }

  function Answer(n: NodeState, f: NodeState): AppendResponse
    requires |n.log| > 0 && Contiguous(f.log)
  {
    HandleAppend(f, Request(n, f.self)).reply
  }

  /** One request and its response. */
  function Round(p: Pair): Pair
    requires |p.leader.log| > 0 && Contiguous(p.follower.log)
  {
    Pair(HandleAppendResponse(p.leader, p.follower.self, Answer(p.leader, p.follower)).node,
         HandleAppend(p.follower, Request(p.leader, p.follower.self)).node)
  }

  // ---------------------------------------------------------------- what a round finds

  /** A leader and a follower whose entries of each term come from that term's leader. */
  ghost predicate Repairable(h: History, p: Pair) {
    var n, f := p.leader, p.follower;
    && n.role == Leader && n.batch >= 1 && f.self in n.peers && f.self != n.self
    && f.IsVoter(n.self) && f.term <= n.term
    && LogOk(h, n.log) && LogOk(h, f.log) && |n.log| <= MAX_WORD + 1
    && f.self in n.next && f.self in n.matched && 1 <= n.next[f.self] <= |n.log|
    && n.matched[f.self] < |n.log| && n.log[..n.matched[f.self] + 1] <= f.log
  }

  function NextOf(p: Pair): nat
    requires p.follower.self in p.leader.next
  {
    p.leader.next[p.follower.self]
  }

  function MatchedOf(p: Pair): nat
    requires p.follower.self in p.leader.matched
  {
    p.leader.matched[p.follower.self]
  }

  /** The follower's log passes the consistency check at the entry before the batch. */
  ghost predicate Agrees(p: Pair)
    requires p.follower.self in p.leader.next
  {
    var l, f, q := p.leader.log, p.follower.log, NextOf(p) - 1;
    0 <= q < |l| && q < |f| && f[q].term == l[q].term
  }

  lemma RequestShape(h: History, p: Pair)
    requires Repairable(h, p)
    ensures var n, q := p.leader, NextOf(p) - 1;
            var count := Min(|n.log| - NextOf(p), n.batch);
            && q + count < |n.log|
            && Request(n, p.follower.self) ==
                 AppendRequest(n.term, n.self, q, n.log[q].term, n.log[q + 1..q + 1 + count], n.commit, 0)
  {
    var n, next := p.leader, NextOf(p);
    assert OffsetOf(n.log, next - 1) == Some(next - 1);
    if next < |n.log| {
      assert OffsetOf(n.log, next) == Some(next);
    } else {
      assert n.log[next..next] == [];
    }
  }

  // ---------------------------------------------------------------- conflicts

  /** The index the follower's refusal makes the leader resume at. */
  ghost predicate Resumes(p: Pair, next: nat)
    requires p.follower.self in p.leader.next && p.follower.self in p.leader.matched
  {
    MatchedOf(p) + 1 <= next < NextOf(p)
  }

  lemma ShortFollower(h: History, p: Pair)
    requires Repairable(h, p) && NextOf(p) - 1 >= |p.follower.log|
    ensures Resumes(p, NextAfterConflict(p.leader.log, |p.follower.log|, None))
  {
  }

  /** Where the terms differ, the hint lies above everything both hold and below the request. */
  lemma DivergedFollower(h: History, p: Pair, q: nat)
    requires Repairable(h, p) && q == NextOf(p) - 1 < |p.follower.log| && p.follower.log[q].term != p.leader.log[q].term
    ensures FirstOfTerm(p.follower.log, p.follower.log[q].term).Some?
    ensures var v := p.follower.log[q].term;
            Resumes(p, NextAfterConflict(p.leader.log, FirstOfTerm(p.follower.log, v).value, Some(v)))
  {
    var l, f, m := p.leader.log, p.follower.log, MatchedOf(p);
    var v := f[q].term;
    FirstOfTermFinds(f, v);
    LastOfTermFinds(l, v);
    assert forall x :: 0 <= x <= m ==> l[x] == l[..m + 1][x] == f[x];
    var first := FirstOfTerm(f, v).value;
    assert m < q && 1 <= first <= q && f[first].term == v;
    if LastOfTerm(l, v).Some? {
      var j := LastOfTerm(l, v).value;
      RunsAgree(h, l, f, j, q);
      assert l[m].term <= v && m <= j;
    }
  }

  /** A round that leaves the leader's log and puts its cursors for the follower at these places. */
  ghost predicate Moved(p: Pair, p': Pair, next: nat, matched: nat) {
    && p'.follower.self == p.follower.self && p'.leader.log == p.leader.log
    && p'.follower.self in p'.leader.next && p'.follower.self in p'.leader.matched
    && NextOf(p') == next && MatchedOf(p') == matched
  }

  /** A refusal moves the cursor down, never below what is known to match. */
  lemma RefusedRound(h: History, p: Pair) returns (next: nat)
    requires Repairable(h, p) && !Agrees(p)
    ensures MatchedOf(p) + 1 <= next < NextOf(p)
    ensures Repairable(h, Round(p)) && Round(p).follower.log == p.follower.log
    ensures Moved(p, Round(p), next, MatchedOf(p))
  {
    hide HandleAppend, MakeAppend;
    var n, f := p.leader, p.follower;
    RequestShape(h, p);
    RefusedAnswer(h, p);
    var r := Answer(n, f);
    assert n.matched[f.self] <= NextOf(p) - 1;
    next := NextAfterConflict(n.log, r.conflictIndex, r.conflictTerm);
  }

  lemma ShortIsHandled(f: NodeState, request: AppendRequest)
    requires Contiguous(f.log) && f.IsVoter(request.leaderId) && f.term <= request.term
    requires request.prevIndex > LastIndex(f.log)
    ensures var done := HandleAppend(f, request);
            && done.node == FollowLeader(f, request)
            && done.reply == AppendResponse(request.term, false, request.prevIndex, |request.entries|, 0,
                                            LastIndex(f.log) + 1, None, request.readContext)
  {
  }

  lemma DivergedIsHandled(f: NodeState, request: AppendRequest)
    requires Contiguous(f.log) && f.IsVoter(request.leaderId) && f.term <= request.term
    requires request.prevIndex <= LastIndex(f.log)
    requires TermAt(f.log, request.prevIndex) != Some(request.prevTerm)
    ensures var done := HandleAppend(f, request);
            var hint := ConflictHint(f.log, request.prevIndex);
            && done.node == FollowLeader(f, request)
            && done.reply == AppendResponse(request.term, false, request.prevIndex, |request.entries|, 0, hint.0,
                                            hint.1, request.readContext)
  {
  }

  lemma RefusedAnswer(h: History, p: Pair)
    requires Repairable(h, p) && !Agrees(p)
    ensures MatchedOf(p) < NextOf(p)
    ensures var n, f, r := p.leader, p.follower, Answer(p.leader, p.follower);
            && HandleAppend(f, Request(n, f.self)).node == FollowLeader(f, Request(n, f.self))
            && !r.success && r.term == n.term && r.prevIndex == NextOf(p) - 1
            && Resumes(p, NextAfterConflict(n.log, r.conflictIndex, r.conflictTerm))
  {
    hide MakeAppend, HandleAppend, NextAfterConflict;
    var f, q := p.follower, NextOf(p) - 1;
    RequestShape(h, p);
    if q >= |f.log| {
      ShortIsHandled(f, Request(p.leader, f.self));
      ShortFollower(h, p);
    } else {
      assert OffsetOf(f.log, q) == Some(q);
      DivergedIsHandled(f, Request(p.leader, f.self));
      DivergedFollower(h, p, q);
    }
  }

  // ---------------------------------------------------------------- agreement

  /** What the follower holds after a batch that starts where the logs agree. */
  ghost function Kept(p: Pair): seq<LogEntry>
    requires p.follower.self in p.leader.next && 1 <= NextOf(p) <= |p.leader.log|
  {
    var target := p.leader.log[..TopOf(p) + 1];
    if target <= p.follower.log then p.follower.log else target
  }

  /** The last index of the next batch. */
  function TopOf(p: Pair): nat
    requires p.follower.self in p.leader.next && 1 <= NextOf(p) <= |p.leader.log|
    ensures TopOf(p) < |p.leader.log|
  {
    NextOf(p) - 1 + Min(|p.leader.log| - NextOf(p), p.leader.batch)
  }

  lemma AcceptedAnswer(h: History, p: Pair)
    requires Repairable(h, p) && Agrees(p)
    ensures var n, f := p.leader, p.follower;
            var done, q, top := HandleAppend(f, Request(n, f.self)), NextOf(p) - 1, TopOf(p);
            && done.node.log == Kept(p) && done.node.term == n.term
            && done.node.self == f.self && done.node.peers == f.peers
            && done.reply == AppendResponse(n.term, true, q, top - q, top, top + 1, None, 0)
  {
    hide HandleAppend, AppendFrom, MakeAppend, LogOk;
    var n, f, q := p.leader, p.follower, NextOf(p) - 1;
    RequestShape(h, p);
    AcceptedBatch(h, p);
    FollowsThenAnswers(f, Request(n, f.self));
    AcceptedIsHandled(FollowLeader(f, Request(n, f.self)), Request(n, f.self), Kept(p));
  }

  lemma AcceptedBatch(h: History, p: Pair)
    requires Repairable(h, p) && Agrees(p)
    ensures var f, request, q := p.follower, Request(p.leader, p.follower.self), NextOf(p) - 1;
            && Contiguous(f.log) && q <= LastIndex(f.log) && TermAt(f.log, q) == Some(p.leader.log[q].term)
            && AppendFrom(f.log, q, request.entries) == Appended(Kept(p))
            && |Kept(p)| > 0 && LastIndex(Kept(p)) == |Kept(p)| - 1
            && (request.entries != [] ==> request.entries[|request.entries| - 1].index == q + |request.entries|)
  {
    hide AppendFrom, MakeAppend, LogOk, Request;
    var n, f, q := p.leader, p.follower, NextOf(p) - 1;
    RequestShape(h, p);
    var entries := Request(n, f.self).entries;
    LogShape(h, f.log, q);
    AppendsStretch(h, f.log, n.log, q, entries);
    AcceptedLog(h, p);
    LogShape(h, Kept(p), 0);
    BatchShape(h, n.log, q, entries);
  }

  lemma LogShape(h: History, l: seq<LogEntry>, q: nat)
    requires LogOk(h, l) && q < |l|
    ensures Contiguous(l) && LastIndex(l) == |l| - 1 && OffsetOf(l, q) == Some(q)
  {
    hide FromLeader;
  }

  lemma BatchShape(h: History, l: seq<LogEntry>, q: nat, batch: seq<LogEntry>)
    requires LogOk(h, l) && q + |batch| < |l| && batch == l[q + 1..q + 1 + |batch|]
    ensures batch != [] ==> batch[|batch| - 1].index == q + |batch|
  {
    hide FromLeader;
    if batch != [] {
      assert batch[|batch| - 1] == l[q + |batch|];
    }
  }

  /** The batch is stored whole; the index space is never exhausted inside the leader's log. */
  lemma AppendsStretch(h: History, f: seq<LogEntry>, l: seq<LogEntry>, q: nat, batch: seq<LogEntry>)
    requires LogOk(h, f) && LogOk(h, l) && q < |f| && q + |batch| < |l| <= MAX_WORD + 1
    requires f[q].term == l[q].term && batch == l[q + 1..q + 1 + |batch|]
    ensures var target := l[..q + |batch| + 1];
            AppendFrom(f, q, batch) == Appended(if target <= f then f else target)
  {
    if q == MAX_WORD {
      LogsMatch(h, f, l, q);
      assert OffsetOf(f, q) == Some(q) && batch == [];
      assert l[..q + |batch| + 1] == f[..q + 1];
    } else {
      AppendFromLeader(h, f, l, q, batch);
    }
  }

  /** An acceptance moves both cursors past the batch, and the follower holds it. */
  lemma AcceptedRound(h: History, p: Pair)
    requires Repairable(h, p) && Agrees(p)
    ensures Moved(p, Round(p), Max(NextOf(p), TopOf(p) + 1), Max(MatchedOf(p), TopOf(p)))
    ensures Repairable(h, Round(p))
  {
    hide HandleAppend, MakeAppend, AppendFrom, Advance, HandleAppendResponse;
    AcceptedAnswer(h, p);
    AcceptedLog(h, p);
    RecordsOnly(p.leader, p.follower.self, Answer(p.leader, p.follower));
  }

  lemma RecordsOnly(n: NodeState, source: NodeId, r: AppendResponse)
    requires |n.log| > 0 && n.role == Leader && source in n.peers && source != n.self
    requires source in n.next && source in n.matched
    requires r.term == n.term && r.success && PlausibleSuccess(n, r)
    ensures var n' := HandleAppendResponse(n, source, r).node;
            && n' == n.(commit := n'.commit, matched := n.matched[source := Max(n.matched[source], r.matchIndex)],
                        next := n.next[source := Max(n.next[source], r.matchIndex + 1)])
  {
  }

  lemma AcceptedLog(h: History, p: Pair)
    requires Repairable(h, p) && Agrees(p)
    ensures LogOk(h, Kept(p)) && p.leader.log[..TopOf(p) + 1] <= Kept(p) && p.leader.log[..MatchedOf(p) + 1] <= Kept(p)
  {
    var n, f := p.leader, p.follower;
    PrefixLogOk(h, n.log, TopOf(p) + 1);
    MergeKeepsShared(f.log, n.log, TopOf(p) + 1, n.log[..MatchedOf(p) + 1]);
  }

  // ---------------------------------------------------------------- convergence

  /** Falls with every round until the follower has everything. */
  function Distance(p: Pair): nat
    requires p.follower.self in p.leader.next && p.follower.self in p.leader.matched
    requires NextOf(p) <= |p.leader.log| && MatchedOf(p) < |p.leader.log|
  {
    if NextOf(p) <= MatchedOf(p) + 1 then |p.leader.log| - NextOf(p)
    else |p.leader.log| - 1 - MatchedOf(p) + NextOf(p)
  }

  ghost predicate Repaired(p: Pair) {
    && p.follower.self in p.leader.matched && |p.leader.log| > 0
    && MatchedOf(p) == |p.leader.log| - 1 && p.leader.log <= p.follower.log
  }

  lemma AgreesBelowMatch(h: History, p: Pair)
    requires Repairable(h, p) && NextOf(p) <= MatchedOf(p) + 1
    ensures Agrees(p)
  {
    var l, f, q, m := p.leader.log, p.follower.log, NextOf(p) - 1, MatchedOf(p);
    assert l[..m + 1][q] == f[q];
  }

  /** Every round keeps the pair repairable and brings it closer. */
  lemma RoundProgress(h: History, p: Pair)
    requires Repairable(h, p)
    ensures Repairable(h, Round(p)) && Round(p).leader.log == p.leader.log && Round(p).follower.self == p.follower.self
    ensures Distance(p) > 0 ==> Distance(Round(p)) < Distance(p)
    ensures Distance(p) == 0 ==> Distance(Round(p)) == 0
  {
    hide Round;
    if NextOf(p) <= MatchedOf(p) + 1 {
      AgreesBelowMatch(h, p);
    }
    if Agrees(p) {
      AcceptedRound(h, p);
    } else {
      var next := RefusedRound(h, p);
    }
  }

  lemma NoDistanceLeft(h: History, p: Pair)
    requires Repairable(h, p) && Distance(p) == 0
    ensures Repaired(p)
  {
    assert p.leader.log[..|p.leader.log|] == p.leader.log;
  }

  // ---------------------------------------------------------------- the exchange drives itself

  /** The pair, and the request on its way to the follower. */
  datatype Exchange = Exchange(pair: Pair, request: Option<AppendRequest>)

  /** The request a leader's answer sends to the peer, if any. */
  function SentOn(out: seq<Outbound>, peer: NodeId): Option<AppendRequest> {
    if |out| == 1 && out[0].destination == peer && out[0].payload.Append? then Some(out[0].payload.append) else None
  }

  /** The follower handles the request, the leader its response, and what the leader's handler answers with is
      the next request. */
  function Reaction(e: Exchange): Exchange
    requires |e.pair.leader.log| > 0 && Contiguous(e.pair.follower.log)
  {
    match e.request
    case None => e
    case Some(request) =>
      var n, f := e.pair.leader, e.pair.follower;
      var answered := HandleAppend(f, request);
      var done := HandleAppendResponse(n, f.self, answered.reply);
      Exchange(Pair(done.node, answered.node), SentOn(done.reply, f.self))
  }

  /** The request on its way is the one the leader owes the follower. */
  ghost predicate Underway(e: Exchange) {
    |e.pair.leader.log| > 0 && e.request == Some(Request(e.pair.leader, e.pair.follower.self))
  }

  lemma RefusalSendsOn(n: NodeState, source: NodeId, r: AppendResponse)
    requires |n.log| > 0 && n.role == Leader && source in n.peers && source != n.self
    requires source in n.next && source in n.matched && n.next[source] > 0
    requires r.term == n.term && !r.success && r.prevIndex == n.next[source] - 1 && n.matched[source] <= r.prevIndex
    ensures var done := HandleAppendResponse(n, source, r);
            |done.node.log| > 0 && SentOn(done.reply, source) == Some(Request(done.node, source))
  {
  }

  lemma SuccessSendsOn(n: NodeState, source: NodeId, r: AppendResponse)
    requires |n.log| > 0 && n.role == Leader && source in n.peers && source != n.self
    requires source in n.next && source in n.matched && r.term == n.term && r.success && PlausibleSuccess(n, r)
    ensures var done := HandleAppendResponse(n, source, r);
            && |done.node.log| > 0 && source in done.node.next
            && SentOn(done.reply, source) ==
                 if done.node.next[source] <= LastIndex(done.node.log) then Some(Request(done.node, source)) else None
  {
  }

  /** While the exchange is under way, the handlers carry it on as a round does, and it ends only with the follower
      in possession of everything. */
  lemma ReactionIsRound(h: History, e: Exchange)
    requires Repairable(h, e.pair) && Underway(e)
    ensures Contiguous(e.pair.follower.log) && Reaction(e).pair == Round(e.pair)
    ensures Repairable(h, Round(e.pair))
    ensures Underway(Reaction(e)) || (Reaction(e).request == None && Repaired(Round(e.pair)))
    ensures Distance(e.pair) == 0 ==> Reaction(e).request == None
  {
    hide HandleAppend, HandleAppendResponse, MakeAppend, Request, Repairable, Repaired, Distance, Agrees;
    var p := e.pair;
    FollowerContiguous(h, p);
    RoundProgress(h, p);
    if Agrees(p) {
      AcceptedSendsOn(h, p);
    } else {
      RefusedSendsOn(h, p);
    }
  }

  lemma FollowerContiguous(h: History, p: Pair)
    requires Repairable(h, p)
    ensures Contiguous(p.follower.log) && |p.leader.log| > 0 && p.follower.self in p.leader.next
  {
    LogShape(h, p.follower.log, 0);
  }

  lemma RefusedSendsOn(h: History, p: Pair)
    requires Repairable(h, p) && !Agrees(p)
    ensures var done := HandleAppendResponse(p.leader, p.follower.self, Answer(p.leader, p.follower));
            |done.node.log| > 0 && SentOn(done.reply, p.follower.self) == Some(Request(done.node, p.follower.self))
    ensures Distance(p) > 0
  {
    hide HandleAppend, HandleAppendResponse, MakeAppend, Request;
    RefusedAnswer(h, p);
    var next := RefusedRound(h, p);
    RefusalSendsOn(p.leader, p.follower.self, Answer(p.leader, p.follower));
  }

  lemma AcceptedSendsOn(h: History, p: Pair)
    requires Repairable(h, p) && Agrees(p)
    ensures var done := HandleAppendResponse(p.leader, p.follower.self, Answer(p.leader, p.follower));
            && |done.node.log| > 0
            && (|| SentOn(done.reply, p.follower.self) == Some(Request(done.node, p.follower.self))
                || (SentOn(done.reply, p.follower.self) == None && Repaired(Round(p))))
            && (Distance(p) == 0 ==> SentOn(done.reply, p.follower.self) == None)
  {
    hide HandleAppend, HandleAppendResponse, MakeAppend, Request;
    AcceptedAnswer(h, p);
    AcceptedRound(h, p);
    SuccessSendsOn(p.leader, p.follower.self, Answer(p.leader, p.follower));
    LogShape(h, p.leader.log, 0);
    var p' := Round(p);
    if NextOf(p') > LastIndex(p'.leader.log) {
      NoDistanceLeft(h, p');
    }
  }

  ghost function Reactions(h: History, e: Exchange, k: nat): Exchange
    requires Repairable(h, e.pair) && (Underway(e) || e.request == None)
    decreases k
  {
    if k == 0 then e
    else
      FollowerContiguous(h, e.pair);
      if e.request == None then e
      else
        ReactionIsRound(h, e);
        Reactions(h, Reaction(e), k - 1)
  }

  /** From the first request on, every further one is what the leader's handler answers the response before it
      with. The exchange ends after at most `Distance` rounds and one, with the follower's log beginning with the
      leader's and the match index at the leader's last, and stays there. */
  lemma {:induction false} RepairConverges(h: History, e: Exchange, k: nat)
    requires Repairable(h, e.pair) && Underway(e) && k > Distance(e.pair)
    ensures var ended := Reactions(h, e, k);
            ended.request == None && Repaired(ended.pair) && ended.pair.leader.log == e.pair.leader.log
    decreases k
  {
    hide Reaction, Round, Repaired, Repairable, Distance, Request;
    FollowerContiguous(h, e.pair);
    ReactionIsRound(h, e);
    RoundProgress(h, e.pair);
    var e' := Reaction(e);
    if Underway(e') {
      RepairConverges(h, e', k - 1);
    } else {
      Ended(h, e', k - 1);
    }
  }

  lemma Ended(h: History, e: Exchange, k: nat)
    requires Repairable(h, e.pair) && e.request == None
    ensures Reactions(h, e, k) == e
  {
  }

  // ---------------------------------------------------------------- in the cluster

  /** Every leader and follower that a run can bring together are such a pair. */
  lemma ClusterRepairs(cs: seq<Cluster>, a: nat, i: NodeId, j: NodeId) returns (h: History)
    requires Run(cs) && Present(cs, a, i) && Present(cs, a, j) && i != j
    requires At(cs, a, i).role == Leader && At(cs, a, j).term <= At(cs, a, i).term && |At(cs, a, i).log| <= MAX_WORD + 1
    ensures Repairable(h, Pair(At(cs, a, i), At(cs, a, j)))
  {
    var ss := RunTraced(cs);
    Traced(ss, cs, a, i);
    Traced(ss, cs, a, j);
    h := ss[a].hist;
    PairInState(ss[a], i, j);
  }

  lemma PairInState(s: State, i: NodeId, j: NodeId)
    requires Inv(s) && i in s.nodes && j in s.nodes && i != j && s.nodes[i].role == Leader
    requires s.nodes[j].term <= s.nodes[i].term && |s.nodes[i].log| <= MAX_WORD + 1
    ensures Repairable(s.hist, Pair(s.nodes[i], s.nodes[j]))
  {
    var n, f := s.nodes[i], s.nodes[j];
    assert NodeInv(s, i) && NodeInv(s, j) && LeaderInv(s, i);
    LeaderLog(s, i);
    assert j in Elements(n.peers) && i in Elements(f.peers);
    if n.matched[j] == 0 {
      assert n.log[..1] == f.log[..1];
    } else {
      assert AckInv(s, j, n.term);
    }
  }
}
