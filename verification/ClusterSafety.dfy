/** What every run of the cluster keeps, between any two nodes at any two moments, whatever is lost
    or repeated and wherever nodes crash. Membership is fixed; the batch limit is any from 1. */
module ClusterSafety {
  import opened RaftTypes
  import opened LogSpec
  import opened NodeSpec
  import Quorum
  import opened Protocol
  import opened Invariant
  import opened Stability
  import opened Replication
  import opened Cluster
  import opened Simulation
  import opened Runs

  /** Node i at moment a of a run. */
  predicate Present(cs: seq<Cluster>, a: nat, i: NodeId) {
    a < |cs| && i in cs[a].servers
  }

  function At(cs: seq<Cluster>, a: nat, i: NodeId): NodeState
    requires Present(cs, a, i)
  {
    cs[a].servers[i].node
  }

  lemma Traced(ss: seq<State>, cs: seq<Cluster>, a: nat, i: NodeId)
    requires Traces(ss, cs) && Present(cs, a, i)
    ensures a < |ss| && Inv(ss[a]) && i in ss[a].nodes && ss[a].nodes[i] == At(cs, a, i) && NodeInv(ss[a], i)
  {
    assert Follows(ss[a], cs[a]);
    assert NodeInv(ss[a], i);
  }

  // ---------------------------------------------------------------- elections

  /** A term has at most one leader. */
  lemma ElectionSafety(cs: seq<Cluster>, a: nat, b: nat, i: NodeId, j: NodeId)
    requires Run(cs) && Present(cs, a, i) && Present(cs, b, j)
    requires At(cs, a, i).role == Leader && At(cs, b, j).role == Leader && At(cs, a, i).term == At(cs, b, j).term
    ensures i == j
  {
    var ss := RunTraced(cs);
    Traced(ss, cs, a, i);
    Traced(ss, cs, b, j);
    assert Later(ss[if a <= b then a else b], ss[if a <= b then b else a]);
  }

  /** A node never votes for two candidates of one term, not even around a crash. */
  lemma OneVotePerTerm(cs: seq<Cluster>, a: nat, b: nat, i: NodeId)
    requires Run(cs) && Present(cs, a, i) && Present(cs, b, i) && At(cs, a, i).term == At(cs, b, i).term
    requires At(cs, a, i).votedFor.Some? && At(cs, b, i).votedFor.Some?
    ensures At(cs, a, i).votedFor == At(cs, b, i).votedFor
  {
    var ss := RunTraced(cs);
    Traced(ss, cs, a, i);
    Traced(ss, cs, b, i);
    assert Later(ss[if a <= b then a else b], ss[if a <= b then b else a]);
  }

  // ---------------------------------------------------------------- logs

  lemma MatchingOrdered(ss: seq<State>, cs: seq<Cluster>, a: nat, b: nat, i: NodeId, j: NodeId, k: nat)
    requires Traces(ss, cs) && a <= b && Present(cs, a, i) && Present(cs, b, j)
    requires 1 <= k < |At(cs, a, i).log| && k < |At(cs, b, j).log|
    requires At(cs, a, i).log[k].term == At(cs, b, j).log[k].term
    ensures At(cs, a, i).log[..k + 1] == At(cs, b, j).log[..k + 1]
  {
    Traced(ss, cs, a, i);
    Traced(ss, cs, b, j);
    assert Later(ss[a], ss[b]);
    assert FromLeader(ss[a].hist, At(cs, a, i).log, k) && FromLeader(ss[b].hist, At(cs, b, j).log, k);
  }

  /** Entries with one index and term are the same entry, after the same entries. */
  lemma LogMatching(cs: seq<Cluster>, a: nat, b: nat, i: NodeId, j: NodeId, k: nat)
    requires Run(cs) && Present(cs, a, i) && Present(cs, b, j)
    requires k < |At(cs, a, i).log| && k < |At(cs, b, j).log|
    requires At(cs, a, i).log[k].term == At(cs, b, j).log[k].term
    ensures At(cs, a, i).log[..k + 1] == At(cs, b, j).log[..k + 1]
  {
    var ss := RunTraced(cs);
    if k == 0 {
      Traced(ss, cs, a, i);
      Traced(ss, cs, b, j);
    } else if a <= b {
      MatchingOrdered(ss, cs, a, b, i, j, k);
    } else {
      MatchingOrdered(ss, cs, b, a, j, i, k);
    }
  }

  /** No batch that can still arrive clashes with what its receiver holds: the branches of
      `appendFrom` for gaps and for a different payload under one index and term are never taken. */
  lemma BatchesNeverClash(cs: seq<Cluster>, a: nat, i: NodeId, request: AppendRequest)
    requires Run(cs) && Present(cs, a, i) && Message(request.leaderId, i, Append(request)) in cs[a].net
    requires Contiguous(At(cs, a, i).log) && request.term >= At(cs, a, i).term
    requires request.prevIndex <= LastIndex(At(cs, a, i).log)
    requires TermAt(At(cs, a, i).log, request.prevIndex) == Some(request.prevTerm)
    ensures var r := AppendFrom(At(cs, a, i).log, request.prevIndex, request.entries);
            r.Appended? || r == Refused(IndexSpaceExhausted)
  {
    var ss := RunTraced(cs);
    Traced(ss, cs, a, i);
    assert Follows(ss[a], cs[a]);
    FollowingKeepsLog(At(cs, a, i), request);
    var s1 := Followed(ss[a], i, request);
    Acceptable(s1, i, request);
  }

  lemma FollowingKeepsLog(n: NodeState, request: AppendRequest)
    requires request.term >= n.term
    ensures FollowLeader(n, request).log == n.log && FollowLeader(n, request).role == Follower
    ensures FollowLeader(n, request).term == request.term
  {
  }

  // ---------------------------------------------------------------- commits

  /** What a node has committed it keeps, through truncations and restarts. */
  lemma CommittedForever(cs: seq<Cluster>, a: nat, b: nat, i: NodeId)
    requires Run(cs) && a <= b && Present(cs, a, i) && Present(cs, b, i)
    ensures At(cs, a, i).term <= At(cs, b, i).term && At(cs, a, i).commit <= At(cs, b, i).commit
    ensures At(cs, a, i).commit < |At(cs, a, i).log|
    ensures At(cs, a, i).log[..At(cs, a, i).commit + 1] <= At(cs, b, i).log
  {
    var ss := RunTraced(cs);
    Traced(ss, cs, a, i);
    Traced(ss, cs, b, i);
    assert Later(ss[a], ss[b]);
    assert CommitKept(At(cs, a, i), At(cs, b, i));
  }

  /** The term that vouches for what node i had committed, seen from a later state. */
  lemma Witness(ss: seq<State>, cs: seq<Cluster>, a: nat, b: nat, i: NodeId) returns (u: Term)
    requires Traces(ss, cs) && a <= b && Present(cs, a, i) && b < |cs| && At(cs, a, i).commit > 0
    ensures b < |ss| && Inv(ss[b]) && At(cs, a, i).commit < |At(cs, a, i).log|
    ensures CommittedIn(ss[b].hist, u, At(cs, a, i).log, At(cs, a, i).commit) && u <= At(cs, a, i).term
  {
    Traced(ss, cs, a, i);
    assert Follows(ss[b], cs[b]);
    assert Later(ss[a], ss[b]);
    var n := At(cs, a, i);
    u :| CommittedIn(ss[a].hist, u, n.log, n.commit) && u <= n.term;
  }

  /** A leader's log contains all that earlier terms committed. */
  lemma CommittedTermReaches(s: State, u: Term, t: Term)
    requires Inv(s) && u in s.hist.commits && u < t && t in s.hist.logs
    ensures Own(s.hist, u, s.hist.commits[u]) && s.hist.logs[u][..s.hist.commits[u] + 1] <= s.hist.logs[t]
  {
    assert CommitInv(s, u);
    ChosenNotDead(s, u, s.hist.commits[u]);
    assert Complete(s, u, t, s.hist.commits[u]);
  }

  lemma SameCommitted(s: State, u: Term, v: Term, l: seq<LogEntry>, c: LogIndex, l': seq<LogEntry>, c': LogIndex,
                      k: nat)
    requires Inv(s) && c < |l| && c' < |l'| && k <= c && k <= c' && u <= v
    requires CommittedIn(s.hist, u, l, c) && CommittedIn(s.hist, v, l', c')
    ensures l[..k + 1] == l'[..k + 1]
  {
    if u < v {
      CommittedTermReaches(s, u, v);
    }
    assert l[..k + 1] <= s.hist.logs[v] && l'[..k + 1] <= s.hist.logs[v];
  }

  lemma CommittedAgree(ss: seq<State>, cs: seq<Cluster>, a: nat, b: nat, i: NodeId, j: NodeId, k: nat)
    requires Traces(ss, cs) && a <= b && Present(cs, a, i) && Present(cs, b, j)
    requires 0 < k <= At(cs, a, i).commit && k <= At(cs, b, j).commit
    ensures k < |At(cs, a, i).log| && k < |At(cs, b, j).log|
    ensures At(cs, a, i).log[..k + 1] == At(cs, b, j).log[..k + 1]
  {
    var n, n' := At(cs, a, i), At(cs, b, j);
    var u := Witness(ss, cs, a, b, i);
    var v := Witness(ss, cs, b, b, j);
    if u <= v {
      SameCommitted(ss[b], u, v, n.log, n.commit, n'.log, n'.commit, k);
    } else {
      SameCommitted(ss[b], v, u, n'.log, n'.commit, n.log, n.commit, k);
    }
  }

  /** No two nodes ever commit different entries at one index: the applied sequences agree on
      every index both have reached, at whatever moments they are looked at. */
  lemma StateMachineSafety(cs: seq<Cluster>, a: nat, b: nat, i: NodeId, j: NodeId, k: nat)
    requires Run(cs) && Present(cs, a, i) && Present(cs, b, j)
    requires k <= At(cs, a, i).commit && k <= At(cs, b, j).commit
    ensures k < |At(cs, a, i).log| && k < |At(cs, b, j).log|
    ensures At(cs, a, i).log[..k + 1] == At(cs, b, j).log[..k + 1]
  {
    var ss := RunTraced(cs);
    Traced(ss, cs, a, i);
    Traced(ss, cs, b, j);
    if k == 0 {
      assert At(cs, a, i).log[..1] == At(cs, b, j).log[..1];
    } else if a <= b {
      CommittedAgree(ss, cs, a, b, i, j, k);
    } else {
      CommittedAgree(ss, cs, b, a, j, i, k);
    }
  }

  /** The entries a term's leader starts from are all below its first own entry. */
  lemma OlderEntriesFixed(s: State, s': State, t: Term, p: seq<LogEntry>)
    requires Inv(s) && Inv(s') && Later(s, s') && t in s.hist.logs && t in s'.hist.logs
    requires p <= s'.hist.logs[t] && |p| > 0 && p[|p| - 1].term < t
    ensures p <= s.hist.logs[t]
  {
    assert TermInv(s, t) && TermInv(s', t);
    var l, l' := s.hist.logs[t], s'.hist.logs[t];
    assert l'[|l| - 1] == l[|l| - 1];
    assert |p| <= |l|;
  }

  lemma Reaches(s: State, n: NodeState, u: Term, t: Term)
    requires Inv(s) && n.commit < |n.log| && CommittedIn(s.hist, u, n.log, n.commit) && u < t && t in s.hist.logs
    ensures n.log[..n.commit + 1] <= s.hist.logs[t] && n.log[n.commit].term < t
  {
    CommittedTermReaches(s, u, t);
    assert TermInv(s, u);
    var p := n.log[..n.commit + 1];
    assert p <= s.hist.logs[u] && p[n.commit] == n.log[n.commit] == s.hist.logs[u][n.commit];
    assert s.hist.logs[u][n.commit].term <= LastTerm(s.hist.logs[u]);
  }

  /** Whatever a node has committed by some term is in the log of every leader of a later term,
      from the moment that leader takes office. */
  lemma LeaderCompleteness(cs: seq<Cluster>, a: nat, b: nat, i: NodeId, j: NodeId)
    requires Run(cs) && Present(cs, a, i) && Present(cs, b, j)
    requires At(cs, b, j).role == Leader && At(cs, b, j).term > At(cs, a, i).term
    ensures At(cs, a, i).commit < |At(cs, a, i).log|
    ensures At(cs, a, i).log[..At(cs, a, i).commit + 1] <= At(cs, b, j).log
  {
    var n, t := At(cs, a, i), At(cs, b, j).term;
    var ss := RunTraced(cs);
    Traced(ss, cs, a, i);
    Traced(ss, cs, b, j);
    assert TermInv(ss[b], t);
    var m := if a <= b then b else a;
    assert Later(ss[b], ss[m]);
    if n.commit > 0 {
      var u := Witness(ss, cs, a, m, i);
      Reaches(ss[m], n, u, t);
      OlderEntriesFixed(ss[b], ss[m], t, n.log[..n.commit + 1]);
    }
  }

  // ---------------------------------------------------------------- restarts

  /** A node killed after any number of the saves of any handler starts again exactly when its
      log's indexes fit a word. */
  lemma RestartSucceeds(cs: seq<Cluster>, a: nat, i: NodeId, event: Event, k: nat)
    requires Run(cs) && a < |cs| && Offered(cs[a], i, event) && k <= |React(At(cs, a, i), event).saves|
    ensures var disk := DiskAtCrash(cs[a].servers[i], event, k);
            var n := At(cs, a, i);
            Restart(disk, n.self, n.peers, n.batch).Some? <==> (disk.Some? ==> |disk.value.entries| <= MAX_WORD + 1)
  {
    var ss := RunTraced(cs);
    assert Follows(ss[a], cs[a]);
    var mid := CrashPoint(ss[a], cs[a], i, event, k);
    Reloads(mid, i, DiskAtCrash(cs[a].servers[i], event, k));
  }

  lemma Reloads(s: State, i: NodeId, disk: Option<Image>)
    requires Inv(s) && i in s.nodes && DiskSound(disk, s.nodes[i])
    ensures var n := s.nodes[i];
            Restart(disk, n.self, n.peers, n.batch).Some? <==> (disk.Some? ==> |disk.value.entries| <= MAX_WORD + 1)
  {
    var n := s.nodes[i];
    assert NodeInv(s, i);
    if n.votedFor.Some? {
      assert VoteInv(s, i, n.term);
      assert CandInv(s, (n.term, n.votedFor.value));
      assert n.votedFor.value != i ==> n.votedFor.value in Quorum.Elements(n.peers);
    }
    if disk.Some? && |disk.value.entries| <= MAX_WORD + 1 {
      assert Restorable(n.log);
      assert Loadable(disk.value, n.self, n.peers);
    } else if disk.Some? {
      assert !(n.log[0].index + (|n.log| - 1) <= MAX_WORD);
    }
  }
}
