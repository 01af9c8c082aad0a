/** What a step of one node leaves true about everything it did not touch.

    A step changes one node, may add messages, and may extend the history of that node's own
    terms. Whatever the invariant says about other nodes, about messages in flight and about what
    terms have done survives such a step: each lemma here is about one clause of the invariant,
    and `StepKeeps` puts them together. What remains to be proved for a step is what concerns the
    node itself, its new messages and its own terms; that is done in `Elections` and
    `Replication`. */
module Stability {
  import opened RaftTypes
  import opened LogSpec
  import opened NodeSpec
  import opened Quorum
  import opened Protocol
  import opened Invariant

  ghost predicate HistoryGrows(h: History, h': History, i: NodeId) {
    && (forall t :: t in h.logs ==> t in h'.logs && h.logs[t] <= h'.logs[t])
    && (forall t :: t in h'.logs && !(t in h.logs && h.logs[t] == h'.logs[t]) ==> Leads(h', t, i))
    && (forall t :: t in h.leaders ==> t in h'.leaders && h'.leaders[t] == h.leaders[t])
    && (forall t :: t in h.commits ==> t in h'.commits && h.commits[t] <= h'.commits[t])
    && (forall t :: t in h'.commits && !(t in h.commits && h.commits[t] == h'.commits[t]) ==> Leads(h', t, i))
    && (forall c :: c in h.cands ==> c in h'.cands && h'.cands[c] == h.cands[c])
    && (forall v :: v in h.votes ==> v in h'.votes && h'.votes[v] == h.votes[v])
    && (forall v :: v in h'.votes && v !in h.votes ==> v.1 == i)
    && (forall a :: a in h.acks ==> a in h'.acks && h.acks[a] <= h'.acks[a])
  }

  /** Acknowledgements change only for node i, and only in its current term or later. */
  ghost predicate AcksFrozen(s: State, s': State, i: NodeId)
    requires i in s.nodes
  {
    forall a :: a in s'.hist.acks && (a.1 != i || a.0 < s.nodes[i].term) ==>
      a in s.hist.acks && s'.hist.acks[a] == s.hist.acks[a]
  }

  ghost predicate Evolves(s: State, s': State, i: NodeId) {
    && s'.nodes.Keys == s.nodes.Keys && i in s.nodes
    && (forall j :: j in s.nodes && j != i ==> s'.nodes[j] == s.nodes[j])
    && s.nodes[i].term <= s'.nodes[i].term
    && HistoryGrows(s.hist, s'.hist, i) && AcksFrozen(s, s', i)
  }

  /** A node's log stays, or ends free of conflicts with the leader of its current term. */
  ghost predicate LogChange(s: State, s': State, i: NodeId)
    requires i in s.nodes && i in s'.nodes
  {
    var n, n' := s.nodes[i], s'.nodes[i];
    n'.log == n.log ||
    (Settled(s', i, n'.term) && forall j :: 0 <= j < |n'.log| ==> n'.log[j].term <= n'.term)
  }

  /** The commit index has not fallen and the committed entries are still there. */
  ghost predicate CommitKept(n: NodeState, n': NodeState) {
    n.commit < |n.log| ==> n.commit <= n'.commit && n.log[..n.commit + 1] <= n'.log
  }

  /** What any number of steps preserves. */
  ghost predicate Later(s: State, s': State) {
    && s'.nodes.Keys == s.nodes.Keys
    && (forall t :: t in s.hist.logs ==> t in s'.hist.logs && s.hist.logs[t] <= s'.hist.logs[t])
    && (forall t :: t in s.hist.leaders ==> t in s'.hist.leaders && s'.hist.leaders[t] == s.hist.leaders[t])
    && (forall t :: t in s.hist.commits ==> t in s'.hist.commits && s.hist.commits[t] <= s'.hist.commits[t])
    && (forall v :: v in s.hist.votes ==> v in s'.hist.votes && s'.hist.votes[v] == s.hist.votes[v])
    && (forall i :: i in s.nodes ==> s.nodes[i].term <= s'.nodes[i].term && CommitKept(s.nodes[i], s'.nodes[i]))
  }

  // ---------------------------------------------------------------- the pieces

  lemma DeadStable(s: State, s': State, i: NodeId, t: Term, k: LogIndex)
    requires Evolves(s, s', i) && Dead(s, t, k)
    ensures Dead(s', t, k)
  {
    var q :| DeadBy(s, q, t, k);
    assert DeadBy(s', q, t, k);
  }

  lemma ChosenStable(s: State, s': State, i: NodeId, t: Term, k: LogIndex)
    requires Evolves(s, s', i) && Chosen(s, t, k)
    ensures Chosen(s', t, k)
  {
    var q :| ChosenBy(s, q, t, k);
    assert ChosenBy(s', q, t, k);
  }

  lemma InheritsStable(s: State, s': State, i: NodeId, t: Term, k: LogIndex, l: seq<LogEntry>)
    requires Evolves(s, s', i) && Own(s.hist, t, k) && Inherits(s, t, k, l)
    ensures Own(s'.hist, t, k) && Inherits(s', t, k, l)
  {
    assert s.hist.logs[t] <= s'.hist.logs[t];
    assert s.hist.logs[t][..k + 1] == s'.hist.logs[t][..k + 1];
    if Dead(s, t, k) {
      DeadStable(s, s', i, t, k);
    }
  }

  lemma LogOkStable(h: History, h': History, i: NodeId, l: seq<LogEntry>)
    requires HistoryGrows(h, h', i) && LogOk(h, l)
    ensures LogOk(h', l)
  {
    forall j | 1 <= j < |l| ensures FromLeader(h', l, j) {
      assert FromLeader(h, l, j);
    }
  }

  lemma CommitOkStable(h: History, h': History, i: NodeId, l: seq<LogEntry>, l': seq<LogEntry>, c: LogIndex, t: Term,
                       t': Term)
    requires HistoryGrows(h, h', i) && CommitOk(h, l, c, t) && t <= t' && c < |l'| && l'[..c + 1] == l[..c + 1]
    ensures CommitOk(h', l', c, t')
  {
    if c > 0 {
      var u: Term :| CommittedIn(h, u, l, c) && u <= t;
      assert CommittedIn(h', u, l', c);
    }
  }

  lemma CoveredStable(s: State, s': State, i: NodeId, d: NodeId, t: Term, n: LogIndex)
    requires Evolves(s, s', i) && LogChange(s, s', i) && d in s.nodes
    ensures Settled(s, d, t) ==> Settled(s', d, t)
    ensures OwnBefore(s.hist, t, n) ==> OwnBefore(s'.hist, t, n)
    ensures Gap(s, d, t, n) ==> Gap(s', d, t, n) || Settled(s', d, t)
    ensures Covered(s, d, t, n) ==> Covered(s', d, t, n)
  {
    if t in s.hist.logs {
      assert s.hist.logs[t] <= s'.hist.logs[t];
    }
  }

  lemma HintStable(s: State, s': State, i: NodeId, d: NodeId, t: Term, ci: LogIndex, ct: Option<Term>)
    requires Evolves(s, s', i) && LogChange(s, s', i) && d in s.nodes && HintOk(s, d, t, ci, ct)
    ensures HintOk(s', d, t, ci, ct)
  {
    CoveredStable(s, s', i, d, t, 0);
    if !Settled(s', d, t) && ct.Some? {
      var q :| Diverges(s.hist.logs[t], s.nodes[d].log, ci, q, ct.value);
      assert s.hist.logs[t] <= s'.hist.logs[t];
      assert Diverges(s'.hist.logs[t], s'.nodes[d].log, ci, q, ct.value);
    }
  }

  // ---------------------------------------------------------------- nodes the step did not touch

  ghost predicate Untouched(s: State, s': State, j: NodeId) {
    && j in s.nodes && j in s'.nodes && s'.nodes[j] == s.nodes[j]
    && (forall t :: (t, j) in s'.hist.votes ==> (t, j) in s.hist.votes)
    && (forall t :: (t, j) in s'.hist.acks ==> (t, j) in s.hist.acks && s'.hist.acks[(t, j)] == s.hist.acks[(t, j)])
    && (forall t :: t in s'.hist.commits && Leads(s'.hist, t, j) ==>
          t in s.hist.commits && s'.hist.commits[t] == s.hist.commits[t])
  }

  lemma VoteStable(s: State, s': State, i: NodeId, j: NodeId, t: Term)
    requires Evolves(s, s', i) && Untouched(s, s', j)
    requires (t, j) in s'.hist.votes
    requires (t, j) in s.hist.votes ==> VoteInv(s, j, t)
    requires forall u {:trigger AckInv(s, j, u)} :: (u, j) in s.hist.acks ==> AckInv(s, j, u)
    ensures VoteInv(s', j, t)
  {
    var c := s.hist.votes[(t, j)];
    forall u: Term, k: LogIndex | u < t && Own(s'.hist, u, k) && Acked(s'.hist, u, j, k)
      ensures Inherits(s', u, k, s'.hist.cands[(t, c)])
    {
      assert AckInv(s, j, u);
      assert s.hist.logs[u] <= s'.hist.logs[u];
      assert Own(s.hist, u, k) && Acked(s.hist, u, j, k);
      InheritsStable(s, s', i, u, k, s.hist.cands[(t, c)]);
    }
  }

  lemma AckStable(s: State, s': State, i: NodeId, j: NodeId, t: Term)
    requires Evolves(s, s', i) && Untouched(s, s', j)
    requires (t, j) in s'.hist.acks
    requires (t, j) in s.hist.acks ==> AckInv(s, j, t)
    ensures AckInv(s', j, t)
  {
    var k := s.hist.acks[(t, j)];
    assert s.hist.logs[t] <= s'.hist.logs[t];
    forall m: LogIndex | t < s.nodes[j].term && m <= k && Own(s'.hist, t, m)
      ensures Inherits(s', t, m, s'.nodes[j].log)
    {
      assert Own(s.hist, t, m);
      InheritsStable(s, s', i, t, m, s.nodes[j].log);
    }
  }

  /** The acting node's own acknowledgements when its log only grows. */
  lemma OwnAckStable(s: State, s': State, i: NodeId, t: Term)
    requires Evolves(s, s', i)
    requires (t, i) in s.hist.acks && AckInv(s, i, t) && s'.hist.acks[(t, i)] == s.hist.acks[(t, i)]
    requires s.nodes[i].log <= s'.nodes[i].log
    ensures AckInv(s', i, t)
  {
    var k := s.hist.acks[(t, i)];
    assert s.hist.logs[t] <= s'.hist.logs[t];
    forall m: LogIndex | t < s'.nodes[i].term && m <= k && Own(s'.hist, t, m)
      ensures Inherits(s', t, m, s'.nodes[i].log)
    {
      assert Own(s.hist, t, m);
      assert Inherits(s, t, m, s.nodes[i].log);
      InheritsStable(s, s', i, t, m, s.nodes[i].log);
    }
  }

  /** The acting node's earlier votes. */
  lemma OwnVoteStable(s: State, s': State, i: NodeId, t: Term)
    requires Evolves(s, s', i)
    requires (t, i) in s.hist.votes && VoteInv(s, i, t)
    requires forall u {:trigger AckInv(s, i, u)} :: (u, i) in s.hist.acks ==> AckInv(s, i, u)
    requires t == s'.nodes[i].term ==> s'.nodes[i].votedFor == s.nodes[i].votedFor
    ensures VoteInv(s', i, t)
  {
    var c := s.hist.votes[(t, i)];
    forall u: Term, k: LogIndex | u < t && Own(s'.hist, u, k) && Acked(s'.hist, u, i, k)
      ensures Inherits(s', u, k, s'.hist.cands[(t, c)])
    {
      assert AckInv(s, i, u);
      assert s.hist.logs[u] <= s'.hist.logs[u];
      assert Own(s.hist, u, k) && Acked(s.hist, u, i, k);
      InheritsStable(s, s', i, u, k, s.hist.cands[(t, c)]);
    }
  }

  /** The acting node when neither its log nor the history about it changes. */
  lemma BasicsKept(s: State, s': State, i: NodeId)
    requires Evolves(s, s', i) && Basics(s, i)
    requires forall v :: (v, i) in s'.hist.votes ==> (v, i) in s.hist.votes
    requires forall a :: (a, i) in s'.hist.acks ==> (a, i) in s.hist.acks && s'.hist.acks[(a, i)] == s.hist.acks[(a, i)]
    requires s'.nodes[i].log == s.nodes[i].log
    requires || s'.nodes[i].commit == s.nodes[i].commit
             || CommitOk(s'.hist, s.nodes[i].log, s'.nodes[i].commit, s'.nodes[i].term)
    requires s'.nodes[i].term == s.nodes[i].term ==> s'.nodes[i].votedFor == s.nodes[i].votedFor
    ensures Basics(s', i)
  {
    var n, n' := s.nodes[i], s'.nodes[i];
    LogOkStable(s.hist, s'.hist, i, n.log);
    if n'.commit == n.commit {
      CommitOkStable(s.hist, s'.hist, i, n.log, n.log, n.commit, n.term, n'.term);
    }
    forall t | (t, i) in s'.hist.acks ensures AckInv(s', i, t) {
      assert AckInv(s, i, t);
      OwnAckStable(s, s', i, t);
    }
    forall t | (t, i) in s'.hist.votes ensures VoteInv(s', i, t) {
      assert VoteInv(s, i, t);
      OwnVoteStable(s, s', i, t);
    }
  }

  lemma LeaderStable(s: State, s': State, i: NodeId, j: NodeId)
    requires Evolves(s, s', i) && LogChange(s, s', i) && Untouched(s, s', j)
    requires LeaderInv(s, j)
    ensures LeaderInv(s', j)
  {
    var n := s.nodes[j];
    forall p | p in n.next ensures Covered(s', p, n.term, n.next[p]) {
      CoveredStable(s, s', i, p, n.term, n.next[p]);
    }
    assert n.term in s'.hist.commits ==> n.term in s.hist.commits && s'.hist.commits[n.term] == s.hist.commits[n.term];
  }

  lemma BasicsStable(s: State, s': State, i: NodeId, j: NodeId)
    requires Evolves(s, s', i) && Untouched(s, s', j) && Basics(s, j)
    ensures Basics(s', j)
  {
    var n := s.nodes[j];
    LogOkStable(s.hist, s'.hist, i, n.log);
    CommitOkStable(s.hist, s'.hist, i, n.log, n.log, n.commit, n.term, n.term);
    forall t | (t, j) in s'.hist.votes ensures VoteInv(s', j, t) {
      assert VoteInv(s, j, t);
      VoteStable(s, s', i, j, t);
    }
    forall t | (t, j) in s'.hist.acks ensures AckInv(s', j, t) {
      assert AckInv(s, j, t);
      AckStable(s, s', i, j, t);
    }
  }

  lemma NodeStable(s: State, s': State, i: NodeId, j: NodeId)
    requires Evolves(s, s', i) && LogChange(s, s', i) && Untouched(s, s', j)
    requires NodeInv(s, j)
    ensures NodeInv(s', j)
  {
    BasicsStable(s, s', i, j);
    if s.nodes[j].role == Leader {
      LeaderStable(s, s', i, j);
    }
  }

  lemma NodesStable(s: State, s': State, i: NodeId)
    requires Evolves(s, s', i) && LogChange(s, s', i)
    requires forall j {:trigger NodeInv(s, j)} :: j in s.nodes ==> NodeInv(s, j)
    ensures forall j {:trigger NodeInv(s', j)} :: j in s.nodes && j != i ==> NodeInv(s', j)
  {
    forall j | j in s.nodes && j != i ensures NodeInv(s', j) {
      assert NodeInv(s, j);
      NodeStable(s, s', i, j);
    }
  }

  // ---------------------------------------------------------------- messages in flight

  lemma AppendStable(s: State, s': State, i: NodeId, m: Message, r: AppendRequest)
    requires Evolves(s, s', i) && LogChange(s, s', i) && m.destination in s.nodes && AppendInv(s, m, r)
    ensures AppendInv(s', m, r)
  {
    var l, l' := s.hist.logs[r.term], s'.hist.logs[r.term];
    assert l <= l';
    CommitOkStable(s.hist, s'.hist, i, l, l', r.leaderCommit, r.term, r.term);
    CoveredStable(s, s', i, m.destination, r.term, r.prevIndex + 1);
  }

  lemma MessageStable(s: State, s': State, i: NodeId, m: Message)
    requires Evolves(s, s', i) && LogChange(s, s', i)
    requires MessageInv(s, m)
    ensures MessageInv(s', m)
  {
    match m.payload
    case AskVote(r) =>
    case AnswerVote(r) =>
    case Append(r) => AppendStable(s, s', i, m, r);
    case AnswerAppend(r) =>
      if r.success {
        CoveredStable(s, s', i, m.source, r.term, 0);
      } else {
        HintStable(s, s', i, m.source, r.term, r.conflictIndex, r.conflictTerm);
      }
  }

  lemma MessagesStable(s: State, s': State, i: NodeId)
    requires Evolves(s, s', i) && LogChange(s, s', i)
    requires forall m {:trigger MessageInv(s, m)} :: m in s.net ==> MessageInv(s, m)
    ensures forall m {:trigger MessageInv(s', m)} :: m in s.net ==> MessageInv(s', m)
  {
    forall m | m in s.net ensures MessageInv(s', m) {
      assert MessageInv(s, m);
      MessageStable(s, s', i, m);
    }
  }

  // ---------------------------------------------------------------- history

  /** Terms whose log did not change keep their facts, given the leader's own clause. */
  lemma TermStable(s: State, s': State, i: NodeId, t: Term)
    requires Evolves(s, s', i)
    requires t in s.hist.logs && TermInv(s, t) && s'.hist.logs[t] == s.hist.logs[t]
    requires s.hist.leaders[t] == i && s'.nodes[i].term == t ==>
               s'.nodes[i].role != Candidate && (s'.nodes[i].role == Leader ==> s'.nodes[i].log == s.hist.logs[t])
    ensures TermInv(s', t)
  {
    LogOkStable(s.hist, s'.hist, i, s.hist.logs[t]);
    var q :| ElectedBy(s, q, t, s.hist.leaders[t]);
    assert ElectedBy(s', q, t, s.hist.leaders[t]);
  }

  lemma CandStable(s: State, s': State, i: NodeId, key: (Term, NodeId))
    requires Evolves(s, s', i) && key in s.hist.cands && CandInv(s, key)
    ensures CandInv(s', key)
  {
    LogOkStable(s.hist, s'.hist, i, s.hist.cands[key]);
  }

  lemma CompleteStable(s: State, s': State, i: NodeId, t1: Term, t2: Term, k: LogIndex)
    requires Evolves(s, s', i) && Complete(s, t1, t2, k)
    requires Own(s'.hist, t1, k) ==> Own(s.hist, t1, k)
    requires t2 in s'.hist.logs ==> t2 in s.hist.logs
    ensures Complete(s', t1, t2, k)
  {
    if t1 < t2 && t2 in s.hist.logs && Own(s.hist, t1, k) {
      InheritsStable(s, s', i, t1, k, s.hist.logs[t2]);
      assert s.hist.logs[t2] <= s'.hist.logs[t2];
    }
  }

  lemma CommitStable(s: State, s': State, i: NodeId, t: Term)
    requires Evolves(s, s', i) && t in s.hist.commits && CommitInv(s, t)
    requires s'.hist.commits[t] == s.hist.commits[t]
    ensures CommitInv(s', t)
  {
    ChosenStable(s, s', i, t, s.hist.commits[t]);
    assert s.hist.logs[t] <= s'.hist.logs[t];
  }

  /** Steps that leave all leader logs alone keep the history's facts. */
  lemma HistStable(s: State, s': State, i: NodeId)
    requires Evolves(s, s', i) && HistInv(s)
    requires s'.hist.logs == s.hist.logs && s'.hist.leaders == s.hist.leaders
    requires forall t :: t in s'.hist.commits && !(t in s.hist.commits && s.hist.commits[t] == s'.hist.commits[t]) ==>
               CommitInv(s', t)
    requires forall key :: key in s'.hist.cands && key !in s.hist.cands ==> CandInv(s', key)
    requires forall t :: t in s.hist.logs && s.hist.leaders[t] == i && s'.nodes[i].term == t ==>
               s'.nodes[i].role != Candidate && (s'.nodes[i].role == Leader ==> s'.nodes[i].log == s.hist.logs[t])
    ensures HistInv(s')
  {
    forall t | t in s'.hist.logs ensures TermInv(s', t) {
      assert TermInv(s, t);
      TermStable(s, s', i, t);
    }
    forall key | key in s'.hist.cands ensures CandInv(s', key) {
      if key in s.hist.cands {
        assert CandInv(s, key);
        CandStable(s, s', i, key);
      }
    }
    forall t1: Term, t2: Term, k: LogIndex ensures Complete(s', t1, t2, k) {
      assert Complete(s, t1, t2, k);
      CompleteStable(s, s', i, t1, t2, k);
    }
    forall t | t in s'.hist.commits ensures CommitInv(s', t) {
      if t in s.hist.commits && s.hist.commits[t] == s'.hist.commits[t] {
        assert CommitInv(s, t);
        CommitStable(s, s', i, t);
      }
    }
  }

  /** Steps that add to a leader's log supply the facts about the terms themselves. */
  lemma HistFrom(s: State, s': State, i: NodeId)
    requires Evolves(s, s', i) && HistInv(s)
    requires s'.hist.logs.Keys == s'.hist.leaders.Keys
    requires s'.hist.cands == s.hist.cands && s'.hist.commits == s.hist.commits
    requires forall t {:trigger TermInv(s', t)} :: t in s'.hist.logs ==> TermInv(s', t)
    requires forall t1: Term, t2: Term, k: LogIndex :: Complete(s', t1, t2, k)
    ensures HistInv(s')
  {
    forall key | key in s'.hist.cands ensures CandInv(s', key) {
      assert CandInv(s, key);
      CandStable(s, s', i, key);
    }
    forall t | t in s'.hist.commits ensures CommitInv(s', t) {
      assert CommitInv(s, t);
      CommitStable(s, s', i, t);
    }
  }

  /** A step of node i keeps the invariant when it keeps the history's facts, its own node's,
      and those of the messages it adds. */
  lemma StepKeeps(s: State, s': State, i: NodeId)
    requires Inv(s) && Evolves(s, s', i) && LogChange(s, s', i)
    requires HistInv(s') && NodeInv(s', i) && CommitKept(s.nodes[i], s'.nodes[i])
    requires forall m {:trigger MessageInv(s', m)} :: m in s'.net && m !in s.net ==> MessageInv(s', m)
    ensures Inv(s') && Later(s, s')
  {
    EvolvesIsLater(s, s', i);
    NodesStable(s, s', i);
    MessagesStable(s, s', i);
  }

  lemma EvolvesIsLater(s: State, s': State, i: NodeId)
    requires Evolves(s, s', i) && CommitKept(s.nodes[i], s'.nodes[i])
    ensures Later(s, s')
  {
  }

  lemma LaterTransitive(a: State, b: State, c: State)
    requires Later(a, b) && Later(b, c)
    requires forall i :: i in b.nodes ==> b.nodes[i].commit < |b.nodes[i].log|
    ensures Later(a, c)
  {
    forall i | i in a.nodes ensures CommitKept(a.nodes[i], c.nodes[i]) {
      var x, y, z := a.nodes[i], b.nodes[i], c.nodes[i];
      assert CommitKept(x, y) && CommitKept(y, z);
      if x.commit < |x.log| {
        assert x.log[..x.commit + 1] == y.log[..x.commit + 1] == y.log[..y.commit + 1][..x.commit + 1];
      }
    }
  }

  /** Steps that only add messages. */
  lemma SendingKeeps(s: State, s': State, i: NodeId)
    requires Inv(s) && i in s.nodes
    requires s'.nodes == s.nodes && s'.hist == s.hist
    requires forall m {:trigger MessageInv(s', m)} :: m in s'.net && m !in s.net ==> MessageInv(s', m)
    ensures Inv(s') && Later(s, s')
  {
    hide LogOk, WellFormed, Complete, Inherits, Covered, CommitOk, AnswerInv, Settled, AppendInv, CandidateInv, Basics,
        LeaderInv;
    assert NodeInv(s, i);
    NodeStable(s, s', i, i);
    LeaderClauses(s, i);
    HistStable(s, s', i);
    StepKeeps(s, s', i);
  }

  lemma LeaderClauses(s: State, i: NodeId)
    requires HistInv(s) && i in s.nodes
    ensures forall t :: t in s.hist.logs && s.hist.leaders[t] == i ==>
              && s.nodes[i].term >= t
              && (s.nodes[i].term == t ==>
                  s.nodes[i].role != Candidate && (s.nodes[i].role == Leader ==> s.nodes[i].log == s.hist.logs[t]))
  {
    forall t | t in s.hist.logs && s.hist.leaders[t] == i
      ensures s.nodes[i].term >= t
      ensures s.nodes[i].term == t ==>
                s.nodes[i].role != Candidate && (s.nodes[i].role == Leader ==> s.nodes[i].log == s.hist.logs[t])
    {
      assert TermInv(s, t);
    }
  }
}
