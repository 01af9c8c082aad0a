/** What every reachable state of the protocol satisfies.

    The history says for every term what its leader's log was, how far each node acknowledged it,
    who voted for whom, and what was committed. An index of a term is chosen when a majority has
    acknowledged it, and dead when a majority has left the term without doing so. `Complete` is
    the central clause: the log of a later leader holds every entry of an earlier leader, unless
    that entry is dead. `Covered` says of a leader's cursor that a batch which starts there
    and matches before it leaves the peer without a conflict. */
module Invariant {
  import opened RaftTypes
  import opened LogSpec
  import opened NodeSpec
  import opened Quorum
  import opened Protocol

  // ---------------------------------------------------------------- logs

  /** An uncompacted log: numbered from the sentinel, terms never falling. */
  ghost predicate WellFormed(l: seq<LogEntry>) {
    && |l| > 0 && l[0] == Sentinel
    && (forall j :: 0 <= j < |l| ==> l[j].index == j)
    && (forall j :: 1 <= j < |l| ==> l[j].term >= 1 && (l[j].kind == NoOp <==> l[j].command == []))
    && (forall a, b :: 0 <= a <= b < |l| ==> l[a].term <= l[b].term)
  }

  /** Entry j, with everything before it, is a prefix of the log of the leader of its term. */
  ghost predicate FromLeader(h: History, l: seq<LogEntry>, j: nat)
    requires j < |l|
  {
    l[j].term in h.logs && l[..j + 1] <= h.logs[l[j].term]
  }

  ghost predicate LogOk(h: History, l: seq<LogEntry>) {
    WellFormed(l) && forall j :: 1 <= j < |l| ==> FromLeader(h, l, j)
  }

  // ---------------------------------------------------------------- acknowledgements

  ghost predicate Acked(h: History, t: Term, n: NodeId, k: LogIndex) {
    (t, n) in h.acks && h.acks[(t, n)] >= k
  }

  /** A majority stored the leader's log up to k in its term. */
  ghost predicate Chosen(s: State, t: Term, k: LogIndex) {
    exists q :: ChosenBy(s, q, t, k)
  }

  ghost predicate ChosenBy(s: State, q: set<NodeId>, t: Term, k: LogIndex) {
    IsQuorum(s.nodes.Keys, q) && forall n :: n in q ==> Acked(s.hist, t, n, k)
  }

  /** A majority has left term t without storing k: it can never be chosen there. */
  ghost predicate Dead(s: State, t: Term, k: LogIndex) {
    exists q :: DeadBy(s, q, t, k)
  }

  ghost predicate DeadBy(s: State, q: set<NodeId>, t: Term, k: LogIndex) {
    IsQuorum(s.nodes.Keys, q) && forall n :: n in q ==> s.nodes[n].term > t && !Acked(s.hist, t, n, k)
  }

  /** Index k holds an entry the leader of t created itself. */
  ghost predicate Own(h: History, t: Term, k: LogIndex) {
    t in h.logs && 1 <= k < |h.logs[t]| && h.logs[t][k].term == t
  }

  /** l holds what the leader of t had at k, unless that can no longer be chosen. */
  ghost predicate Inherits(s: State, t: Term, k: LogIndex, l: seq<LogEntry>)
    requires Own(s.hist, t, k)
  {
    s.hist.logs[t][..k + 1] <= l || Dead(s, t, k)
  }

  /** The first c entries of l were committed by a leader of a term up to `t`. */
  ghost predicate CommitOk(h: History, l: seq<LogEntry>, c: LogIndex, t: Term) {
    c < |l| && (c == 0 || exists u: Term :: CommittedIn(h, u, l, c) && u <= t)
  }

  ghost predicate CommittedIn(h: History, u: Term, l: seq<LogEntry>, c: LogIndex)
    requires c < |l|
  {
    u in h.commits && u in h.logs && c <= h.commits[u] && l[..c + 1] <= h.logs[u]
  }

  // ---------------------------------------------------------------- replication cursors

  /** Node d is past term t, or holds nothing that conflicts with its leader's log. */
  ghost predicate Settled(s: State, d: NodeId, t: Term)
    requires d in s.nodes
  {
    s.nodes[d].term > t || (t in s.hist.logs && s.nodes[d].term == t && s.nodes[d].log <= s.hist.logs[t])
  }

  /** The entry before n is the leader's own, so a node that matches it holds no conflict. */
  ghost predicate OwnBefore(h: History, t: Term, n: LogIndex) {
    t in h.logs && 1 <= n <= |h.logs[t]| && h.logs[t][n - 1].term == t
  }

  /** Node d lacks the leader's entry at n, so a batch starting there removes any conflict. */
  ghost predicate Gap(s: State, d: NodeId, t: Term, n: LogIndex)
    requires d in s.nodes
  {
    var l := s.nodes[d].log;
    && t in s.hist.logs && 1 <= n < |s.hist.logs[t]|
    && (s.nodes[d].term == t || s.hist.logs[t][n].term == t)
    && !(n < |l| && l[n].term == s.hist.logs[t][n].term)
  }

  /** A batch that starts at n and matches before it leaves d without conflicts. */
  ghost predicate Covered(s: State, d: NodeId, t: Term, n: LogIndex)
    requires d in s.nodes
  {
    Settled(s, d, t) || OwnBefore(s.hist, t, n) || Gap(s, d, t, n)
  }

  /** The resume hint node d gave in term t points at or past its first conflict. */
  ghost predicate HintOk(s: State, d: NodeId, t: Term, ci: LogIndex, ct: Option<Term>)
    requires d in s.nodes
  {
    var l := s.nodes[d].log;
    || Settled(s, d, t)
    || (s.nodes[d].term == t && ct == None && |l| <= ci)
    || (&& s.nodes[d].term == t && ct.Some? && t in s.hist.logs
        && exists q :: Diverges(s.hist.logs[t], l, ci, q, ct.value))
  }

  /** At q the two logs have different terms, l's being v, and l's run of v starts at ci. */
  ghost predicate Diverges(leader: seq<LogEntry>, l: seq<LogEntry>, ci: LogIndex, q: LogIndex, v: Term) {
    && 1 <= ci <= q < |l| && q < |leader|
    && l[ci].term == v && l[q].term == v && leader[q].term != v
  }

  // ---------------------------------------------------------------- the invariant

  ghost predicate Leads(h: History, t: Term, i: NodeId) {
    t in h.logs && t in h.leaders && h.leaders[t] == i
  }

  ghost predicate Elected(s: State, t: Term) {
    t in s.hist.leaders && exists q :: ElectedBy(s, q, t, s.hist.leaders[t])
  }

  ghost predicate ElectedBy(s: State, q: set<NodeId>, t: Term, c: NodeId) {
    IsQuorum(s.nodes.Keys, q) && forall n :: n in q ==> (t, n) in s.hist.votes && s.hist.votes[(t, n)] == c
  }

  ghost predicate TermInv(s: State, t: Term)
    requires t in s.hist.logs
  {
    && t >= 1 && LogOk(s.hist, s.hist.logs[t]) && LastTerm(s.hist.logs[t]) == t
    && Elected(s, t)
    && s.hist.leaders[t] in s.nodes
    && var n := s.nodes[s.hist.leaders[t]];
       && n.term >= t
       && (n.term == t ==> n.role != Candidate && (n.role == Leader ==> n.log == s.hist.logs[t]))
  }

  ghost predicate CandInv(s: State, key: (Term, NodeId))
    requires key in s.hist.cands
  {
    && LogOk(s.hist, s.hist.cands[key]) && LastTerm(s.hist.cands[key]) < key.0
    && key.1 in s.nodes && key.0 <= s.nodes[key.1].term
  }

  ghost predicate Complete(s: State, t1: Term, t2: Term, k: LogIndex) {
    t1 < t2 && t2 in s.hist.logs && Own(s.hist, t1, k) ==> Inherits(s, t1, k, s.hist.logs[t2])
  }

  ghost predicate CommitInv(s: State, t: Term)
    requires t in s.hist.commits
  {
    Own(s.hist, t, s.hist.commits[t]) && Chosen(s, t, s.hist.commits[t])
  }

  ghost predicate HistInv(s: State) {
    && s.hist.logs.Keys == s.hist.leaders.Keys
    && (forall t {:trigger TermInv(s, t)} :: t in s.hist.logs ==> TermInv(s, t))
    && (forall key {:trigger CandInv(s, key)} :: key in s.hist.cands ==> CandInv(s, key))
    && (forall t1: Term, t2: Term, k: LogIndex :: Complete(s, t1, t2, k))
    && (forall t {:trigger CommitInv(s, t)} :: t in s.hist.commits ==> CommitInv(s, t))
  }

  /** The voter's choice, and what it owed the candidate it chose. */
  ghost predicate VoteInv(s: State, i: NodeId, t: Term)
    requires i in s.nodes && (t, i) in s.hist.votes
  {
    var c := s.hist.votes[(t, i)];
    && t <= s.nodes[i].term
    && (t == s.nodes[i].term ==> s.nodes[i].votedFor == Some(c))
    && (t, c) in s.hist.cands
    && (forall u: Term, k: LogIndex {:trigger Inherits(s, u, k, s.hist.cands[(t, c)])} ::
          u < t && Own(s.hist, u, k) && Acked(s.hist, u, i, k) ==> Inherits(s, u, k, s.hist.cands[(t, c)]))
  }

  ghost predicate AckInv(s: State, i: NodeId, t: Term)
    requires i in s.nodes && (t, i) in s.hist.acks
  {
    var n := s.nodes[i];
    var k := s.hist.acks[(t, i)];
    && t in s.hist.logs && t <= n.term && k < |s.hist.logs[t]|
    && (t == n.term ==> s.hist.logs[t][..k + 1] <= n.log)
    && (t < n.term ==>
          forall j: LogIndex {:trigger Inherits(s, t, j, n.log)} ::
            j <= k && Own(s.hist, t, j) ==> Inherits(s, t, j, n.log))
  }

  ghost predicate LeaderInv(s: State, i: NodeId)
    requires i in s.nodes
  {
    var n := s.nodes[i];
    && |n.log| > 0 && Leads(s.hist, n.term, i)
    && Acked(s.hist, n.term, i, |n.log| - 1)
    && n.next.Keys == n.matched.Keys == s.nodes.Keys - {i}
    && (forall p :: p in n.matched ==> n.matched[p] == 0 || Acked(s.hist, n.term, p, n.matched[p]))
    && (forall p :: p in n.next ==> 1 <= n.next[p] <= |n.log| && Covered(s, p, n.term, n.next[p]))
    && n.commit < |n.log|
    && (if n.term in s.hist.commits then n.commit == s.hist.commits[n.term] else n.log[n.commit].term < n.term)
  }

  /** What holds of a node's log, commit index, votes and acknowledgements in every role. */
  ghost predicate Basics(s: State, i: NodeId)
    requires i in s.nodes
  {
    var n := s.nodes[i];
    && LogOk(s.hist, n.log) && LastTerm(n.log) <= n.term
    && CommitOk(s.hist, n.log, n.commit, n.term)
    && (forall t {:trigger VoteInv(s, i, t)} :: (t, i) in s.hist.votes ==> VoteInv(s, i, t))
    && (forall t {:trigger AckInv(s, i, t)} :: (t, i) in s.hist.acks ==> AckInv(s, i, t))
  }

  ghost predicate CandidateInv(s: State, i: NodeId)
    requires i in s.nodes
  {
    var n := s.nodes[i];
    && (n.term, i) in s.hist.cands && s.hist.cands[(n.term, i)] == n.log && n.votes <= s.nodes.Keys
    && forall v :: v in n.votes ==> (n.term, v) in s.hist.votes && s.hist.votes[(n.term, v)] == i
  }

  ghost predicate NodeInv(s: State, i: NodeId)
    requires i in s.nodes
  {
    var n := s.nodes[i];
    && n.self == i && Elements(n.peers) == s.nodes.Keys - {i} && |n.peers| + 1 == |s.nodes| && n.batch >= 1
    && Basics(s, i)
    && (n.votedFor.Some? ==> (n.term, i) in s.hist.votes && s.hist.votes[(n.term, i)] == n.votedFor.value)
    && (n.role == Candidate ==> CandidateInv(s, i))
    && (n.role == Leader ==> LeaderInv(s, i))
  }

  ghost predicate AppendInv(s: State, m: Message, r: AppendRequest)
    requires m.destination in s.nodes
  {
    var t := r.term;
    && Leads(s.hist, t, m.source) && m.source == r.leaderId
    && var l := s.hist.logs[t];
       && r.prevIndex + |r.entries| < |l|
       && r.prevTerm == l[r.prevIndex].term
       && r.entries == l[r.prevIndex + 1..r.prevIndex + 1 + |r.entries|]
       && CommitOk(s.hist, l, r.leaderCommit, t)
       && (|| Settled(s, m.destination, t) || OwnBefore(s.hist, t, r.prevIndex + 1)
           || (r.entries != [] && Gap(s, m.destination, t, r.prevIndex + 1)))
  }

  ghost predicate AnswerInv(s: State, m: Message, r: AppendResponse)
    requires m.source in s.nodes
  {
    if r.success then
      && Leads(s.hist, r.term, m.destination)
      && Acked(s.hist, r.term, m.source, r.matchIndex) && Settled(s, m.source, r.term)
    else
      s.nodes[m.source].term >= r.term && HintOk(s, m.source, r.term, r.conflictIndex, r.conflictTerm)
  }

  ghost predicate MessageInv(s: State, m: Message) {
    && m.source in s.nodes && m.destination in s.nodes && m.source != m.destination
    && match m.payload
       case AskVote(r) =>
         && r.candidateId == m.source && (r.term, m.source) in s.hist.cands
         && var l := s.hist.cands[(r.term, m.source)];
            |l| > 0 && r.lastLogIndex == |l| - 1 && r.lastLogTerm == LastTerm(l)
       case AnswerVote(r) =>
         r.granted ==>
           (r.electionTerm, m.source) in s.hist.votes && s.hist.votes[(r.electionTerm, m.source)] == m.destination
       case Append(r) => AppendInv(s, m, r)
       case AnswerAppend(r) => AnswerInv(s, m, r)
  }

  ghost predicate Inv(s: State) {
    && HistInv(s)
    && (forall i {:trigger NodeInv(s, i)} :: i in s.nodes ==> NodeInv(s, i))
    && (forall m {:trigger MessageInv(s, m)} :: m in s.net ==> MessageInv(s, m))
  }
}
