/** The commit scan, twice in the source, finds one index: the greatest one of the current term that
    a strict majority of the members holds. */
module CommitIndex {
  import opened RaftTypes
  import opened LogSpec
  import opened NodeSpec
  import opened Quorum
  import opened Replication
  import opened RaftLogClass

  /** How many of the followers' match indexes reach the candidate. */
  function Reaching(matches: seq<LogIndex>, candidate: LogIndex): nat {
    if matches == [] then 0
    else Reaching(matches[..|matches| - 1], candidate) + (if matches[|matches| - 1] >= candidate then 1 else 0)
  }

  predicate Counts(e: seq<LogEntry>, term: Term, matches: seq<LogIndex>, members: nat, candidate: LogIndex)
    requires |e| > 0
  {
    TermAt(e, candidate) == Some(term) && HasQuorum(1 + Reaching(matches, candidate), members)
  }

  /** An index the scan may commit, and none above it: or the old commit index, and none at all. */
  predicate Greatest(e: seq<LogEntry>, term: Term, commit: LogIndex, matches: seq<LogIndex>, members: nat, r: LogIndex)
    requires |e| > 0
  {
    && (r == commit || (commit < r <= LastIndex(e) && Counts(e, term, matches, members, r)))
    && forall k: LogIndex :: r < k <= LastIndex(e) && commit < k ==> !Counts(e, term, matches, members, k)
  }

  method CalculateCommitIndex(log: RaftLog, term: Term, commit: LogIndex, matches: seq<LogIndex>, members: nat)
    returns (r: LogIndex)
    requires log.Valid()
    ensures Greatest(log.entries, term, commit, matches, members, r)
  {
    var candidate: LogIndex := LastIndex(log.entries);
    while candidate > commit
      invariant candidate <= LastIndex(log.entries)
      invariant forall k: LogIndex :: candidate < k <= LastIndex(log.entries) && commit < k ==>
                  !Counts(log.entries, term, matches, members, k)
      decreases candidate
    {
      if TermAt(log.entries, candidate) == Some(term) {
        var replicated := 1;
        for i := 0 to |matches|
          invariant replicated == 1 + Reaching(matches[..i], candidate)
        {
          assert matches[..i + 1][..i] == matches[..i];
          if matches[i] >= candidate {
            replicated := replicated + 1;
          }
        }
        assert matches[..|matches|] == matches;
        if HasQuorum(replicated, members) {
          return candidate;
        }
      }
      candidate := candidate - 1;
    }
    return commit;
  }

  // ---------------------------------------------------------------- the node's own scan

  /** The match indexes of the peers, in order; an unknown one counts as 0. */
  function MatchesOf(n: NodeState): seq<LogIndex> {
    seq(|n.peers|, i requires 0 <= i < |n.peers| => if n.peers[i] in n.matched then n.matched[n.peers[i]] else 0)
  }

  lemma {:induction false} SameCount(peers: seq<NodeId>, matched: map<NodeId, LogIndex>, matches: seq<LogIndex>,
                                     index: LogIndex)
    requires index > 0 && |matches| == |peers|
    requires forall i :: 0 <= i < |peers| ==> matches[i] == if peers[i] in matched then matched[peers[i]] else 0
    ensures Reaching(matches, index) == CountReached(peers, matched, index)
  {
    if peers != [] {
      SameCount(peers[..|peers| - 1], matched, matches[..|peers| - 1], index);
    }
  }

  lemma SameCandidates(n: NodeState, k: LogIndex)
    requires Contiguous(n.log) && n.commit < k <= LastIndex(n.log)
    ensures Counts(n.log, n.term, MatchesOf(n), |n.peers| + 1, k) <==> Committable(n, k)
  {
    SameCount(n.peers, n.matched, MatchesOf(n), k);
  }

  /** The node's scan finds what `calculateCommitIndex` finds on the same data. */
  lemma AdvanceAgrees(n: NodeState, r: LogIndex)
    requires Contiguous(n.log) && n.role == Leader
    ensures Advance(n).commit == r <==> Greatest(n.log, n.term, n.commit, MatchesOf(n), |n.peers| + 1, r)
  {
    var c, matches, members := Advance(n).commit, MatchesOf(n), |n.peers| + 1;
    if n.commit <= LastIndex(n.log) {
      ScanFinds(n, LastIndex(n.log));
    }
    if c != n.commit {
      SameCandidates(n, c);
    }
    forall k: LogIndex | c < k <= LastIndex(n.log) && n.commit < k
      ensures !Counts(n.log, n.term, matches, members, k)
    {
      SameCandidates(n, k);
      assert !Committable(n, k);
    }
    assert Greatest(n.log, n.term, n.commit, MatchesOf(n), |n.peers| + 1, c);
  }

  // ---------------------------------------------------------------- what it means

  /** The members known to hold an index. */
  function Holders(n: NodeState, index: LogIndex): set<NodeId>
    requires |n.log| > 0
  {
    (set p | p in n.peers && Reached(n.matched, p, index)) + (if LastIndex(n.log) >= index then {n.self} else {})
  }

  lemma QuorumIsMajority(n: NodeState, index: LogIndex)
    requires |n.log| > 0 && Distinct(n.peers) && n.self !in n.peers
    ensures HasReplicationQuorum(n, index) <==> 2 * |Holders(n, index)| > |n.peers| + 1
  {
    CountIsSize(n.peers, n.matched, index);
    assert ReachedSet(n.peers, n.matched, index) == set p | p in n.peers && Reached(n.matched, p, index);
  }

  /** After the scan, the commit index is the greatest index of the leader's term that a strict
      majority of the members holds, or the old one if no such index lies above it. It never
      falls and never passes the log's end. */
  lemma CommitIsExact(n: NodeState)
    requires Contiguous(n.log) && n.role == Leader && Distinct(n.peers) && n.self !in n.peers
    requires n.commit <= LastIndex(n.log)
    ensures var c := Advance(n).commit;
            && n.commit <= c <= LastIndex(n.log)
            && (c != n.commit ==> TermAt(n.log, c) == Some(n.term) && 2 * |Holders(n, c)| > |n.peers| + 1)
            && forall k: LogIndex :: k > c && TermAt(n.log, k) == Some(n.term) ==> 2 * |Holders(n, k)| <= |n.peers| + 1
  {
    ScanFinds(n, LastIndex(n.log));
    var c := Advance(n).commit;
    QuorumIsMajority(n, c);
    forall k: LogIndex | k > c && TermAt(n.log, k) == Some(n.term) ensures 2 * |Holders(n, k)| <= |n.peers| + 1 {
      QuorumIsMajority(n, k);
      assert k <= LastIndex(n.log) && !Committable(n, k);
    }
  }
}
