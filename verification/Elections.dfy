/** Campaigns, votes and taking office keep the invariant.

    The heart is `UpToDateInherits` and `WinnerInherits`: a voter lets only candidates pass whose
    log holds everything the voter has acknowledged, unless it can no longer be chosen, and any
    majority of voters has met any majority of acknowledgements. So the log of a new leader
    contains every entry of an earlier term that is or could still become committed. `NoRival`
    shows that the majority is the only one in its term. An entry that an old leader still adds
    once a later term has a leader is dead from the start (`NewEntryDead`). */
module Elections {
  import opened RaftTypes
  import opened LogSpec
  import opened NodeSpec
  import opened Quorum
  import opened Protocol
  import opened Invariant
  import opened Stability

  // ---------------------------------------------------------------- campaign

  /** A term the node has not reached has no vote and no candidacy of its own. */
  lemma CampaignFresh(s: State, i: NodeId)
    requires Inv(s) && i in s.nodes
    ensures (s.nodes[i].term + 1, i) !in s.hist.votes && (s.nodes[i].term + 1, i) !in s.hist.cands
  {
    hide LogOk, Complete, Inherits, CommitOk, LeaderInv, CandidateInv;
    var t := s.nodes[i].term + 1;
    assert NodeInv(s, i);
    assert (t, i) in s.hist.votes ==> VoteInv(s, i, t);
    assert (t, i) in s.hist.cands ==> CandInv(s, (t, i));
  }

  lemma CampaignHistory(h: History, t: Term, i: NodeId, log: seq<LogEntry>)
    requires (t, i) !in h.votes && (t, i) !in h.cands
    ensures HistoryGrows(h, h.(cands := h.cands[(t, i) := log], votes := h.votes[(t, i) := i]), i)
  {
  }

  lemma CampaignEvolves(s: State, i: NodeId)
    requires Inv(s) && i in s.nodes && IsNode(s, i)
    ensures Evolves(s, CampaignStep(s, i), i)
  {
    hide Inv, HistoryGrows;
    CampaignFresh(s, i);
    CampaignHistory(s.hist, s.nodes[i].term + 1, i, s.nodes[i].log);
  }

  lemma CampaignNode(s: State, i: NodeId)
    requires Inv(s) && i in s.nodes && IsNode(s, i) && Evolves(s, CampaignStep(s, i), i)
    ensures NodeInv(CampaignStep(s, i), i)
  {
    var s' := CampaignStep(s, i);
    var n, n' := s.nodes[i], s'.nodes[i];
    assert NodeInv(s, i);
    LogOkStable(s.hist, s'.hist, i, n.log);
    CommitOkStable(s.hist, s'.hist, i, n.log, n.log, n.commit, n.term, n'.term);
    forall t | (t, i) in s'.hist.acks ensures AckInv(s', i, t) {
      OwnAckStable(s, s', i, t);
    }
    forall t | (t, i) in s'.hist.votes ensures VoteInv(s', i, t) {
      if t != n'.term {
        OwnVoteStable(s, s', i, t);
      } else {
        assert forall u: Term, k: LogIndex :: u < t && Own(s'.hist, u, k) && Acked(s'.hist, u, i, k) ==>
          AckInv(s', i, u) && Inherits(s', u, k, n.log);
      }
    }
  }

  lemma CampaignMessages(s: State, s': State, i: NodeId)
    requires i in s'.nodes && NodeInv(s', i) && s'.nodes[i].role == Candidate && |s'.nodes[i].log| > 0
    requires s'.net == s.net + From(i, RequestVotes(s'.nodes[i]))
    ensures forall m :: m in s'.net && m !in s.net ==> MessageInv(s', m)
  {
    hide VoteInv, AckInv, CommitOk;
    var n' := s'.nodes[i];
    forall m | m in s'.net && m !in s.net ensures MessageInv(s', m) {
      var o :| o in RequestVotes(n') && m == Message(i, o.destination, o.payload);
      var p :| 0 <= p < |n'.peers| && RequestVotes(n')[p] == o;
      assert o.destination == n'.peers[p] && o.destination in Elements(n'.peers);
      assert o.payload == AskVote(VoteRequest(n'.term, i, LastIndex(n'.log), LastTerm(n'.log)));
    }
  }

  lemma CampaignKeeps(s: State, i: NodeId)
    requires Inv(s) && i in s.nodes && IsNode(s, i)
    ensures Inv(CampaignStep(s, i)) && Later(s, CampaignStep(s, i))
  {
    hide WellFormed, Complete, Inherits, Covered, CommitOk, AnswerInv, Settled, AppendInv, LeaderInv, MessageInv;
    var s' := CampaignStep(s, i);
    var n := s.nodes[i];
    CampaignEvolves(s, i);
    CampaignNode(s, i);
    assert NodeInv(s, i);
    assert CandInv(s', (n.term + 1, i)) by { LogOkStable(s.hist, s'.hist, i, n.log); }
    LeaderClauses(s, i);
    HistStable(s, s', i);
    CampaignMessages(s, s', i);
    StepKeeps(s, s', i);
  }

  // ---------------------------------------------------------------- newer term, or restart

  lemma RaiseKeeps(s: State, i: NodeId, term: Term, leader: Option<NodeId>)
    requires Inv(s) && i in s.nodes && IsNode(s, i) && term >= s.nodes[i].term
    ensures Inv(RaiseStep(s, i, term, leader)) && Later(s, RaiseStep(s, i, term, leader))
  {
    hide LogOk, WellFormed, Complete, Inherits, Covered, CommitOk, AnswerInv, Settled, CandidateInv;
    var s' := RaiseStep(s, i, term, leader);
    assert NodeInv(s, i);
    BasicsKept(s, s', i);
    HistStable(s, s', i);
    StepKeeps(s, s', i);
  }

  // ---------------------------------------------------------------- votes

  /** A candidate at least as up to date as a voter inherits what the voter inherited. */
  lemma UpToDateInherits(s: State, voter: seq<LogEntry>, cand: seq<LogEntry>, u: Term, k: LogIndex)
    requires HistInv(s) && LogOk(s.hist, voter) && LogOk(s.hist, cand)
    requires UpToDate(|cand| - 1, LastTerm(cand), voter)
    requires Own(s.hist, u, k) && s.hist.logs[u][..k + 1] <= voter
    ensures Inherits(s, u, k, cand)
  {
    var p := s.hist.logs[u][..k + 1];
    assert voter[k] == p[k] && voter[k].term == u;
    var a, b := |voter| - 1, |cand| - 1;
    assert FromLeader(s.hist, voter, a);
    assert voter[..a + 1] == voter && cand[..b + 1] == cand;
    assert b >= 1 && FromLeader(s.hist, cand, b);
    var t := cand[b].term;
    if t == voter[a].term {
      assert voter <= cand;
    } else {
      assert Complete(s, u, t, k);
      if p <= s.hist.logs[t] {
        assert TermInv(s, t);
        assert s.hist.logs[t][k] == p[k] && s.hist.logs[t][b] == cand[b];
        assert p <= cand;
      }
    }
  }

  /** What a voter owes the candidate it chooses now. */
  lemma GrantVote(s: State, s': State, i: NodeId, request: VoteRequest)
    requires Inv(s) && i in s.nodes && IsNode(s, i) && MayGrant(s.nodes[i], request)
    requires MessageInv(s, Message(request.candidateId, i, AskVote(request)))
    requires s' == GrantStep(s, i, request) && Evolves(s, s', i)
    ensures VoteInv(s', i, request.term)
  {
    var n, c := s.nodes[i], request.candidateId;
    var cand := s.hist.cands[(n.term, c)];
    assert NodeInv(s, i);
    forall u: Term, k: LogIndex | u < n.term && Own(s'.hist, u, k) && Acked(s'.hist, u, i, k)
      ensures Inherits(s', u, k, cand)
    {
      assert AckInv(s, i, u) && Own(s.hist, u, k);
      assert Inherits(s, u, k, n.log);
      if !Dead(s, u, k) {
        assert CandInv(s, (n.term, c));
        UpToDateInherits(s, n.log, cand, u, k);
      }
      InheritsStable(s, s', i, u, k, cand);
    }
  }

  lemma GrantNode(s: State, s': State, i: NodeId, request: VoteRequest)
    requires Inv(s) && i in s.nodes && IsNode(s, i) && MayGrant(s.nodes[i], request)
    requires MessageInv(s, Message(request.candidateId, i, AskVote(request)))
    requires s' == GrantStep(s, i, request) && Evolves(s, s', i)
    ensures NodeInv(s', i)
  {
    var n := s.nodes[i];
    assert NodeInv(s, i);
    forall t | (t, i) in s'.hist.acks ensures AckInv(s', i, t) {
      assert AckInv(s, i, t);
      OwnAckStable(s, s', i, t);
    }
    forall t | (t, i) in s'.hist.votes ensures VoteInv(s', i, t) {
      if t == n.term {
        GrantVote(s, s', i, request);
      } else {
        assert VoteInv(s, i, t);
        OwnVoteStable(s, s', i, t);
      }
    }
    LogOkStable(s.hist, s'.hist, i, n.log);
    CommitOkStable(s.hist, s'.hist, i, n.log, n.log, n.commit, n.term, n.term);
    if n.role == Leader {
      OwnLeaderStable(s, s', i);
    }
  }

  lemma GrantVotes(s: State, i: NodeId)
    requires Inv(s) && i in s.nodes
    ensures (s.nodes[i].term, i) in s.hist.votes ==> VoteInv(s, i, s.nodes[i].term)
  {
    assert NodeInv(s, i);
  }

  lemma GrantKeeps(s: State, i: NodeId, request: VoteRequest)
    requires Inv(s) && i in s.nodes && IsNode(s, i) && MayGrant(s.nodes[i], request)
    requires Message(request.candidateId, i, AskVote(request)) in s.net
    ensures Inv(GrantStep(s, i, request)) && Later(s, GrantStep(s, i, request))
  {
    hide LogOk, WellFormed, Complete, Inherits, Covered, CommitOk, AnswerInv, Settled, AppendInv, LeaderInv, Basics,
        CandidateInv;
    var s' := GrantStep(s, i, request);
    assert NodeInv(s, i);
    assert MessageInv(s, Message(request.candidateId, i, AskVote(request)));
    GrantVotes(s, i);
    GrantNode(s, s', i, request);
    LeaderClauses(s, i);
    HistStable(s, s', i);
    StepKeeps(s, s', i);
  }

  lemma RefuseKeeps(s: State, i: NodeId, candidate: NodeId, term: Term)
    requires Inv(s) && i in s.nodes && IsNode(s, i) && candidate in s.nodes && candidate != i
    ensures Inv(RefuseStep(s, i, candidate, term)) && Later(s, RefuseStep(s, i, candidate, term))
  {
    SendingKeeps(s, RefuseStep(s, i, candidate, term), i);
  }

  lemma CountKeeps(s: State, i: NodeId, voter: NodeId, response: VoteResponse)
    requires Inv(s) && i in s.nodes && IsNode(s, i) && s.nodes[i].role == Candidate
    requires Message(voter, i, AnswerVote(response)) in s.net
    requires response.granted && response.electionTerm == s.nodes[i].term
    ensures Inv(CountStep(s, i, voter)) && Later(s, CountStep(s, i, voter))
  {
    hide LogOk, WellFormed, Complete, Inherits, Covered, CommitOk, AnswerInv, Settled, AppendInv, LeaderInv;
    var s' := CountStep(s, i, voter);
    assert NodeInv(s, i);
    assert MessageInv(s, Message(voter, i, AnswerVote(response)));
    BasicsKept(s, s', i);
    LeaderClauses(s, i);
    HistStable(s, s', i);
    StepKeeps(s, s', i);
  }

  // ---------------------------------------------------------------- taking office

  lemma VotesAreQuorum(s: State, i: NodeId)
    requires Inv(s) && i in s.nodes && s.nodes[i].role == Candidate && HasElectionQuorum(s.nodes[i])
    ensures ElectedBy(s, s.nodes[i].votes, s.nodes[i].term, i)
  {
    assert NodeInv(s, i);
  }

  /** Election Safety: no second leader in a term. */
  lemma NoRival(s: State, i: NodeId)
    requires Inv(s) && i in s.nodes && s.nodes[i].role == Candidate && HasElectionQuorum(s.nodes[i])
    ensures s.nodes[i].term !in s.hist.logs
  {
    var t := s.nodes[i].term;
    VotesAreQuorum(s, i);
    if t in s.hist.logs {
      assert TermInv(s, t);
      var q :| ElectedBy(s, q, t, s.hist.leaders[t]);
      var x := QuorumsMeet(s.nodes.Keys, q, s.nodes[i].votes);
    }
  }

  /** A fresh entry of term t cannot be chosen once a later term has a leader. */
  lemma NewEntryDead(s: State, s': State, i: NodeId, t: Term, t2: Term, k: LogIndex)
    requires Inv(s) && Evolves(s, s', i) && s.nodes[i].term == t == s'.nodes[i].term
    requires t < t2 && t2 in s.hist.logs
    requires t in s.hist.logs ==> |s.hist.logs[t]| <= k
    ensures Dead(s', t, k)
  {
    assert TermInv(s, t2);
    var q :| ElectedBy(s, q, t2, s.hist.leaders[t2]);
    forall n | n in q ensures s'.nodes[n].term > t && !Acked(s'.hist, t, n, k) {
      assert NodeInv(s, n) && VoteInv(s, n, t2);
      assert n != i;
      assert (t, n) in s.hist.acks ==> AckInv(s, n, t);
    }
    assert DeadBy(s', q, t, k);
  }

  lemma OfficeEvolves(s: State, i: NodeId)
    requires Inv(s) && i in s.nodes && IsNode(s, i) && s.nodes[i].role == Candidate
    requires s.nodes[i].term !in s.hist.logs
    ensures Evolves(s, OfficeStep(s, i), i) && LogChange(s, OfficeStep(s, i), i)
    ensures LogOk(OfficeStep(s, i).hist, OfficeStep(s, i).nodes[i].log)
    ensures LastTerm(s.nodes[i].log) < s.nodes[i].term
    ensures forall j :: 0 <= j < |s.nodes[i].log| ==> s.nodes[i].log[j].term < s.nodes[i].term
  {
    var s' := OfficeStep(s, i);
    var n := s.nodes[i];
    OfficeHistory(s, i);
    assert NodeInv(s, i) && CandInv(s, (n.term, i));
    GrownLogOk(s.hist, s'.hist, i, n.log, s'.nodes[i].log, n.term);
  }

  lemma OfficeHistory(s: State, i: NodeId)
    requires Inv(s) && i in s.nodes && IsNode(s, i) && s.nodes[i].term !in s.hist.logs
    ensures HistoryGrows(s.hist, OfficeStep(s, i).hist, i) && AcksFrozen(s, OfficeStep(s, i), i)
  {
    hide HistoryGrows, Complete, LogOk, CommitOk, LeaderInv, CandidateInv, Inherits;
    var n := TakeOffice(s.nodes[i]);
    assert NodeInv(s, i);
    assert (s.nodes[i].term, i) in s.hist.acks ==> AckInv(s, i, s.nodes[i].term);
    TermHistory(s.hist, n.term, i, n.log);
  }

  lemma TermHistory(h: History, t: Term, i: NodeId, log: seq<LogEntry>)
    requires t !in h.logs && t !in h.leaders && (t, i) !in h.acks && |log| > 0
    ensures var grown := h.(logs := h.logs[t := log], leaders := h.leaders[t := i],
                            acks := h.acks[(t, i) := |log| - 1]);
            HistoryGrows(h, grown, i)
  {
  }

  /** A leader's log stays well formed when it appends an entry of its own term. */
  lemma GrownLogOk(h: History, h': History, i: NodeId, l: seq<LogEntry>, l': seq<LogEntry>, t: Term)
    requires HistoryGrows(h, h', i) && LogOk(h, l) && LastTerm(l) <= t && t >= 1
    requires |l'| == |l| + 1 && l <= l' && l'[|l|].index == |l| && l'[|l|].term == t
    requires l'[|l|].kind == NoOp <==> l'[|l|].command == []
    requires t in h'.logs && h'.logs[t] == l'
    ensures LogOk(h', l')
  {
    LogOkStable(h, h', i, l);
    forall j | 1 <= j < |l'| ensures FromLeader(h', l', j) {
      if j < |l| {
        assert FromLeader(h', l, j);
        assert l'[..j + 1] == l[..j + 1];
      }
    }
  }

  /** The winner inherits whatever earlier terms may still choose. */
  lemma WinnerInherits(s: State, s': State, i: NodeId, u: Term, k: LogIndex)
    requires Inv(s) && i in s.nodes && IsNode(s, i) && s.nodes[i].role == Candidate && HasElectionQuorum(s.nodes[i])
    requires Evolves(s, s', i) && s.nodes[i].log <= s'.nodes[i].log
    requires u < s.nodes[i].term && Own(s.hist, u, k)
    ensures Own(s'.hist, u, k) && Inherits(s', u, k, s'.nodes[i].log)
  {
    var n := s.nodes[i];
    VotesAreQuorum(s, i);
    assert NodeInv(s, i);
    if v :| v in n.votes && Acked(s.hist, u, v, k) {
      assert NodeInv(s, v) && VoteInv(s, v, n.term);
      assert Inherits(s, u, k, s.hist.cands[(n.term, i)]);
    } else {
      forall v | v in n.votes ensures s.nodes[v].term > u && !Acked(s.hist, u, v, k) {
        assert NodeInv(s, v) && VoteInv(s, v, n.term);
      }
      assert DeadBy(s, n.votes, u, k);
      assert Inherits(s, u, k, n.log);
    }
    InheritsStable(s, s', i, u, k, n.log);
  }

  lemma OfficeComplete(s: State, i: NodeId, t1: Term, t2: Term, k: LogIndex)
    requires Inv(s) && i in s.nodes && IsNode(s, i) && s.nodes[i].role == Candidate && HasElectionQuorum(s.nodes[i])
    requires s.nodes[i].term !in s.hist.logs
    ensures Complete(OfficeStep(s, i), t1, t2, k)
  {
    var s' := OfficeStep(s, i);
    var n := s.nodes[i];
    OfficeEvolves(s, i);
    if t1 < t2 && t2 in s'.hist.logs && Own(s'.hist, t1, k) {
      if t2 == n.term {
        assert Own(s.hist, t1, k);
        WinnerInherits(s, s', i, t1, k);
      } else if t1 == n.term {
        NewEntryDead(s, s', i, t1, t2, k);
      } else {
        assert Complete(s, t1, t2, k);
        CompleteStable(s, s', i, t1, t2, k);
      }
    }
  }

  lemma OfficeTerms(s: State, i: NodeId, t: Term)
    requires Inv(s) && i in s.nodes && IsNode(s, i) && s.nodes[i].role == Candidate && HasElectionQuorum(s.nodes[i])
    requires s.nodes[i].term !in s.hist.logs && t in OfficeStep(s, i).hist.logs
    ensures TermInv(OfficeStep(s, i), t)
  {
    var s' := OfficeStep(s, i);
    var n := s.nodes[i];
    OfficeEvolves(s, i);
    if t == n.term {
      VotesAreQuorum(s, i);
      assert ElectedBy(s', n.votes, t, i);
      assert t >= 1;
    } else {
      assert TermInv(s, t);
      LeaderClauses(s, i);
      TermStable(s, s', i, t);
    }
  }

  lemma OfficeAllTerms(s: State, i: NodeId)
    requires Inv(s) && i in s.nodes && IsNode(s, i) && s.nodes[i].role == Candidate && HasElectionQuorum(s.nodes[i])
    requires s.nodes[i].term !in s.hist.logs
    ensures forall t {:trigger TermInv(OfficeStep(s, i), t)} ::
              t in OfficeStep(s, i).hist.logs ==> TermInv(OfficeStep(s, i), t)
  {
    forall t | t in OfficeStep(s, i).hist.logs ensures TermInv(OfficeStep(s, i), t) {
      OfficeTerms(s, i, t);
    }
  }

  lemma OfficeHist(s: State, i: NodeId)
    requires Inv(s) && i in s.nodes && IsNode(s, i) && s.nodes[i].role == Candidate && HasElectionQuorum(s.nodes[i])
    requires s.nodes[i].term !in s.hist.logs
    ensures HistInv(OfficeStep(s, i))
  {
    var s' := OfficeStep(s, i);
    OfficeEvolves(s, i);
    OfficeAllTerms(s, i);
    forall t1: Term, t2: Term, k: LogIndex ensures Complete(s', t1, t2, k) {
      OfficeComplete(s, i, t1, t2, k);
    }
    HistFrom(s, s', i);
  }

  /** No node holds an entry of the term that only now gets a leader. */
  lemma OfficeCovers(s: State, i: NodeId, p: NodeId)
    requires Inv(s) && i in s.nodes && IsNode(s, i) && s.nodes[i].term !in s.hist.logs
    requires p in s.nodes && p != i
    ensures Gap(OfficeStep(s, i), p, s.nodes[i].term, |s.nodes[i].log|)
  {
    var j := |s.nodes[i].log|;
    assert NodeInv(s, i) && NodeInv(s, p);
    assert j < |s.nodes[p].log| ==> FromLeader(s.hist, s.nodes[p].log, j);
  }

  lemma OfficeLeader(s: State, i: NodeId)
    requires Inv(s) && i in s.nodes && IsNode(s, i) && s.nodes[i].role == Candidate
    requires s.nodes[i].term !in s.hist.logs
    ensures LeaderInv(OfficeStep(s, i), i)
  {
    var s' := OfficeStep(s, i);
    var n, n' := s.nodes[i], s'.nodes[i];
    assert NodeInv(s, i) && CandInv(s, (n.term, i));
    assert (set p | p in n.peers) == Elements(n.peers);
    forall p | p in n'.next ensures Covered(s', p, n.term, n'.next[p]) {
      OfficeCovers(s, i, p);
    }
    assert n.term in s.hist.commits ==> CommitInv(s, n.term);
  }

  lemma OfficeKeeps(s: State, i: NodeId)
    requires Inv(s) && i in s.nodes && IsNode(s, i) && s.nodes[i].role == Candidate && HasElectionQuorum(s.nodes[i])
    ensures Inv(OfficeStep(s, i)) && Later(s, OfficeStep(s, i))
  {
    hide LogOk, WellFormed, Complete, Inherits, Covered, CommitOk, AnswerInv, Settled, CandidateInv;
    var s' := OfficeStep(s, i);
    NoRival(s, i);
    OfficeEvolves(s, i);
    OfficeHist(s, i);
    OfficeLeader(s, i);
    assert NodeInv(s, i);
    GrowthBasics(s, s', i);
    StepKeeps(s, s', i);
  }

  /** A leader's own facts when it adds an entry of its term and acknowledges it. */
  lemma GrowthBasics(s: State, s': State, i: NodeId)
    requires Evolves(s, s', i) && Basics(s, i)
    requires forall v :: (v, i) in s'.hist.votes ==> (v, i) in s.hist.votes
    requires s'.nodes[i].term == s.nodes[i].term && s'.nodes[i].votedFor == s.nodes[i].votedFor
    requires s'.nodes[i].commit == s.nodes[i].commit
    requires s.nodes[i].log <= s'.nodes[i].log && LogOk(s'.hist, s'.nodes[i].log)
    requires s.nodes[i].term in s'.hist.logs && s'.hist.logs[s.nodes[i].term] == s'.nodes[i].log
    requires LastTerm(s'.nodes[i].log) == s.nodes[i].term
    requires (s.nodes[i].term, i) in s'.hist.acks && s'.hist.acks[(s.nodes[i].term, i)] == |s'.nodes[i].log| - 1
    requires forall a :: (a, i) in s'.hist.acks && a != s.nodes[i].term ==>
               (a, i) in s.hist.acks && s'.hist.acks[(a, i)] == s.hist.acks[(a, i)]
    ensures Basics(s', i)
  {
    var n, n' := s.nodes[i], s'.nodes[i];
    CommitOkStable(s.hist, s'.hist, i, n.log, n'.log, n.commit, n.term, n.term);
    forall t | (t, i) in s'.hist.acks ensures AckInv(s', i, t) {
      if t != n.term {
        assert AckInv(s, i, t);
        OwnAckStable(s, s', i, t);
      }
    }
    forall t | (t, i) in s'.hist.votes ensures VoteInv(s', i, t) {
      assert VoteInv(s, i, t);
      OwnVoteStable(s, s', i, t);
    }
  }

  /** The acting leader's cursors when its own fields other than the vote stay. */
  lemma OwnLeaderStable(s: State, s': State, i: NodeId)
    requires Evolves(s, s', i) && LogChange(s, s', i) && LeaderInv(s, i) && s'.hist.commits == s.hist.commits
    requires s'.nodes[i].log == s.nodes[i].log && s'.nodes[i].next == s.nodes[i].next
    requires s'.nodes[i].matched == s.nodes[i].matched
    requires s'.nodes[i].term == s.nodes[i].term && s'.nodes[i].commit == s.nodes[i].commit
    ensures LeaderInv(s', i)
  {
    var n := s.nodes[i];
    forall p | p in n.next ensures Covered(s', p, n.term, n.next[p]) {
      CoveredStable(s, s', i, p, n.term, n.next[p]);
    }
  }
}
