/** Local appends, batches, acknowledgements, conflict hints and commits keep the invariant.

    A follower accepts a batch when its own entry before the batch has the right term. That
    alone does not say that what it holds behind the batch agrees with the leader, and yet it
    clamps the commit index to the end of its whole log. `AcceptSettles` shows that the leader's
    cursor never skips the first conflict, because a hint points at or above it (`HintCovers`),
    so an accepted batch leaves nothing behind it that the leader does not have. `AcceptCommit`
    concludes that the clamped commit index covers committed entries only. */
module Replication {
  import opened RaftTypes
  import opened LogSpec
  import opened NodeSpec
  import opened Quorum
  import opened Protocol
  import opened Invariant
  import opened Stability
  import opened Elections

  // ---------------------------------------------------------------- a leader appends

  lemma LeaderLog(s: State, i: NodeId)
    requires Inv(s) && i in s.nodes && s.nodes[i].role == Leader
    ensures Leads(s.hist, s.nodes[i].term, i) && s.hist.logs[s.nodes[i].term] == s.nodes[i].log
    ensures LogOk(s.hist, s.nodes[i].log) && LastTerm(s.nodes[i].log) == s.nodes[i].term >= 1
  {
    assert NodeInv(s, i) && LeaderInv(s, i);
    assert TermInv(s, s.nodes[i].term);
  }

  lemma ExtendHistory(h: History, t: Term, i: NodeId, log: seq<LogEntry>)
    requires Leads(h, t, i) && h.logs[t] <= log && |log| > 0 && ((t, i) in h.acks ==> h.acks[(t, i)] <= |log| - 1)
    ensures HistoryGrows(h, h.(logs := h.logs[t := log], acks := h.acks[(t, i) := |log| - 1]), i)
  {
  }

  lemma ExtendEvolves(s: State, i: NodeId, command: seq<Byte>)
    requires Inv(s) && i in s.nodes && IsNode(s, i) && s.nodes[i].role == Leader && command != []
    ensures Evolves(s, ExtendStep(s, i, command), i) && LogChange(s, ExtendStep(s, i, command), i)
    ensures LogOk(ExtendStep(s, i, command).hist, ExtendStep(s, i, command).nodes[i].log)
  {
    hide HistoryGrows, Complete, Covered, CommitOk, Inherits;
    var s' := ExtendStep(s, i, command);
    var n := s.nodes[i];
    LeaderLog(s, i);
    assert NodeInv(s, i) && AckInv(s, i, n.term);
    ExtendHistory(s.hist, n.term, i, s'.nodes[i].log);
    GrownLogOk(s.hist, s'.hist, i, n.log, s'.nodes[i].log, n.term);
  }

  lemma ExtendComplete(s: State, i: NodeId, command: seq<Byte>, t1: Term, t2: Term, k: LogIndex)
    requires Inv(s) && i in s.nodes && IsNode(s, i) && s.nodes[i].role == Leader && command != []
    ensures Complete(ExtendStep(s, i, command), t1, t2, k)
  {
    var s' := ExtendStep(s, i, command);
    var n := s.nodes[i];
    LeaderLog(s, i);
    ExtendEvolves(s, i, command);
    if t1 < t2 && t2 in s'.hist.logs && Own(s'.hist, t1, k) {
      if t1 == n.term && k == |n.log| {
        NewEntryDead(s, s', i, t1, t2, k);
      } else {
        assert Complete(s, t1, t2, k);
        CompleteStable(s, s', i, t1, t2, k);
      }
    }
  }

  lemma ExtendTerms(s: State, i: NodeId, command: seq<Byte>)
    requires Inv(s) && i in s.nodes && IsNode(s, i) && s.nodes[i].role == Leader && command != []
    ensures forall t {:trigger TermInv(ExtendStep(s, i, command), t)} ::
              t in s.hist.logs ==> TermInv(ExtendStep(s, i, command), t)
  {
    var s' := ExtendStep(s, i, command);
    LeaderLog(s, i);
    ExtendEvolves(s, i, command);
    forall t | t in s.hist.logs ensures TermInv(s', t) {
      assert TermInv(s, t);
      if t == s.nodes[i].term {
        var q :| ElectedBy(s, q, t, i);
        assert ElectedBy(s', q, t, i);
      } else {
        LeaderClauses(s, i);
        TermStable(s, s', i, t);
      }
    }
  }

  lemma ExtendLeader(s: State, i: NodeId, command: seq<Byte>)
    requires Inv(s) && i in s.nodes && IsNode(s, i) && s.nodes[i].role == Leader && command != []
    ensures LeaderInv(ExtendStep(s, i, command), i)
  {
    var s' := ExtendStep(s, i, command);
    var n := s.nodes[i];
    LeaderLog(s, i);
    ExtendEvolves(s, i, command);
    assert NodeInv(s, i);
    forall p | p in n.next ensures Covered(s', p, n.term, n.next[p]) {
      CoveredStable(s, s', i, p, n.term, n.next[p]);
    }
  }

  lemma ExtendKeeps(s: State, i: NodeId, command: seq<Byte>)
    requires Inv(s) && i in s.nodes && IsNode(s, i) && s.nodes[i].role == Leader && command != []
    ensures Inv(ExtendStep(s, i, command)) && Later(s, ExtendStep(s, i, command))
  {
    hide Complete, Covered, Inherits, CandidateInv, LeaderInv;
    var s' := ExtendStep(s, i, command);
    LeaderLog(s, i);
    ExtendEvolves(s, i, command);
    ExtendTerms(s, i, command);
    forall t1: Term, t2: Term, k: LogIndex ensures Complete(s', t1, t2, k) {
      ExtendComplete(s, i, command, t1, t2, k);
    }
    HistFrom(s, s', i);
    ExtendLeader(s, i, command);
    assert NodeInv(s, i);
    GrowthBasics(s, s', i);
    StepKeeps(s, s', i);
  }

  // ---------------------------------------------------------------- a leader commits

  lemma {:induction false} ScanFinds(n: NodeState, candidate: LogIndex)
    requires |n.log| > 0 && n.commit <= candidate
    ensures var c := ScanCommit(n, candidate);
            && n.commit <= c <= candidate
            && (c > n.commit ==> Committable(n, c))
            && (forall k :: c < k <= candidate ==> !Committable(n, k))
  {
    if candidate > n.commit && !Committable(n, candidate) {
      ScanFinds(n, candidate - 1);
    }
  }

  function ReachedSet(peers: seq<NodeId>, matched: map<NodeId, LogIndex>, index: LogIndex): set<NodeId> {
    set p | p in peers && Reached(matched, p, index)
  }

  lemma ReachedSplit(front: seq<NodeId>, last: NodeId, matched: map<NodeId, LogIndex>, index: LogIndex)
    requires last !in front
    ensures |ReachedSet(front + [last], matched, index)| ==
            |ReachedSet(front, matched, index)| + (if Reached(matched, last, index) then 1 else 0)
  {
    assert ReachedSet(front + [last], matched, index) ==
           ReachedSet(front, matched, index) + (if Reached(matched, last, index) then {last} else {});
  }

  lemma {:induction false} CountIsSize(peers: seq<NodeId>, matched: map<NodeId, LogIndex>, index: LogIndex)
    requires Distinct(peers)
    ensures CountReached(peers, matched, index) == |ReachedSet(peers, matched, index)|
  {
    hide ReachedSet;
    if peers == [] {
      NoneReached(matched, index);
    } else {
      var front, last := peers[..|peers| - 1], peers[|peers| - 1];
      CountIsSize(front, matched, index);
      assert peers == front + [last];
      ReachedSplit(front, last, matched, index);
    }
  }

  lemma NoneReached(matched: map<NodeId, LogIndex>, index: LogIndex)
    ensures ReachedSet([], matched, index) == {}
  {
  }

  lemma {:induction false} FullListDistinct(items: seq<NodeId>)
    requires |Elements(items)| == |items|
    ensures Distinct(items)
  {
    if items != [] {
      var front, last := items[..|items| - 1], items[|items| - 1];
      assert items == front + [last];
      assert Elements(items) == Elements(front) + {last};
      ElementsBound(front);
      FullListDistinct(front);
      assert last !in Elements(front);
    }
  }

  lemma {:induction false} ElementsBound(items: seq<NodeId>)
    ensures |Elements(items)| <= |items|
  {
    if items != [] {
      var front, last := items[..|items| - 1], items[|items| - 1];
      assert items == front + [last];
      assert Elements(items) == Elements(front) + {last};
      ElementsBound(front);
    }
  }

  /** A counted majority of match indexes is a majority that stored the entry in this term. */
  lemma CommittableIsChosen(s: State, i: NodeId, k: LogIndex)
    requires Inv(s) && i in s.nodes && IsNode(s, i) && s.nodes[i].role == Leader
    requires k > s.nodes[i].commit && Committable(s.nodes[i], k)
    ensures Own(s.hist, s.nodes[i].term, k) && Chosen(s, s.nodes[i].term, k)
  {
    var n := s.nodes[i];
    LeaderLog(s, i);
    assert NodeInv(s, i) && LeaderInv(s, i);
    assert Elements(n.peers) + {i} == s.nodes.Keys;
    FullListDistinct(n.peers);
    CountIsSize(n.peers, n.matched, k);
    var q := ReachedSet(n.peers, n.matched, k) + {i};
    forall p | p in q ensures p in s.nodes && Acked(s.hist, n.term, p, k) {
      if p != i {
        assert p in Elements(n.peers);
      }
    }
    assert ChosenBy(s, q, n.term, k);
  }

  lemma AdvanceKeeps(s: State, i: NodeId)
    requires Inv(s) && i in s.nodes && IsNode(s, i) && s.nodes[i].role == Leader
    ensures Inv(AdvanceStep(s, i)) && Later(s, AdvanceStep(s, i))
  {
    var s' := AdvanceStep(s, i);
    var n := s.nodes[i];
    LeaderLog(s, i);
    assert NodeInv(s, i);
    ScanFinds(n, LastIndex(n.log));
    if s'.nodes[i].commit == n.commit {
      assert s' == s;
    } else {
      AdvanceTo(s, s', i, s'.nodes[i].commit);
    }
  }

  lemma AdvanceTo(s: State, s': State, i: NodeId, k: LogIndex)
    requires Inv(s) && i in s.nodes && IsNode(s, i) && s.nodes[i].role == Leader
    requires k > s.nodes[i].commit && Committable(s.nodes[i], k)
    requires var commits := s.hist.commits[s.nodes[i].term := k];
             s' == Put(s, i, s.nodes[i].(commit := k)).(hist := s.hist.(commits := commits))
    ensures Inv(s') && Later(s, s')
  {
    CommittableIsChosen(s, i, k);
    AdvanceNode(s, s', i, k);
    assert CommitInv(s', s.nodes[i].term) by { ChosenStable(s, s', i, s.nodes[i].term, k); }
    LeaderClauses(s, i);
    HistStable(s, s', i);
    StepKeeps(s, s', i);
  }

  lemma CommitHistory(h: History, t: Term, i: NodeId, k: LogIndex)
    requires Leads(h, t, i) && (t in h.commits ==> h.commits[t] <= k)
    ensures HistoryGrows(h, h.(commits := h.commits[t := k]), i)
  {
  }

  lemma AdvanceNode(s: State, s': State, i: NodeId, k: LogIndex)
    requires Inv(s) && i in s.nodes && IsNode(s, i) && s.nodes[i].role == Leader
    requires k > s.nodes[i].commit && Own(s.hist, s.nodes[i].term, k)
    requires var commits := s.hist.commits[s.nodes[i].term := k];
             s' == Put(s, i, s.nodes[i].(commit := k)).(hist := s.hist.(commits := commits))
    ensures Evolves(s, s', i) && NodeInv(s', i)
  {
    hide HistoryGrows, LogOk, Complete, Covered, Inherits, VoteInv, AckInv, Elected, CandInv;
    var n := s.nodes[i];
    LeaderLog(s, i);
    assert NodeInv(s, i) && LeaderInv(s, i);
    CommitHistory(s.hist, n.term, i, k);
    assert CommittedIn(s'.hist, n.term, n.log, k);
    BasicsKept(s, s', i);
    AdvanceLeader(s, s', i, k);
  }

  lemma AdvanceLeader(s: State, s': State, i: NodeId, k: LogIndex)
    requires i in s.nodes && LeaderInv(s, i) && Evolves(s, s', i) && Own(s.hist, s.nodes[i].term, k)
    requires s.hist.logs[s.nodes[i].term] == s.nodes[i].log
    requires var commits := s.hist.commits[s.nodes[i].term := k];
             s' == Put(s, i, s.nodes[i].(commit := k)).(hist := s.hist.(commits := commits))
    ensures LeaderInv(s', i)
  {
    var n := s.nodes[i];
    forall p | p in n.next ensures Covered(s', p, n.term, n.next[p]) {
      CoveredStable(s, s', i, p, n.term, n.next[p]);
    }
  }

  // ---------------------------------------------------------------- a leader sends

  /** What a leader sends any peer is a stretch of its log that leaves no conflict behind. */
  lemma SentAppendOk(s: State, i: NodeId, peer: NodeId, context: nat)
    requires Inv(s) && i in s.nodes && IsNode(s, i) && s.nodes[i].role == Leader && peer in s.nodes[i].peers
    ensures peer in s.nodes && peer != i
    ensures var payload := MakeAppend(s.nodes[i], peer, context).payload;
            AppendInv(s, Message(i, peer, payload), payload.append)
  {
    hide Complete, Inherits, AnswerInv, FromLeader, HistoryGrows;
    var n := s.nodes[i];
    LeaderLog(s, i);
    assert NodeInv(s, i) && LeaderInv(s, i);
    assert peer in Elements(n.peers);
    var next := n.next[peer];
    assert OffsetOf(n.log, next - 1) == Some(next - 1);
    assert OffsetOf(n.log, next) == if next < |n.log| then Some(next) else None;
  }

  lemma SendKeeps(s: State, i: NodeId, peer: NodeId, context: nat)
    requires Inv(s) && i in s.nodes && IsNode(s, i) && s.nodes[i].role == Leader && peer in s.nodes[i].peers
    ensures Inv(SendStep(s, i, peer, context)) && Later(s, SendStep(s, i, peer, context))
  {
    hide Inv, Later, AppendInv;
    var s' := SendStep(s, i, peer, context);
    SentAppendOk(s, i, peer, context);
    var m := Message(i, peer, MakeAppend(s.nodes[i], peer, context).payload);
    assert From(i, [MakeAppend(s.nodes[i], peer, context)]) == {m};
    SameStateSameAppend(s, s', m);
    SendingKeeps(s, s', i);
  }

  lemma SameStateSameAppend(s: State, s': State, m: Message)
    requires s'.nodes == s.nodes && s'.hist == s.hist && m.destination in s.nodes && m.payload.Append?
    requires AppendInv(s, m, m.payload.append)
    ensures AppendInv(s', m, m.payload.append)
  {
  }

  // ---------------------------------------------------------------- a follower refuses

  /** A refusal for a stale term, or for a log that is too short, hints at the log's end. */
  lemma RejectEndKeeps(s: State, i: NodeId, request: AppendRequest)
    requires Inv(s) && i in s.nodes && IsNode(s, i)
    requires Message(request.leaderId, i, Append(request)) in s.net
    ensures Inv(RejectStep(s, i, request, LastIndex(s.nodes[i].log) + 1, None))
    ensures Later(s, RejectStep(s, i, request, LastIndex(s.nodes[i].log) + 1, None))
  {
    assert NodeInv(s, i);
    assert MessageInv(s, Message(request.leaderId, i, Append(request)));
    SendingKeeps(s, RejectStep(s, i, request, LastIndex(s.nodes[i].log) + 1, None), i);
  }

  /** A refusal for a different term at the batch's predecessor hints at that term's run. */
  lemma RejectTermKeeps(s: State, i: NodeId, request: AppendRequest)
    requires Inv(s) && i in s.nodes && IsNode(s, i)
    requires Message(request.leaderId, i, Append(request)) in s.net
    requires request.term == s.nodes[i].term && request.prevIndex <= LastIndex(s.nodes[i].log)
    requires TermAt(s.nodes[i].log, request.prevIndex) != Some(request.prevTerm)
    ensures var (ci, ct) := ConflictHint(s.nodes[i].log, request.prevIndex);
            Inv(RejectStep(s, i, request, ci, ct)) && Later(s, RejectStep(s, i, request, ci, ct))
  {
    var l, q := s.nodes[i].log, request.prevIndex;
    var (ci, ct) := ConflictHint(l, q);
    var s' := RejectStep(s, i, request, ci, ct);
    assert NodeInv(s, i);
    assert MessageInv(s, Message(request.leaderId, i, Append(request)));
    assert TermInv(s, request.term);
    assert OffsetOf(l, q) == Some(q);
    FirstOfTermFinds(l, l[q].term);
    assert Diverges(s.hist.logs[request.term], l, ci, q, l[q].term);
    SendingKeeps(s, s', i);
  }

  // ---------------------------------------------------------------- a follower accepts

  lemma PrefixLogOk(h: History, l: seq<LogEntry>, n: nat)
    requires LogOk(h, l) && 1 <= n <= |l|
    ensures LogOk(h, l[..n])
  {
    forall j | 1 <= j < n ensures FromLeader(h, l[..n], j) {
      assert FromLeader(h, l, j);
      assert l[..n][..j + 1] == l[..j + 1];
    }
  }

  /** Log Matching: two logs with the same term at an index agree up to it. */
  lemma LogsMatch(h: History, a: seq<LogEntry>, b: seq<LogEntry>, j: nat)
    requires LogOk(h, a) && LogOk(h, b) && j < |a| && j < |b| && a[j].term == b[j].term
    ensures a[..j + 1] == b[..j + 1] && a[j] == b[j]
  {
    if j > 0 {
      assert FromLeader(h, a, j) && FromLeader(h, b, j);
      assert a[..j + 1][j] == b[..j + 1][j];
    }
  }

  /** A batch the log holds entirely extends the agreement with the leader through it. */
  lemma HeldBatch(l: seq<LogEntry>, leader: seq<LogEntry>, q: LogIndex, batch: seq<LogEntry>, k: nat)
    requires WellFormed(l) && WellFormed(leader) && q < |l| && q + |batch| < |leader| && k <= |batch|
    requires l[..q + 1] == leader[..q + 1] && batch == leader[q + 1..q + 1 + |batch|]
    requires forall j :: 0 <= j < k ==> Holds(l, batch[j])
    ensures leader[..q + k + 1] <= l
  {
    assert k > 0 ==> Holds(l, batch[k - 1]);
    assert q + k < |l|;
    forall j | 0 <= j < q + k + 1 ensures j < |l| && l[j] == leader[j] {
      if j > q {
        assert Holds(l, batch[j - q - 1]);
      } else {
        assert l[..q + 1][j] == leader[..q + 1][j];
      }
    }
  }

  /** The first entry the log lacks is one where its term differs, or past its end. */
  lemma MissingEntry(h: History, l: seq<LogEntry>, leader: seq<LogEntry>, j: nat)
    requires LogOk(h, l) && LogOk(h, leader) && j < |leader| && !Holds(l, leader[j])
    ensures TermAt(l, j) != Some(leader[j].term)
    ensures !(leader[..j + 1] <= l)
  {
    if j < |l| {
      assert OffsetOf(l, j) == Some(j);
      assert l[j] != leader[j];
      if l[j].term == leader[j].term {
        LogsMatch(h, l, leader, j);
      }
      assert leader[..j + 1][j] == leader[j];
    }
  }

  /** Merging a stretch of the leader's log either changes nothing or leaves exactly the
      leader's prefix; a payload clash is impossible. */
  lemma AppendFromLeader(h: History, l: seq<LogEntry>, leader: seq<LogEntry>, q: LogIndex, batch: seq<LogEntry>)
    requires LogOk(h, l) && LogOk(h, leader) && q < |l| && q + |batch| < |leader|
    requires l[q].term == leader[q].term && batch == leader[q + 1..q + 1 + |batch|]
    requires q != MAX_WORD
    ensures var target := leader[..q + |batch| + 1];
            AppendFrom(l, q, batch) == Appended(if target <= l then l else target)
  {
    hide FromLeader, Overlap, BatchValid;
    var target := leader[..q + |batch| + 1];
    LogsMatch(h, l, leader, q);
    assert OffsetOf(l, q) == Some(q);
    if batch == [] {
      assert target == l[..q + 1];
    } else {
      LeaderBatch(l, leader, q, batch);
      var k := Overlap(l, batch);
      if k < |batch| {
        MissingEntry(h, l, leader, q + 1 + k);
        assert target[..q + k + 2] == leader[..q + k + 2];
      } else {
        HeldBatch(l, leader, q, batch, k);
      }
    }
  }

  lemma LeaderBatch(l: seq<LogEntry>, leader: seq<LogEntry>, q: LogIndex, batch: seq<LogEntry>)
    requires WellFormed(leader) && q < |l| && q + |batch| < |leader|
    requires l[..q + 1] == leader[..q + 1] && batch == leader[q + 1..q + 1 + |batch|]
    ensures BatchValid(q, batch) && l[..q + 1] + batch == leader[..q + |batch| + 1]
    ensures forall j :: 0 <= j < |batch| ==> batch[j] == leader[q + 1 + j]
  {
  }

  /** What a log shares with the leader survives the merge. */
  lemma MergeKeepsShared(l: seq<LogEntry>, leader: seq<LogEntry>, n: nat, p: seq<LogEntry>)
    requires n <= |leader| && p <= l && p <= leader
    ensures p <= if leader[..n] <= l then l else leader[..n]
  {
    if n <= |p| {
      assert leader[..n] == p[..n] == l[..n];
    }
  }

  /** A chosen entry is never dead. */
  lemma ChosenNotDead(s: State, t: Term, k: LogIndex)
    requires Chosen(s, t, k)
    ensures !Dead(s, t, k)
  {
    var a :| ChosenBy(s, a, t, k);
    forall b ensures !DeadBy(s, b, t, k) {
      if IsQuorum(s.nodes.Keys, b) {
        var x := QuorumsMeet(s.nodes.Keys, a, b);
        assert Acked(s.hist, t, x, k);
      }
    }
  }

  /** Leader Completeness, as the steps use it: whatever was committed up to term t is in the
      log of every leader of term t or later. */
  lemma CommittedInLeader(s: State, l: seq<LogEntry>, c: LogIndex, t: Term, t2: Term)
    requires HistInv(s) && CommitOk(s.hist, l, c, t) && t <= t2 && t2 in s.hist.logs
    requires |l| > 0 && l[0] == Sentinel
    ensures l[..c + 1] <= s.hist.logs[t2]
  {
    assert TermInv(s, t2);
    if c > 0 {
      var u: Term :| CommittedIn(s.hist, u, l, c) && u <= t;
      if u < t2 {
        var k := s.hist.commits[u];
        assert CommitInv(s, u);
        ChosenNotDead(s, u, k);
        assert Complete(s, u, t2, k);
        assert l[..c + 1] <= s.hist.logs[u][..k + 1];
      }
    }
  }

  /** A matching batch leaves the follower without conflicts with its leader. */
  lemma AcceptSettles(s: State, i: NodeId, request: AppendRequest, r: seq<LogEntry>)
    requires Inv(s) && i in s.nodes && IsNode(s, i) && s.nodes[i].term == request.term
    requires MessageInv(s, Message(request.leaderId, i, Append(request)))
    requires request.prevIndex < |s.nodes[i].log| && s.nodes[i].log[request.prevIndex].term == request.prevTerm
    requires var target := s.hist.logs[request.term][..request.prevIndex + |request.entries| + 1];
             r == if target <= s.nodes[i].log then s.nodes[i].log else target
    ensures r <= s.hist.logs[request.term]
  {
    var l, leader, q := s.nodes[i].log, s.hist.logs[request.term], request.prevIndex;
    assert NodeInv(s, i) && TermInv(s, request.term);
    var target := leader[..q + |request.entries| + 1];
    if target <= l {
      assert request.entries != [] ==> target[q + 1] == leader[q + 1] && l[q + 1] == target[q + 1];
      if OwnBefore(s.hist, request.term, q + 1) {
        var last := |l| - 1;
        assert leader[q].term == request.term && l[last].term == request.term;
        assert last >= 1 && FromLeader(s.hist, l, last);
        assert l[..last + 1] == l;
      }
    }
  }

  /** The batch matches where it starts and the follower is in the leader's term. */
  ghost predicate Accepts(s: State, i: NodeId, request: AppendRequest) {
    && i in s.nodes && |s.nodes[i].log| > 0
    && s.nodes[i].term == request.term && s.nodes[i].role == Follower
    && request.prevIndex < |s.nodes[i].log|
    && s.nodes[i].log[request.prevIndex].term == request.prevTerm
    && MessageInv(s, Message(request.leaderId, i, Append(request)))
  }

  /** The follower's log after the batch. */
  ghost function Merged(s: State, i: NodeId, request: AppendRequest): seq<LogEntry>
    requires Accepts(s, i, request)
  {
    var target := s.hist.logs[request.term][..request.prevIndex + |request.entries| + 1];
    if target <= s.nodes[i].log then s.nodes[i].log else target
  }

  lemma TermsBelow(l: seq<LogEntry>, m: seq<LogEntry>)
    requires WellFormed(l) && m <= l && |m| > 0
    ensures LastTerm(m) <= LastTerm(l) && forall j :: 0 <= j < |m| ==> m[j].term <= LastTerm(l)
  {
    assert forall j :: 0 <= j < |m| ==> m[j] == l[j];
  }

  lemma MergedPrefix(s: State, i: NodeId, request: AppendRequest)
    requires Inv(s) && Accepts(s, i, request)
    ensures |Merged(s, i, request)| > 0 && Merged(s, i, request) <= s.hist.logs[request.term]
    ensures LogOk(s.hist, s.nodes[i].log) && LogOk(s.hist, s.hist.logs[request.term])
    ensures LastTerm(s.hist.logs[request.term]) == request.term
  {
    hide Complete, CommitOk, Inherits, VoteInv, AckInv, Elected, CandInv, LeaderInv, CandidateInv, Covered, FromLeader;
    assert TermInv(s, request.term) && NodeInv(s, i);
    AcceptSettles(s, i, request, Merged(s, i, request));
  }

  lemma MergedOk(s: State, i: NodeId, request: AppendRequest)
    requires Inv(s) && Accepts(s, i, request)
    ensures |Merged(s, i, request)| > 0
    ensures LogOk(s.hist, Merged(s, i, request)) && Merged(s, i, request) <= s.hist.logs[request.term]
    ensures LastTerm(Merged(s, i, request)) <= request.term
    ensures forall j :: 0 <= j < |Merged(s, i, request)| ==> Merged(s, i, request)[j].term <= request.term
  {
    hide Inv, FromLeader;
    MergedPrefix(s, i, request);
    PrefixLogOk(s.hist, s.hist.logs[request.term], request.prevIndex + |request.entries| + 1);
    TermsBelow(s.hist.logs[request.term], Merged(s, i, request));
  }

  /** What `appendFrom` returns for a batch of the leader's; in particular never a payload clash. */
  lemma MergedIsAppendFrom(s: State, i: NodeId, request: AppendRequest)
    requires Accepts(s, i, request) && LogOk(s.hist, s.nodes[i].log) && LogOk(s.hist, s.hist.logs[request.term])
    ensures var r := AppendFrom(s.nodes[i].log, request.prevIndex, request.entries);
            r == Refused(IndexSpaceExhausted) || r == Appended(Merged(s, i, request))
  {
    if request.prevIndex != MAX_WORD {
      AppendFromLeader(s.hist, s.nodes[i].log, s.hist.logs[request.term], request.prevIndex, request.entries);
    } else {
      LogsMatch(s.hist, s.nodes[i].log, s.hist.logs[request.term], request.prevIndex);
      EmptyOrExhausted(s.nodes[i].log, s.hist.logs[request.term], request.entries);
    }
  }

  /** At the last representable index only an empty batch is taken. */
  lemma EmptyOrExhausted(l: seq<LogEntry>, leader: seq<LogEntry>, batch: seq<LogEntry>)
    requires WellFormed(l) && MAX_WORD < |l| && MAX_WORD + |batch| < |leader|
    requires l[..MAX_WORD + 1] == leader[..MAX_WORD + 1]
    ensures AppendFrom(l, MAX_WORD, batch) ==
            if batch != [] then Refused(IndexSpaceExhausted) else Appended(l)
    ensures batch == [] ==> leader[..MAX_WORD + |batch| + 1] <= l
  {
  }

  lemma AcceptEvolves(s: State, s': State, i: NodeId, request: AppendRequest)
    requires Inv(s) && Accepts(s, i, request) && LogOk(s.hist, Merged(s, i, request))
    requires s' == AcceptStep(s, i, request, Merged(s, i, request))
    ensures Evolves(s, s', i) && LogChange(s, s', i)
  {
    MergedOk(s, i, request);
  }

  lemma AcceptAckNow(s: State, s': State, i: NodeId, request: AppendRequest)
    requires Accepts(s, i, request) && LogOk(s.hist, Merged(s, i, request))
    requires s' == AcceptStep(s, i, request, Merged(s, i, request))
    requires (request.term, i) in s.hist.acks ==> AckInv(s, i, request.term)
    ensures AckInv(s', i, request.term)
  {
    var t, l, leader := request.term, s.nodes[i].log, s.hist.logs[request.term];
    var n := request.prevIndex + |request.entries| + 1;
    if (t, i) in s.hist.acks {
      MergeKeepsShared(l, leader, n, leader[..s.hist.acks[(t, i)] + 1]);
    }
    MergeKeepsShared(leader[..n], leader, n, leader[..n]);
  }

  lemma AcceptAckEarlier(s: State, s': State, i: NodeId, request: AppendRequest, t: Term, k: LogIndex)
    requires HistInv(s) && Accepts(s, i, request) && LogOk(s.hist, Merged(s, i, request))
    requires s' == AcceptStep(s, i, request, Merged(s, i, request)) && Evolves(s, s', i)
    requires t < request.term && Own(s.hist, t, k) && Inherits(s, t, k, s.nodes[i].log)
    ensures Own(s'.hist, t, k) && Inherits(s', t, k, s'.nodes[i].log)
  {
    assert Complete(s, t, request.term, k);
    if !Dead(s, t, k) {
      MergeKeepsShared(s.nodes[i].log, s.hist.logs[request.term], request.prevIndex + |request.entries| + 1,
                       s.hist.logs[t][..k + 1]);
    }
    InheritsStable(s, s', i, t, k, s'.nodes[i].log);
  }

  lemma AcceptAck(s: State, s': State, i: NodeId, request: AppendRequest, t: Term)
    requires HistInv(s) && Accepts(s, i, request) && LogOk(s.hist, Merged(s, i, request))
    requires s' == AcceptStep(s, i, request, Merged(s, i, request)) && Evolves(s, s', i)
    requires (t, i) in s.hist.acks ==> AckInv(s, i, t)
    requires (t, i) in s'.hist.acks
    ensures AckInv(s', i, t)
  {
    if t == request.term {
      AcceptAckNow(s, s', i, request);
    } else {
      forall k: LogIndex | k <= s.hist.acks[(t, i)] && Own(s'.hist, t, k)
        ensures Inherits(s', t, k, s'.nodes[i].log)
      {
        assert Inherits(s, t, k, s.nodes[i].log);
        AcceptAckEarlier(s, s', i, request, t, k);
      }
    }
  }

  /** State Machine Safety at its source: the clamped commit index covers only entries some
      leader committed, however short the batch was, and nothing committed is removed. */
  lemma AcceptCommit(s: State, s': State, i: NodeId, request: AppendRequest)
    requires HistInv(s) && Accepts(s, i, request) && LogOk(s.hist, Merged(s, i, request))
    requires Merged(s, i, request) <= s.hist.logs[request.term]
    requires Basics(s, i)
    requires s' == AcceptStep(s, i, request, Merged(s, i, request)) && Evolves(s, s', i)
    ensures CommitOk(s'.hist, s'.nodes[i].log, s'.nodes[i].commit, request.term)
    ensures s.nodes[i].commit <= s'.nodes[i].commit
    ensures s.nodes[i].log[..s.nodes[i].commit + 1] <= s'.nodes[i].log
  {
    hide LogOk, WellFormed, Complete, Inherits, Settled, VoteInv, AckInv;
    var n, leader := s.nodes[i], s.hist.logs[request.term];
    var r := s'.nodes[i].log;
    AcceptKeepsCommitted(s, i, request);
    if request.leaderCommit > n.commit {
      CommitShorter(s.hist, leader, request.leaderCommit, r, s'.nodes[i].commit, request.term);
      CommitOkStable(s.hist, s'.hist, i, r, r, s'.nodes[i].commit, request.term, request.term);
    } else {
      CommitOkStable(s.hist, s'.hist, i, n.log, r, n.commit, n.term, n.term);
    }
  }

  lemma AcceptKeepsCommitted(s: State, i: NodeId, request: AppendRequest)
    requires HistInv(s) && Accepts(s, i, request) && Basics(s, i)
    ensures var n := s.nodes[i]; var r := Merged(s, i, request);
            n.commit < |r| && r[..n.commit + 1] == n.log[..n.commit + 1]
  {
    var n := s.nodes[i];
    CommittedInLeader(s, n.log, n.commit, n.term, request.term);
    MergeKeepsShared(n.log, s.hist.logs[request.term], request.prevIndex + |request.entries| + 1,
                     n.log[..n.commit + 1]);
  }

  lemma CommitShorter(h: History, l: seq<LogEntry>, c: LogIndex, r: seq<LogEntry>, d: LogIndex, t: Term)
    requires CommitOk(h, l, c, t) && r <= l && d <= c && d < |r|
    ensures CommitOk(h, r, d, t)
  {
    if d > 0 {
      var u: Term :| CommittedIn(h, u, l, c) && u <= t;
      assert r[..d + 1] == l[..c + 1][..d + 1];
      assert CommittedIn(h, u, r, d);
    }
  }

  lemma AcceptNode(s: State, s': State, i: NodeId, request: AppendRequest)
    requires HistInv(s) && Accepts(s, i, request) && NodeInv(s, i) && LogOk(s.hist, Merged(s, i, request))
    requires Merged(s, i, request) <= s.hist.logs[request.term] && LastTerm(Merged(s, i, request)) <= request.term
    requires s' == AcceptStep(s, i, request, Merged(s, i, request)) && Evolves(s, s', i)
    ensures NodeInv(s', i) && CommitKept(s.nodes[i], s'.nodes[i])
  {
    AcceptCommit(s, s', i, request);
    LogOkStable(s.hist, s'.hist, i, s'.nodes[i].log);
    forall t | (t, i) in s'.hist.acks ensures AckInv(s', i, t) {
      assert (t, i) in s.hist.acks ==> AckInv(s, i, t);
      AcceptAck(s, s', i, request, t);
    }
    forall t | (t, i) in s'.hist.votes ensures VoteInv(s', i, t) {
      assert VoteInv(s, i, t);
      OwnVoteStable(s, s', i, t);
    }
  }

  /** The acknowledgement of an accepted batch. */
  lemma AcceptMessage(s: State, s': State, i: NodeId, request: AppendRequest)
    requires Accepts(s, i, request) && |Merged(s, i, request)| > 0 && Merged(s, i, request) <= s.hist.logs[request.term]
    requires s' == AcceptStep(s, i, request, Merged(s, i, request))
    ensures forall m :: m in s'.net && m !in s.net ==> MessageInv(s', m)
  {
  }

  lemma AcceptKeeps(s: State, i: NodeId, request: AppendRequest)
    requires Inv(s) && Accepts(s, i, request)
    ensures |Merged(s, i, request)| > 0
    ensures var s' := AcceptStep(s, i, request, Merged(s, i, request)); Inv(s') && Later(s, s')
  {
    hide LogOk, WellFormed, Complete, Inherits, Covered, CommitOk, Basics, LeaderInv, CandidateInv, AnswerInv,
        AppendInv, Settled, Merged;
    MergedOk(s, i, request);
    var s' := AcceptStep(s, i, request, Merged(s, i, request));
    AcceptEvolves(s, s', i, request);
    assert NodeInv(s, i);
    AcceptNode(s, s', i, request);
    LeaderClauses(s, i);
    HistStable(s, s', i);
    AcceptMessage(s, s', i, request);
    StepKeeps(s, s', i);
  }

  // ---------------------------------------------------------------- a leader hears back

  lemma MatchKeeps(s: State, i: NodeId, source: NodeId, response: AppendResponse)
    requires Inv(s) && i in s.nodes && IsNode(s, i) && s.nodes[i].role == Leader
    requires source in s.nodes[i].next && source in s.nodes[i].matched
    requires Message(source, i, AnswerAppend(response)) in s.net
    requires response.success && response.term == s.nodes[i].term && response.matchIndex <= LastIndex(s.nodes[i].log)
    ensures Inv(MatchStep(s, i, source, response.matchIndex)) && Later(s, MatchStep(s, i, source, response.matchIndex))
  {
    var s' := MatchStep(s, i, source, response.matchIndex);
    var n := s.nodes[i];
    assert NodeInv(s, i) && LeaderInv(s, i);
    assert MessageInv(s, Message(source, i, AnswerAppend(response)));
    CursorsKeep(s, s', i, source, s'.nodes[i].next[source], s'.nodes[i].matched[source]);
  }

  /** A leader step that moves one peer's cursors to covered, acknowledged places. */
  lemma CursorsKeep(s: State, s': State, i: NodeId, source: NodeId, next: LogIndex, matched: LogIndex)
    requires Inv(s) && i in s.nodes && s.nodes[i].role == Leader && source in s.nodes
    requires source in s.nodes[i].next && source in s.nodes[i].matched
    requires s' == Put(s, i, s.nodes[i].(next := s.nodes[i].next[source := next],
                                         matched := s.nodes[i].matched[source := matched]))
    requires 1 <= next <= |s.nodes[i].log| && Covered(s, source, s.nodes[i].term, next)
    requires matched == 0 || Acked(s.hist, s.nodes[i].term, source, matched)
    ensures Inv(s') && Later(s, s')
  {
    hide LogOk, Complete, Covered, Inherits, Basics, CandidateInv, LeaderInv, CommitOk, AppendInv, AnswerInv;
    assert NodeInv(s, i);
    CursorsNode(s, s', i, source, next, matched);
    LeaderClauses(s, i);
    HistStable(s, s', i);
    StepKeeps(s, s', i);
  }

  lemma CursorsNode(s: State, s': State, i: NodeId, source: NodeId, next: LogIndex, matched: LogIndex)
    requires i in s.nodes && NodeInv(s, i) && s.nodes[i].role == Leader && source in s.nodes
    requires source in s.nodes[i].next && source in s.nodes[i].matched
    requires s' == Put(s, i, s.nodes[i].(next := s.nodes[i].next[source := next],
                                         matched := s.nodes[i].matched[source := matched]))
    requires 1 <= next <= |s.nodes[i].log| && Covered(s, source, s.nodes[i].term, next)
    requires matched == 0 || Acked(s.hist, s.nodes[i].term, source, matched)
    ensures Evolves(s, s', i) && NodeInv(s', i)
  {
    hide LogOk, Complete, Covered, Inherits, CandidateInv, LeaderInv, VoteInv, AckInv;
    BasicsKept(s, s', i);
    CursorsLeader(s, s', i, source, next, matched);
  }

  lemma CursorsLeader(s: State, s': State, i: NodeId, source: NodeId, next: LogIndex, matched: LogIndex)
    requires i in s.nodes && LeaderInv(s, i) && source in s.nodes
    requires source in s.nodes[i].next && source in s.nodes[i].matched
    requires s' == Put(s, i, s.nodes[i].(next := s.nodes[i].next[source := next],
                                         matched := s.nodes[i].matched[source := matched]))
    requires 1 <= next <= |s.nodes[i].log| && Covered(s, source, s.nodes[i].term, next)
    requires matched == 0 || Acked(s.hist, s.nodes[i].term, source, matched)
    ensures LeaderInv(s', i)
  {
    var n := s.nodes[i];
    forall p | p in s'.nodes[i].next ensures Covered(s', p, n.term, s'.nodes[i].next[p]) {
      assert Covered(s, p, n.term, s'.nodes[i].next[p]);
      CoveredStable(s, s', i, p, n.term, s'.nodes[i].next[p]);
    }
  }

  /** Following a node's hint never skips past its first conflict with the leader. */
  lemma HintCovers(s: State, i: NodeId, source: NodeId, ci: LogIndex, ct: Option<Term>)
    requires Inv(s) && i in s.nodes && IsNode(s, i) && s.nodes[i].role == Leader && source in s.nodes
    requires HintOk(s, source, s.nodes[i].term, ci, ct)
    ensures var next := NextAfterConflict(s.nodes[i].log, ci, ct);
            1 <= next <= |s.nodes[i].log| && Covered(s, source, s.nodes[i].term, next)
  {
    var leader, l, t := s.nodes[i].log, s.nodes[source].log, s.nodes[i].term;
    LeaderLog(s, i);
    assert NodeInv(s, source);
    var next := NextAfterConflict(leader, ci, ct);
    assert next == |leader| ==> OwnBefore(s.hist, t, next);
    if !Settled(s, source, t) && ct.Some? {
      var q: LogIndex :| Diverges(leader, l, ci, q, ct.value);
      LastOfTermFinds(leader, ct.value);
      if LastOfTerm(leader, ct.value).Some? {
        var j := LastOfTerm(leader, ct.value).value;
        RunsAgree(s.hist, leader, l, j, q);
        assert Gap(s, source, t, j + 1);
      } else {
        assert Gap(s, source, t, ci);
      }
    }
  }

  /** The leader's last entry of a term comes before q, and the follower's run goes on past it. */
  lemma RunsAgree(h: History, leader: seq<LogEntry>, l: seq<LogEntry>, j: nat, q: nat)
    requires LogOk(h, leader) && LogOk(h, l) && 1 <= q < |l| && q < |leader| && j < |leader|
    requires leader[j].term == l[q].term != leader[q].term
    ensures j < q && l[j + 1].term == l[q].term
  {
    assert l[q].term >= 1;
    assert j >= 1 && FromLeader(h, leader, j) && FromLeader(h, l, q);
    var run := h.logs[l[q].term];
    assert forall x :: 0 <= x <= j ==> leader[x] == leader[..j + 1][x] == run[x];
    assert forall x :: 0 <= x <= q ==> l[x] == l[..q + 1][x] == run[x];
  }

  lemma BackoffKeeps(s: State, i: NodeId, source: NodeId, response: AppendResponse)
    requires Inv(s) && i in s.nodes && IsNode(s, i) && s.nodes[i].role == Leader
    requires source in s.nodes[i].next && source in s.nodes[i].matched
    requires Message(source, i, AnswerAppend(response)) in s.net
    requires !response.success && response.term == s.nodes[i].term
    ensures Inv(BackoffStep(s, i, source, response)) && Later(s, BackoffStep(s, i, source, response))
  {
    var s' := BackoffStep(s, i, source, response);
    var n := s.nodes[i];
    assert NodeInv(s, i) && LeaderInv(s, i);
    assert MessageInv(s, Message(source, i, AnswerAppend(response)));
    HintCovers(s, i, source, response.conflictIndex, response.conflictTerm);
    assert n.matched == n.matched[source := n.matched[source]];
    CursorsKeep(s, s', i, source, s'.nodes[i].next[source], n.matched[source]);
  }
}
