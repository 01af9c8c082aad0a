/** `RaftNode` for a fixed set of voters: its fields, loops and handlers, each proved equal to the
    function of `NodeSpec` it computes. `saves` records the images handed to the journal. */
module RaftNodeClass {
  import opened RaftTypes
  import opened LogSpec
  import opened NodeSpec
  import opened RaftLogClass

  class RaftNode {
    const self: NodeId
    const peers: seq<NodeId>
    const batch: nat
    const log: RaftLog
    var role: Role
    var term: Term
    var votedFor: Option<NodeId>
    var leaderId: Option<NodeId>
    var commit: LogIndex
    var votes: set<NodeId>
    var next: map<NodeId, LogIndex>
    var matched: map<NodeId, LogIndex>
    ghost var saves: seq<Image>

    ghost predicate Valid()
      reads this, log
    {
      log.Valid()
    }

    ghost function View(): NodeState
      reads this, log
    {
      NodeState(self, peers, batch, role, term, votedFor, leaderId, log.entries, commit, votes, next, matched)
    }

    /** A node with nothing on disk. */
    constructor (self: NodeId, peers: seq<NodeId>, batch: nat)
      ensures Valid() && fresh(log) && View() == Fresh(self, peers, batch) && saves == []
    {
      this.self, this.peers, this.batch := self, peers, batch;
      log := new RaftLog();
      role, term, votedFor, leaderId, commit := Follower, 0, None, None, 0;
      votes, next, matched, saves := {}, map[], map[], [];
    }

    /** Loads the last saved image; false is a start that the constructor refuses. */
    method Load(image: Image) returns (ok: bool)
      requires Valid() && View() == Fresh(self, peers, batch)
      modifies this, log
      ensures Valid()
      ensures ok <==> Restart(Some(image), self, peers, batch).Some?
      ensures ok ==> Some(View()) == Restart(Some(image), self, peers, batch)
    {
      if image.term == 0 || image.entries == [] || image.commit > LastIndex(image.entries) {
        return false;
      }
      ok := log.Restore(image.entries);
      if !ok {
        return;
      }
      for i := 0 to |image.entries|
        invariant forall j :: 0 <= j < i ==> image.entries[j].term <= image.term
      {
        if image.entries[i].term > image.term {
          return false;
        }
      }
      if image.votedFor.Some? && image.votedFor.value != self && image.votedFor.value !in peers {
        return false;
      }
      term, votedFor, commit := image.term, image.votedFor, image.commit;
    }

    method PersistOrThrow()
      requires Valid()
      modifies this`saves
      ensures saves == old(saves) + [View().Durable()]
    {
      saves := saves + [View().Durable()];
    }

    method BecomeFollower(term: Term, leader: Option<NodeId>)
      requires Valid()
      modifies this
      ensures Valid() && View() == NodeSpec.BecomeFollower(old(View()), term, leader) && saves == old(saves)
    {
      if term > this.term {
        this.term, votedFor := term, None;
      }
      role, leaderId, votes, next, matched := Follower, leader, {}, map[], map[];
    }

    // -------------------------------------------------------------- quorums and the commit scan

    method HasReplicationQuorum(index: LogIndex) returns (ok: bool)
      requires Valid()
      ensures ok == NodeSpec.HasReplicationQuorum(View(), index)
    {
      var count := if LastIndex(log.entries) >= index then 1 else 0;
      ghost var first := count;
      for i := 0 to |peers|
        invariant count == first + CountReached(peers[..i], matched, index)
      {
        assert peers[..i + 1][..i] == peers[..i];
        if peers[i] in matched && matched[peers[i]] >= index {
          count := count + 1;
        }
      }
      assert peers[..|peers|] == peers;
      ok := HasQuorum(count, |peers| + 1);
    }

    method AdvanceCommitIndex()
      requires Valid()
      modifies this`commit, this`saves
      ensures Valid() && View() == Advance(old(View())) && saves == old(saves) + AdvanceSaves(old(View()))
    {
      if role != Leader {
        return;
      }
      var previousCommit := commit;
      var candidate: LogIndex := LastIndex(log.entries);
      while candidate > commit
        invariant commit == previousCommit && saves == old(saves)
        invariant ScanCommit(View(), LastIndex(log.entries)) == ScanCommit(View(), candidate)
        decreases candidate
      {
        var quorum := HasReplicationQuorum(candidate);
        if TermAt(log.entries, candidate) == Some(term) && quorum {
          break;
        }
        candidate := candidate - 1;
      }
      if candidate > commit {
        commit := candidate;
      }
      if commit != previousCommit {
        PersistOrThrow();
      }
    }

    // -------------------------------------------------------------- outgoing requests

    method MakeAppendEntries(peer: NodeId) returns (rpc: Outbound)
      requires Valid()
      ensures rpc == MakeAppend(View(), peer, 0)
    {
      var nextIndex := if peer in next then next[peer] else LastIndex(log.entries) + 1;
      var previous := if nextIndex == 0 then MAX_WORD else nextIndex - 1;
      var previousTerm := match TermAt(log.entries, previous) case None => 0 case Some(t) => t;
      rpc := Outbound(peer, Append(AppendRequest(term, self, previous, previousTerm,
                                                 EntriesFrom(log.entries, nextIndex, batch), commit, 0)));
    }

    method ReplicateToAll() returns (out: seq<Outbound>)
      requires Valid()
      ensures out == NodeSpec.ReplicateToAll(View(), 0)
    {
      out := [];
      for i := 0 to |peers|
        invariant |out| == i && forall j :: 0 <= j < i ==> out[j] == MakeAppend(View(), peers[j], 0)
      {
        var rpc := MakeAppendEntries(peers[i]);
        out := out + [rpc];
      }
    }

    method MakeReadBarrier(context: nat) returns (out: seq<Outbound>)
      requires Valid()
      ensures out == ReadBarrier(View(), context)
    {
      if role != Leader || context == 0 {
        return [];
      }
      out := ReplicateToAll();
      ghost var plain := out;
      for i := 0 to |out|
        invariant |out| == |plain|
        invariant forall j :: 0 <= j < i ==> out[j] == MakeAppend(View(), peers[j], context)
        invariant forall j :: i <= j < |out| ==> out[j] == plain[j]
      {
        var rpc := out[i];
        if rpc.payload.Append? {
          out := out[i := rpc.(payload := Append(rpc.payload.append.(readContext := context)))];
        }
      }
    }

    // -------------------------------------------------------------- elections

    /** Every peer starts unmatched, right after the log's end. */
    method InitializeProgress()
      requires Valid()
      modifies this`next, this`matched
      ensures var voters := set p | p in peers;
              && next == (map p | p in voters :: LastIndex(log.entries) + 1)
              && matched == (map p | p in voters :: 0)
    {
      var initialNext := LastIndex(log.entries) + 1;
      next, matched := map[], map[];
      for i := 0 to |peers|
        invariant next.Keys == matched.Keys == set p | p in peers[..i]
        invariant forall p :: p in next ==> next[p] == initialNext && matched[p] == 0
      {
        assert peers[..i + 1] == peers[..i] + [peers[i]];
        next, matched := next[peers[i] := initialNext], matched[peers[i] := 0];
      }
      assert peers[..|peers|] == peers;
    }

    /** Office up to the no-op. */
    method EnterOffice()
      requires Valid()
      modifies this, log
      ensures Valid() && View() == TakeOffice(old(View())) && saves == old(saves)
    {
      ghost var before := View();
      role, leaderId, votes := Leader, Some(self), {};
      InitializeProgress();
      assert next == TakeOffice(before).next && matched == TakeOffice(before).matched;
      var noOp := log.Append(term, NoOp, []);
      assert log.entries == TakeOffice(before).log;
    }

    method BecomeLeader() returns (out: seq<Outbound>)
      requires Valid()
      modifies this, log
      ensures Valid()
      ensures var done := NodeSpec.BecomeLeader(old(View()));
              View() == done.node && out == done.reply && saves == old(saves) + done.saves
    {
      hide Advance, AdvanceSaves, NodeSpec.ReplicateToAll, TakeOffice;
      EnterOffice();
      ghost var office := View();
      PersistOrThrow();
      AdvanceCommitIndex();
      assert saves == old(saves) + ([office.Durable()] + AdvanceSaves(office));
      out := ReplicateToAll();
    }

    method RequestVotesFromAll() returns (out: seq<Outbound>)
      requires Valid()
      ensures out == RequestVotes(View())
    {
      out := [];
      for i := 0 to |peers|
        invariant |out| == i && forall j :: 0 <= j < i ==> out[j] == RequestVotes(View())[j]
      {
        var ask := VoteRequest(term, self, LastIndex(log.entries), LastTerm(log.entries));
        out := out + [Outbound(peers[i], AskVote(ask))];
      }
    }

    method StartElection() returns (out: seq<Outbound>)
      requires Valid()
      modifies this, log
      ensures Valid()
      ensures var done := NodeSpec.StartElection(old(View()));
              View() == done.node && out == done.reply && saves == old(saves) + done.saves
    {
      hide RequestVotes, NodeSpec.BecomeLeader;
      if term >= MAX_WORD {
        return [];
      }
      role, term, votedFor, leaderId, votes := Candidate, term + 1, Some(self), None, {self};
      ghost var campaigning := View();
      assert campaigning == Campaign(old(View()));
      PersistOrThrow();
      if |votes| >= QuorumSize(|peers| + 1) {
        out := BecomeLeader();
        assert saves == old(saves) + ([campaigning.Durable()] + NodeSpec.BecomeLeader(campaigning).saves);
      } else {
        out := RequestVotesFromAll();
      }
    }

    method HandleRequestVote(request: VoteRequest) returns (response: VoteResponse)
      requires Valid()
      modifies this
      ensures Valid()
      ensures var done := HandleVoteRequest(old(View()), request);
              View() == done.node && response == done.reply && saves == old(saves) + done.saves
    {
      response := VoteResponse(term, request.term, false);
      if !(request.candidateId == self || request.candidateId in peers) || request.term < term {
        return;
      }
      var persistentStateChanged := false;
      if request.term > term {
        BecomeFollower(request.term, None);
        persistentStateChanged := true;
      }
      var upToDate := UpToDate(request.lastLogIndex, request.lastLogTerm, log.entries);
      var canVote := votedFor == None || votedFor == Some(request.candidateId);
      if canVote && upToDate {
        persistentStateChanged := persistentStateChanged || votedFor != Some(request.candidateId);
        votedFor := Some(request.candidateId);
        response := response.(granted := true);
      }
      if persistentStateChanged {
        PersistOrThrow();
      }
      response := response.(term := term);
    }

    method HandleRequestVoteResponse(source: NodeId, response: VoteResponse) returns (out: seq<Outbound>)
      requires Valid()
      modifies this, log
      ensures Valid()
      ensures var done := HandleVoteResponse(old(View()), source, response);
              View() == done.node && out == done.reply && saves == old(saves) + done.saves
    {
      hide NodeSpec.BecomeLeader;
      out := [];
      if !(source == self || source in peers) || source == self {
        return;
      }
      if response.term > term {
        BecomeFollower(response.term, None);
        PersistOrThrow();
        return;
      }
      if role != Candidate || response.term != term || response.electionTerm != term || !response.granted {
        return;
      }
      votes := votes + {source};
      if |votes| >= QuorumSize(|peers| + 1) {
        out := BecomeLeader();
      }
    }

    // -------------------------------------------------------------- replication

    /** The hint of a follower whose entry before the batch has another term, or none. */
    method Conflict(previous: LogIndex) returns (index: LogIndex, conflictTerm: Option<Term>)
      requires Valid()
      ensures (index, conflictTerm) == ConflictHint(log.entries, previous)
    {
      conflictTerm := TermAt(log.entries, previous);
      if conflictTerm.Some? {
        var first := log.FirstIndexOfTerm(conflictTerm.value);
        index := match first case Some(i) => i case None => FirstIndex(log.entries) + 1;
      } else if previous < FirstIndex(log.entries) {
        index := FirstIndex(log.entries) + 1;
      } else {
        index := LastIndex(log.entries) + 1;
      }
    }

    method AcknowledgeSender(request: AppendRequest) returns (termIncreased: bool)
      requires Valid() && request.term >= term
      modifies this
      ensures Valid() && View() == FollowLeader(old(View()), request) && saves == old(saves)
      ensures termIncreased <==> request.term > old(term)
    {
      termIncreased := request.term > term;
      if termIncreased || role != Follower {
        BecomeFollower(request.term, Some(request.leaderId));
      } else {
        leaderId := Some(request.leaderId);
      }
    }

    /** The batch that matches where it starts: stored, with the commit index clamped to the log. */
    method StoreBatch(request: AppendRequest) returns (stored: bool, commitMoved: bool)
      requires Valid()
      modifies this`commit, log
      ensures Valid() && role == old(role) && saves == old(saves)
      ensures match LogSpec.AppendFrom(old(log.entries), request.prevIndex, request.entries)
              case Refused(_) => !stored && !commitMoved && log.entries == old(log.entries) && commit == old(commit)
              case Appended(entries) =>
                && stored && log.entries == entries
                && commit == (if request.leaderCommit > old(commit) then Min(request.leaderCommit, LastIndex(entries))
                              else old(commit))
                && (commitMoved <==> commit != old(commit))
    {
      hide LogSpec.AppendFrom;
      commitMoved := false;
      var outcome := log.AppendFrom(request.prevIndex, request.entries);
      if outcome.Refused? {
        return false, false;
      }
      var previousCommit := commit;
      if request.leaderCommit > commit {
        commit := Min(request.leaderCommit, LastIndex(log.entries));
        commitMoved := commit != previousCommit;
      }
      stored := true;
    }

    method HandleAppendEntries(request: AppendRequest) returns (response: AppendResponse)
      requires Valid()
      modifies this, log
      ensures Valid()
      ensures var done := HandleAppend(old(View()), request);
              View() == done.node && response == done.reply && saves == old(saves) + done.saves
    {
      hide LogSpec.AppendFrom, ConflictHint;
      response := AppendResponse(term, false, request.prevIndex, |request.entries|, 0, LastIndex(log.entries) + 1,
                                 None, request.readContext);
      if !(request.leaderId == self || request.leaderId in peers) || request.term < term {
        return;
      }
      var persistentStateChanged := AcknowledgeSender(request);
      response := response.(term := term);
      if request.prevIndex > LastIndex(log.entries) {
        response := response.(conflictIndex := LastIndex(log.entries) + 1);
      } else if TermAt(log.entries, request.prevIndex) != Some(request.prevTerm) {
        var index, conflictTerm := Conflict(request.prevIndex);
        response := response.(conflictIndex := index, conflictTerm := conflictTerm);
      } else {
        var stored, commitMoved := StoreBatch(request);
        if !stored {
          response := response.(conflictIndex := LastIndex(log.entries) + 1);
        } else {
          persistentStateChanged := persistentStateChanged || request.entries != [] || commitMoved;
          var top := if request.entries == [] then request.prevIndex else request.entries[|request.entries| - 1].index;
          response := response.(success := true, matchIndex := top, conflictIndex := top + 1, conflictTerm := None);
        }
      }
      if persistentStateChanged {
        PersistOrThrow();
      }
    }

    method HandleAppendEntriesResponse(source: NodeId, response: AppendResponse) returns (out: seq<Outbound>)
      requires Valid()
      modifies this, log
      ensures Valid()
      ensures var done := HandleAppendResponse(old(View()), source, response);
              View() == done.node && out == done.reply && saves == old(saves) + done.saves
    {
      hide NextAfterConflict, MakeAppend;
      out := [];
      if !(source == self || source in peers) || source == self {
        return;
      }
      if response.term > term {
        BecomeFollower(response.term, None);
        PersistOrThrow();
        return;
      }
      if role != Leader || response.term != term || source !in next || source !in matched {
        return;
      }
      if response.success {
        if response.matchIndex < response.prevIndex || response.matchIndex > LastIndex(log.entries) ||
           response.entryCount > MAX_WORD - Min(MAX_WORD, response.prevIndex) ||
           response.matchIndex != response.prevIndex + response.entryCount {
          return;
        }
        matched := matched[source := Max(matched[source], response.matchIndex)];
        next := next[source := Max(next[source], response.matchIndex + 1)];
        AdvanceCommitIndex();
        if next[source] <= LastIndex(log.entries) {
          var rpc := MakeAppendEntries(source);
          out := [rpc];
        }
        return;
      }
      if next[source] == 0 || response.prevIndex != next[source] - 1 || matched[source] > response.prevIndex {
        return;
      }
      var resumed := NextIndexAfterConflict(log, response.conflictIndex, response.conflictTerm);
      next := next[source := resumed];
      var rpc := MakeAppendEntries(source);
      out := [rpc];
    }

    method Propose(command: seq<Byte>) returns (result: Option<(LogIndex, seq<Outbound>)>)
      requires Valid()
      modifies this, log
      ensures Valid()
      ensures var done := NodeSpec.Propose(old(View()), command);
              View() == done.node && result == done.reply && saves == old(saves) + done.saves
    {
      hide Advance, AdvanceSaves, NodeSpec.ReplicateToAll;
      if role != Leader {
        return None;
      }
      var index := log.Append(term, Command, command);
      ghost var appended := View();
      PersistOrThrow();
      AdvanceCommitIndex();
      assert saves == old(saves) + ([appended.Durable()] + AdvanceSaves(appended));
      var out := ReplicateToAll();
      result := Some((index, out));
    }
  }

  // ---------------------------------------------------------------- log_replication.cpp

  /** Where a leader resumes after a conflict. */
  method NextIndexAfterConflict(log: RaftLog, conflictIndex: LogIndex, conflictTerm: Option<Term>)
    returns (candidate: LogIndex)
    requires log.Valid()
    ensures candidate == NextAfterConflict(log.entries, conflictIndex, conflictTerm)
  {
    candidate := conflictIndex;
    if conflictTerm.Some? {
      var localLast := log.LastIndexOfTerm(conflictTerm.value);
      if localLast.Some? {
        candidate := localLast.value + 1;
      }
    }
    var minimum := if FirstIndex(log.entries) == MAX_WORD then FirstIndex(log.entries) else FirstIndex(log.entries) + 1;
    candidate := Max(minimum, candidate);
    candidate := Min(candidate, LastIndex(log.entries) + 1);
  }
}
