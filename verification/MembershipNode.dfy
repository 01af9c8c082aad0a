/** The loops of `RaftNode` over configurations, on the fields they change. */
module MembershipNodeClass {
  import opened RaftTypes
  import opened LogSpec
  import opened Quorum
  import opened ClusterConfig
  import opened JournalCodec
  import opened Membership

  // ---------------------------------------------------------------- lists of ids

  function AllIds(members: seq<Member>): seq<NodeId> {
    seq(|members|, i requires 0 <= i < |members| => members[i].id)
  }

  /** The list, followed by the ids of the members it lacks. */
  function Joined(ids: seq<NodeId>, members: seq<Member>): seq<NodeId> {
    if members == [] then ids
    else
      var front, id := Joined(ids, members[..|members| - 1]), members[|members| - 1].id;
      if id in front then front else front + [id]
  }

  function NotSelf(ids: seq<NodeId>, self: NodeId): seq<NodeId> {
    if ids == [] then []
    else NotSelf(ids[..|ids| - 1], self) + (if ids[|ids| - 1] != self then [ids[|ids| - 1]] else [])
  }

  lemma {:induction false} NotSelfHas(ids: seq<NodeId>, self: NodeId, id: NodeId)
    requires id != self
    ensures id in NotSelf(ids, self) <==> id in ids
  {
    if ids != [] {
      NotSelfHas(ids[..|ids| - 1], self, id);
      assert ids == ids[..|ids| - 1] + [ids[|ids| - 1]];
    }
  }

  lemma {:induction false} OthersAreNotSelf(members: seq<Member>, self: NodeId)
    ensures NotSelf(AllIds(members), self) == Others(members, self)
  {
    if members != [] {
      var front := members[..|members| - 1];
      OthersAreNotSelf(front, self);
      assert AllIds(members)[..|members| - 1] == AllIds(front);
    }
  }

  /** Dropping the node itself at the end is the same as never adding it. */
  lemma {:induction false} JoinedNotSelf(ids: seq<NodeId>, members: seq<Member>, self: NodeId)
    ensures NotSelf(Joined(ids, members), self) == WithNew(NotSelf(ids, self), members, self)
  {
    if members != [] {
      var front, id := members[..|members| - 1], members[|members| - 1].id;
      JoinedNotSelf(ids, front, self);
      var joined := Joined(ids, front);
      if id != self {
        NotSelfHas(joined, self, id);
      }
      assert (joined + [id])[..|joined|] == joined;
    }
  }

  // ---------------------------------------------------------------- the node's fields

  class MembershipNode {
    const self: NodeId
    var peers: seq<NodeId>
    var learner: bool
    var learners: set<NodeId>
    var stable: Option<Configuration>
    var joint: Option<Configuration>
    var active: Option<Operation>
    var completed: Option<Operation>
    var pending: Option<LogIndex>

    ghost function View(): Members
      reads this
    {
      Members(self, peers, learner, learners, stable, joint, active, completed, pending)
    }

    /** What the constructor does with a bootstrap configuration. */
    constructor (self: NodeId, bootstrap: Configuration, learner: bool, learners: set<NodeId>)
      requires ValidConfiguration(bootstrap, if learner then 0 else self)
      ensures View() == Members(self, PeersOf(bootstrap, None, self), learner, learners, Some(bootstrap), None,
                                None, None, None)
      ensures PeersMatch(View())
    {
      this.self, this.learner, this.learners, stable := self, learner, learners, Some(bootstrap);
      joint, active, completed, pending := None, None, None, None;
      peers := [];
      new;
      ApplyPeersFromConfiguration(bootstrap);
      PeersOfMatch(View());
    }

    method ApplyPeersFromConfiguration(c: Configuration)
      modifies this`peers
      ensures peers == Others(c.members, self)
    {
      peers := [];
      for i := 0 to |c.members|
        invariant peers == Others(c.members[..i], self)
      {
        assert c.members[..i + 1][..i] == c.members[..i];
        if c.members[i].id != self {
          peers := peers + [c.members[i].id];
        }
      }
      assert c.members[..|c.members|] == c.members;
    }

    method IsMemberOf(c: Configuration) returns (found: bool)
      ensures found <==> Contained(self, c)
    {
      for i := 0 to |c.members|
        invariant forall j :: 0 <= j < i ==> c.members[j].id != self
      {
        if c.members[i].id == self {
          return true;
        }
      }
      return false;
    }

    /** The constructor over a loaded image with a configuration; false is the exception it throws. */
    method LoadConfigurations(image: Persistent) returns (ok: bool)
      requires PeersMatch(View()) && image.cluster.Some? && |image.entries| > 0
      requires image.joint.Some? ==> ValidConfiguration(image.joint.value, 0)
      modifies this
      ensures ok <==> !Refuses(image)
      ensures ok ==> PeersMatch(View()) && View() == Next(old(View()), Restarted(image))
    {
      hide PendingChange, Others, WithNew, Distinct, Elements, ValidConfiguration, ValidOperation, Contained, IdsOf;
      ok := ValidateClusterConfiguration(image.cluster.value, 0);
      if !ok {
        return;
      }
      stable, joint := image.cluster, image.joint;
      var found := IsMemberOf(image.cluster.value);
      learner := !found;
      ApplyPeersFromConfiguration(image.cluster.value);
      if joint.Some? {
        AddJointPeers(joint.value.members);
      }
      if (image.active.Some? && !ValidOperation(image.active.value)) ||
         (image.completed.Some? && !ValidOperation(image.completed.value)) {
        return false;
      }
      active, completed, pending := image.active, image.completed, None;
      if active.Some? && joint.None? {
        return false;
      }
      if joint.Some? {
        FindPending(image.entries, image.commit);
      }
      NextMatches(old(View()), Restarted(image));
    }

    method AddJointPeers(members: seq<Member>)
      modifies this`peers
      ensures peers == WithNew(old(peers), members, self)
    {
      for i := 0 to |members|
        invariant peers == WithNew(old(peers), members[..i], self)
      {
        assert members[..i + 1][..i] == members[..i];
        if members[i].id !in peers && members[i].id != self {
          peers := peers + [members[i].id];
        }
      }
      assert members[..|members|] == members;
    }

    /** Looks among the uncommitted entries for the one that led into the joint phase. */
    method FindPending(log: seq<LogEntry>, commit: LogIndex)
      requires |log| > 0 && joint.Some? && pending.None?
      modifies this`pending, this`active
      ensures var found := PendingChange(log, commit + 1, joint.value);
              && pending == (if found.Some? then Some(found.value.0) else None)
              && active == if found.Some? && found.value.1.operation != 0 && old(active).None?
                           then Some(OperationOf(found.value.1)) else old(active)
    {
      hide ChangeAt;
      var index := commit + 1;
      while index <= LastIndex(log)
        invariant PendingChange(log, index, joint.value) == PendingChange(log, commit + 1, joint.value)
        invariant pending == old(pending) && active == old(active)
        decreases LastIndex(log) + 1 - index
      {
        var change := ChangeAt(log, index);
        if change.Some? && change.value.target == joint.value {
          pending := Some(index);
          if change.value.operation != 0 && active.None? {
            active := Some(OperationOf(change.value));
          }
          return;
        }
        index := index + 1;
      }
    }

    /** The peers of the joint phase: everyone in either configuration, except the node itself. */
    method SetJointPeers(target: Configuration)
      requires stable.Some?
      modifies this`peers
      ensures peers == PeersOf(stable.value, Some(target), self)
    {
      var ids := AllIds(stable.value.members);
      ghost var first := ids;
      for i := 0 to |target.members|
        invariant ids == Joined(first, target.members[..i])
      {
        assert target.members[..i + 1][..i] == target.members[..i];
        if target.members[i].id !in ids {
          ids := ids + [target.members[i].id];
        }
      }
      assert target.members[..|target.members|] == target.members;
      peers := [];
      for i := 0 to |ids|
        invariant peers == NotSelf(ids[..i], self)
      {
        assert ids[..i + 1][..i] == ids[..i];
        if ids[i] != self {
          peers := peers + [ids[i]];
        }
      }
      assert ids[..|ids|] == ids;
      OthersAreNotSelf(stable.value.members, self);
      JoinedNotSelf(first, target.members, self);
    }

    /** `proposeConfChange`: the entry to append after index `last`, or None for a refusal. The fields
        change before the entry is encoded. */
    method ProposeConfChange(leader: bool, kind: ChangeType, member: Member, operation: nat, caughtUp: bool,
                             last: LogIndex)
      returns (entry: Option<seq<Byte>>)
      requires PeersMatch(View())
      modifies this
      ensures PeersMatch(View())
      ensures (View(), entry) == Proposal(old(View()), leader, kind, member, operation, caughtUp, last)
      ensures View() == Next(old(View()), Proposed(leader, kind, member, operation, caughtUp, last))
    {
      hide Target, EncodeChange, ValidOperation, Distinct, Elements, PeersOf, ValidConfiguration, IdsOf;
      NextMatches(View(), Proposed(leader, kind, member, operation, caughtUp, last));
      entry := None;
      if !leader || stable.None? || pending.Some? || joint.Some? {
        return;
      }
      if operation != 0 && (!ValidOperation(Operation(operation, kind, member)) || active.Some?) {
        return;
      }
      var target := Target(stable.value, self, kind, member, caughtUp);
      if target.None? {
        return;
      }
      joint := target;
      if operation != 0 {
        active := Some(Operation(operation, kind, member));
      }
      SetJointPeers(target.value);
      learners := learners - {member.id};
      entry := EncodeChange(Change(kind, true, member, target.value, operation));
      if entry.Some? {
        pending := Some(last + 1);
      }
    }

    /** A committed entry takes effect. A leader answers a joint entry with the exit entry, appended
        after index `end`; false is the exception it throws if there is none to append. */
    method ApplyConfigurationEntry(entry: Change, leads: bool, end: LogIndex)
      returns (ok: bool, exit: Option<seq<Byte>>)
      requires PeersMatch(View()) && ValidConfiguration(entry.target, 0)
      modifies this
      ensures ok <==> !(leads && entry.joint) || ExitToAppend(old(View()), entry).Some?
      ensures ok ==> PeersMatch(View()) && View() == Next(old(View()), EntryApplied(entry, leads, end))
      ensures exit == if leads && entry.joint then ExitToAppend(old(View()), entry) else None
    {
      hide ExitEntry, EncodeChange, Others, WithNew, Distinct, Elements, ValidConfiguration, Contained, IdsOf;
      ok, exit := true, None;
      ghost var before := View();
      if entry.joint {
        joint := Some(entry.target);
        if entry.operation != 0 {
          active := Some(OperationOf(entry));
        }
        SetJointPeers(entry.target);
        var found := IsMemberOf(entry.target);
        if found {
          learner := false;
        }
        pending := None;
        if leads {
          var change := MakeJointExitEntry();
          if change.None? {
            return false, None;
          }
          exit := EncodeChange(change.value);
          if exit.None? {
            return false, None;
          }
          pending := Some(end + 1);
        }
      } else {
        stable, joint := Some(entry.target), None;
        ApplyPeersFromConfiguration(entry.target);
        var found := IsMemberOf(entry.target);
        learner := !found;
        if entry.operation != 0 {
          completed, active := Some(OperationOf(entry)), None;
        }
        pending := None;
      }
      NextMatches(before, EntryApplied(entry, leads, end));
    }

    /** The configuration part of a follower's append: an awaited entry that was overwritten is
        forgotten, and with it the joint phase it began; then the batch's joint entries take effect. */
    method FollowBatch(before: seq<LogEntry>, after: seq<LogEntry>, batch: seq<LogEntry>, commit: LogIndex)
      requires PeersMatch(View()) && |before| > 0 && |after| > 0
      modifies this
      ensures PeersMatch(View())
      ensures View() == JointEntries(Next(old(View()), BatchStored(before, after, commit)), batch, commit)
    {
      hide Distinct, Elements, DecodeChange, PeersOf, AfterBatch, ValidConfiguration;
      NextMatches(View(), BatchStored(before, after, commit));
      RollBackIfOverwritten(before, after, commit);
      ghost var start := View();
      for i := 0 to |batch|
        invariant PeersMatch(View()) && stable.Some? && View() == JointEntries(start, batch[..i], commit)
      {
        assert batch[..i + 1][..i] == batch[..i];
        if batch[i].kind == ConfChange && batch[i].index > commit {
          var change := DecodeChange(batch[i].command);
          if change.Some? && change.value.joint {
            DecodedChangeValid(batch[i].command);
            var ok, exit := ApplyConfigurationEntry(change.value, false, 0);
            pending := Some(batch[i].index);
          }
        }
      }
      assert batch[..|batch|] == batch;
    }

    method RollBackIfOverwritten(before: seq<LogEntry>, after: seq<LogEntry>, commit: LogIndex)
      requires stable.Some? && |before| > 0 && |after| > 0
      modifies this
      ensures View() == AfterBatch(old(View()), before, after, commit)
    {
      hide DecodeChange, EntryAt;
      if pending.None? || pending.value <= commit {
        return;
      }
      var awaited := EntryAt(before, pending.value);
      if awaited.None? || awaited.value.kind != ConfChange {
        return;
      }
      var change := DecodeChange(awaited.value.command);
      if change.None? {
        return;
      }
      var retained := EntryAt(after, pending.value);
      if retained.None? || retained.value.command != awaited.value.command {
        if change.value.joint {
          joint, active := None, None;
          ApplyPeersFromConfiguration(stable.value);
        }
        pending := None;
      }
    }

    // -------------------------------------------------------------- quorums and the exit entry

    method CountGranted(c: Configuration, granted: set<NodeId>) returns (count: nat)
      ensures count == CountIn(c.members, granted)
    {
      count := 0;
      for i := 0 to |c.members|
        invariant count == CountIn(c.members[..i], granted)
      {
        assert c.members[..i + 1][..i] == c.members[..i];
        if c.members[i].id in granted {
          count := count + 1;
        }
      }
      assert c.members[..|c.members|] == c.members;
    }

    method HasElectionQuorum(votesReceived: set<NodeId>) returns (ok: bool)
      ensures ok == HasQuorum(View(), votesReceived)
    {
      if stable.None? || joint.None? {
        return |votesReceived| >= (|peers| + 1) / 2 + 1;
      }
      var before := CountGranted(stable.value, votesReceived);
      var after := CountGranted(joint.value, votesReceived);
      return before >= |stable.value.members| / 2 + 1 && after >= |joint.value.members| / 2 + 1;
    }

    /** The members that hold an index, as the leader knows it. */
    ghost function Holders(matched: map<NodeId, LogIndex>, last: LogIndex, index: LogIndex): set<NodeId>
      reads this
    {
      Holding(Elements(peers) + {self}, self, matched, last, index)
    }

    /** Replication is counted over the same quorums as votes, in both phases. */
    method HasReplicationQuorum(matched: map<NodeId, LogIndex>, last: LogIndex, index: LogIndex) returns (ok: bool)
      requires PeersMatch(View())
      ensures ok == HasQuorum(View(), Holders(matched, last, index))
    {
      hide Holders, CountIn, Distinct, Elements;
      if stable.None? || joint.None? {
        var count := CountReplicated(matched, last, index);
        return count >= (|peers| + 1) / 2 + 1;
      }
      assert Ids(stable.value.members) <= Elements(peers) + {self};
      assert Ids(joint.value.members) <= Elements(peers) + {self};
      var before := CountHolders(stable.value, matched, last, index);
      var after := CountHolders(joint.value, matched, last, index);
      return before >= |stable.value.members| / 2 + 1 && after >= |joint.value.members| / 2 + 1;
    }

    method CountReplicated(matched: map<NodeId, LogIndex>, last: LogIndex, index: LogIndex) returns (count: nat)
      requires Distinct(peers) && self !in Elements(peers)
      ensures count == |Holders(matched, last, index)|
    {
      hide Replicated, Distinct, Elements, Holding;
      count := if Replicated(self, self, matched, last, index) then 1 else 0;
      ghost var ids := {self};
      HoldingMore({}, self, self, matched, last, index);
      NoPeers(peers);
      for i := 0 to |peers|
        invariant count == |Holding(ids, self, matched, last, index)| && ids == Elements(peers[..i]) + {self}
      {
        NextPeer(peers, self, i);
        HoldingMore(ids, peers[i], self, matched, last, index);
        ids := ids + {peers[i]};
        if Replicated(peers[i], self, matched, last, index) {
          count := count + 1;
        }
      }
      assert peers[..|peers|] == peers;
    }

    method CountHolders(c: Configuration, matched: map<NodeId, LogIndex>, last: LogIndex, index: LogIndex)
      returns (count: nat)
      requires Ids(c.members) <= Elements(peers) + {self}
      ensures count == CountIn(c.members, Holders(matched, last, index))
    {
      count := 0;
      for i := 0 to |c.members|
        invariant count == CountIn(c.members[..i], Holders(matched, last, index))
      {
        assert c.members[..i + 1][..i] == c.members[..i];
        assert c.members[i].id in Ids(c.members);
        if Replicated(c.members[i].id, self, matched, last, index) {
          count := count + 1;
        }
      }
      assert c.members[..|c.members|] == c.members;
    }

    static method FindMember(c: Configuration, id: NodeId) returns (found: bool)
      ensures found <==> Contained(id, c)
    {
      for i := 0 to |c.members|
        invariant forall j :: 0 <= j < i ==> c.members[j].id != id
      {
        if c.members[i].id == id {
          return true;
        }
      }
      return false;
    }

    static method FindMissing(members: seq<Member>, from: Configuration) returns (r: Option<Member>)
      ensures r == FirstMissing(members, from)
    {
      for i := 0 to |members|
        invariant FirstMissing(members, from) == FirstMissing(members[i..], from)
      {
        assert members[i..][1..] == members[i + 1..];
        var found := FindMember(from, members[i].id);
        if !found {
          return Some(members[i]);
        }
      }
      return None;
    }

    method MakeJointExitEntry() returns (exit: Option<Change>)
      ensures exit == if stable.Some? && joint.Some? then ExitEntry(stable.value, joint.value, active) else None
    {
      if stable.None? || joint.None? {
        return None;
      }
      var operation := if active.Some? then active.value.id else 0;
      if |joint.value.members| == |stable.value.members| + 1 {
        var added := FindMissing(joint.value.members, stable.value);
        if added.Some? {
          return Some(Change(AddNode, false, added.value, joint.value, operation));
        }
      } else if |stable.value.members| == |joint.value.members| + 1 {
        var removed := FindMissing(stable.value.members, joint.value);
        if removed.Some? {
          return Some(Change(RemoveNode, false, Bare(removed.value.id), joint.value, operation));
        }
      }
      return None;
    }
  }

  /** The joint entries of a batch take effect as they are appended. */
  function JointEntries(m: Members, batch: seq<LogEntry>, commit: LogIndex): (r: Members)
    requires m.stable.Some?
    ensures r.stable == m.stable
  {
    if batch == [] then m
    else
      var before, e := JointEntries(m, batch[..|batch| - 1], commit), batch[|batch| - 1];
      if e.kind != ConfChange || e.index <= commit then before
      else
        match DecodeChange(e.command)
        case None => before
        case Some(change) =>
          if change.joint then Membership.Applied(before, change).(pending := Some(e.index)) else before
  }

  /** A leader knows of itself from its log, of others from their match indexes. */
  predicate Replicated(id: NodeId, self: NodeId, matched: map<NodeId, LogIndex>, last: LogIndex, index: LogIndex) {
    if id == self then last >= index else id in matched && matched[id] >= index
  }

  ghost function Holding(ids: set<NodeId>, self: NodeId, matched: map<NodeId, LogIndex>, last: LogIndex,
                         index: LogIndex): set<NodeId> {
    set id | id in ids && Replicated(id, self, matched, last, index)
  }

  lemma HoldingMore(ids: set<NodeId>, id: NodeId, self: NodeId, matched: map<NodeId, LogIndex>, last: LogIndex,
                    index: LogIndex)
    requires id !in ids
    ensures |Holding(ids + {id}, self, matched, last, index)| ==
            |Holding(ids, self, matched, last, index)| + (if Replicated(id, self, matched, last, index) then 1 else 0)
    ensures Holding({}, self, matched, last, index) == {}
  {
    hide Replicated;
    assert Holding(ids + {id}, self, matched, last, index) ==
           Holding(ids, self, matched, last, index) + (if Replicated(id, self, matched, last, index) then {id} else {});
  }

  lemma NoPeers(peers: seq<NodeId>)
    ensures Elements(peers[..0]) == {}
  {
  }

  /** One more peer, which has not been counted. */
  lemma NextPeer(peers: seq<NodeId>, self: NodeId, i: nat)
    requires i < |peers| && Distinct(peers) && self !in Elements(peers)
    ensures Elements(peers[..i + 1]) == Elements(peers[..i]) + {peers[i]} && peers[i] !in Elements(peers[..i])
    ensures peers[i] != self
  {
    assert peers[..i + 1] == peers[..i] + [peers[i]];
    assert peers[i] in Elements(peers);
  }
}
