/** What configuration changes promise, said in terms of configurations, logs and sets of members alone: when a
    change is accepted, when the joint phase begins and ends, and which sets are quorums. */
module MembershipLaws {
  import opened RaftTypes
  import opened LogSpec
  import opened Quorum
  import opened Bytes
  import opened ClusterConfig
  import opened JournalCodec
  import opened Membership
  import opened MembershipNodeClass

  /** The peers are these members except the node itself, each once. */
  ghost predicate PeersAre(m: Members, ids: set<NodeId>) {
    Distinct(m.peers) && Elements(m.peers) == ids - {m.self}
  }

  // ---------------------------------------------------------------- quorums

  /** More than half of the configuration's members are in the set. */
  ghost predicate HalfOf(c: Configuration, granted: set<NodeId>) {
    2 * |Ids(c.members) * granted| > |c.members|
  }

  /** In the joint phase a set is a quorum exactly if it has more than half of the old and more than half of the new
      members; outside it, exactly if it is more than half of the node and its peers. */
  lemma QuorumExactly(m: Members, granted: set<NodeId>)
    requires PeersMatch(m)
    ensures m.joint.Some? ==>
              (HasQuorum(m, granted) <==> HalfOf(m.stable.value, granted) && HalfOf(m.joint.value, granted))
    ensures m.joint.None? ==> (HasQuorum(m, granted) <==> 2 * |granted| > |m.peers| + 1)
  {
    CountIsMembers(m.stable.value.members, granted);
    if m.joint.Some? {
      CountIsMembers(m.joint.value.members, granted);
    }
  }

  // ---------------------------------------------------------------- which changes are accepted

  /** A change is accepted exactly if: an addition names a reachable, caught-up learner that is not a member yet,
      and there is room; a removal names a member that is not the node itself. The node must be a member and
      the configuration number must not be the last one. */
  lemma TargetExactly(stable: Configuration, self: NodeId, kind: ChangeType, member: Member, caughtUp: bool)
    requires ValidConfiguration(stable, 0) && self != 0
    ensures Target(stable, self, kind, member, caughtUp).Some? <==>
              && stable.id != MAX_WORD && self in Ids(stable.members) + (if kind == AddNode then {member.id} else {})
              && match kind
                 case AddNode => && member.id !in Ids(stable.members) && caughtUp && Reachable(member)
                                 && |stable.members| < MAX_MEMBERS
                 case RemoveNode => member.id in Ids(stable.members) && member.id != self
  {
    hide Increasing;
    ContainedIs(member.id, stable);
    if stable.id != MAX_WORD {
      if kind == AddNode {
        if member.id !in Ids(stable.members) {
          AddedValid(stable, self, member);
        }
      } else if member.id in Ids(stable.members) && member.id != self {
        RemovedValid(stable, self, member.id);
      }
    }
  }

  lemma HasSelf(members: seq<Member>, self: NodeId)
    ensures self in Ids(members) <==> exists i :: 0 <= i < |members| && members[i].id == self
  {
  }

  lemma InsertedIs(members: seq<Member>, m: Member)
    ensures var r := Inserted(members, m);
            && |r| == |members| + 1 && m in r && Ids(r) == Ids(members) + {m.id}
            && forall x :: x in r <==> x in members || x == m
  {
    InsertedHas(members, m);
    var r := Inserted(members, m);
    forall x ensures x in r <==> x in members || x == m {
      assert x in r <==> x in multiset(r);
    }
    assert m in r;
  }

  lemma AddedValid(stable: Configuration, self: NodeId, member: Member)
    requires ValidConfiguration(stable, 0) && self != 0 && member.id !in Ids(stable.members)
    ensures ValidConfiguration(Configuration(stable.id + 1, Inserted(stable.members, member)), self) <==>
              Reachable(member) && |stable.members| < MAX_MEMBERS && self in Ids(stable.members) + {member.id}
  {
    hide Increasing, Reachable, Inserted;
    var r := Inserted(stable.members, member);
    InsertedSorts(stable.members, member);
    InsertedIs(stable.members, member);
    HasSelf(r, self);
    if Reachable(member) {
      forall i | 0 <= i < |r| ensures Reachable(r[i]) {
        assert r[i] in r;
      }
    } else {
      var i :| 0 <= i < |r| && r[i] == member;
      assert !Reachable(r[i]);
    }
  }

  lemma RemovedValid(stable: Configuration, self: NodeId, id: NodeId)
    requires ValidConfiguration(stable, 0) && self != 0 && id in Ids(stable.members) && id != self
    ensures var r := Configuration(stable.id + 1, Without(stable.members, id));
            (|stable.members| > 1 && ValidConfiguration(r, self)) <==> self in Ids(stable.members)
  {
    var r := Without(stable.members, id);
    WithoutSorts(stable.members, id);
    HasSelf(r, self);
    forall x ensures x in r <==> x in stable.members && x.id != id {
      WithoutHas(stable.members, id, x);
    }
    assert self in Ids(r) <==> self in Ids(stable.members);
    forall i | 0 <= i < |r| ensures Reachable(r[i]) {
      assert r[i] in r;
    }
  }

  /** An accepted proposal puts the node into the joint phase towards the target and appends an entry that reads back
      as that change, under the next index. */
  lemma ProposalEnters(m: Members, leader: bool, kind: ChangeType, member: Member, operation: nat, caughtUp: bool,
                       last: LogIndex)
    requires PeersMatch(m) && ConfigurationWords(m.stable.value) && MemberWords(member) && operation <= MAX_WORD
    requires Proposal(m, leader, kind, member, operation, caughtUp, last).1.Some?
    ensures Target(m.stable.value, m.self, kind, member, caughtUp).Some?
    ensures var (m', entry) := Proposal(m, leader, kind, member, operation, caughtUp, last);
            var target := Target(m.stable.value, m.self, kind, member, caughtUp).value;
            && m'.stable == m.stable && m'.joint == Some(target) && m'.pending == Some(last + 1)
            && PeersAre(m', Ids(m.stable.value.members) + Ids(target.members))
            && m'.learners == m.learners - {member.id}
            && m'.active == (if operation != 0 then Some(Operation(operation, kind, member)) else m.active)
            && DecodeChange(entry.value) ==
                 Some(Change(kind, true, if kind == AddNode then member else Bare(member.id), target, operation))
  {
    hide Target, EncodeChange, DecodeChange, ValidConfiguration, PeersOf;
    TargetValid(m.stable.value, m.self, kind, member, caughtUp);
    var m' := Proposal(m, leader, kind, member, operation, caughtUp, last).0;
    PeersOfMatch(m');
    var target := Target(m.stable.value, m.self, kind, member, caughtUp).value;
    TargetIsOneChange(m.stable.value, m.self, kind, member, caughtUp);
    TargetWords(m.stable.value, target, kind, member);
    SubjectNamed(m.stable.value, target, m.self, kind, member);
    ChangeBack(Change(kind, true, member, target, operation));
  }

  // ---------------------------------------------------------------- entries that take effect

  /** A joint entry begins the joint phase towards its target; an exit entry makes its target the stable
      configuration and ends the joint phase. A leader then waits for the exit entry it appends behind its log's end,
      any other node for nothing. */
  lemma EntryTakesEffect(m: Members, change: Change, leads: bool, end: LogIndex)
    requires PeersMatch(m) && Legal(m, EntryApplied(change, leads, end))
    ensures var m', target := Next(m, EntryApplied(change, leads, end)), Ids(change.target.members);
            && m'.pending == (if leads && change.joint then Some(end + 1) else None)
            && m'.self == m.self && m'.learners == m.learners
            && (change.joint ==>
                  && m'.stable == m.stable && m'.joint == Some(change.target)
                  && PeersAre(m', Ids(m.stable.value.members) + target)
                  && (m'.learner <==> m.learner && m.self !in target) && m'.completed == m.completed)
            && (!change.joint ==>
                  && m'.stable == Some(change.target) && m'.joint == None && PeersAre(m', target)
                  && (m'.learner <==> m.self !in target))
            && (change.operation == 0 ==> m'.active == m.active && m'.completed == m.completed)
            && (change.operation != 0 && change.joint ==>
                  m'.active == Some(Operation(change.operation, change.kind, change.member)))
            && (change.operation != 0 && !change.joint ==>
                  && m'.active == None
                  && m'.completed == Some(Operation(change.operation, change.kind, change.member)))
  {
    hide PeersOf, ValidConfiguration, ExitToAppend;
    PeersOfMatch(Next(m, EntryApplied(change, leads, end)));
    HasSelf(change.target.members, m.self);
  }

  /** What a leader appends when a joint entry takes effect reads back as the change that leads to its target. */
  lemma ExitAppended(m: Members, self: NodeId, kind: ChangeType, member: Member, caughtUp: bool, change: Change)
    requires PeersMatch(m) && ConfigurationWords(m.stable.value) && MemberWords(member) && change.operation <= MAX_WORD
    requires Target(m.stable.value, self, kind, member, caughtUp) == Some(change.target) && change.joint
    requires change.kind == kind && change.member == member && (m.active.Some? ==> OperationWords(m.active.value))
    requires ExitToAppend(m, change).Some?
    ensures DecodeChange(ExitToAppend(m, change).value).Some?
    ensures var exit := DecodeChange(ExitToAppend(m, change).value).value;
            && !exit.joint && exit.target == change.target && exit.kind == kind
            && exit.member == (if kind == AddNode then member else Bare(member.id))
            && exit.operation == if change.operation != 0 then change.operation
                                 else if m.active.Some? then m.active.value.id else 0
  {
    hide Target, ExitEntry, EncodeChange, DecodeChange, Distinct, Elements;
    var active := Membership.Applied(m, change).active;
    ExitRebuilds(m.stable.value, self, kind, member, caughtUp, active);
    ExitSurvivesLog(m.stable.value, self, kind, member, caughtUp, active);
  }

  // ---------------------------------------------------------------- followers

  /** The node waits for the entry at this index, which is not committed and was this change. */
  ghost predicate Awaits(m: Members, log: seq<LogEntry>, commit: LogIndex, e: LogEntry, change: Change) {
    && m.pending == Some(e.index) && e.index > commit && e in log && e.kind == ConfChange
    && DecodeChange(e.command) == Some(change)
  }

  /** The log has an entry with this index and payload. */
  ghost predicate StillThere(log: seq<LogEntry>, e: LogEntry) {
    exists j :: 0 <= j < |log| && log[j].index == e.index && log[j].command == e.command
  }

  lemma EntryFound(log: seq<LogEntry>, e: LogEntry)
    requires Contiguous(log)
    ensures e in log ==> EntryAt(log, e.index) == Some(e)
    ensures StillThere(log, e) <==> EntryAt(log, e.index).Some? && EntryAt(log, e.index).value.command == e.command
  {
    if e in log {
      var j :| 0 <= j < |log| && log[j] == e;
      assert OffsetOf(log, e.index) == Some(j);
    }
    if j :| 0 <= j < |log| && log[j].index == e.index && log[j].command == e.command {
      assert OffsetOf(log, e.index) == Some(j);
    }
    if OffsetOf(log, e.index).Some? {
      var j := OffsetOf(log, e.index).value;
      assert log[j].index == e.index;
    }
  }

  /** When the joint entry a follower waits for is overwritten, the joint phase is over: no joint configuration, no
      operation under way, nothing awaited, and the peers are the other members of the stable configuration. While
      it is there, nothing changes. */
  lemma OverwrittenEndsJoint(m: Members, before: seq<LogEntry>, after: seq<LogEntry>, commit: LogIndex, e: LogEntry,
                             change: Change)
    requires PeersMatch(m) && Contiguous(before) && Contiguous(after) && Awaits(m, before, commit, e, change)
    ensures var m' := AfterBatch(m, before, after, commit);
            && (StillThere(after, e) ==> m' == m)
            && (!StillThere(after, e) && change.joint ==>
                  && m'.joint == None && m'.active == None && m'.pending == None && m'.stable == m.stable
                  && PeersAre(m', Ids(m.stable.value.members))
                  && m' == m.(joint := None, active := None, pending := None, peers := m'.peers))
            && (!StillThere(after, e) && !change.joint ==> m' == m.(pending := None))
  {
    hide EntryAt, DecodeChange, PeersOf, StillThere;
    EntryFound(before, e);
    EntryFound(after, e);
    if !StillThere(after, e) && change.joint {
      PeersOfMatch(AfterBatch(m, before, after, commit));
    }
  }

  /** A follower that waits for no uncommitted change that can be read is not affected. */
  lemma NothingToRollBack(m: Members, before: seq<LogEntry>, after: seq<LogEntry>, commit: LogIndex)
    requires m.stable.Some? && Contiguous(before) && Contiguous(after)
    requires forall e, change :: !Awaits(m, before, commit, e, change)
    ensures AfterBatch(m, before, after, commit) == m
  {
    hide DecodeChange;
    if m.pending.Some? && OffsetOf(before, m.pending.value).Some? {
      var e := before[OffsetOf(before, m.pending.value).value];
      assert e in before && e.index == m.pending.value;
      if DecodeChange(e.command).Some? {
        assert !Awaits(m, before, commit, e, DecodeChange(e.command).value);
      }
    }
  }

  /** Entry j of the batch is a joint entry above the commit index that can be read. */
  ghost predicate JointAt(batch: seq<LogEntry>, j: nat, commit: LogIndex) {
    && j < |batch| && batch[j].kind == ConfChange && batch[j].index > commit
    && DecodeChange(batch[j].command).Some? && DecodeChange(batch[j].command).value.joint
  }

  lemma {:induction false} NoJointEntry(m: Members, batch: seq<LogEntry>, commit: LogIndex)
    requires m.stable.Some? && forall j: nat :: !JointAt(batch, j, commit)
    ensures JointEntries(m, batch, commit) == m
  {
    hide DecodeChange;
    if batch != [] {
      var front := batch[..|batch| - 1];
      forall j: nat ensures !JointAt(front, j, commit) {
        assert j < |front| ==> front[j] == batch[j];
        assert !JointAt(batch, j, commit);
      }
      NoJointEntry(m, front, commit);
      assert !JointAt(batch, |batch| - 1, commit);
    }
  }

  /** After a batch the node is in the joint phase towards the target of the batch's last readable joint entry, and
      waits for that entry; without one, nothing changes. */
  lemma {:induction false} LastJointEntryCounts(m: Members, batch: seq<LogEntry>, commit: LogIndex, j: nat)
    requires PeersMatch(m) && JointAt(batch, j, commit) && forall i: nat :: i > j ==> !JointAt(batch, i, commit)
    ensures var m', target := JointEntries(m, batch, commit), DecodeChange(batch[j].command).value.target;
            && m'.stable == m.stable && m'.joint == Some(target) && m'.pending == Some(batch[j].index)
            && PeersAre(m', Ids(m.stable.value.members) + Ids(target.members))
  {
    hide DecodeChange, PeersOf, ValidConfiguration;
    var front, last := batch[..|batch| - 1], batch[|batch| - 1];
    if j == |batch| - 1 {
      DecodedChangeValid(last.command);
      var before := JointEntries(m, front, commit);
      JointEntriesKeep(m, front, commit);
      EntryTakesEffect(before, DecodeChange(last.command).value, false, 0);
    } else {
      forall i: nat ensures JointAt(front, i, commit) <==> i < |front| && JointAt(batch, i, commit) {
        assert i < |front| ==> front[i] == batch[i];
      }
      LastJointEntryCounts(m, front, commit, j);
      assert !JointAt(batch, |batch| - 1, commit);
    }
  }

  lemma {:induction false} JointEntriesKeep(m: Members, batch: seq<LogEntry>, commit: LogIndex)
    requires PeersMatch(m)
    ensures PeersMatch(JointEntries(m, batch, commit)) && JointEntries(m, batch, commit).self == m.self
  {
    hide DecodeChange, PeersOf, ValidConfiguration;
    if batch != [] {
      JointEntriesKeep(m, batch[..|batch| - 1], commit);
      var before, e := JointEntries(m, batch[..|batch| - 1], commit), batch[|batch| - 1];
      if DecodeChange(e.command).Some? {
        DecodedChangeValid(e.command);
        PeersOfMatch(Membership.Applied(before, DecodeChange(e.command).value));
      }
    }
  }

  // ---------------------------------------------------------------- restarts

  /** A restart takes over what the image holds, and waits for the first uncommitted entry that leads to the joint
      configuration. */
  lemma RestartTakesOver(m: Members, image: Persistent)
    requires m.stable.Some? && Legal(m, Restarted(image)) && Contiguous(image.entries)
    ensures var m' := Next(m, Restarted(image));
            && m'.stable == image.cluster && m'.joint == image.joint && m'.completed == image.completed
            && PeersAre(m', IdsOf(image.cluster) + IdsOf(image.joint))
            && (m'.learner <==> m.self !in IdsOf(image.cluster))
            && (image.active.Some? ==> m'.active == image.active)
            && (m'.pending.Some? ==> LeadsTo(image, m'.pending.value))
            && (m'.pending.Some? ==> forall i: LogIndex :: i < m'.pending.value ==> !LeadsTo(image, i))
            && (m'.pending.None? ==> forall i: LogIndex :: !LeadsTo(image, i))
  {
    hide PeersOf, ValidConfiguration, PendingChange, LeadsTo, ValidOperation;
    PeersOfMatch(Next(m, Restarted(image)));
    HasSelf(image.cluster.value.members, m.self);
    NoneLeads(image);
    if image.joint.Some? {
      FirstPending(image, image.commit + 1);
    }
  }

  /** The entry at this index is uncommitted and leads to the image's joint configuration. */
  ghost predicate LeadsTo(image: Persistent, index: LogIndex) {
    && image.joint.Some? && index > image.commit
    && exists e :: Leads(image, e) && e.index == index
  }

  ghost predicate Leads(image: Persistent, e: LogEntry) {
    && image.joint.Some? && e in image.entries && e.kind == ConfChange
    && DecodeChange(e.command).Some? && DecodeChange(e.command).value.target == image.joint.value
  }

  lemma NoneLeads(image: Persistent)
    ensures forall i: LogIndex :: image.joint.None? || i <= image.commit ==> !LeadsTo(image, i)
  {
  }

  lemma LeadsIs(image: Persistent, index: LogIndex)
    requires image.joint.Some? && Contiguous(image.entries) && index > image.commit
    ensures LeadsTo(image, index) <==>
              ChangeAt(image.entries, index).Some? && ChangeAt(image.entries, index).value.target == image.joint.value
  {
    hide DecodeChange;
    if e :| Leads(image, e) && e.index == index {
      EntryFound(image.entries, e);
    }
    if EntryAt(image.entries, index).Some? {
      var e := EntryAt(image.entries, index).value;
      assert e in image.entries && e.index == index;
      var change := ChangeAt(image.entries, index);
      assert change.Some? && change.value.target == image.joint.value ==>
             Leads(image, e);
    }
  }

  lemma {:induction false} FirstPending(image: Persistent, from: LogIndex)
    requires image.joint.Some? && Contiguous(image.entries) && from > image.commit
    requires forall i: LogIndex :: i < from ==> !LeadsTo(image, i)
    ensures var found := PendingChange(image.entries, from, image.joint.value);
            && (found.Some? ==> LeadsTo(image, found.value.0))
            && (found.Some? ==> forall i: LogIndex :: i < found.value.0 ==> !LeadsTo(image, i))
            && (found.None? ==> forall i: LogIndex :: !LeadsTo(image, i))
    decreases LastIndex(image.entries) + 1 - from
  {
    hide LeadsTo, ChangeAt;
    LeadsIs(image, from);
    if from > LastIndex(image.entries) {
      forall i: LogIndex ensures !LeadsTo(image, i) {
        if i >= from {
          LeadsIs(image, i);
          NoChangeBeyond(image.entries, i);
        }
      }
    } else if !LeadsTo(image, from) {
      FirstPending(image, from + 1);
    }
  }

  lemma NoChangeBeyond(log: seq<LogEntry>, index: LogIndex)
    requires Contiguous(log) && index > LastIndex(log)
    ensures ChangeAt(log, index) == None
  {
  }
}
