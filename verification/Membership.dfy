/** Joint consensus inside one node of `src/raft/raft_node.cpp`: configurations, the peers derived
    from them, the quorums counted over them, and the entry that leaves the joint phase. */
module Membership {
  import opened RaftTypes
  import opened LogSpec
  import opened Quorum
  import opened Bytes
  import opened ClusterConfig
  import opened JournalCodec
  import Journal
  import JournalFile

  function Ids(members: seq<Member>): set<NodeId> {
    set m | m in members :: m.id
  }

  function IdsOf(c: Option<Configuration>): set<NodeId> {
    match c case None => {} case Some(configuration) => Ids(configuration.members)
  }

  // ---------------------------------------------------------------- peers

  /** The fields of a node that configurations touch. */
  datatype Members = Members(
    self: NodeId, peers: seq<NodeId>, learner: bool, learners: set<NodeId>,
    stable: Option<Configuration>, joint: Option<Configuration>,
    active: Option<Operation>, completed: Option<Operation>, pending: Option<LogIndex>)

  /** Both configurations are valid, and the peers are exactly their other members, each once. */
  ghost predicate PeersMatch(m: Members) {
    && m.stable.Some? && ValidConfiguration(m.stable.value, 0)
    && (m.joint.Some? ==> ValidConfiguration(m.joint.value, 0))
    && Distinct(m.peers) && Elements(m.peers) == IdsOf(m.stable) + IdsOf(m.joint) - {m.self}
  }

  function Others(members: seq<Member>, self: NodeId): seq<NodeId> {
    if members == [] then []
    else Others(members[..|members| - 1], self) +
         (if members[|members| - 1].id != self then [members[|members| - 1].id] else [])
  }

  /** The list, followed by the ids it does not have yet. */
  function WithNew(ids: seq<NodeId>, members: seq<Member>, self: NodeId): seq<NodeId> {
    if members == [] then ids
    else
      var front, id := WithNew(ids, members[..|members| - 1], self), members[|members| - 1].id;
      if id in front || id == self then front else front + [id]
  }

  function PeersOf(stable: Configuration, joint: Option<Configuration>, self: NodeId): seq<NodeId> {
    var peers := Others(stable.members, self);
    match joint case None => peers case Some(c) => WithNew(peers, c.members, self)
  }

  lemma IdsSplit(members: seq<Member>)
    requires members != []
    ensures var front, last := members[..|members| - 1], members[|members| - 1];
            && Ids(members) == Ids(front) + {last.id}
            && (Increasing(members) ==> Increasing(front) && last.id !in Ids(front))
  {
    var front, last := members[..|members| - 1], members[|members| - 1];
    assert members == front + [last];
  }

  lemma {:induction false} OthersAre(members: seq<Member>, self: NodeId)
    requires Increasing(members)
    ensures Distinct(Others(members, self)) && Elements(Others(members, self)) == Ids(members) - {self}
  {
    if members != [] {
      var front, last := members[..|members| - 1], members[|members| - 1];
      IdsSplit(members);
      OthersAre(front, self);
      var others := Others(front, self);
      assert Elements(others + [last.id]) == Elements(others) + {last.id};
      assert last.id !in Elements(others);
    }
  }

  lemma {:induction false} WithNewAre(ids: seq<NodeId>, members: seq<Member>, self: NodeId)
    requires Distinct(ids) && self !in ids
    ensures var r := WithNew(ids, members, self);
            Distinct(r) && Elements(r) == Elements(ids) + (Ids(members) - {self})
  {
    if members != [] {
      var front, last := members[..|members| - 1], members[|members| - 1];
      IdsSplit(members);
      WithNewAre(ids, front, self);
      var r := WithNew(ids, front, self);
      assert Elements(r + [last.id]) == Elements(r) + {last.id};
      assert last.id in r <==> last.id in Elements(r);
    }
  }

  /** Derived from valid configurations, the peers match. */
  lemma PeersOfMatch(m: Members)
    requires m.stable.Some? && ValidConfiguration(m.stable.value, 0)
    requires m.peers == PeersOf(m.stable.value, m.joint, m.self)
    requires m.joint.Some? ==> ValidConfiguration(m.joint.value, 0)
    ensures PeersMatch(m)
  {
    OthersAre(m.stable.value.members, m.self);
    var others := Others(m.stable.value.members, m.self);
    if m.joint.Some? {
      assert m.self !in Elements(others);
      WithNewAre(others, m.joint.value.members, m.self);
    }
  }

  predicate Contained(id: NodeId, c: Configuration) {
    exists i :: 0 <= i < |c.members| && c.members[i].id == id
  }

  // ---------------------------------------------------------------- what happens to them

  datatype Event =
    | Restarted(image: Persistent)                                    // the constructor over a loaded image
    | Proposed(leader: bool, kind: ChangeType, member: Member, operation: nat, caughtUp: bool, last: LogIndex)
    | EntryApplied(change: Change, leads: bool, end: LogIndex)        // a committed entry takes effect
    | BatchStored(before: seq<LogEntry>, after: seq<LogEntry>, commit: LogIndex)  // a follower's log was overwritten
    | JointAppended(appended: Change, index: LogIndex)                // a follower stores a joint entry
    | OfficeTaken(exitIndex: LogIndex)                                // the exit entry is found or appended

  function OperationOf(change: Change): Operation {
    Operation(change.operation, change.kind, change.member)
  }

  /** The first uncommitted entry that leads to the joint configuration. */
  function PendingChange(log: seq<LogEntry>, index: LogIndex, joint: Configuration): Option<(LogIndex, Change)>
    requires |log| > 0
    decreases LastIndex(log) + 1 - index
  {
    if index > LastIndex(log) then None
    else
      match ChangeAt(log, index)
      case Some(change) =>
        if change.target == joint then Some((index, change)) else PendingChange(log, index + 1, joint)
      case None => PendingChange(log, index + 1, joint)
  }

  /** The configuration change at an index, if there is one that can be read. */
  function ChangeAt(log: seq<LogEntry>, index: LogIndex): Option<Change>
    requires |log| > 0
  {
    match EntryAt(log, index)
    case None => None
    case Some(entry) => if entry.kind == ConfChange then DecodeChange(entry.command) else None
  }

  /** What the constructor refuses. */
  predicate Refuses(image: Persistent) {
    || image.cluster.None? || !ValidConfiguration(image.cluster.value, 0)
    || (image.active.Some? && (!ValidOperation(image.active.value) || image.joint.None?))
    || (image.completed.Some? && !ValidOperation(image.completed.value))
  }

  function Loaded(m: Members, image: Persistent): Members
    requires image.cluster.Some? && |image.entries| > 0
  {
    var found := if image.joint.None? then None else PendingChange(image.entries, image.commit + 1, image.joint.value);
    m.(stable := image.cluster, joint := image.joint, learner := !Contained(m.self, image.cluster.value),
       peers := PeersOf(image.cluster.value, image.joint, m.self), completed := image.completed,
       active := if found.Some? && found.value.1.operation != 0 && image.active.None?
                 then Some(OperationOf(found.value.1)) else image.active,
       pending := if found.Some? then Some(found.value.0) else None)
  }

  /** The fields after the joint branch or the exit branch of `applyConfigurationEntry`, before a
      leader appends anything. */
  function Applied(m: Members, change: Change): Members
    requires m.stable.Some?
  {
    if change.joint then
      m.(joint := Some(change.target),
         active := if change.operation != 0 then Some(OperationOf(change)) else m.active,
         peers := PeersOf(m.stable.value, Some(change.target), m.self),
         learner := m.learner && !Contained(m.self, change.target), pending := None)
    else
      m.(stable := Some(change.target), joint := None,
         peers := PeersOf(change.target, None, m.self),
         learner := !Contained(m.self, change.target),
         completed := if change.operation != 0 then Some(OperationOf(change)) else m.completed,
         active := if change.operation != 0 then None else m.active, pending := None)
  }

  /** What a leader appends when a joint entry takes effect; None is the exception it throws. */
  function ExitToAppend(m: Members, change: Change): Option<seq<Byte>>
    requires m.stable.Some?
  {
    match ExitEntry(m.stable.value, change.target, Applied(m, change).active)
    case None => None
    case Some(exit) => EncodeChange(exit)
  }

  /** The uncommitted change the node waits for, if it can still be read from the log. */
  function AwaitedChange(m: Members, log: seq<LogEntry>, commit: LogIndex): Option<Change>
    requires |log| > 0
  {
    if m.pending.Some? && m.pending.value > commit then ChangeAt(log, m.pending.value) else None
  }

  /** The awaited entry is no longer in the log. */
  predicate Overwritten(m: Members, before: seq<LogEntry>, after: seq<LogEntry>, commit: LogIndex)
    requires |before| > 0 && |after| > 0
  {
    && AwaitedChange(m, before, commit).Some?
    && (EntryAt(after, m.pending.value).None? ||
        EntryAt(after, m.pending.value).value.command != EntryAt(before, m.pending.value).value.command)
  }

  function AfterBatch(m: Members, before: seq<LogEntry>, after: seq<LogEntry>, commit: LogIndex): Members
    requires m.stable.Some? && |before| > 0 && |after| > 0
  {
    if !Overwritten(m, before, after, commit) then m
    else if AwaitedChange(m, before, commit).value.joint then
      m.(joint := None, active := None, peers := PeersOf(m.stable.value, None, m.self), pending := None)
    else m.(pending := None)
  }

  /** What the source guarantees when an event happens: configurations come out of validating
      decoders, and a leader that cannot write the exit entry has died. */
  ghost predicate Legal(m: Members, event: Event) {
    && m.stable.Some?
    && match event
       case Restarted(image) =>
         !Refuses(image) && |image.entries| > 0 && (image.joint.Some? ==> ValidConfiguration(image.joint.value, 0))
       case Proposed(_, _, _, _, _, _) => true
       case EntryApplied(change, leads, _) =>
         ValidConfiguration(change.target, 0) && (leads && change.joint ==> ExitToAppend(m, change).Some?)
       case BatchStored(before, after, _) => |before| > 0 && |after| > 0
       case JointAppended(change, _) => change.joint && ValidConfiguration(change.target, 0)
       case OfficeTaken(_) => true
  }

  ghost function Next(m: Members, event: Event): Members
    requires Legal(m, event)
  {
    match event
    case Restarted(image) => Loaded(m, image)
    case Proposed(leader, kind, member, operation, caughtUp, last) =>
      Proposal(m, leader, kind, member, operation, caughtUp, last).0
    case EntryApplied(change, leads, end) =>
      if leads && change.joint then Applied(m, change).(pending := Some(end + 1)) else Applied(m, change)
    case BatchStored(before, after, commit) => AfterBatch(m, before, after, commit)
    case JointAppended(change, index) => Applied(m, change).(pending := Some(index))
    case OfficeTaken(index) => if m.joint.Some? then m.(pending := Some(index)) else m
  }

  ghost predicate History(ms: seq<Members>, events: seq<Event>) {
    && |ms| == |events| + 1 && PeersMatch(ms[0])
    && forall k :: 0 <= k < |events| ==> Legal(ms[k], events[k]) && ms[k + 1] == Next(ms[k], events[k])
  }

  lemma NextMatches(m: Members, event: Event)
    requires PeersMatch(m) && Legal(m, event)
    ensures PeersMatch(Next(m, event)) && Next(m, event).self == m.self
  {
    hide PeersOf, ExitEntry, EncodeChange, PendingChange, Target, Overwritten;
    var m' := Next(m, event);
    if event.Proposed? {
      TargetValid(m.stable.value, m.self, event.kind, event.member, event.caughtUp);
    }
    if m'.peers != m.peers || m'.stable != m.stable || m'.joint != m.joint {
      PeersOfMatch(m');
    }
  }

  /** Across every sequence of restarts, proposals, commits, appends and rollbacks both
      configurations stay valid and the peers stay the duplicate-free union of their members,
      without the node itself. */
  lemma {:induction false} PeersAlwaysMatch(ms: seq<Members>, events: seq<Event>, k: nat)
    requires History(ms, events) && k < |ms|
    ensures PeersMatch(ms[k]) && ms[k].self == ms[0].self
  {
    hide PeersMatch, Next, Legal;
    if k > 0 {
      PeersAlwaysMatch(ms, events, k - 1);
      assert ms[k - 1 + 1] == Next(ms[k - 1], events[k - 1]);
      NextMatches(ms[k - 1], events[k - 1]);
    }
  }

  // ---------------------------------------------------------------- what the journal hands to a restart

  ghost predicate ValidParts(image: Persistent) {
    && Restorable(image.entries) && image.commit <= LastIndex(image.entries)
    && (image.cluster.Some? ==> ValidConfiguration(image.cluster.value, 0))
    && (image.joint.Some? ==> ValidConfiguration(image.joint.value, 0))
    && (image.active.Some? ==> ValidOperation(image.active.value))
    && (image.completed.Some? ==> ValidOperation(image.completed.value))
  }

  lemma DecodedParts(latest: Option<Persistent>, r: Journal.Record)
    requires latest.Some? ==> ValidParts(latest.value)
    ensures Journal.Apply(latest, r).Some? ==> ValidParts(Journal.Apply(latest, r).value)
  {
    hide DecodeMeta, DecodeEntries, DecodeOperations, DecodeBody, DecodePatch;
    if r.full && Journal.Apply(latest, r).Some? {
      DecodedExtensions(DecodeBody(r.payload).value.rest);
    }
  }

  lemma DecodedConfiguration(input: seq<Byte>)
    ensures var c := DecodeOptionalConfiguration(input);
            c.Some? && c.value.value.Some? ==> ValidConfiguration(c.value.value.value, 0)
  {
    hide ValidConfiguration, DecodeMembers;
  }

  lemma DecodedOperations(input: seq<Byte>)
    ensures var o := DecodeOperations(input);
            && (o.Some? && o.value.0.Some? ==> ValidOperation(o.value.0.value))
            && (o.Some? && o.value.1.Some? ==> ValidOperation(o.value.1.value))
  {
    hide DecodeOptionalOperation, ValidOperation;
    DecodedOperation(input);
    if DecodeOptionalOperation(input).Some? {
      DecodedOperation(DecodeOptionalOperation(input).value.rest);
    }
  }

  lemma DecodedOperation(input: seq<Byte>)
    ensures var o := DecodeOptionalOperation(input);
            o.Some? && o.value.value.Some? ==> ValidOperation(o.value.value.value)
  {
    hide ValidOperation, DecodeSubject;
  }

  lemma DecodedExtensions(input: seq<Byte>)
    requires DecodeExtensions(input).Some?
    ensures var x := DecodeExtensions(input).value;
            && (x.cluster.Some? ==> ValidConfiguration(x.cluster.value, 0))
            && (x.joint.Some? ==> ValidConfiguration(x.joint.value, 0))
            && (x.active.Some? ==> ValidOperation(x.active.value))
            && (x.completed.Some? ==> ValidOperation(x.completed.value))
  {
    hide DecodeOptionalConfiguration, DecodeOperations, ValidConfiguration, ValidOperation, Read32;
    if input != [] && Read32(input).Some? {
      var body := Read32(input).value.rest;
      DecodedConfiguration(body);
      if DecodeOptionalConfiguration(body).Some? {
        var joint := DecodeOptionalConfiguration(body).value.rest;
        DecodedConfiguration(joint);
        if DecodeOptionalConfiguration(joint).Some? {
          DecodedOperations(DecodeOptionalConfiguration(joint).value.rest);
        }
      }
    }
  }

  /** Whatever bytes the journal holds, what it loads is valid: a log that can be restored, a commit index within
      it, valid configurations and operations. */
  lemma {:induction false} LoadedParts(crc: Journal.Checksum, input: seq<Byte>, latest: Option<Persistent>, done: nat,
                                       deltas: nat)
    requires latest.Some? ==> ValidParts(latest.value)
    ensures var r := Journal.Replay(crc, input, latest, done, deltas);
            r.Loaded? && r.latest.Some? ==> ValidParts(r.latest.value)
    decreases |input|
  {
    hide ValidParts, Journal.Apply, Journal.MagicOf;
    if |input| >= Journal.RECORD_HEADER {
      var full, size := Journal.MagicOf(input, true), Value(input[4..8]);
      if 0 < size && Journal.RECORD_HEADER + size <= |input| {
        var r := Journal.Record(full, input[Journal.RECORD_HEADER..Journal.RECORD_HEADER + size]);
        DecodedParts(latest, r);
        if Journal.Apply(latest, r).Some? {
          LoadedParts(crc, input[Journal.RECORD_HEADER + size..], Journal.Apply(latest, r),
                      done + Journal.RECORD_HEADER + size,
                      if full then 0 else deltas + 1);
        }
      }
    }
  }

  /** So every restart the constructor does not refuse is legal, and it refuses an image with a configuration
      exactly if an operation is under way without a joint configuration. */
  lemma RestartsAreLegal(m: Members, crc: Journal.Checksum, input: seq<Byte>)
    requires m.stable.Some?
    ensures var r := Journal.Replay(crc, input, None, 16, 0);
            && (r.Loaded? && r.latest.Some? && !Refuses(r.latest.value) ==> Legal(m, Restarted(r.latest.value)))
            && (r.Loaded? && r.latest.Some? && r.latest.value.cluster.Some? ==>
                  (Refuses(r.latest.value) <==> r.latest.value.active.Some? && r.latest.value.joint.None?))
  {
    LoadedParts(crc, input, None, 16, 0);
  }

  /** And so is every joint entry read from a log. */
  lemma DecodedChangeValid(bytes: seq<Byte>)
    requires DecodeChange(bytes).Some?
    ensures ValidConfiguration(DecodeChange(bytes).value.target, 0)
  {
    hide DecodeSubject, ValidConfiguration;
  }

  // ---------------------------------------------------------------- quorums

  function CountIn(members: seq<Member>, granted: set<NodeId>): nat {
    if members == [] then 0
    else CountIn(members[..|members| - 1], granted) + (if members[|members| - 1].id in granted then 1 else 0)
  }

  predicate Majority(c: Configuration, granted: set<NodeId>) {
    CountIn(c.members, granted) >= |c.members| / 2 + 1
  }

  /** The test of elections and of replication: both majorities in the joint phase. */
  predicate HasQuorum(m: Members, granted: set<NodeId>) {
    if m.stable.None? || m.joint.None? then |granted| >= (|m.peers| + 1) / 2 + 1
    else Majority(m.stable.value, granted) && Majority(m.joint.value, granted)
  }

  lemma SplitIntersection(front: set<NodeId>, last: NodeId, granted: set<NodeId>)
    requires last !in front
    ensures |(front + {last}) * granted| == |front * granted| + (if last in granted then 1 else 0)
    ensures |front + {last}| == |front| + 1
  {
    assert (front + {last}) * granted == (front * granted) + (if last in granted then {last} else {});
  }

  lemma {:induction false} CountIsMembers(members: seq<Member>, granted: set<NodeId>)
    requires Increasing(members)
    ensures CountIn(members, granted) == |Ids(members) * granted| && |Ids(members)| == |members|
  {
    if members == [] {
      assert Ids(members) == {} && Ids(members) * granted == {};
    } else {
      var front, last := members[..|members| - 1], members[|members| - 1];
      IdsSplit(members);
      CountIsMembers(front, granted);
      SplitIntersection(Ids(front), last.id, granted);
    }
  }

  lemma MajorityIsQuorum(c: Configuration, granted: set<NodeId>)
    requires ValidConfiguration(c, 0)
    ensures Majority(c, granted) <==> IsQuorum(Ids(c.members), Ids(c.members) * granted)
  {
    CountIsMembers(c.members, granted);
  }

  lemma MajoritiesMeet(c: Configuration, a: set<NodeId>, b: set<NodeId>) returns (x: NodeId)
    requires ValidConfiguration(c, 0) && Majority(c, a) && Majority(c, b)
    ensures x in a && x in b && x in Ids(c.members)
  {
    MajorityIsQuorum(c, a);
    MajorityIsQuorum(c, b);
    x := QuorumsMeet(Ids(c.members), Ids(c.members) * a, Ids(c.members) * b);
  }

  /** Outside the joint phase a member that counts votes of members counts a majority. */
  lemma StableQuorumIsMajority(m: Members, granted: set<NodeId>)
    requires PeersMatch(m) && m.joint.None? && m.self in IdsOf(m.stable) && granted <= Elements(m.peers) + {m.self}
    ensures HasQuorum(m, granted) <==> Majority(m.stable.value, granted)
  {
    var ids := IdsOf(m.stable);
    CountIsMembers(m.stable.value.members, granted);
    DistinctSize(m.peers);
    assert Elements(m.peers) + {m.self} == ids;
    assert ids * granted == granted;
  }

  /** A quorum of the joint phase shares a member with every majority of the old configuration,
      every majority of the new one, and so with every other quorum of the joint phase. */
  lemma JointQuorumsMeet(m: Members, a: set<NodeId>, b: set<NodeId>) returns (x: NodeId)
    requires PeersMatch(m) && m.joint.Some? && HasQuorum(m, a)
    requires Majority(m.stable.value, b) || Majority(m.joint.value, b)
    ensures x in a && x in b && (x == m.self || x in m.peers)
  {
    if Majority(m.stable.value, b) {
      x := MajoritiesMeet(m.stable.value, a, b);
    } else {
      x := MajoritiesMeet(m.joint.value, a, b);
    }
    assert x in IdsOf(m.stable) + IdsOf(m.joint);
    assert x != m.self ==> x in Elements(m.peers);
  }

  /** A quorum as a node counts it: a member, outside the joint phase, counts members only. */
  ghost predicate CountedQuorum(m: Members, q: set<NodeId>) {
    HasQuorum(m, q) && (m.joint.None? ==> m.self in IdsOf(m.stable) && q <= Elements(m.peers) + {m.self})
  }

  lemma CountedIsMajority(m: Members, q: set<NodeId>)
    requires PeersMatch(m) && CountedQuorum(m, q)
    ensures Majority(m.stable.value, q) && (m.joint.Some? ==> Majority(m.joint.value, q))
  {
    if m.joint.None? {
      StableQuorumIsMajority(m, q);
    }
  }

  /** At every point of every history any two quorums meet, and in the joint phase a quorum meets
      every majority of either configuration, at a peer or at the node itself. */
  lemma QuorumsAlwaysMeet(ms: seq<Members>, events: seq<Event>, k: nat, a: set<NodeId>, b: set<NodeId>)
    returns (x: NodeId)
    requires History(ms, events) && k < |ms| && CountedQuorum(ms[k], a) && ms[k].stable.Some?
    requires || CountedQuorum(ms[k], b)
             || (ms[k].joint.Some? && (Majority(ms[k].stable.value, b) || Majority(ms[k].joint.value, b)))
    ensures x in a && x in b && (x == ms[k].self || x in ms[k].peers)
  {
    hide History, CountedQuorum;
    PeersAlwaysMatch(ms, events, k);
    var m := ms[k];
    CountedIsMajority(m, a);
    if CountedQuorum(m, b) {
      CountedIsMajority(m, b);
    }
    if m.joint.Some? {
      x := JointQuorumsMeet(m, a, b);
    } else {
      x := MajoritiesMeet(m.stable.value, a, b);
      assert x != m.self ==> x in Elements(m.peers);
    }
  }

  /** A step that keeps to the two phases: a restart from what the node had, a joint entry outside
      the joint phase or for the change under way, an exit to the joint configuration. */
  ghost predicate Orderly(m: Members, event: Event) {
    match event
    case Restarted(image) => image.cluster == m.stable && image.joint == m.joint
    case EntryApplied(change, _, _) =>
      if change.joint then m.joint.None? || m.joint == Some(change.target)
      else m.joint == Some(change.target) || (m.joint.None? && m.stable == Some(change.target))
    case JointAppended(change, _) => m.joint.None? || m.joint == Some(change.target)
    case _ => true
  }

  /** Either the old stable configuration still counts after the step, or the joint one that counted
      before it has become the stable one. */
  lemma OrderlyKeepsOne(m: Members, event: Event)
    requires PeersMatch(m) && Legal(m, event) && Orderly(m, event)
    ensures var m' := Next(m, event); m'.stable == m.stable || (m.joint.Some? && m'.stable == m.joint)
  {
    hide PeersOf, PendingChange, ExitEntry, EncodeChange, Target, Overwritten;
  }

  /** Between any two moments of a history, quorums meet as long as the stable configuration is
      the same at both, or the later one is the joint configuration of the earlier. */
  lemma QuorumsMeetBetween(ms: seq<Members>, events: seq<Event>, k: nat, l: nat, a: set<NodeId>, b: set<NodeId>)
    returns (x: NodeId)
    requires History(ms, events) && k <= l < |ms| && CountedQuorum(ms[k], a) && CountedQuorum(ms[l], b)
    requires ms[l].stable == ms[k].stable || ms[l].stable == ms[k].joint
    ensures x in a && x in b
  {
    hide History, CountedQuorum;
    PeersAlwaysMatch(ms, events, k);
    PeersAlwaysMatch(ms, events, l);
    CountedIsMajority(ms[k], a);
    CountedIsMajority(ms[l], b);
    x := MajoritiesMeet(ms[l].stable.value, a, b);
  }

  /** What joint consensus is for: across every such step, entering the joint phase, leaving it and
      rolling it back included, a quorum counted before meets every quorum counted after. */
  lemma QuorumsMeetAcross(ms: seq<Members>, events: seq<Event>, k: nat, a: set<NodeId>, b: set<NodeId>)
    returns (x: NodeId)
    requires History(ms, events) && k < |events| && Orderly(ms[k], events[k])
    requires CountedQuorum(ms[k], a) && CountedQuorum(ms[k + 1], b)
    ensures x in a && x in b
  {
    hide Next, Legal, Orderly, CountedQuorum, PeersMatch;
    PeersAlwaysMatch(ms, events, k);
    OrderlyKeepsOne(ms[k], events[k]);
    x := QuorumsMeetBetween(ms, events, k, k + 1, a, b);
  }

  // ---------------------------------------------------------------- proposals

  /** Where a new member goes among sorted ones: `push_back` and `sort` by id. */
  function Inserted(members: seq<Member>, m: Member): seq<Member> {
    if members == [] || members[|members| - 1].id < m.id then members + [m]
    else Inserted(members[..|members| - 1], m) + [members[|members| - 1]]
  }

  function Without(members: seq<Member>, id: NodeId): seq<Member> {
    if members == [] then []
    else
      var last := members[|members| - 1];
      Without(members[..|members| - 1], id) + (if last.id == id then [] else [last])
  }

  /** The configuration a change of one node leads to; None is a refusal. */
  function Target(stable: Configuration, self: NodeId, kind: ChangeType, member: Member,
                  caughtUp: bool): Option<Configuration> {
    if stable.id == MAX_WORD then None
    else
      var found := Contained(member.id, stable);
      if kind == AddNode && (member.id == 0 || found || !caughtUp) then None
      else if kind == RemoveNode && (!found || member.id == self || |stable.members| <= 1) then None
      else
        var members := if kind == AddNode then Inserted(stable.members, member) else Without(stable.members, member.id);
        var target := Configuration(stable.id + 1, members);
        if ValidConfiguration(target, self) then Some(target) else None
  }

  lemma TargetValid(stable: Configuration, self: NodeId, kind: ChangeType, member: Member, caughtUp: bool)
    ensures var target := Target(stable, self, kind, member, caughtUp);
            target.Some? ==> ValidConfiguration(target.value, 0)
  {
  }

  /** All checks of `proposeConfChange` before it touches a field. */
  predicate MayPropose(m: Members, leader: bool, kind: ChangeType, member: Member, operation: nat, caughtUp: bool) {
    && leader && m.stable.Some? && m.pending.None? && m.joint.None?
    && (operation != 0 ==> ValidOperation(Operation(operation, kind, member)) && m.active.None?)
    && Target(m.stable.value, m.self, kind, member, caughtUp).Some?
  }

  /** `proposeConfChange`: the new fields, and the entry appended after index `last`. The joint phase
      is entered before the entry is encoded. */
  function Proposal(m: Members, leader: bool, kind: ChangeType, member: Member, operation: nat, caughtUp: bool,
                    last: LogIndex)
    : (Members, Option<seq<Byte>>)
  {
    if !MayPropose(m, leader, kind, member, operation, caughtUp) then (m, None)
    else
      var target := Target(m.stable.value, m.self, kind, member, caughtUp).value;
      var active := if operation != 0 then Some(Operation(operation, kind, member)) else m.active;
      var entered := m.(joint := Some(target), active := active,
                        peers := PeersOf(m.stable.value, Some(target), m.self), learners := m.learners - {member.id});
      match EncodeChange(Change(kind, true, member, target, operation))
      case None => (entered, None)
      case Some(bytes) => (entered.(pending := Some(last + 1)), Some(bytes))
  }

  lemma {:induction false} InsertedHas(members: seq<Member>, m: Member)
    ensures multiset(Inserted(members, m)) == multiset(members) + multiset{m} && |Inserted(members, m)| == |members| + 1
  {
    if members != [] && members[|members| - 1].id >= m.id {
      var front, last := members[..|members| - 1], members[|members| - 1];
      InsertedHas(front, m);
      assert members == front + [last];
    }
  }

  lemma {:induction false} InsertedSorts(members: seq<Member>, m: Member)
    requires Increasing(members) && m.id !in Ids(members)
    ensures Increasing(Inserted(members, m))
  {
    if members != [] && members[|members| - 1].id >= m.id {
      var front, last := members[..|members| - 1], members[|members| - 1];
      IdsSplit(members);
      InsertedSorts(front, m);
      InsertedHas(front, m);
      var r := Inserted(front, m);
      forall i | 0 <= i < |r| ensures r[i].id < last.id {
        assert r[i] in multiset(r);
        assert r[i] in multiset(front) || r[i] == m;
        assert last.id != m.id;
      }
    }
  }

  lemma {:induction false} WithoutHas(members: seq<Member>, id: NodeId, x: Member)
    ensures x in Without(members, id) <==> x in members && x.id != id
  {
    if members != [] {
      var front, last := members[..|members| - 1], members[|members| - 1];
      WithoutHas(front, id, x);
      assert members == front + [last];
    }
  }

  lemma {:induction false} WithoutAbsent(members: seq<Member>, id: NodeId)
    requires forall i :: 0 <= i < |members| ==> members[i].id != id
    ensures Without(members, id) == members
  {
    if members != [] {
      var front, last := members[..|members| - 1], members[|members| - 1];
      WithoutAbsent(front, id);
      assert members == front + [last];
    }
  }

  lemma IncreasingSnoc(r: seq<Member>, last: Member)
    requires Increasing(r) && forall i :: 0 <= i < |r| ==> r[i].id < last.id
    ensures Increasing(r + [last])
  {
  }

  lemma {:induction false} WithoutSorts(members: seq<Member>, id: NodeId)
    requires Increasing(members)
    ensures Increasing(Without(members, id))
    ensures id in Ids(members) ==> |Without(members, id)| == |members| - 1
  {
    if members != [] {
      var front, last := members[..|members| - 1], members[|members| - 1];
      IdsSplit(members);
      if last.id == id {
        WithoutAbsent(front, id);
      } else {
        WithoutSorts(front, id);
        var r := Without(front, id);
        forall i | 0 <= i < |r| ensures r[i].id < last.id {
          WithoutHas(front, id, r[i]);
          assert r[i] in r;
        }
        IncreasingSnoc(r, last);
      }
    }
  }

  /** An accepted change keeps the members sorted and valid, keeps every other member, and adds or
      removes exactly the one named. */
  lemma TargetIsOneChange(stable: Configuration, self: NodeId, kind: ChangeType, member: Member, caughtUp: bool)
    requires ValidConfiguration(stable, 0) && ConfigurationWords(stable)
    requires Target(stable, self, kind, member, caughtUp).Some?
    ensures var target := Target(stable, self, kind, member, caughtUp).value;
            && ValidConfiguration(target, self) && target.id == stable.id + 1 <= MAX_WORD
            && match kind
               case AddNode =>
                 && |target.members| == |stable.members| + 1 && !Contained(member.id, stable)
                 && forall x :: x in target.members <==> x in stable.members || x == member
               case RemoveNode =>
                 && |target.members| == |stable.members| - 1 && Contained(member.id, stable) && member.id != self
                 && forall x :: x in target.members <==> x in stable.members && x.id != member.id
  {
    if kind == AddNode {
      assert member.id !in Ids(stable.members);
      InsertedSorts(stable.members, member);
      InsertedHas(stable.members, member);
      var r := Inserted(stable.members, member);
      assert forall x :: x in r <==> x in multiset(r);
    } else {
      assert member.id in Ids(stable.members);
      WithoutSorts(stable.members, member.id);
      forall x ensures x in Without(stable.members, member.id) <==> x in stable.members && x.id != member.id {
        WithoutHas(stable.members, member.id, x);
      }
    }
  }

  // ---------------------------------------------------------------- leaving the joint phase

  function FirstMissing(members: seq<Member>, from: Configuration): Option<Member> {
    if members == [] then None
    else if !Contained(members[0].id, from) then Some(members[0])
    else FirstMissing(members[1..], from)
  }

  /** The exit entry, rebuilt from the two configurations alone. */
  function ExitEntry(stable: Configuration, joint: Configuration, active: Option<Operation>): Option<Change> {
    var operation := if active.Some? then active.value.id else 0;
    if |joint.members| == |stable.members| + 1 then
      match FirstMissing(joint.members, stable)
      case None => None
      case Some(m) => Some(Change(AddNode, false, m, joint, operation))
    else if |stable.members| == |joint.members| + 1 then
      match FirstMissing(stable.members, joint)
      case None => None
      case Some(m) => Some(Change(RemoveNode, false, Bare(m.id), joint, operation))
    else None
  }

  lemma {:induction false} FirstMissingIs(members: seq<Member>, from: Configuration, m: Member)
    requires m in members && forall x :: x in members ==> (!Contained(x.id, from) <==> x == m)
    ensures FirstMissing(members, from) == Some(m)
  {
    if Contained(members[0].id, from) {
      assert members[0] in members;
      FirstMissingIs(members[1..], from, m);
    } else {
      assert members[0] in members;
    }
  }

  lemma ContainedIs(id: NodeId, c: Configuration)
    ensures Contained(id, c) <==> exists x :: x in c.members && x.id == id
  {
  }

  lemma SameMember(c: Configuration, x: Member, y: Member)
    requires Increasing(c.members) && x in c.members && y in c.members && x.id == y.id
    ensures x == y
  {
  }

  /** Whatever one-node change was accepted, the exit entry recovered from the stable and the joint
      configuration describes that change. */
  lemma ExitRebuilds(stable: Configuration, self: NodeId, kind: ChangeType, member: Member, caughtUp: bool,
                     active: Option<Operation>)
    requires ValidConfiguration(stable, 0) && ConfigurationWords(stable)
    requires Target(stable, self, kind, member, caughtUp).Some?
    ensures var target := Target(stable, self, kind, member, caughtUp).value;
            ExitEntry(stable, target, active) ==
            Some(Change(kind, false, if kind == AddNode then member else Bare(member.id), target,
                        if active.Some? then active.value.id else 0))
  {
    hide Target, Contained;
    TargetIsOneChange(stable, self, kind, member, caughtUp);
    var target := Target(stable, self, kind, member, caughtUp).value;
    if kind == AddNode {
      AddedIsMissing(stable, target, member);
    } else {
      RemovedIsMissing(stable, target, member.id);
    }
  }

  lemma AddedIsMissing(stable: Configuration, target: Configuration, member: Member)
    requires Increasing(target.members) && !Contained(member.id, stable)
    requires forall x :: x in target.members <==> x in stable.members || x == member
    ensures FirstMissing(target.members, stable) == Some(member)
  {
    forall x | x in target.members ensures !Contained(x.id, stable) <==> x == member {
      ContainedIs(x.id, stable);
    }
    FirstMissingIs(target.members, stable, member);
  }

  lemma RemovedIsMissing(stable: Configuration, target: Configuration, id: NodeId)
    requires Increasing(stable.members) && Contained(id, stable)
    requires forall x :: x in target.members <==> x in stable.members && x.id != id
    ensures FirstMissing(stable.members, target).Some? && FirstMissing(stable.members, target).value.id == id
  {
    ContainedIs(id, stable);
    var gone :| gone in stable.members && gone.id == id;
    forall x | x in stable.members ensures !Contained(x.id, target) <==> x == gone {
      ContainedIs(x.id, target);
      if x.id == id {
        SameMember(stable, x, gone);
      }
    }
    FirstMissingIs(stable.members, target, gone);
  }

  /** The exit entry can be written exactly when every host of the target is at most 255 bytes
      long, and then it comes back from the log as it was. */
  lemma ExitSurvivesLog(stable: Configuration, self: NodeId, kind: ChangeType, member: Member, caughtUp: bool,
                        active: Option<Operation>)
    requires ValidConfiguration(stable, 0) && ConfigurationWords(stable) && MemberWords(member)
    requires Target(stable, self, kind, member, caughtUp).Some? && (active.Some? ==> OperationWords(active.value))
    ensures var target := Target(stable, self, kind, member, caughtUp).value;
            var exit := ExitEntry(stable, target, active);
            && exit.Some? && (EncodeChange(exit.value).Some? <==> Writable(target))
            && (Writable(target) ==> DecodeChange(EncodeChange(exit.value).value) == exit)
  {
    hide Target, ExitEntry, EncodeChange, DecodeChange, ValidConfiguration;
    ExitRebuilds(stable, self, kind, member, caughtUp, active);
    TargetIsOneChange(stable, self, kind, member, caughtUp);
    var target := Target(stable, self, kind, member, caughtUp).value;
    var exit := ExitEntry(stable, target, active).value;
    TargetWords(stable, target, kind, member);
    SubjectNamed(stable, target, self, kind, member);
    ChangeFits(exit);
    if Writable(target) {
      ChangeBack(exit);
    }
  }

  /** The member a change names is a member of one of the two configurations. */
  lemma SubjectNamed(stable: Configuration, target: Configuration, self: NodeId, kind: ChangeType, member: Member)
    requires ValidConfiguration(stable, 0) && ValidConfiguration(target, self)
    requires if kind == AddNode then member in target.members else Contained(member.id, stable)
    ensures ValidConfiguration(target, 0) && member.id != 0
    ensures kind == AddNode ==> Reachable(member) && (Writable(target) ==> Encodable(member))
  {
    if kind == RemoveNode {
      ContainedIs(member.id, stable);
    }
  }

  lemma TargetWords(stable: Configuration, target: Configuration, kind: ChangeType, member: Member)
    requires ConfigurationWords(stable) && MemberWords(member) && target.id <= MAX_WORD
    requires forall x :: x in target.members ==> x in stable.members || (kind == AddNode && x == member)
    ensures ConfigurationWords(target)
  {
    forall i | 0 <= i < |target.members| ensures MemberWords(target.members[i]) {
      assert target.members[i] in target.members;
    }
  }

  /** With at most 64 members of bounded hosts, an entry stays under its size limit. */
  lemma ChangeFits(c: Change)
    requires ValidConfiguration(c.target, 0) && c.member.id != 0
    requires c.kind == AddNode && Writable(c.target) ==> Encodable(c.member)
    ensures EncodeChange(c).Some? <==> Writable(c.target)
  {
    hide ValidConfiguration, EncodeMembers;
    if Writable(c.target) {
      ConfigurationSize(c.target);
    }
  }

  // ---------------------------------------------------------------- refused proposals

  /** The target can be written exactly when the hosts of an added member are short enough, given
      that the configuration in force was written. */
  lemma TargetWritable(stable: Configuration, self: NodeId, kind: ChangeType, member: Member, caughtUp: bool)
    requires Writable(stable) && ConfigurationWords(stable) && Target(stable, self, kind, member, caughtUp).Some?
    ensures Writable(Target(stable, self, kind, member, caughtUp).value) <==> kind == RemoveNode || Encodable(member)
  {
    hide Target, Encodable;
    TargetIsOneChange(stable, self, kind, member, caughtUp);
    var target := Target(stable, self, kind, member, caughtUp).value;
    if kind == AddNode {
      assert member in target.members;
    }
    forall i | 0 <= i < |target.members|
      ensures target.members[i] in stable.members || (kind == AddNode && target.members[i] == member)
    {
      assert target.members[i] in target.members;
    }
  }

  /** A proposal is accepted exactly when it passes the checks and its hosts can be written. A refused
      one leaves the node as it was, except in one case: an addition under operation id 0 that
      passes every check but has a host above 255 bytes. Then the node is in the joint phase with
      nothing in its log. */
  lemma RefusedProposal(m: Members, leader: bool, kind: ChangeType, member: Member, operation: nat, caughtUp: bool,
                        last: LogIndex)
    requires PeersMatch(m) && Writable(m.stable.value) && ConfigurationWords(m.stable.value)
    ensures var (m', entry) := Proposal(m, leader, kind, member, operation, caughtUp, last);
            var checked := MayPropose(m, leader, kind, member, operation, caughtUp);
            && (entry.Some? <==> checked && (kind == RemoveNode || Encodable(member)))
            && (entry.None? ==> (m' == m <==> !(checked && operation == 0 && kind == AddNode && !Encodable(member))))
            && (entry.None? && m' != m ==> m'.joint.Some? && m'.pending.None? && !Writable(m'.joint.value))
  {
    hide Target, EncodeChange, Encodable, PeersOf;
    if MayPropose(m, leader, kind, member, operation, caughtUp) {
      TargetWritable(m.stable.value, m.self, kind, member, caughtUp);
      TargetIsOneChange(m.stable.value, m.self, kind, member, caughtUp);
      var target := Target(m.stable.value, m.self, kind, member, caughtUp).value;
      if kind == AddNode {
        assert member in target.members;
      }
      SubjectNamed(m.stable.value, target, m.self, kind, member);
      ChangeFits(Change(kind, true, member, target, operation));
    }
  }

  /** While the joint configuration stays set, every proposal is refused. */
  lemma NoMoreProposals(m: Members, leader: bool, kind: ChangeType, member: Member, operation: nat, caughtUp: bool,
                        last: LogIndex)
    requires m.joint.Some?
    ensures Proposal(m, leader, kind, member, operation, caughtUp, last) == (m, None)
  {
  }

  /** And it cannot be saved: whatever else has changed, the journal refuses the next image that has
      it, so the node stops at its next save. */
  lemma NextSaveFails(last: Option<Persistent>, image: Persistent)
    requires image.joint.Some? && !Writable(image.joint.value) && (last.Some? ==> last.value.joint != image.joint)
    ensures EncodeState(image).None? && JournalFile.Written(last, image).None?
  {
    hide EncodeMeta, EncodeEntries, Writable;
    assert EncodeOptionalConfiguration(image.joint).None?;
  }

  const HOST: seq<Byte> := [104]

  const ALONE: Configuration := Configuration(1, [Member(1, HOST, 1, HOST, 1)])

  /** Such a proposal exists: a single node is asked to add a caught-up learner with a long name. */
  lemma JointWithoutEntry() returns (m: Members, member: Member)
    ensures PeersMatch(m) && Writable(m.stable.value) && m.stable == Some(ALONE) && m.joint.None?
    ensures var (m', entry) := Proposal(m, true, AddNode, member, 0, true, 0);
            entry.None? && m'.joint.Some? && m'.pending.None? && !Writable(m'.joint.value)
  {
    hide EncodeChange, PeersOf;
    var long: seq<Byte> := seq(256, i => 104);
    member := Member(2, long, 1, HOST, 1);
    m := Members(1, PeersOf(ALONE, None, 1), false, {2}, Some(ALONE), None, None, None, None);
    PeersOfMatch(m);
    assert Inserted(ALONE.members, member) == ALONE.members + [member];
    assert Target(ALONE, 1, AddNode, member, true).Some? by {
      assert ALONE.members[0].id == 1;
      assert (ALONE.members + [member])[0].id == 1;
    }
    RefusedProposal(m, true, AddNode, member, 0, true, 0);
  }
}
