/** Configurations, membership operations and configuration-change entries of
    `src/raft/cluster_config.cpp`: what is valid, and how they are written and read back. */
module ClusterConfig {
  import opened RaftTypes
  import opened Bytes

  const MAX_MEMBERS: nat := 64
  const MAX_HOST: nat := 255
  const MAX_CHANGE: nat := 64 * 1024
  const CHANGE_MAGIC: nat := 0x43434647

  datatype Member = Member(id: NodeId, clientHost: seq<Byte>, clientPort: nat, peerHost: seq<Byte>, peerPort: nat)

  datatype Configuration = Configuration(id: nat, members: seq<Member>)

  datatype ChangeType = AddNode | RemoveNode

  datatype Operation = Operation(id: nat, kind: ChangeType, member: Member)

  datatype Change = Change(kind: ChangeType, joint: bool, member: Member, target: Configuration, operation: nat)

  function Bare(id: NodeId): Member {
    Member(id, [], 0, [], 0)
  }

  // ---------------------------------------------------------------- machine words

  predicate MemberWords(m: Member) {
    m.id <= MAX_WORD && m.clientPort < 65536 && m.peerPort < 65536
  }

  predicate ConfigurationWords(c: Configuration) {
    c.id <= MAX_WORD && forall i :: 0 <= i < |c.members| ==> MemberWords(c.members[i])
  }

  predicate OperationWords(o: Operation) {
    o.id <= MAX_WORD && MemberWords(o.member)
  }

  predicate ChangeWords(c: Change) {
    c.operation <= MAX_WORD && MemberWords(c.member) && ConfigurationWords(c.target)
  }

  // ---------------------------------------------------------------- validity

  predicate Reachable(m: Member) {
    m.id != 0 && m.clientHost != [] && m.peerHost != [] && m.clientPort != 0 && m.peerPort != 0
  }

  predicate Increasing(members: seq<Member>) {
    forall i, j :: 0 <= i < j < |members| ==> members[i].id < members[j].id
  }

  /** Members sorted by id without repetition, each with an endpoint; the local node, if given, among them. */
  predicate ValidConfiguration(c: Configuration, local: NodeId) {
    && c.id != 0 && 0 < |c.members| <= MAX_MEMBERS
    && (forall i :: 0 <= i < |c.members| ==> Reachable(c.members[i]))
    && Increasing(c.members)
    && (local == 0 || exists i :: 0 <= i < |c.members| && c.members[i].id == local)
  }

  method ValidateClusterConfiguration(c: Configuration, local: NodeId) returns (ok: bool)
    ensures ok <==> ValidConfiguration(c, local)
  {
    if c.id == 0 || c.members == [] || |c.members| > MAX_MEMBERS {
      return false;
    }
    var foundSelf := local == 0;
    var previousId: NodeId := 0;
    for i := 0 to |c.members|
      invariant forall j :: 0 <= j < i ==> Reachable(c.members[j]) && c.members[j].id <= previousId
      invariant previousId == if i == 0 then 0 else c.members[i - 1].id
      invariant Increasing(c.members[..i])
      invariant foundSelf <==> local == 0 || exists j :: 0 <= j < i && c.members[j].id == local
    {
      var member := c.members[i];
      if member.id == 0 || member.id <= previousId || member.clientHost == [] || member.peerHost == [] ||
         member.clientPort == 0 || member.peerPort == 0 {
        assert !Reachable(member) || (i > 0 && c.members[i - 1].id >= c.members[i].id);
        return false;
      }
      if member.id == local {
        foundSelf := true;
      }
      previousId := member.id;
    }
    assert c.members[..|c.members|] == c.members;
    return foundSelf;
  }

  predicate Encodable(m: Member) {
    0 < |m.clientHost| <= MAX_HOST && 0 < |m.peerHost| <= MAX_HOST
  }

  predicate ValidOperation(o: Operation) {
    && o.id != 0 && o.member.id != 0
    && match o.kind
       case AddNode => Encodable(o.member) && o.member.clientPort != 0 && o.member.peerPort != 0
       case RemoveNode => o.member == Bare(o.member.id)
  }

  // ---------------------------------------------------------------- members

  function EncodeHost(host: seq<Byte>): seq<Byte>
    requires |host| <= MAX_HOST
  {
    [|host|] + host
  }

  function DecodeHost(input: seq<Byte>): Option<Read<seq<Byte>>> {
    if input == [] || input[0] == 0 then None else ReadBytes(input[1..], input[0])
  }

  lemma HostBack(host: seq<Byte>, rest: seq<Byte>)
    requires 0 < |host| <= MAX_HOST
    ensures DecodeHost(EncodeHost(host) + rest) == Some(Read(host, rest))
  {
    assert (EncodeHost(host) + rest)[1..] == host + rest;
    BackBytes(host, rest);
  }

  function EncodeMember(m: Member): seq<Byte>
    requires Encodable(m)
  {
    U64(m.id) + (EncodeHost(m.clientHost) + (EncodeHost(m.peerHost) + (U32(m.clientPort) + U32(m.peerPort))))
  }

  function DecodePorts(input: seq<Byte>): Option<Read<(nat, nat)>> {
    match Read32(input)
    case None => None
    case Some(client) =>
      match Read32(client.rest)
      case None => None
      case Some(peer) => Some(Read((client.value % 65536, peer.value % 65536), peer.rest))
  }

  function DecodeMember(input: seq<Byte>): Option<Read<Member>> {
    match Read64(input)
    case None => None
    case Some(id) =>
      match DecodeHost(id.rest)
      case None => None
      case Some(client) =>
        match DecodeHost(client.rest)
        case None => None
        case Some(peer) =>
          match DecodePorts(peer.rest)
          case None => None
          case Some(ports) =>
            if id.value == 0 || ports.value.0 == 0 || ports.value.1 == 0 then None
            else Some(Read(Member(id.value, client.value, ports.value.0, peer.value, ports.value.1), ports.rest))
  }

  lemma PortsBack(a: nat, b: nat, rest: seq<Byte>)
    requires a < 65536 && b < 65536
    ensures DecodePorts(U32(a) + U32(b) + rest) == Some(Read((a, b), rest))
  {
    assert U32(a) + U32(b) + rest == U32(a) + (U32(b) + rest);
    Back32(a, U32(b) + rest);
    Back32(b, rest);
  }

  lemma MemberBack(m: Member, rest: seq<Byte>)
    requires MemberWords(m) && Encodable(m) && Reachable(m)
    ensures DecodeMember(EncodeMember(m) + rest) == Some(Read(m, rest))
  {
    hide Read64, DecodeHost, DecodePorts, EncodeHost;
    var ports := U32(m.clientPort) + U32(m.peerPort);
    var peer := EncodeHost(m.peerHost) + ports;
    var client := EncodeHost(m.clientHost) + peer;
    assert EncodeMember(m) + rest == U64(m.id) + (client + rest);
    assert client + rest == EncodeHost(m.clientHost) + (peer + rest);
    assert peer + rest == EncodeHost(m.peerHost) + (ports + rest);
    Back64(m.id, client + rest);
    HostBack(m.clientHost, peer + rest);
    HostBack(m.peerHost, ports + rest);
    PortsBack(m.clientPort, m.peerPort, rest);
  }

  // ---------------------------------------------------------------- configurations

  function EncodeMembers(members: seq<Member>): seq<Byte>
    requires forall i :: 0 <= i < |members| ==> Encodable(members[i])
  {
    if members == [] then [] else EncodeMember(members[0]) + EncodeMembers(members[1..])
  }

  function DecodeMembers(input: seq<Byte>, count: nat): Option<Read<seq<Member>>> {
    if count == 0 then Some(Read([], input))
    else
      match DecodeMember(input)
      case None => None
      case Some(first) =>
        match DecodeMembers(first.rest, count - 1)
        case None => None
        case Some(others) => Some(Read([first.value] + others.value, others.rest))
  }

  lemma {:induction false} MembersBack(members: seq<Member>, rest: seq<Byte>)
    requires forall i :: 0 <= i < |members| ==>
               MemberWords(members[i]) && Encodable(members[i]) && Reachable(members[i])
    ensures DecodeMembers(EncodeMembers(members) + rest, |members|) == Some(Read(members, rest))
  {
    hide EncodeMember, DecodeMember;
    if members != [] {
      MembersBack(members[1..], rest);
      MemberBack(members[0], EncodeMembers(members[1..]) + rest);
      assert EncodeMembers(members) + rest == EncodeMember(members[0]) + (EncodeMembers(members[1..]) + rest);
      assert [members[0]] + members[1..] == members;
    } else {
      assert EncodeMembers(members) + rest == rest;
    }
  }

  predicate Writable(c: Configuration) {
    ValidConfiguration(c, 0) && forall i :: 0 <= i < |c.members| ==> Encodable(c.members[i])
  }

  function EncodeConfiguration(c: Configuration): Option<seq<Byte>> {
    if !Writable(c) then None else Some(U64(c.id) + (U32(|c.members|) + EncodeMembers(c.members)))
  }

  function DecodeConfiguration(input: seq<Byte>): Option<Read<Configuration>> {
    match Read64(input)
    case None => None
    case Some(id) =>
      match Read32(id.rest)
      case None => None
      case Some(count) =>
        if id.value == 0 || count.value == 0 || count.value > MAX_MEMBERS then None
        else
          match DecodeMembers(count.rest, count.value)
          case None => None
          case Some(members) =>
            var c := Configuration(id.value, members.value);
            if ValidConfiguration(c, 0) then Some(Read(c, members.rest)) else None
  }

  lemma ConfigurationBack(c: Configuration, rest: seq<Byte>)
    requires ConfigurationWords(c) && EncodeConfiguration(c).Some?
    ensures DecodeConfiguration(EncodeConfiguration(c).value + rest) == Some(Read(c, rest))
  {
    hide Read64, Read32, EncodeMembers, DecodeMembers;
    var members := EncodeMembers(c.members);
    assert EncodeConfiguration(c).value + rest == U64(c.id) + (U32(|c.members|) + (members + rest));
    Back64(c.id, U32(|c.members|) + (members + rest));
    Back32(|c.members|, members + rest);
    MembersBack(c.members, rest);
  }

  // ---------------------------------------------------------------- operations

  function TypeByte(kind: ChangeType): Byte {
    match kind case AddNode => 1 case RemoveNode => 2
  }

  function EncodeSubject(kind: ChangeType, m: Member): Option<seq<Byte>> {
    match kind
    case RemoveNode => Some(U64(m.id))
    case AddNode => if Encodable(m) then Some(EncodeMember(m)) else None
  }

  function DecodeSubject(kind: ChangeType, input: seq<Byte>): Option<Read<Member>> {
    match kind
    case AddNode => DecodeMember(input)
    case RemoveNode =>
      match Read64(input)
      case None => None
      case Some(id) => if id.value == 0 then None else Some(Read(Bare(id.value), id.rest))
  }

  lemma SubjectBack(kind: ChangeType, m: Member, rest: seq<Byte>)
    requires MemberWords(m) && EncodeSubject(kind, m).Some? && m.id != 0 && (kind == AddNode ==> Reachable(m))
    ensures DecodeSubject(kind, EncodeSubject(kind, m).value + rest) ==
            Some(Read(if kind == AddNode then m else Bare(m.id), rest))
  {
    if kind == AddNode {
      MemberBack(m, rest);
    } else {
      Back64(m.id, rest);
    }
  }

  function EncodeOperation(o: Operation): Option<seq<Byte>> {
    if !ValidOperation(o) then None
    else
      match EncodeSubject(o.kind, o.member)
      case None => None
      case Some(subject) => Some(U64(o.id) + ([TypeByte(o.kind)] + subject))
  }

  function DecodeOperation(input: seq<Byte>): Option<Read<Operation>> {
    match Read64(input)
    case None => None
    case Some(id) =>
      if id.rest == [] || id.rest[0] !in {1, 2} then None
      else
        var kind := if id.rest[0] == 1 then AddNode else RemoveNode;
        match DecodeSubject(kind, id.rest[1..])
        case None => None
        case Some(subject) =>
          var o := Operation(id.value, kind, subject.value);
          if ValidOperation(o) then Some(Read(o, subject.rest)) else None
  }

  lemma OperationBack(o: Operation, rest: seq<Byte>)
    requires OperationWords(o) && EncodeOperation(o).Some?
    ensures DecodeOperation(EncodeOperation(o).value + rest) == Some(Read(o, rest))
  {
    hide Read64, EncodeSubject, DecodeSubject;
    var subject := EncodeSubject(o.kind, o.member).value;
    var tail := [TypeByte(o.kind)] + subject + rest;
    assert EncodeOperation(o).value + rest == U64(o.id) + tail;
    Back64(o.id, tail);
    assert tail[1..] == subject + rest;
    SubjectBack(o.kind, o.member, rest);
  }

  // ---------------------------------------------------------------- change entries

  function EncodeChange(c: Change): Option<seq<Byte>> {
    if !ValidConfiguration(c.target, 0) || (c.kind == RemoveNode && c.member.id == 0) then None
    else
      match EncodeSubject(c.kind, c.member)
      case None => None
      case Some(subject) =>
        match EncodeConfiguration(c.target)
        case None => None
        case Some(target) =>
          var tail := U32(|target|) + (target + U64(c.operation));
          var bytes := U32(CHANGE_MAGIC) + ([TypeByte(c.kind), if c.joint then 1 else 0] + (subject + tail));
          if |bytes| > MAX_CHANGE then None else Some(bytes)
  }

  /** The target and the operation id, which older entries lack. */
  function DecodeChangeTail(input: seq<Byte>): Option<(Configuration, nat)> {
    match Read32(input)
    case None => None
    case Some(size) =>
      if size.value == 0 || size.value > |size.rest| then None
      else
        match DecodeConfiguration(size.rest)
        case None => None
        case Some(target) =>
          if |target.rest| == 8 then Some((target.value, Value(target.rest)))
          else if target.rest == [] then Some((target.value, 0))
          else None
  }

  function DecodeChange(input: seq<Byte>): Option<Change> {
    if |input| < 16 || |input| > MAX_CHANGE || Value(input[..4]) != CHANGE_MAGIC || input[4] !in {1, 2} then None
    else
      var kind := if input[4] == 1 then AddNode else RemoveNode;
      match DecodeSubject(kind, input[6..])
      case None => None
      case Some(subject) =>
        match DecodeChangeTail(subject.rest)
        case None => None
        case Some(tail) => Some(Change(kind, input[5] != 0, subject.value, tail.0, tail.1))
  }

  lemma ChangeTailBack(target: Configuration, operation: nat)
    requires ConfigurationWords(target) && EncodeConfiguration(target).Some? && operation <= MAX_WORD
    requires |EncodeConfiguration(target).value| <= MAX_CHANGE
    ensures var bytes := EncodeConfiguration(target).value;
            DecodeChangeTail(U32(|bytes|) + (bytes + U64(operation))) == Some((target, operation))
  {
    hide Read32, DecodeConfiguration;
    var bytes := EncodeConfiguration(target).value;
    Back32(|bytes|, bytes + U64(operation));
    ConfigurationBack(target, U64(operation));
    Limits();
    ValueOfBig(operation, 8);
  }

  /** A change entry comes back as it was written; a removal carries only the node's id. */
  lemma ChangeBack(c: Change)
    requires ChangeWords(c) && EncodeChange(c).Some? && c.member.id != 0 && (c.kind == AddNode ==> Reachable(c.member))
    ensures DecodeChange(EncodeChange(c).value) ==
            Some(c.(member := if c.kind == AddNode then c.member else Bare(c.member.id)))
  {
    hide EncodeSubject, DecodeSubject, EncodeConfiguration, DecodeChangeTail;
    var subject, target := EncodeSubject(c.kind, c.member).value, EncodeConfiguration(c.target).value;
    var tail := U32(|target|) + (target + U64(c.operation));
    var flags: seq<Byte> := [TypeByte(c.kind), if c.joint then 1 else 0];
    var bytes := EncodeChange(c).value;
    assert bytes == U32(CHANGE_MAGIC) + (flags + (subject + tail));
    assert bytes[..4] == U32(CHANGE_MAGIC) && bytes[4] == flags[0] && bytes[5] == flags[1];
    assert bytes[6..] == subject + tail;
    Limits();
    ValueOfBig(CHANGE_MAGIC, 4);
    SubjectBack(c.kind, c.member, tail);
    ChangeTailBack(c.target, c.operation);
    assert |bytes| >= 6 + 4 + 8;
  }
}
