/** The two payloads of the Raft journal, `src/raft/file_raft_persistence.cpp`: the full image of
    the persistent state and the delta that replaces a suffix of the previous one. */
module JournalCodec {
  import opened RaftTypes
  import opened LogSpec
  import opened Bytes
  import opened ClusterConfig

  const MAX_PAYLOAD: nat := 64 * 1024 * 1024
  const MAX_COMMAND: nat := 1024 * 1024
  const MAX_ENTRIES: nat := 1000000

  datatype Persistent = Persistent(
    term: Term, votedFor: Option<NodeId>, entries: seq<LogEntry>, commit: LogIndex,
    cluster: Option<Configuration>, joint: Option<Configuration>,
    active: Option<Operation>, completed: Option<Operation>)

  // ---------------------------------------------------------------- machine words

  predicate EntryWords(e: LogEntry) {
    e.index <= MAX_WORD && e.term <= MAX_WORD
  }

  predicate Words(s: Persistent) {
    && s.term <= MAX_WORD && s.commit <= MAX_WORD && (s.votedFor.Some? ==> s.votedFor.value <= MAX_WORD)
    && (forall j :: 0 <= j < |s.entries| ==> EntryWords(s.entries[j]))
    && (s.cluster.Some? ==> ConfigurationWords(s.cluster.value))
    && (s.joint.Some? ==> ConfigurationWords(s.joint.value))
    && (s.active.Some? ==> OperationWords(s.active.value))
    && (s.completed.Some? ==> OperationWords(s.completed.value))
  }

  // ---------------------------------------------------------------- entries

  function KindByte(kind: EntryType): Byte {
    match kind case NoOp => 0 case Command => 1 case ConfChange => 2
  }

  function KindOf(b: Byte): Option<EntryType> {
    if b == 0 then Some(NoOp) else if b == 1 then Some(Command) else if b == 2 then Some(ConfChange) else None
  }

  function EncodeEntry(e: LogEntry): (bytes: seq<Byte>)
    ensures |bytes| == 21 + |e.command|
  {
    U64(e.index) + (U64(e.term) + ([KindByte(e.kind)] + (U32(|e.command|) + e.command)))
  }

  function DecodeCommand(input: seq<Byte>): Option<Read<seq<Byte>>> {
    match Read32(input)
    case None => None
    case Some(size) => if size.value > MAX_COMMAND then None else ReadBytes(size.rest, size.value)
  }

  function DecodeEntry(input: seq<Byte>): Option<Read<LogEntry>> {
    match Read64(input)
    case None => None
    case Some(index) =>
      match Read64(index.rest)
      case None => None
      case Some(term) =>
        if term.rest == [] || KindOf(term.rest[0]).None? then None
        else
          match DecodeCommand(term.rest[1..])
          case None => None
          case Some(command) =>
            Some(Read(LogEntry(index.value, term.value, KindOf(term.rest[0]).value, command.value), command.rest))
  }

  lemma CommandBack(command: seq<Byte>, rest: seq<Byte>)
    requires |command| <= MAX_COMMAND
    ensures DecodeCommand(U32(|command|) + command + rest) == Some(Read(command, rest))
  {
    assert U32(|command|) + command + rest == U32(|command|) + (command + rest);
    Back32(|command|, command + rest);
    BackBytes(command, rest);
  }

  lemma EntryBack(e: LogEntry, rest: seq<Byte>)
    requires EntryWords(e) && |e.command| <= MAX_COMMAND
    ensures DecodeEntry(EncodeEntry(e) + rest) == Some(Read(e, rest))
  {
    hide Read64, DecodeCommand;
    var command := U32(|e.command|) + e.command;
    var kind := [KindByte(e.kind)] + command;
    assert EncodeEntry(e) + rest == U64(e.index) + (U64(e.term) + (kind + rest));
    Back64(e.index, U64(e.term) + (kind + rest));
    Back64(e.term, kind + rest);
    assert (kind + rest)[1..] == command + rest;
    CommandBack(e.command, rest);
  }

  function EncodeEntries(entries: seq<LogEntry>): seq<Byte> {
    if entries == [] then [] else EncodeEntry(entries[0]) + EncodeEntries(entries[1..])
  }

  function DecodeEntries(input: seq<Byte>, count: nat): Option<Read<seq<LogEntry>>> {
    if count == 0 then Some(Read([], input))
    else
      match DecodeEntry(input)
      case None => None
      case Some(first) =>
        match DecodeEntries(first.rest, count - 1)
        case None => None
        case Some(others) => Some(Read([first.value] + others.value, others.rest))
  }

  predicate Storable(entries: seq<LogEntry>) {
    forall j :: 0 <= j < |entries| ==> EntryWords(entries[j]) && |entries[j].command| <= MAX_COMMAND
  }

  lemma {:induction false} EntriesBack(entries: seq<LogEntry>, rest: seq<Byte>)
    requires Storable(entries)
    ensures DecodeEntries(EncodeEntries(entries) + rest, |entries|) == Some(Read(entries, rest))
  {
    hide EncodeEntry, DecodeEntry;
    if entries != [] {
      EntriesBack(entries[1..], rest);
      EntryBack(entries[0], EncodeEntries(entries[1..]) + rest);
      assert EncodeEntries(entries) + rest == EncodeEntry(entries[0]) + (EncodeEntries(entries[1..]) + rest);
      assert [entries[0]] + entries[1..] == entries;
    } else {
      assert EncodeEntries(entries) + rest == rest;
    }
  }

  lemma {:induction false} EncodeEntriesSnoc(entries: seq<LogEntry>, e: LogEntry)
    ensures EncodeEntries(entries + [e]) == EncodeEntries(entries) + EncodeEntry(e)
  {
    hide EncodeEntry;
    if entries == [] {
      assert [e][1..] == [];
      assert EncodeEntries([e]) == EncodeEntry(e) + [];
    } else {
      EncodeEntriesSnoc(entries[1..], e);
      assert (entries + [e])[1..] == entries[1..] + [e];
    }
  }

  // ---------------------------------------------------------------- term, vote and commit index

  datatype Meta = Meta(term: Term, votedFor: Option<NodeId>, commit: LogIndex)

  predicate MetaWords(m: Meta) {
    m.term <= MAX_WORD && m.commit <= MAX_WORD && (m.votedFor.Some? ==> m.votedFor.value <= MAX_WORD)
  }

  function EncodeMeta(m: Meta): (bytes: seq<Byte>)
    ensures |bytes| == 25
  {
    var vote := match m.votedFor case None => [0] + U64(0) case Some(id) => [1] + U64(id);
    U64(m.term) + (vote + U64(m.commit))
  }

  function DecodeVote(input: seq<Byte>): Option<Read<Option<NodeId>>> {
    if input == [] then None
    else
      match Read64(input[1..])
      case None => None
      case Some(id) =>
        if input[0] > 1 || (input[0] == 0 && id.value != 0) then None
        else Some(Read(if input[0] == 1 then Option<NodeId>.Some(id.value) else None, id.rest))
  }

  function DecodeMeta(input: seq<Byte>): Option<Read<Meta>> {
    match Read64(input)
    case None => None
    case Some(term) =>
      match DecodeVote(term.rest)
      case None => None
      case Some(vote) =>
        match Read64(vote.rest)
        case None => None
        case Some(commit) => Some(Read(Meta(term.value, vote.value, commit.value), commit.rest))
  }

  lemma MetaBack(m: Meta, rest: seq<Byte>)
    requires MetaWords(m)
    ensures DecodeMeta(EncodeMeta(m) + rest) == Some(Read(m, rest))
  {
    hide Read64;
    var flag: seq<Byte> := if m.votedFor.Some? then [1] else [0];
    var id := if m.votedFor.Some? then m.votedFor.value else 0;
    var tail := U64(m.commit) + rest;
    var vote := flag + (U64(id) + tail);
    assert EncodeMeta(m) + rest == U64(m.term) + vote;
    Back64(m.term, vote);
    assert vote[1..] == U64(id) + tail;
    Back64(id, tail);
    Back64(m.commit, rest);
  }

  // ---------------------------------------------------------------- the optional extension

  function Framed(bytes: Option<seq<Byte>>): seq<Byte> {
    match bytes case None => [0] case Some(b) => [1] + (U32(|b|) + b)
  }

  function EncodeOptionalConfiguration(c: Option<Configuration>): Option<seq<Byte>> {
    match c
    case None => Some(Framed(None))
    case Some(configuration) =>
      match EncodeConfiguration(configuration)
      case None => None
      case Some(bytes) => Some(Framed(Some(bytes)))
  }

  function EncodeOptionalOperation(o: Option<Operation>): Option<seq<Byte>> {
    match o
    case None => Some(Framed(None))
    case Some(operation) =>
      match EncodeOperation(operation)
      case None => None
      case Some(bytes) => Some(Framed(Some(bytes)))
  }

  /** A presence flag, and the size and bytes of what is present. */
  function ReadFrame(input: seq<Byte>): Option<Read<Option<nat>>> {
    if input == [] then None
    else if input[0] == 0 then Some(Read(None, input[1..]))
    else if input[0] != 1 then None
    else
      match Read32(input[1..])
      case None => None
      case Some(size) =>
        if size.value == 0 || size.value > |size.rest| then None
        else Some(Read(Option<nat>.Some(size.value), size.rest))
  }

  function DecodeOptionalConfiguration(input: seq<Byte>): Option<Read<Option<Configuration>>> {
    match ReadFrame(input)
    case None => None
    case Some(Read(None, rest)) => Some(Read(None, rest))
    case Some(Read(Some(_), rest)) =>
      match DecodeConfiguration(rest)
      case None => None
      case Some(c) => Some(Read(Option<Configuration>.Some(c.value), c.rest))
  }

  function DecodeOptionalOperation(input: seq<Byte>): Option<Read<Option<Operation>>> {
    match ReadFrame(input)
    case None => None
    case Some(Read(None, rest)) => Some(Read(None, rest))
    case Some(Read(Some(size), rest)) =>
      match DecodeOperation(rest)
      case None => None
      case Some(o) => if |rest| - |o.rest| != size then None else Some(Read(Option<Operation>.Some(o.value), o.rest))
  }

  lemma FrameBack(bytes: seq<Byte>, rest: seq<Byte>)
    requires 0 < |bytes| < LIMIT_32
    ensures ReadFrame(Framed(Some(bytes)) + rest) == Some(Read(Option<nat>.Some(|bytes|), bytes + rest))
  {
    hide Read32;
    assert (Framed(Some(bytes)) + rest)[1..] == U32(|bytes|) + (bytes + rest);
    Back32(|bytes|, bytes + rest);
  }

  lemma OptionalConfigurationBack(c: Option<Configuration>, rest: seq<Byte>)
    requires EncodeOptionalConfiguration(c).Some? && (c.Some? ==> ConfigurationWords(c.value))
    ensures DecodeOptionalConfiguration(EncodeOptionalConfiguration(c).value + rest) == Some(Read(c, rest))
  {
    if c.Some? {
      hide EncodeConfiguration, DecodeConfiguration, ReadFrame;
      var bytes := EncodeConfiguration(c.value).value;
      ConfigurationSize(c.value);
      FrameBack(bytes, rest);
      ConfigurationBack(c.value, rest);
    } else {
      assert (Framed(None) + rest)[1..] == rest;
    }
  }

  lemma OptionalOperationBack(o: Option<Operation>, rest: seq<Byte>)
    requires EncodeOptionalOperation(o).Some? && (o.Some? ==> OperationWords(o.value))
    ensures DecodeOptionalOperation(EncodeOptionalOperation(o).value + rest) == Some(Read(o, rest))
  {
    if o.Some? {
      hide EncodeOperation, DecodeOperation, ReadFrame;
      var bytes := EncodeOperation(o.value).value;
      OperationSize(o.value);
      FrameBack(bytes, rest);
      OperationBack(o.value, rest);
    } else {
      assert (Framed(None) + rest)[1..] == rest;
    }
  }

  lemma {:induction false} MembersSize(members: seq<Member>)
    requires forall i :: 0 <= i < |members| ==> Encodable(members[i])
    ensures |EncodeMembers(members)| <= 528 * |members|
  {
    if members != [] {
      MembersSize(members[1..]);
    }
  }

  /** A written configuration is never empty and stays far below the frame's 32-bit size. */
  lemma ConfigurationSize(c: Configuration)
    requires EncodeConfiguration(c).Some?
    ensures 12 <= |EncodeConfiguration(c).value| <= 12 + 528 * MAX_MEMBERS
  {
    MembersSize(c.members);
  }

  lemma OperationSize(o: Operation)
    requires EncodeOperation(o).Some?
    ensures 17 <= |EncodeOperation(o).value| <= 537
  {
  }

  function EncodeExtensions(s: Persistent): Option<seq<Byte>> {
    var cluster, joint := EncodeOptionalConfiguration(s.cluster), EncodeOptionalConfiguration(s.joint);
    var active, completed := EncodeOptionalOperation(s.active), EncodeOptionalOperation(s.completed);
    if cluster.None? || joint.None? || active.None? || completed.None? then None
    else Some(U32(2) + (cluster.value + (joint.value + (active.value + completed.value))))
  }

  datatype Extensions = Extensions(cluster: Option<Configuration>, joint: Option<Configuration>,
                                   active: Option<Operation>, completed: Option<Operation>)

  function DecodeOperations(input: seq<Byte>): Option<(Option<Operation>, Option<Operation>)> {
    match DecodeOptionalOperation(input)
    case None => None
    case Some(active) =>
      match DecodeOptionalOperation(active.rest)
      case None => None
      case Some(completed) => if completed.rest != [] then None else Some((active.value, completed.value))
  }

  /** Images without an extension, and those of version 1 without operations, are still read. */
  function DecodeExtensions(input: seq<Byte>): Option<Extensions> {
    if input == [] then Some(Extensions(None, None, None, None))
    else
      match Read32(input)
      case None => None
      case Some(version) =>
        if version.value != 1 && version.value != 2 then None
        else
          match DecodeOptionalConfiguration(version.rest)
          case None => None
          case Some(cluster) =>
            match DecodeOptionalConfiguration(cluster.rest)
            case None => None
            case Some(joint) =>
              if version.value == 1 then
                if joint.rest == [] then Some(Extensions(cluster.value, joint.value, None, None)) else None
              else
                match DecodeOperations(joint.rest)
                case None => None
                case Some(operations) => Some(Extensions(cluster.value, joint.value, operations.0, operations.1))
  }

  lemma OperationsBack(s: Persistent)
    requires Words(s) && EncodeOptionalOperation(s.active).Some? && EncodeOptionalOperation(s.completed).Some?
    ensures DecodeOperations(EncodeOptionalOperation(s.active).value + EncodeOptionalOperation(s.completed).value) ==
            Some((s.active, s.completed))
  {
    hide EncodeOptionalOperation, DecodeOptionalOperation;
    var completed := EncodeOptionalOperation(s.completed).value;
    OptionalOperationBack(s.active, completed);
    OptionalOperationBack(s.completed, []);
    assert completed + [] == completed;
  }

  lemma ExtensionsBack(s: Persistent)
    requires Words(s) && EncodeExtensions(s).Some?
    ensures DecodeExtensions(EncodeExtensions(s).value) == Some(Extensions(s.cluster, s.joint, s.active, s.completed))
  {
    hide EncodeOptionalOperation, EncodeOptionalConfiguration, DecodeOptionalConfiguration, DecodeOperations, Read32;
    var cluster, joint := EncodeOptionalConfiguration(s.cluster).value, EncodeOptionalConfiguration(s.joint).value;
    var operations := EncodeOptionalOperation(s.active).value + EncodeOptionalOperation(s.completed).value;
    Back32(2, cluster + (joint + operations));
    OptionalConfigurationBack(s.cluster, joint + operations);
    OptionalConfigurationBack(s.joint, operations);
    OperationsBack(s);
  }

  // ---------------------------------------------------------------- only encodings are decoded

  lemma TakenInt(input: seq<Byte>, width: nat)
    requires ReadInt(input, width).Some?
    ensures var r := ReadInt(input, width).value;
            input == Big(r.value, width) + r.rest && r.value < Pow256(width)
  {
    BigOfValue(input[..width]);
    ValueBelow(input[..width]);
    assert input == input[..width] + input[width..];
  }

  lemma {:induction false} ValueBelow(bytes: seq<Byte>)
    ensures Value(bytes) < Pow256(|bytes|)
  {
    if bytes != [] {
      ValueBelow(bytes[..|bytes| - 1]);
    }
  }

  /** What decodes as an entry is the encoding of that entry, with a command within the limit, and nothing else. */
  lemma EntryOnly(input: seq<Byte>)
    requires DecodeEntry(input).Some?
    ensures var r := DecodeEntry(input).value;
            input == EncodeEntry(r.value) + r.rest && EntryWords(r.value) && |r.value.command| <= MAX_COMMAND
  {
    hide ReadInt, Big, Value;
    var index := Read64(input).value;
    TakenInt(input, 8);
    var term := Read64(index.rest).value;
    TakenInt(index.rest, 8);
    var tail := term.rest[1..];
    TakenInt(tail, 4);
    var size := Read32(tail).value;
    Limits();
    var r := DecodeEntry(input).value;
    assert size.rest == size.rest[..size.value] + size.rest[size.value..];
    assert tail == U32(|r.value.command|) + (r.value.command + r.rest);
    assert term.rest == [KindByte(r.value.kind)] + tail;
    assert input == U64(r.value.index) + (U64(r.value.term) + ([KindByte(r.value.kind)] + tail));
  }

  lemma {:induction false} EntriesOnly(input: seq<Byte>, count: nat)
    requires DecodeEntries(input, count).Some?
    ensures var r := DecodeEntries(input, count).value;
            |r.value| == count && input == EncodeEntries(r.value) + r.rest && Storable(r.value)
    decreases count
  {
    hide DecodeEntry, EncodeEntry;
    if count > 0 {
      var first := DecodeEntry(input).value;
      EntryOnly(input);
      EntriesOnly(first.rest, count - 1);
      var others := DecodeEntries(first.rest, count - 1).value;
      assert ([first.value] + others.value)[1..] == others.value;
    }
  }

  // ---------------------------------------------------------------- full images

  function MetaOf(s: Persistent): Meta {
    Meta(s.term, s.votedFor, s.commit)
  }

  predicate ValidImage(s: Persistent) {
    |s.entries| <= MAX_ENTRIES && Restorable(s.entries) && s.commit <= LastIndex(s.entries)
  }

  /** Everything before the extension. */
  function ImageBody(s: Persistent): seq<Byte> {
    EncodeMeta(MetaOf(s)) + (U32(|s.entries|) + EncodeEntries(s.entries))
  }

  predicate CommandsFit(entries: seq<LogEntry>) {
    forall j :: 0 <= j < |entries| ==> |entries[j].command| <= MAX_COMMAND
  }

  /** The size limit is compared before the extension is appended. */
  function EncodeState(s: Persistent): Option<seq<Byte>> {
    if !ValidImage(s) || !CommandsFit(s.entries) || |ImageBody(s)| > MAX_PAYLOAD then None
    else
      match EncodeExtensions(s)
      case None => None
      case Some(extensions) => Some(ImageBody(s) + extensions)
  }

  function DecodeBody(input: seq<Byte>): Option<Read<(Meta, seq<LogEntry>)>> {
    match DecodeMeta(input)
    case None => None
    case Some(meta) =>
      match Read32(meta.rest)
      case None => None
      case Some(count) =>
        if count.value == 0 || count.value > MAX_ENTRIES then None
        else
          match DecodeEntries(count.rest, count.value)
          case None => None
          case Some(entries) => Some(Read((meta.value, entries.value), entries.rest))
  }

  function DecodeState(input: seq<Byte>): Option<Persistent> {
    match DecodeBody(input)
    case None => None
    case Some(body) =>
      match DecodeExtensions(body.rest)
      case None => None
      case Some(x) =>
        var meta, entries := body.value.0, body.value.1;
        var s := Persistent(meta.term, meta.votedFor, entries, meta.commit, x.cluster, x.joint, x.active, x.completed);
        if Restorable(entries) && meta.commit <= LastIndex(entries) then Some(s) else None
  }

  lemma BodyBack(s: Persistent, rest: seq<Byte>)
    requires Words(s) && ValidImage(s) && CommandsFit(s.entries)
    ensures DecodeBody(ImageBody(s) + rest) == Some(Read((MetaOf(s), s.entries), rest))
  {
    hide EncodeMeta, DecodeMeta, Read32, EncodeEntries, DecodeEntries;
    var entries := EncodeEntries(s.entries);
    assert ImageBody(s) + rest == EncodeMeta(MetaOf(s)) + (U32(|s.entries|) + (entries + rest));
    MetaBack(MetaOf(s), U32(|s.entries|) + (entries + rest));
    Back32(|s.entries|, entries + rest);
    EntriesBack(s.entries, rest);
  }

  /** A full image comes back as the state that was written. */
  lemma StateBack(s: Persistent)
    requires Words(s) && EncodeState(s).Some?
    ensures DecodeState(EncodeState(s).value) == Some(s)
  {
    hide ImageBody, DecodeBody, EncodeExtensions, DecodeExtensions;
    BodyBack(s, EncodeExtensions(s).value);
    ExtensionsBack(s);
  }

  // ---------------------------------------------------------------- deltas

  function CommonPrefix(a: seq<LogEntry>, b: seq<LogEntry>): (n: nat)
    ensures n <= |a| && n <= |b| && a[..n] == b[..n]
    ensures n < |a| && n < |b| ==> a[n] != b[n]
  {
    if a == [] || b == [] || a[0] != b[0] then 0
    else
      var n := 1 + CommonPrefix(a[1..], b[1..]);
      assert a[..n] == [a[0]] + a[1..][..n - 1] && b[..n] == [b[0]] + b[1..][..n - 1];
      n
  }

  function DeltaBody(s: Persistent, common: nat): seq<Byte>
    requires common <= |s.entries|
  {
    EncodeMeta(MetaOf(s)) + (U64(common) + (U32(|s.entries| - common) + EncodeEntries(s.entries[common..])))
  }

  /** The state as the replacement of whatever follows its common prefix with the previous one. */
  function EncodeDelta(previous: Persistent, s: Persistent): Option<seq<Byte>> {
    if s.term < previous.term || s.commit < previous.commit || !ValidImage(s) || !Restorable(previous.entries) then None
    else
      var common := CommonPrefix(previous.entries, s.entries);
      if common == 0 || !CommandsFit(s.entries[common..]) || |DeltaBody(s, common)| > MAX_PAYLOAD then None
      else Some(DeltaBody(s, common))
  }

  datatype Patch = Patch(meta: Meta, truncate: nat, entries: seq<LogEntry>)

  function DecodePatch(input: seq<Byte>): Option<Patch> {
    match DecodeMeta(input)
    case None => None
    case Some(meta) =>
      match Read64(meta.rest)
      case None => None
      case Some(truncate) =>
        match Read32(truncate.rest)
        case None => None
        case Some(count) =>
          match DecodeEntries(count.rest, count.value)
          case None => None
          case Some(entries) =>
            if entries.rest != [] then None else Some(Patch(meta.value, truncate.value, entries.value))
  }

  /** A patch may move the term and the commit index forward, and replaces a proper suffix. */
  function ApplyPatch(latest: Persistent, p: Patch): Option<Persistent> {
    if p.meta.term < latest.term || p.meta.commit < latest.commit || !Restorable(latest.entries) ||
       p.truncate == 0 || p.truncate > |latest.entries| || p.truncate > MAX_ENTRIES ||
       |p.entries| > MAX_ENTRIES - p.truncate then None
    else
      var entries := latest.entries[..p.truncate] + p.entries;
      if !Restorable(entries) || p.meta.commit > LastIndex(entries) then None
      else Some(latest.(term := p.meta.term, votedFor := p.meta.votedFor, entries := entries, commit := p.meta.commit))
  }

  function DecodeDelta(latest: Persistent, input: seq<Byte>): Option<Persistent> {
    match DecodePatch(input)
    case None => None
    case Some(patch) => ApplyPatch(latest, patch)
  }

  predicate SameExtensions(a: Persistent, b: Persistent) {
    a.cluster == b.cluster && a.joint == b.joint && a.active == b.active && a.completed == b.completed
  }

  lemma PatchBack(s: Persistent, common: nat)
    requires Words(s) && common <= |s.entries| <= MAX_ENTRIES && CommandsFit(s.entries[common..])
    ensures DecodePatch(DeltaBody(s, common)) == Some(Patch(MetaOf(s), common, s.entries[common..]))
  {
    hide EncodeMeta, DecodeMeta, Read64, Read32, EncodeEntries, DecodeEntries;
    var suffix := s.entries[common..];
    var entries := EncodeEntries(suffix);
    assert entries + [] == entries;
    MetaBack(MetaOf(s), U64(common) + (U32(|suffix|) + entries));
    Back64(common, U32(|suffix|) + entries);
    Back32(|suffix|, entries);
    EntriesBack(suffix, []);
  }

  /** A delta, applied to the state it was made from, gives the state it was made for. */
  lemma DeltaBack(previous: Persistent, s: Persistent)
    requires Words(s) && SameExtensions(previous, s) && EncodeDelta(previous, s).Some?
    ensures DecodeDelta(previous, EncodeDelta(previous, s).value) == Some(s)
  {
    hide DeltaBody, DecodePatch;
    var common := CommonPrefix(previous.entries, s.entries);
    PatchBack(s, common);
    assert previous.entries[..common] + s.entries[common..] == s.entries;
  }
}
