/** `FileRaftPersistence`: its file, the state last written, and the loops that encode, append,
    compact and replay. A crash can leave any prefix of the file that keeps the header. */
module JournalFile {
  import opened RaftTypes
  import opened LogSpec
  import opened Bytes
  import opened ClusterConfig
  import opened JournalCodec
  import opened Journal

  // ---------------------------------------------------------------- encoding loops

  method ValidateEntries(entries: seq<LogEntry>) returns (ok: bool)
    ensures ok <==> Restorable(entries)
  {
    if entries == [] || entries[0].kind != NoOp || entries[0].command != [] ||
       (entries[0].index == 0 && entries[0].term != 0) || (entries[0].index != 0 && entries[0].term == 0) {
      return false;
    }
    for offset := 1 to |entries|
      invariant Restorable(entries[..offset])
    {
      assert entries[..offset + 1][offset] == entries[offset];
      var entry := entries[offset];
      if entries[0].index > MAX_WORD - offset || entry.index != entries[0].index + offset || entry.term == 0 ||
         (entry.kind == NoOp && entry.command != []) || (entry.kind != NoOp && entry.command == []) {
        return false;
      }
    }
    assert entries[..|entries|] == entries;
    return true;
  }

  /** The loop shared by full images and deltas: append every entry from `first` on, giving up at
      a command or an output that is too large. */
  method AppendEntries(output: seq<Byte>, entries: seq<LogEntry>) returns (r: Option<seq<Byte>>)
    ensures r == if CommandsFit(entries) && (entries == [] || |output + EncodeEntries(entries)| <= MAX_PAYLOAD)
                 then Some(output + EncodeEntries(entries)) else None
  {
    var bytes := output;
    assert EncodeEntries([]) == [];
    for i := 0 to |entries|
      invariant bytes == output + EncodeEntries(entries[..i])
      invariant CommandsFit(entries[..i])
      invariant i > 0 ==> |bytes| <= MAX_PAYLOAD
    {
      var entry := entries[i];
      assert entries[..i + 1] == entries[..i] + [entry];
      if |entry.command| > MAX_COMMAND {
        assert !CommandsFit(entries);
        return None;
      }
      EncodeEntriesSnoc(entries[..i], entry);
      bytes := bytes + EncodeEntry(entry);
      if |bytes| > MAX_PAYLOAD {
        EncodedPrefixShorter(entries, i + 1);
        return None;
      }
    }
    assert entries[..|entries|] == entries;
    return Some(bytes);
  }

  lemma {:induction false} EncodedPrefixShorter(entries: seq<LogEntry>, k: nat)
    requires k <= |entries|
    ensures |EncodeEntries(entries[..k])| <= |EncodeEntries(entries)|
  {
    if k > 0 {
      EncodedPrefixShorter(entries[1..], k - 1);
      assert entries[..k][1..] == entries[1..][..k - 1];
    }
  }

  method EncodeImage(s: Persistent) returns (r: Option<seq<Byte>>)
    ensures r == EncodeState(s)
  {
    hide EncodeExtensions, EncodeMeta, EncodeEntries;
    var valid := ValidateEntries(s.entries);
    if |s.entries| > MAX_ENTRIES || !valid || s.commit > LastIndex(s.entries) {
      return None;
    }
    var start := EncodeMeta(MetaOf(s)) + U32(|s.entries|);
    var body := AppendEntries(start, s.entries);
    assert start + EncodeEntries(s.entries) == ImageBody(s);
    if body.None? {
      return None;
    }
    var extensions := EncodeExtensions(s);
    if extensions.None? {
      return None;
    }
    return Some(body.value + extensions.value);
  }

  method CommonPrefixLength(a: seq<LogEntry>, b: seq<LogEntry>) returns (n: nat)
    ensures n == CommonPrefix(a, b)
  {
    n := 0;
    while n < |a| && n < |b| && a[n] == b[n]
      invariant n <= |a| && n <= |b| && a[..n] == b[..n]
    {
      n := n + 1;
    }
    CommonPrefixIs(a, b, n);
  }

  lemma CommonPrefixIs(a: seq<LogEntry>, b: seq<LogEntry>, n: nat)
    requires n <= |a| && n <= |b| && a[..n] == b[..n] && (n < |a| && n < |b| ==> a[n] != b[n])
    ensures CommonPrefix(a, b) == n
  {
    var m := CommonPrefix(a, b);
    assert forall j :: 0 <= j < n ==> a[j] == a[..n][j] == b[j];
    assert forall j :: 0 <= j < m ==> a[j] == a[..m][j] == b[j];
  }

  method EncodePatch(previous: Persistent, s: Persistent) returns (r: Option<seq<Byte>>)
    ensures r == EncodeDelta(previous, s)
  {
    hide EncodeMeta, EncodeEntries, DeltaBody, Restorable, CommonPrefix, CommandsFit;
    var valid := ValidateEntries(s.entries);
    var validBefore := ValidateEntries(previous.entries);
    if s.term < previous.term || s.commit < previous.commit || !valid || !validBefore || s.entries == [] ||
       |s.entries| > MAX_ENTRIES || s.commit > LastIndex(s.entries) {
      return None;
    }
    var common := CommonPrefixLength(previous.entries, s.entries);
    if common == 0 {
      return None;
    }
    var suffix := s.entries[common..];
    var start := EncodeMeta(MetaOf(s)) + U64(common) + U32(|suffix|);
    r := AppendEntries(start, suffix);
    DeltaFrom(s, common);
  }

  /** A delta is its metadata and its suffix; without a suffix it always fits. */
  lemma DeltaFrom(s: Persistent, common: nat)
    requires common <= |s.entries|
    ensures var suffix := s.entries[common..];
            && EncodeMeta(MetaOf(s)) + U64(common) + U32(|suffix|) + EncodeEntries(suffix) == DeltaBody(s, common)
            && (suffix == [] ==> |DeltaBody(s, common)| <= MAX_PAYLOAD)
  {
  }

  // ---------------------------------------------------------------- decoding loops

  /** Reads `count` entries from an offset on. */
  method ReadEntries(input: seq<Byte>, offset: nat, count: nat) returns (ok: bool, entries: seq<LogEntry>, end: nat)
    requires offset <= |input|
    ensures ok <==> DecodeEntries(input[offset..], count).Some?
    ensures ok ==> offset <= end <= |input|
    ensures ok ==> DecodeEntries(input[offset..], count) == Some(Read(entries, input[end..]))
  {
    hide DecodeEntry, DecodeEntries;
    entries, end := [], offset;
    ResumedStart(DecodeEntries(input[offset..], count));
    for i := 0 to count
      invariant offset <= end <= |input|
      invariant Resumed(entries, DecodeEntries(input[end..], count - i)) == DecodeEntries(input[offset..], count)
    {
      var next := DecodeEntry(input[end..]);
      ResumedNext(entries, input[end..], count - i);
      if next.None? {
        return false, [], offset;
      }
      DecodeEntryRest(input[end..]);
      entries := entries + [next.value.value];
      end := |input| - |next.value.rest|;
    }
    ResumedEnd(entries, input[end..]);
    ok := true;
  }

  lemma ResumedStart(r: Option<Read<seq<LogEntry>>>)
    ensures Resumed([], r) == r
  {
    if r.Some? {
      assert [] + r.value.value == r.value.value;
    }
  }

  lemma ResumedEnd(before: seq<LogEntry>, input: seq<Byte>)
    ensures Resumed(before, DecodeEntries(input, 0)) == Some(Read(before, input))
  {
    assert before + [] == before;
  }

  /** What has been read, followed by what is still to be read. */
  ghost function Resumed(before: seq<LogEntry>, r: Option<Read<seq<LogEntry>>>): Option<Read<seq<LogEntry>>> {
    match r case None => None case Some(more) => Some(Read(before + more.value, more.rest))
  }

  lemma ResumedNext(before: seq<LogEntry>, input: seq<Byte>, count: nat)
    requires count > 0
    ensures DecodeEntry(input).None? ==> DecodeEntries(input, count).None?
    ensures DecodeEntry(input).Some? ==>
              var first := DecodeEntry(input).value;
              Resumed(before, DecodeEntries(input, count)) ==
              Resumed(before + [first.value], DecodeEntries(first.rest, count - 1))
  {
    hide DecodeEntry;
    if DecodeEntry(input).Some? {
      var first := DecodeEntry(input).value;
      var more := DecodeEntries(first.rest, count - 1);
      if more.Some? {
        assert before + ([first.value] + more.value.value) == before + [first.value] + more.value.value;
      }
    }
  }

  /** What an entry leaves is a suffix of its input. */
  lemma DecodeEntryRest(input: seq<Byte>)
    requires DecodeEntry(input).Some?
    ensures var rest := DecodeEntry(input).value.rest;
            |rest| <= |input| && rest == input[|input| - |rest|..]
  {
  }

  method DecodeImage(input: seq<Byte>) returns (r: Option<Persistent>)
    ensures r == DecodeState(input)
  {
    hide DecodeMeta, Read32, DecodeEntries, DecodeExtensions;
    var meta := DecodeMeta(input);
    if meta.None? {
      return None;
    }
    var count := Read32(meta.value.rest);
    if count.None? || count.value.value == 0 || count.value.value > MAX_ENTRIES {
      return None;
    }
    var body := count.value.rest;
    assert body[0..] == body;
    var ok, entries, end := ReadEntries(body, 0, count.value.value);
    if !ok {
      return None;
    }
    var x := DecodeExtensions(body[end..]);
    if x.None? {
      return None;
    }
    var valid := ValidateEntries(entries);
    if !valid || meta.value.value.commit > LastIndex(entries) {
      return None;
    }
    return Some(Persistent(meta.value.value.term, meta.value.value.votedFor, entries, meta.value.value.commit,
                           x.value.cluster, x.value.joint, x.value.active, x.value.completed));
  }

  method ApplyDelta(latest: Persistent, input: seq<Byte>) returns (r: Option<Persistent>)
    ensures r == DecodeDelta(latest, input)
  {
    hide DecodeMeta, Read32, Read64, DecodeEntries;
    var meta := DecodeMeta(input);
    if meta.None? {
      return None;
    }
    var truncate := Read64(meta.value.rest);
    if truncate.None? {
      return None;
    }
    var count := Read32(truncate.value.rest);
    if count.None? {
      return None;
    }
    var body, t, m := count.value.rest, truncate.value.value, meta.value.value;
    assert body[0..] == body;
    var ok, entries, end := ReadEntries(body, 0, count.value.value);
    if !ok || end != |body| {
      assert ok ==> body[end..] != [];
      return None;
    }
    assert body[end..] == [];
    var validBefore := ValidateEntries(latest.entries);
    if m.term < latest.term || m.commit < latest.commit || !validBefore ||
       t == 0 || t > |latest.entries| || t > MAX_ENTRIES ||
       |entries| > MAX_ENTRIES - t {
      return None;
    }
    var replaced := latest.entries[..t] + entries;
    var valid := ValidateEntries(replaced);
    if !valid || m.commit > LastIndex(replaced) {
      return None;
    }
    return Some(latest.(term := m.term, votedFor := m.votedFor, entries := replaced, commit := m.commit));
  }

  // ---------------------------------------------------------------- chains

  lemma {:induction false} ChainMore(latest: Option<Persistent>, rs: seq<Record>, states: seq<Persistent>, r: Record,
                                     s: Persistent)
    requires Chain(latest, rs, states) && Apply(LastOf(latest, states), r) == Some(s)
    ensures Chain(latest, rs + [r], states + [s])
    decreases |rs|
  {
    hide Apply;
    if rs == [] {
      assert (rs + [r])[1..] == [] && (states + [s])[1..] == [];
    } else {
      ChainMore(Some(states[0]), rs[1..], states[1..], r, s);
      assert (rs + [r])[1..] == rs[1..] + [r] && (states + [s])[1..] == states[1..] + [s];
    }
  }

  lemma {:induction false} JournalSnoc(crc: Checksum, rs: seq<Record>, r: Record)
    ensures JournalBytes(crc, rs + [r]) == JournalBytes(crc, rs) + RecordBytes(crc, r)
  {
    hide RecordBytes;
    if rs == [] {
      assert (rs + [r])[1..] == [];
      assert RecordBytes(crc, r) + [] == RecordBytes(crc, r);
    } else {
      JournalSnoc(crc, rs[1..], r);
      assert (rs + [r])[1..] == rs[1..] + [r];
    }
  }

  /** The record that the bytes at the front of a journal spell out. */
  lemma RecordRead(crc: Checksum, input: seq<Byte>, full: bool, size: nat)
    requires |input| >= RECORD_HEADER + size && MagicOf(input, full) && Value(input[4..8]) == size
    requires crc(input[RECORD_HEADER..RECORD_HEADER + size]) == Value(input[8..12])
    ensures input[..RECORD_HEADER + size] == RecordBytes(crc, Record(full, input[RECORD_HEADER..RECORD_HEADER + size]))
  {
    BigOfValue(input[4..8]);
    BigOfValue(input[8..12]);
    assert input[..RECORD_HEADER + size] ==
           input[..4] + input[4..8] + input[8..12] + input[RECORD_HEADER..RECORD_HEADER + size];
  }

  // ---------------------------------------------------------------- the file

  lemma JournalEmpty(crc: Checksum, file: seq<Byte>)
    requires Header() <= file
    ensures |Header()| == 16 && file[..16] == Header() + JournalBytes(crc, []) && Chain(None, [], [])
    ensures DeltasAfter(0, []) == 0
  {
  }

  /** One turn of the replay loop. */
  lemma ReplayTurn(crc: Checksum, input: seq<Byte>, latest: Option<Persistent>, done: nat, deltas: nat)
    ensures var r := Replay(crc, input, latest, done, deltas);
            if |input| < RECORD_HEADER then r == Loaded(latest, done, deltas)
            else
              var full, size := MagicOf(input, true), Value(input[4..8]);
              if (!full && !MagicOf(input, false)) || size == 0 || size > MAX_PAYLOAD then r == Corrupt
              else if RECORD_HEADER + size > |input| then r == Loaded(latest, done, deltas)
              else
                var payload := input[RECORD_HEADER..RECORD_HEADER + size];
                if crc(payload) != Value(input[8..12]) || Apply(latest, Record(full, payload)).None? then r == Corrupt
                else r == Replay(crc, input[RECORD_HEADER + size..], Apply(latest, Record(full, payload)),
                                 done + RECORD_HEADER + size, if full then 0 else deltas + 1)
  {
    hide Apply;
  }

  lemma ReplayEnds(crc: Checksum, file: seq<Byte>, offset: nat, latest: Option<Persistent>, deltas: nat)
    requires offset >= |file|
    ensures offset == |file| ==> Replay(crc, file[offset..], latest, offset, deltas) == Loaded(latest, offset, deltas)
  {
  }

  method ApplyRecord(latest: Option<Persistent>, full: bool, payload: seq<Byte>) returns (next: Option<Persistent>)
    ensures next == Apply(latest, Record(full, payload))
  {
    if full {
      next := DecodeImage(payload);
    } else if latest.None? {
      next := None;
    } else {
      next := ApplyDelta(latest.value, payload);
    }
  }

  // ---------------------------------------------------------------- what a save writes

  predicate WritesDelta(last: Option<Persistent>, s: Persistent) {
    && last.Some? && last.value.entries != [] && s.entries != [] && last.value.entries[0] == s.entries[0]
    && SameExtensions(last.value, s)
  }

  function Written(last: Option<Persistent>, s: Persistent): Option<Record> {
    var payload := if WritesDelta(last, s) then EncodeDelta(last.value, s) else EncodeState(s);
    if payload.None? then None else Some(Record(!WritesDelta(last, s), payload.value))
  }

  predicate DueForCompaction(r: Record, deltas: nat, size: nat, maximumDeltas: nat, maximumBytes: nat) {
    (if r.full then 0 else deltas + 1) >= maximumDeltas || size + RECORD_HEADER + |r.payload| >= maximumBytes
  }

  lemma OptionalSizes(c: Option<Configuration>, o: Option<Operation>)
    requires EncodeOptionalConfiguration(c).Some? && EncodeOptionalOperation(o).Some?
    ensures 1 <= |EncodeOptionalConfiguration(c).value| <= 5 + 12 + 528 * MAX_MEMBERS
    ensures 1 <= |EncodeOptionalOperation(o).value| <= 5 + 537
  {
    if c.Some? {
      ConfigurationSize(c.value);
    }
    if o.Some? {
      OperationSize(o.value);
    }
  }

  /** The extension is at least eight bytes, and with it the image may pass the limit that the
      loader enforces. */
  lemma ImageSize(s: Persistent)
    requires EncodeState(s).Some?
    ensures |ImageBody(s)| + 8 <= |EncodeState(s).value| <= MAX_PAYLOAD + 70000 < LIMIT_32
  {
    OptionalSizes(s.cluster, s.active);
    OptionalSizes(s.joint, s.completed);
  }

  /** Reading a written record back gives the state it was written for. */
  lemma WrittenBack(last: Option<Persistent>, s: Persistent)
    requires Words(s) && Written(last, s).Some?
    ensures var r := Written(last, s).value;
            Apply(last, r) == Some(s) && 0 < |r.payload| < LIMIT_32 && (!r.full ==> |r.payload| <= MAX_PAYLOAD)
  {
    hide EncodeEntries, DecodeState, DecodeDelta, EncodeMeta, EncodeExtensions;
    if WritesDelta(last, s) {
      DeltaBack(last.value, s);
    } else {
      StateBack(s);
      ImageSize(s);
    }
  }

  datatype Turn = Torn | Damaged | Taken(full: bool, size: nat, next: Persistent)

  class FileRaftPersistence {
    const crc: Checksum
    const maximumDeltaRecords: nat
    const maximumFileBytes: nat
    var file: seq<Byte>
    var lastState: Option<Persistent>
    var deltaRecordCount: nat
    var fileSize: nat
    ghost var records: seq<Record>
    ghost var states: seq<Persistent>

    /** The file is its records, and each gives the state it was written for. */
    ghost predicate Valid()
      reads this
    {
      && file == Header() + JournalBytes(crc, records) && fileSize == |file|
      && Chain(None, records, states) && lastState == LastOf(None, states)
      && AllSized(records) && deltaRecordCount == DeltasAfter(0, records)
    }

    /** The bytes before the offset are the records read so far. */
    ghost predicate ReadUpTo(offset: nat, state: Option<Persistent>, deltas: nat)
      reads this
    {
      && offset <= |file| && file[..offset] == Header() + JournalBytes(crc, records)
      && Chain(None, records, states) && state == LastOf(None, states)
      && AllSized(records) && deltas == DeltasAfter(0, records)
    }

    ghost method Consume(offset: nat, full: bool, size: nat, state: Option<Persistent>, next: Persistent)
      requires ReadUpTo(offset, state, deltaRecordCount)
      requires offset + RECORD_HEADER + size <= |file| && 0 < size < LIMIT_32
      requires var rest := file[offset..];
               && MagicOf(rest, full) && Value(rest[4..8]) == size
               && crc(rest[RECORD_HEADER..RECORD_HEADER + size]) == Value(rest[8..12])
               && Apply(state, Record(full, rest[RECORD_HEADER..RECORD_HEADER + size])) == Some(next)
      modifies this`records, this`states
      ensures ReadUpTo(offset + RECORD_HEADER + size, Some(next), if full then 0 else deltaRecordCount + 1)
    {
      hide RecordBytes, Apply;
      var rest := file[offset..];
      var r := Record(full, rest[RECORD_HEADER..RECORD_HEADER + size]);
      RecordRead(crc, rest, full, size);
      JournalSnoc(crc, records, r);
      ChainMore(None, records, states, r, next);
      DeltasSnoc(0, records, r);
      assert file[..offset + RECORD_HEADER + size] == file[..offset] + rest[..RECORD_HEADER + size];
      records, states := records + [r], states + [next];
    }

    constructor (crc: Checksum, maximumDeltaRecords: nat, maximumFileBytes: nat, contents: seq<Byte>)
      ensures this.crc == crc && this.maximumDeltaRecords == maximumDeltaRecords
      ensures this.maximumFileBytes == maximumFileBytes
      ensures file == contents && lastState == None && records == [] && states == []
    {
      this.crc, this.maximumDeltaRecords, this.maximumFileBytes := crc, maximumDeltaRecords, maximumFileBytes;
      file, lastState, deltaRecordCount, fileSize, records, states := contents, None, 0, |contents|, [], [];
    }

    /** `openLocked`: an empty file gets a header; any other must start with it. */
    method Open() returns (ok: bool)
      modifies this`file, this`fileSize
      ensures ok <==> maximumDeltaRecords != 0 && maximumFileBytes >= 28 && (old(file) == [] || Header() <= old(file))
      ensures ok ==> file == (if old(file) == [] then Header() else old(file)) && Header() <= file
      ensures !ok ==> file == old(file)
    {
      if maximumDeltaRecords == 0 || maximumFileBytes < 28 {
        return false;
      }
      if file == [] {
        file, fileSize := Header(), |Header()|;
        return true;
      }
      if |file| < 16 || file[..16] != Header() {
        return false;
      }
      fileSize := |file|;
      return true;
    }

    /** One turn of the loop: the record at the offset, judged. */
    method ReadRecord(offset: nat, state: Option<Persistent>) returns (turn: Turn)
      requires 16 <= offset < |file| && ReadUpTo(offset, state, deltaRecordCount)
      modifies this`records, this`states
      ensures var r := Replay(crc, file[offset..], state, offset, deltaRecordCount);
              match turn
              case Torn => r == Loaded(state, offset, deltaRecordCount) && ReadUpTo(offset, state, deltaRecordCount)
              case Damaged => r == Corrupt
              case Taken(full, size, next) =>
                && offset + RECORD_HEADER + size <= |file|
                && ReadUpTo(offset + RECORD_HEADER + size, Some(next), if full then 0 else deltaRecordCount + 1)
                && r == Replay(crc, file[offset + RECORD_HEADER + size..], Some(next), offset + RECORD_HEADER + size,
                               if full then 0 else deltaRecordCount + 1)
    {
      hide Replay, JournalBytes, Chain, RecordBytes, Apply;
      var rest := file[offset..];
      ReplayTurn(crc, rest, state, offset, deltaRecordCount);
      if |rest| < RECORD_HEADER {
        return Torn;
      }
      var full, size := rest[..4] == FULL_MAGIC, Value(rest[4..8]);
      if (!full && rest[..4] != DELTA_MAGIC) || size == 0 || size > MAX_PAYLOAD {
        return Damaged;
      }
      if RECORD_HEADER + size > |rest| {
        return Torn;
      }
      var payload := rest[RECORD_HEADER..RECORD_HEADER + size];
      if crc(payload) != Value(rest[8..12]) {
        return Damaged;
      }
      var next := ApplyRecord(state, full, payload);
      if next.None? {
        return Damaged;
      }
      Consume(offset, full, size, state, next.value);
      assert rest[RECORD_HEADER + size..] == file[offset + RECORD_HEADER + size..];
      return Taken(full, size, next.value);
    }

    /** Replays the file, cutting off a record that is not wholly there. */
    method Load() returns (ok: bool, state: Option<Persistent>)
      requires Header() <= file
      modifies this
      ensures var r := Replay(crc, old(file)[16..], None, 16, 0);
              && (ok <==> r.Loaded?)
              && (ok ==> r.size <= |old(file)| && file == old(file)[..r.size] && Valid())
              && (ok ==> state == lastState == r.latest && deltaRecordCount == r.deltas)
              && (!ok ==> file == old(file))
    {
      hide Replay, JournalBytes, Chain, RecordBytes, Apply;
      state, deltaRecordCount, records, states := None, 0, [], [];
      var offset := 16;
      JournalEmpty(crc, file);
      while offset < |file|
        invariant 16 <= offset <= |file| && file == old(file) && ReadUpTo(offset, state, deltaRecordCount)
        invariant Replay(crc, file[offset..], state, offset, deltaRecordCount) ==
                  Replay(crc, old(file)[16..], None, 16, 0)
      {
        var turn := ReadRecord(offset, state);
        match turn
        case Torn =>
          file := file[..offset];
          break;
        case Damaged =>
          return false, None;
        case Taken(full, size, next) =>
          state, deltaRecordCount := Some(next), if full then 0 else deltaRecordCount + 1;
          offset := offset + RECORD_HEADER + size;
      }
      ReplayEnds(crc, file, offset, state, deltaRecordCount);
      fileSize, lastState := offset, state;
      ok := true;
    }

    method AppendRecord(r: Record, ghost s: Persistent)
      requires Valid() && Apply(lastState, r) == Some(s) && 0 < |r.payload| < LIMIT_32
      modifies this`file, this`fileSize, this`records, this`states
      ensures file == old(file) + RecordBytes(crc, r) == Header() + JournalBytes(crc, records) && fileSize == |file|
      ensures records == old(records) + [r] && states == old(states) + [s] && Chain(None, records, states)
      ensures DeltasAfter(0, records) == if r.full then 0 else old(deltaRecordCount) + 1
    {
      hide RecordBytes, Apply;
      JournalSnoc(crc, records, r);
      ChainMore(None, records, states, r, s);
      DeltasSnoc(0, records, r);
      file := file + RecordBytes(crc, r);
      fileSize := |file|;
      records, states := records + [r], states + [s];
    }

    /** The compacted file replaces the old one: one full image. */
    method CompactLocked(s: Persistent) returns (ok: bool)
      requires Valid() && Words(s) && lastState == Some(s)
      modifies this
      ensures Valid() && lastState == Some(s) && (ok <==> EncodeState(s).Some?)
      ensures ok ==> records == [Record(true, EncodeState(s).value)] && states == [s] && deltaRecordCount == 0
      ensures !ok ==> records == old(records) && states == old(states)
      ensures !ok ==> file == old(file) && deltaRecordCount == old(deltaRecordCount)
    {
      hide EncodeState, DecodeState, RecordBytes;
      var payload := EncodeImage(s);
      if payload.None? {
        return false;
      }
      var r := Record(true, payload.value);
      file := Header() + RecordBytes(crc, r);
      StateBack(s);
      ImageSize(s);
      records, states := [r], [s];
      JournalSnoc(crc, [], r);
      ChainMore(None, [], [], r, s);
      DeltasSnoc(0, [], r);
      assert [] + [r] == [r] && [] + [s] == [s];
      deltaRecordCount, fileSize := 0, |file|;
      return true;
    }

    /** Appends the state as a delta or a full image, and compacts when a limit is reached. */
    method Save(s: Persistent) returns (ok: bool)
      requires Valid() && Words(s)
      modifies this
      ensures Valid()
      ensures match Written(old(lastState), s)
              case None =>
                && !ok && file == old(file) && lastState == old(lastState)
                && records == old(records) && states == old(states)
              case Some(r) =>
                && lastState == Some(s)
                && if DueForCompaction(r, old(deltaRecordCount), old(fileSize), maximumDeltaRecords,
                                       maximumFileBytes) then
                     && (ok <==> EncodeState(s).Some?)
                     && records == (if ok then [Record(true, EncodeState(s).value)] else old(records) + [r])
                     && states == (if ok then [s] else old(states) + [s])
                   else ok && records == old(records) + [r] && states == old(states) + [s]
      ensures ok ==> || (|records| == 1 && records[0].full)
                     || (deltaRecordCount < maximumDeltaRecords && fileSize < maximumFileBytes)
    {
      hide EncodeState, EncodeDelta, Apply, RecordBytes, JournalBytes, Chain;
      var writeDelta := WritesDelta(lastState, s);
      var payload;
      if writeDelta {
        payload := EncodePatch(lastState.value, s);
      } else {
        payload := EncodeImage(s);
      }
      if payload.None? {
        return false;
      }
      var r := Record(!writeDelta, payload.value);
      WrittenBack(lastState, s);
      AppendRecord(r, s);
      lastState := Some(s);
      deltaRecordCount := if writeDelta then deltaRecordCount + 1 else 0;
      ok := true;
      if deltaRecordCount >= maximumDeltaRecords || fileSize >= maximumFileBytes {
        ok := CompactLocked(s);
      }
    }

    /** The file survives a crash up to byte n behind which nothing reached the disk, and is loaded. */
    method CrashAndLoad(n: nat) returns (ok: bool, state: Option<Persistent>)
      requires Valid() && 16 <= n <= |file|
      modifies this
      ensures var k := Whole(crc, old(records), n - 16);
              && k <= |old(states)| && (ok <==> CutFits(crc, old(records), n - 16))
              && (ok ==> Valid() && state == lastState == LastOf(None, old(states)[..k]))
              && (ok ==> file == FileBytes(crc, old(records)[..k]))
    {
      hide Replay, JournalBytes, Chain, CutFits, Whole, AllSized;
      ghost var rs := records;
      CrashReplay(crc, records, states, n);
      FileCut(crc, rs, Whole(crc, rs, n - 16), n);
      file := file[..n];
      ok, state := Load();
    }

    /** A save, seen from the states on file: it is there unless it could not be encoded. A failure
        leaves the file alone, or has the state on file and no full image to compact to. */
    method SaveOne(s: Persistent) returns (ok: bool)
      requires Valid() && Words(s)
      modifies this
      ensures Valid()
      ensures ok ==> states == old(states) + [s] || states == [s]
      ensures !ok ==> || (Written(old(lastState), s).None? && states == old(states) && lastState == old(lastState))
                      || (EncodeState(s).None? && states == old(states) + [s])
    {
      hide Written, DueForCompaction, EncodeState, Chain, JournalBytes, AllSized, Words;
      ok := Save(s);
    }

    /** The saves stopped early for one of two reasons: the next state was refused, or the last one
        written could not be compacted. */
    ghost predicate StoppedAt(ss: seq<Persistent>, written: nat, last: Option<Persistent>)
      requires written <= |ss|
    {
      || (written < |ss| && Written(last, ss[written]).None?)
      || (written > 0 && EncodeState(ss[written - 1]).None?)
    }

    /** Saves states until one fails. `written` is how many reached the file, `first` how many of the
        states on file or saved were left behind by compactions: none, or all before a state saved here. */
    method SaveAll(ss: seq<Persistent>) returns (all: bool, ghost written: nat, ghost first: nat)
      requires Valid() && forall j :: 0 <= j < |ss| ==> Words(ss[j])
      modifies this
      ensures Valid() && written <= |ss| && Kept(states, old(states), ss, written, first)
      ensures if all then written == |ss| else StoppedAt(ss, written, lastState)
      ensures written > 0 ==> lastState == Some(ss[written - 1])
    {
      hide Words, Valid, Written, EncodeState, Kept;
      written, first, all := 0, 0, true;
      KeptNone(states, ss);
      for i := 0 to |ss|
        invariant Valid() && written == i && all && Kept(states, old(states), ss, i, first)
      {
        KeptMore(states, old(states), ss, i, first);
        ghost var before := states;
        all := SaveOne(ss[i]);
        if states == before + [ss[i]] {
          written := i + 1;
        } else if all {
          written, first := i + 1, |old(states)| + i;
        }
        if !all {
          break;
        }
      }
      LastIsLast();
      if written > 0 {
        KeptLast(states, old(states), ss, written, first);
      }
    }

    lemma LastIsLast()
      requires Valid()
      ensures lastState == LastOf(None, states)
    {
    }

    /** States are saved until one fails; then the file is cut anywhere behind its header and loaded
        again. It loads if and only if no size above the limit can be read up to there, and then as
        the last of the states saved whose record is wholly contained: uncut, the last one written. */
    method SaveAllThenCrash(ss: seq<Persistent>, cut: nat)
      returns (all: bool, ok: bool, state: Option<Persistent>, ghost written: nat, ghost first: nat,
               ghost rs: seq<Record>)
      requires Valid() && forall j :: 0 <= j < |ss| ==> Words(ss[j])
      modifies this
      ensures written <= |ss| && first <= |old(states)| + written
      ensures var kept := (old(states) + ss[..written])[first..];
              && Kept(kept, old(states), ss, written, first) && Chain(None, rs, kept) && AllSized(rs)
              && (if all then written == |ss| else StoppedAt(ss, written, LastOf(None, kept)))
              && var n := Min(cut, |JournalBytes(crc, rs)|);
                 var k := Whole(crc, rs, n);
                 && k <= |kept| && (ok <==> CutFits(crc, rs, n))
                 && (ok ==> Valid() && state == LastOf(None, kept[..k]) && file == FileBytes(crc, rs[..k]))
      ensures ok && cut >= |JournalBytes(crc, rs)| && written > 0 ==> state == Some(ss[written - 1])
    {
      hide Chain, JournalBytes, CutFits, Whole, AllSized, Words, Written, EncodeState;
      all, written, first := SaveAll(ss);
      rs := records;
      ghost var kept := states;
      WholeOfAll(crc, rs);
      ChainLength(None, rs, kept);
      assert kept[..|rs|] == kept;
      ok, state := CrashAndLoad(16 + Min(cut, fileSize - 16));
    }
  }

  /** On file are the states that were there and the first `written` saved, but for the first `first`:
      none of them, or all before one that was saved. */
  ghost predicate Kept(states: seq<Persistent>, was: seq<Persistent>, ss: seq<Persistent>, written: nat, first: nat) {
    && written <= |ss| && (first == 0 || |was| <= first < |was| + written)
    && states == (was + ss[..written])[first..]
  }

  lemma KeptNone(states: seq<Persistent>, ss: seq<Persistent>)
    ensures Kept(states, states, ss, 0, 0)
  {
    assert states + ss[..0] == states;
  }

  /** One more state on file, behind the others or alone after a compaction. */
  lemma KeptMore(states: seq<Persistent>, was: seq<Persistent>, ss: seq<Persistent>, i: nat, first: nat)
    requires i < |ss| && Kept(states, was, ss, i, first)
    ensures Kept(states + [ss[i]], was, ss, i + 1, first)
    ensures Kept([ss[i]], was, ss, i + 1, |was| + i)
  {
    assert ss[..i + 1] == ss[..i] + [ss[i]];
  }

  lemma KeptLast(states: seq<Persistent>, was: seq<Persistent>, ss: seq<Persistent>, written: nat, first: nat)
    requires Kept(states, was, ss, written, first) && written > 0
    ensures LastOf(None, states) == Some(ss[written - 1])
  {
    assert ss[..written][written - 1] == ss[written - 1];
  }

  lemma FileCut(crc: Checksum, rs: seq<Record>, k: nat, n: nat)
    requires k <= |rs| && |FileBytes(crc, rs[..k])| <= n <= |FileBytes(crc, rs)|
    ensures FileBytes(crc, rs)[..n][..|FileBytes(crc, rs[..k])|] == FileBytes(crc, rs[..k])
    ensures Header() <= FileBytes(crc, rs)
  {
    JournalPrefix(crc, rs, k);
  }

  lemma {:induction false} JournalPrefix(crc: Checksum, rs: seq<Record>, k: nat)
    requires k <= |rs|
    ensures JournalBytes(crc, rs[..k]) <= JournalBytes(crc, rs)
  {
    hide RecordBytes;
    if k > 0 {
      JournalPrefix(crc, rs[1..], k - 1);
      assert rs[..k][1..] == rs[1..][..k - 1];
    }
  }
}
