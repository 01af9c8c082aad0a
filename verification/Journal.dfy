/** The journal file: a header and checksummed records, read back up to the first record that is
    not wholly there. The checksum is any function of the payload. */
module Journal {
  import opened RaftTypes
  import opened LogSpec
  import opened Bytes
  import opened ClusterConfig
  import opened JournalCodec

  type Word32 = x: nat | x < 0x1_0000_0000
  type Checksum = seq<Byte> -> Word32

  const FULL_MAGIC: seq<Byte> := [0xd6, 0x52, 0x46, 0x54]
  const DELTA_MAGIC: seq<Byte> := [0xd6, 0x52, 0x46, 0x44]
  const RECORD_HEADER: nat := 12

  datatype Record = Record(full: bool, payload: seq<Byte>)

  function Header(): (bytes: seq<Byte>)
    ensures |bytes| == 16
  {
    [0x44, 0x4b, 0x56, 0x52, 0x41, 0x46, 0x54, 0] + U32(1) + U32(0)
  }

  function RecordBytes(crc: Checksum, r: Record): (bytes: seq<Byte>)
    ensures |bytes| == RECORD_HEADER + |r.payload|
  {
    (if r.full then FULL_MAGIC else DELTA_MAGIC) + U32(|r.payload|) + U32(crc(r.payload)) + r.payload
  }

  function JournalBytes(crc: Checksum, rs: seq<Record>): seq<Byte> {
    if rs == [] then [] else RecordBytes(crc, rs[0]) + JournalBytes(crc, rs[1..])
  }

  /** The state after one more record: a full image stands alone, a delta needs a base. */
  function Apply(latest: Option<Persistent>, r: Record): Option<Persistent> {
    if r.full then DecodeState(r.payload)
    else if latest.None? then None
    else DecodeDelta(latest.value, r.payload)
  }

  datatype Replayed = Corrupt | Loaded(latest: Option<Persistent>, size: nat, deltas: nat)

  predicate MagicOf(input: seq<Byte>, full: bool)
    requires |input| >= RECORD_HEADER
  {
    input[..4] == if full then FULL_MAGIC else DELTA_MAGIC
  }

  /** `load` after the header, on the bytes not yet read; a torn tail is cut off. */
  function Replay(crc: Checksum, input: seq<Byte>, latest: Option<Persistent>, done: nat, deltas: nat): Replayed
    decreases |input|
  {
    if |input| < RECORD_HEADER then Loaded(latest, done, deltas)
    else if !MagicOf(input, true) && !MagicOf(input, false) then Corrupt
    else
      var full := MagicOf(input, true);
      var size := Value(input[4..8]);
      if size == 0 || size > MAX_PAYLOAD then Corrupt
      else if RECORD_HEADER + size > |input| then Loaded(latest, done, deltas)
      else
        var payload := input[RECORD_HEADER..RECORD_HEADER + size];
        if crc(payload) != Value(input[8..12]) then Corrupt
        else
          match Apply(latest, Record(full, payload))
          case None => Corrupt
          case Some(next) =>
            Replay(crc, input[RECORD_HEADER + size..], Some(next), done + RECORD_HEADER + size,
                   if full then 0 else deltas + 1)
  }

  // ---------------------------------------------------------------- one record

  ghost predicate Fits(r: Record) {
    0 < |r.payload| <= MAX_PAYLOAD
  }

  lemma HeaderFields(crc: Checksum, r: Record, rest: seq<Byte>)
    requires |r.payload| < LIMIT_32
    ensures var input := RecordBytes(crc, r) + rest;
            && (MagicOf(input, true) <==> r.full) && (MagicOf(input, false) <==> !r.full)
            && Value(input[4..8]) == |r.payload| && Value(input[8..12]) == crc(r.payload)
            && input[12..12 + |r.payload|] == r.payload && input[12 + |r.payload|..] == rest
  {
    var input := RecordBytes(crc, r) + rest;
    assert input[..4] == if r.full then FULL_MAGIC else DELTA_MAGIC;
    assert FULL_MAGIC[3] != DELTA_MAGIC[3];
    assert input[4..8] == U32(|r.payload|) && input[8..12] == U32(crc(r.payload));
    Limits();
    ValueOfBig(|r.payload|, 4);
    ValueOfBig(crc(r.payload), 4);
  }

  /** A record that fits is read whole, and reading goes on behind it. */
  lemma ReplayRecord(crc: Checksum, r: Record, rest: seq<Byte>, latest: Option<Persistent>, done: nat, deltas: nat)
    requires Fits(r) && Apply(latest, r).Some?
    ensures Replay(crc, RecordBytes(crc, r) + rest, latest, done, deltas) ==
            Replay(crc, rest, Apply(latest, r), done + RECORD_HEADER + |r.payload|, if r.full then 0 else deltas + 1)
  {
    hide RecordBytes, MagicOf, Apply;
    HeaderFields(crc, r, rest);
    assert Apply(latest, r) == Some(Apply(latest, r).value);
  }

  /** A record of which only a proper prefix is there is left out; its size is looked at only
      once its header is whole. */
  lemma ReplayTorn(crc: Checksum, r: Record, n: nat, latest: Option<Persistent>, done: nat, deltas: nat)
    requires n < |RecordBytes(crc, r)| && (n < RECORD_HEADER || Fits(r))
    ensures Replay(crc, RecordBytes(crc, r)[..n], latest, done, deltas) == Loaded(latest, done, deltas)
  {
    var bytes := RecordBytes(crc, r);
    if n >= RECORD_HEADER {
      var input := bytes[..n];
      HeaderFields(crc, r, []);
      assert bytes + [] == bytes;
      assert input[..4] == bytes[..4] && input[4..8] == bytes[4..8];
    }
  }

  /** A record above the size limit is refused, whether or not all of it is there. */
  lemma ReplayOversized(crc: Checksum, r: Record, n: nat, latest: Option<Persistent>, done: nat, deltas: nat,
                        rest: seq<Byte>)
    requires MAX_PAYLOAD < |r.payload| < LIMIT_32 && RECORD_HEADER <= n <= |RecordBytes(crc, r) + rest|
    ensures Replay(crc, (RecordBytes(crc, r) + rest)[..n], latest, done, deltas) == Corrupt
  {
    var bytes := RecordBytes(crc, r) + rest;
    var input := bytes[..n];
    HeaderFields(crc, r, rest);
    assert input[..4] == bytes[..4] && input[4..8] == bytes[4..8];
  }

  // ---------------------------------------------------------------- whole journals

  /** Each record turns the state before it into the state recorded beside it. */
  ghost predicate Chain(latest: Option<Persistent>, rs: seq<Record>, states: seq<Persistent>)
    decreases |rs|
  {
    && |rs| == |states|
    && (rs == [] || (Apply(latest, rs[0]) == Some(states[0]) && Chain(Some(states[0]), rs[1..], states[1..])))
  }

  ghost predicate AllFit(rs: seq<Record>) {
    forall k :: 0 <= k < |rs| ==> Fits(rs[k])
  }

  /** What the encoders produce: no payload is empty or longer than its length field can say. */
  ghost predicate AllSized(rs: seq<Record>) {
    forall k :: 0 <= k < |rs| ==> 0 < |rs[k].payload| < LIMIT_32
  }

  /** How many records the first n bytes hold entirely. */
  ghost function Whole(crc: Checksum, rs: seq<Record>, n: nat): (k: nat)
    ensures k <= |rs| && |JournalBytes(crc, rs[..k])| <= n
    ensures k < |rs| ==> n < |JournalBytes(crc, rs[..k + 1])|
  {
    if rs == [] then 0
    else if n < |RecordBytes(crc, rs[0])| then
      assert rs[..1][1..] == [];
      0
    else
      var k := Whole(crc, rs[1..], n - |RecordBytes(crc, rs[0])|);
      assert rs[..k + 1][1..] == rs[1..][..k];
      assert k + 1 < |rs| ==> rs[..k + 2][1..] == rs[1..][..k + 1];
      k + 1
  }

  function LastOf(latest: Option<Persistent>, states: seq<Persistent>): Option<Persistent> {
    if states == [] then latest else Some(states[|states| - 1])
  }

  /** The number of deltas since the last full image, counted on. */
  function DeltasAfter(deltas: nat, rs: seq<Record>): nat
    decreases |rs|
  {
    if rs == [] then deltas else DeltasAfter(if rs[0].full then 0 else deltas + 1, rs[1..])
  }

  lemma CutAfterFirst(crc: Checksum, rs: seq<Record>, n: nat)
    requires rs != [] && |RecordBytes(crc, rs[0])| <= n <= |JournalBytes(crc, rs)|
    ensures var m := n - |RecordBytes(crc, rs[0])|;
            && m <= |JournalBytes(crc, rs[1..])|
            && JournalBytes(crc, rs)[..n] == RecordBytes(crc, rs[0]) + JournalBytes(crc, rs[1..])[..m]
            && Whole(crc, rs, n) == Whole(crc, rs[1..], m) + 1
  {
    hide RecordBytes;
  }

  lemma CutInFirst(crc: Checksum, rs: seq<Record>, n: nat)
    requires rs != [] && n < |RecordBytes(crc, rs[0])|
    ensures n <= |JournalBytes(crc, rs)| && JournalBytes(crc, rs)[..n] == RecordBytes(crc, rs[0])[..n]
    ensures Whole(crc, rs, n) == 0
    ensures JournalBytes(crc, rs[..0]) == []
  {
    hide RecordBytes;
  }

  lemma FirstOfChain(crc: Checksum, rs: seq<Record>, states: seq<Persistent>, latest: Option<Persistent>, k: nat)
    requires rs != [] && Chain(latest, rs, states) && k < |rs|
    ensures |states| == |rs| && Apply(latest, rs[0]) == Some(states[0]) && Chain(Some(states[0]), rs[1..], states[1..])
    ensures LastOf(Some(states[0]), states[1..][..k]) == LastOf(latest, states[..k + 1])
    ensures |JournalBytes(crc, rs[..k + 1])| == RECORD_HEADER + |rs[0].payload| + |JournalBytes(crc, rs[1..][..k])|
  {
    hide Apply;
    assert rs[..k + 1][1..] == rs[1..][..k] && rs[..k + 1][0] == rs[0];
    ChainLength(Some(states[0]), rs[1..], states[1..]);
  }

  /** The records wholly within the first n bytes are within the limit, and so is the one cut
      there once its header is whole. */
  ghost predicate CutFits(crc: Checksum, rs: seq<Record>, n: nat) {
    var k := Whole(crc, rs, n);
    AllFit(rs[..k]) && (k < |rs| && n >= |JournalBytes(crc, rs[..k])| + RECORD_HEADER ==> Fits(rs[k]))
  }

  lemma CutFitsInFirst(crc: Checksum, rs: seq<Record>, n: nat)
    requires rs != [] && n < |RecordBytes(crc, rs[0])|
    ensures CutFits(crc, rs, n) <==> n < RECORD_HEADER || Fits(rs[0])
  {
    hide RecordBytes, Fits;
    CutInFirst(crc, rs, n);
  }

  lemma CutFitsAfterFirst(crc: Checksum, rs: seq<Record>, n: nat)
    requires rs != [] && |RecordBytes(crc, rs[0])| <= n <= |JournalBytes(crc, rs)|
    ensures CutFits(crc, rs, n) <==> Fits(rs[0]) && CutFits(crc, rs[1..], n - |RecordBytes(crc, rs[0])|)
  {
    hide RecordBytes, Fits, Whole, AllFit;
    CutAfterFirst(crc, rs, n);
    var k := Whole(crc, rs[1..], n - |RecordBytes(crc, rs[0])|);
    assert rs[..k + 1][0] == rs[0] && rs[..k + 1][1..] == rs[1..][..k];
    AllFitSplit(rs[..k + 1]);
    assert k + 1 < |rs| ==> rs[1..][k] == rs[k + 1];
  }

  lemma AllFitSplit(rs: seq<Record>)
    requires rs != []
    ensures AllFit(rs) <==> Fits(rs[0]) && AllFit(rs[1..])
  {
    hide Fits;
    if Fits(rs[0]) && AllFit(rs[1..]) {
      forall k | 0 <= k < |rs| ensures Fits(rs[k]) {
        assert k > 0 ==> rs[k] == rs[1..][k - 1];
      }
    }
  }

  /** Cut anywhere, the journal loads if and only if the limit is kept up to there, and then as
      the state of the last record it still holds whole; the bytes kept end with that record. */
  lemma {:induction false} ReplayCut(crc: Checksum, rs: seq<Record>, states: seq<Persistent>, n: nat,
                                     latest: Option<Persistent>, done: nat, deltas: nat)
    requires Chain(latest, rs, states) && AllSized(rs) && n <= |JournalBytes(crc, rs)|
    ensures |states| == |rs|
    ensures var k := Whole(crc, rs, n);
            Replay(crc, JournalBytes(crc, rs)[..n], latest, done, deltas) ==
            if CutFits(crc, rs, n) then Loaded(LastOf(latest, states[..k]), done + |JournalBytes(crc, rs[..k])|,
                                               DeltasAfter(deltas, rs[..k]))
            else Corrupt
    decreases |rs|
  {
    hide Replay, RecordBytes, Apply, JournalBytes, Whole, Chain, CutFits;
    ChainLength(latest, rs, states);
    if rs == [] {
      ReplayNothing(crc, latest, done, deltas);
      NoRecords(crc);
      assert JournalBytes(crc, rs)[..n] == [];
    } else if n < |RecordBytes(crc, rs[0])| {
      CutInFirst(crc, rs, n);
      CutFitsInFirst(crc, rs, n);
      ReplayPart(crc, rs[0], n, latest, done, deltas);
    } else {
      CutAfterFirst(crc, rs, n);
      CutFitsAfterFirst(crc, rs, n);
      var m := n - |RecordBytes(crc, rs[0])|;
      var rest := JournalBytes(crc, rs[1..])[..m];
      FirstOfChain(crc, rs, states, latest, Whole(crc, rs[1..], m));
      if Fits(rs[0]) {
        ReplayRecord(crc, rs[0], rest, latest, done, deltas);
        ReplayCut(crc, rs[1..], states[1..], m, Some(states[0]), done + RECORD_HEADER + |rs[0].payload|,
                  if rs[0].full then 0 else deltas + 1);
        var k := Whole(crc, rs[1..], m);
        assert rs[..k + 1][0] == rs[0] && rs[..k + 1][1..] == rs[1..][..k];
      } else {
        var bytes := RecordBytes(crc, rs[0]) + rest;
        ReplayOversized(crc, rs[0], |bytes|, latest, done, deltas, rest);
        assert bytes[..|bytes|] == bytes;
      }
    }
  }

  /** A proper prefix of a record: refused once the header shows a size above the limit. */
  lemma ReplayPart(crc: Checksum, r: Record, n: nat, latest: Option<Persistent>, done: nat, deltas: nat)
    requires n < |RecordBytes(crc, r)| && 0 < |r.payload| < LIMIT_32
    ensures Replay(crc, RecordBytes(crc, r)[..n], latest, done, deltas) ==
            if n < RECORD_HEADER || Fits(r) then Loaded(latest, done, deltas) else Corrupt
  {
    hide Replay, RecordBytes;
    if n < RECORD_HEADER || Fits(r) {
      ReplayTorn(crc, r, n, latest, done, deltas);
    } else {
      assert RecordBytes(crc, r) + [] == RecordBytes(crc, r);
      ReplayOversized(crc, r, n, latest, done, deltas, []);
    }
  }

  lemma NoRecords(crc: Checksum)
    ensures JournalBytes(crc, []) == [] && Whole(crc, [], 0) == 0 && CutFits(crc, [], 0)
  {
  }

  lemma ReplayNothing(crc: Checksum, latest: Option<Persistent>, done: nat, deltas: nat)
    ensures Replay(crc, [], latest, done, deltas) == Loaded(latest, done, deltas)
  {
  }

  // ---------------------------------------------------------------- the file after a crash

  function FileBytes(crc: Checksum, rs: seq<Record>): seq<Byte> {
    Header() + JournalBytes(crc, rs)
  }

  lemma AfterHeader(header: seq<Byte>, bytes: seq<Byte>, n: nat)
    requires |header| == 16 <= n <= 16 + |bytes|
    ensures (header + bytes)[..n][16..] == bytes[..n - 16]
  {
  }

  /** However the file of a journal is cut behind its header: it loads if and only if no size
      above the limit can be read up to there, then as exactly the state of the last record wholly
      contained, and exactly the records up to it are kept. */
  lemma CrashReplay(crc: Checksum, rs: seq<Record>, states: seq<Persistent>, n: nat)
    requires Chain(None, rs, states) && AllSized(rs) && 16 <= n <= |FileBytes(crc, rs)|
    ensures var k := Whole(crc, rs, n - 16);
            var r := Replay(crc, FileBytes(crc, rs)[..n][16..], None, 16, 0);
            && k <= |states| && (r.Loaded? <==> CutFits(crc, rs, n - 16))
            && (r.Loaded? ==> r.latest == LastOf(None, states[..k]) && r.size == |FileBytes(crc, rs[..k])| <= n)
            && (r.Loaded? ==> r.deltas == DeltasAfter(0, rs[..k]))
  {
    hide Replay, JournalBytes, Chain, Header, Whole, CutFits;
    AfterHeader(Header(), JournalBytes(crc, rs), n);
    ChainLength(None, rs, states);
    ReplayCut(crc, rs, states, n - 16, None, 16, 0);
  }

  lemma {:induction false} PrefixShorter(crc: Checksum, rs: seq<Record>, k: nat)
    requires k <= |rs|
    ensures |JournalBytes(crc, rs[..k])| <= |JournalBytes(crc, rs)|
    ensures k < |rs| ==> |JournalBytes(crc, rs[..k])| < |JournalBytes(crc, rs)|
  {
    hide RecordBytes;
    if k > 0 {
      PrefixShorter(crc, rs[1..], k - 1);
      assert rs[..k][1..] == rs[1..][..k - 1];
    }
  }

  lemma {:induction false} DeltasSnoc(deltas: nat, rs: seq<Record>, r: Record)
    ensures DeltasAfter(deltas, rs + [r]) == if r.full then 0 else DeltasAfter(deltas, rs) + 1
    decreases |rs|
  {
    if rs == [] {
      assert (rs + [r])[1..] == [];
    } else {
      DeltasSnoc(if rs[0].full then 0 else deltas + 1, rs[1..], r);
      assert (rs + [r])[1..] == rs[1..] + [r];
    }
  }

  /** The count is what it says: that many records at the end are deltas, and the one before is not. */
  lemma {:induction false} DeltasAtEnd(rs: seq<Record>)
    ensures var d := DeltasAfter(0, rs);
            && d <= |rs| && (forall j :: |rs| - d <= j < |rs| ==> !rs[j].full) && (d < |rs| ==> rs[|rs| - d - 1].full)
  {
    if rs != [] {
      var front, last := rs[..|rs| - 1], rs[|rs| - 1];
      assert front + [last] == rs;
      DeltasAtEnd(front);
      DeltasSnoc(0, front, last);
    }
  }

  /** An uncut file holds all its records. */
  lemma WholeOfAll(crc: Checksum, rs: seq<Record>)
    ensures Whole(crc, rs, |JournalBytes(crc, rs)|) == |rs|
    ensures CutFits(crc, rs, |JournalBytes(crc, rs)|) <==> AllFit(rs)
  {
    hide JournalBytes, Fits;
    var k := Whole(crc, rs, |JournalBytes(crc, rs)|);
    PrefixShorter(crc, rs, if k < |rs| then k + 1 else k);
    assert rs[..|rs|] == rs;
  }

  /** An uncut file loads if and only if no payload is above the limit, and then as the state
      saved last. */
  lemma LastSaveLoads(crc: Checksum, rs: seq<Record>, states: seq<Persistent>)
    requires Chain(None, rs, states) && AllSized(rs)
    ensures var r := Replay(crc, FileBytes(crc, rs)[16..], None, 16, 0);
            && (r.Loaded? <==> AllFit(rs))
            && (r.Loaded? ==> r.latest == LastOf(None, states) && r.size == |FileBytes(crc, rs)|)
  {
    hide Replay, JournalBytes, Chain, Header, Whole, CutFits, AllFit;
    var file := FileBytes(crc, rs);
    assert file[..|file|] == file;
    CrashReplay(crc, rs, states, |file|);
    ChainLength(None, rs, states);
    WholeOfAll(crc, rs);
    assert states[..|rs|] == states && rs[..|rs|] == rs;
  }

  lemma ChainLength(latest: Option<Persistent>, rs: seq<Record>, states: seq<Persistent>)
    requires Chain(latest, rs, states)
    ensures |rs| == |states|
  {
  }

  // ---------------------------------------------------------------- damage

  /** At the next record, anything but a known magic, a size within the limit and, once the record is all there, a
      payload with its checksum makes the file unreadable. */
  lemma DamageRefused(crc: Checksum, input: seq<Byte>, latest: Option<Persistent>, done: nat, deltas: nat)
    requires |input| >= RECORD_HEADER
    ensures var size := Value(input[4..8]);
            && (input[..4] != FULL_MAGIC && input[..4] != DELTA_MAGIC ==>
                  Replay(crc, input, latest, done, deltas) == Corrupt)
            && (size == 0 || size > MAX_PAYLOAD ==> Replay(crc, input, latest, done, deltas) == Corrupt)
            && (RECORD_HEADER + size <= |input| &&
                crc(input[RECORD_HEADER..RECORD_HEADER + size]) != Value(input[8..12]) ==>
                  Replay(crc, input, latest, done, deltas) == Corrupt)
  {
    hide Apply;
  }

  /** A record whose payload was altered on disk. */
  function Altered(crc: Checksum, r: Record, payload: seq<Byte>): seq<Byte> {
    (if r.full then FULL_MAGIC else DELTA_MAGIC) + U32(|r.payload|) + U32(crc(r.payload)) + payload
  }

  lemma AlteredFields(crc: Checksum, r: Record, payload: seq<Byte>, rest: seq<Byte>)
    requires |payload| == |r.payload| < LIMIT_32
    ensures var input := Altered(crc, r, payload) + rest;
            && |input| >= RECORD_HEADER + |payload| && Value(input[4..8]) == |payload|
            && Value(input[8..12]) == crc(r.payload) && input[12..12 + |payload|] == payload
  {
    var input := Altered(crc, r, payload) + rest;
    assert input[4..8] == U32(|r.payload|) && input[8..12] == U32(crc(r.payload));
    Limits();
    ValueOfBig(|r.payload|, 4);
    ValueOfBig(crc(r.payload), 4);
  }

  /** However far into the file, a payload that was altered and no longer has its checksum is found: the file does not
      load as anything. */
  lemma {:induction false} DamageIsFound(crc: Checksum, rs: seq<Record>, states: seq<Persistent>, r: Record,
                                         payload: seq<Byte>,
                                         rest: seq<Byte>, latest: Option<Persistent>, done: nat, deltas: nat)
    requires Chain(latest, rs, states) && AllFit(rs)
    requires |payload| == |r.payload| < LIMIT_32 && crc(payload) != crc(r.payload)
    ensures Replay(crc, JournalBytes(crc, rs) + (Altered(crc, r, payload) + rest), latest, done, deltas) == Corrupt
    decreases |rs|
  {
    hide Replay, RecordBytes, Apply, Altered;
    var tail := Altered(crc, r, payload) + rest;
    if rs == [] {
      assert JournalBytes(crc, rs) + tail == tail;
      AlteredFields(crc, r, payload, rest);
      DamageRefused(crc, tail, latest, done, deltas);
    } else {
      var more := JournalBytes(crc, rs[1..]);
      assert JournalBytes(crc, rs) + tail == RecordBytes(crc, rs[0]) + (more + tail);
      ReplayRecord(crc, rs[0], more + tail, latest, done, deltas);
      DamageIsFound(crc, rs[1..], states[1..], r, payload, rest, Some(states[0]),
                    done + RECORD_HEADER + |rs[0].payload|,
                    if rs[0].full then 0 else deltas + 1);
    }
  }

  // ---------------------------------------------------------------- an image that saves and does not load

  function Filler(index: LogIndex, size: nat): LogEntry {
    LogEntry(index, 1, Command, seq(size, i => 0))
  }

  function Fillers(first: LogIndex, count: nat, size: nat): (entries: seq<LogEntry>)
    ensures |entries| == count
    ensures forall j :: 0 <= j < count ==> entries[j] == Filler(first + j, size)
  {
    seq(count, j requires 0 <= j < count => Filler(first + j, size))
  }

  lemma {:induction false} FillersSize(entries: seq<LogEntry>, size: nat)
    requires forall j :: 0 <= j < |entries| ==> |entries[j].command| == size
    ensures |EncodeEntries(entries)| == |entries| * (21 + size)
  {
    if entries != [] {
      FillersSize(entries[1..], size);
    }
  }

  lemma EncodeFirst(entries: seq<LogEntry>)
    requires entries != []
    ensures EncodeEntries(entries) == EncodeEntry(entries[0]) + EncodeEntries(entries[1..])
  {
    hide EncodeEntry;
  }

  lemma {:induction false} EncodeEntriesJoin(a: seq<LogEntry>, b: seq<LogEntry>)
    ensures EncodeEntries(a + b) == EncodeEntries(a) + EncodeEntries(b)
  {
    hide EncodeEntry, EncodeEntries;
    if a == [] {
      assert a + b == b && EncodeEntries([]) == [] by {
        NothingEncoded();
      }
    } else {
      EncodeFirst(a + b);
      EncodeFirst(a);
      assert (a + b)[1..] == a[1..] + b;
      EncodeEntriesJoin(a[1..], b);
    }
  }

  lemma NothingEncoded()
    ensures EncodeEntries([]) == []
  {
  }

  /** Sixty-three commands of one mebibyte and one that brings the body to the limit exactly. */
  function LargeState(): Persistent {
    Persistent(1, None, [Sentinel] + Fillers(1, 63, MAX_COMMAND) + [Filler(64, 1047182)], 0, None, None, None, None)
  }

  lemma LargeStateValid()
    ensures Words(LargeState()) && ValidImage(LargeState()) && CommandsFit(LargeState().entries)
  {
  }

  lemma LargeStateBody()
    ensures |ImageBody(LargeState())| == MAX_PAYLOAD
  {
    var fillers, last := Fillers(1, 63, MAX_COMMAND), Filler(64, 1047182);
    EncodeEntriesJoin([Sentinel] + fillers, [last]);
    EncodeEntriesJoin([Sentinel], fillers);
    FillersSize([Sentinel], 0);
    FillersSize(fillers, MAX_COMMAND);
    FillersSize([last], 1047182);
  }

  /** This state is encoded without complaint, and its file cannot be loaded again. */
  lemma SavedButNotLoadable(crc: Checksum)
    ensures EncodeState(LargeState()).Some?
    ensures Replay(crc, JournalBytes(crc, [Record(true, EncodeState(LargeState()).value)]), None, 16, 0) == Corrupt
  {
    hide EncodeEntries, EncodeMeta, RecordBytes, Replay, LargeState;
    LargeStateValid();
    LargeStateBody();
    LargeStateWritten();
    var r := Record(true, EncodeState(LargeState()).value);
    var bytes := JournalBytes(crc, [r]);
    OneRecord(crc, r);
    ReplayOversized(crc, r, |bytes|, None, 16, 0, []);
    assert bytes[..|bytes|] == bytes;
  }

  lemma OneRecord(crc: Checksum, r: Record)
    ensures JournalBytes(crc, [r]) == RecordBytes(crc, r) + []
  {
    assert [r][1..] == [];
    assert JournalBytes(crc, []) == [];
  }

  lemma LargeStateWritten()
    requires ValidImage(LargeState()) && CommandsFit(LargeState().entries) && |ImageBody(LargeState())| == MAX_PAYLOAD
    ensures EncodeState(LargeState()).Some? && |EncodeState(LargeState()).value| == MAX_PAYLOAD + 8
  {
    hide ImageBody, ValidImage, CommandsFit;
    assert EncodeExtensions(LargeState()) == Some(U32(2) + ([0] + ([0] + ([0] + [0]))));
  }
}
