/** What each `RaftLog` operation computes, as functions of the stored vector.
    Element 0 is the compaction boundary and carries an absolute index. */
module LogSpec {
  import opened RaftTypes

  datatype LogError = PreviousAbsent | IndexSpaceExhausted | NotContiguous | DifferentPayload

  datatype AppendOutcome = Appended(entries: seq<LogEntry>) | Refused(error: LogError)

  /** The class invariant of the source: never empty, indexes consecutive. */
  predicate Contiguous(e: seq<LogEntry>) {
    |e| > 0 && forall j :: 0 <= j < |e| ==> e[j].index == e[0].index + j
  }

  function FirstIndex(e: seq<LogEntry>): LogIndex
    requires |e| > 0
  {
    e[0].index
  }

  function LastIndex(e: seq<LogEntry>): LogIndex
    requires |e| > 0
  {
    e[|e| - 1].index
  }

  function LastTerm(e: seq<LogEntry>): Term
    requires |e| > 0
  {
    e[|e| - 1].term
  }

  function OffsetOf(e: seq<LogEntry>, index: LogIndex): (r: Option<nat>)
    requires |e| > 0
    ensures r.Some? ==> r.value < |e|
    ensures Contiguous(e) ==> (r.Some? <==> FirstIndex(e) <= index <= LastIndex(e))
    ensures Contiguous(e) && r.Some? ==> e[r.value].index == index
  {
    if index < FirstIndex(e) || index > LastIndex(e) then None
    else if index - FirstIndex(e) >= |e| then None
    else Some(index - FirstIndex(e))
  }

  function TermAt(e: seq<LogEntry>, index: LogIndex): Option<Term>
    requires |e| > 0
  {
    match OffsetOf(e, index)
    case None => None
    case Some(offset) => Some(e[offset].term)
  }

  function EntryAt(e: seq<LogEntry>, index: LogIndex): Option<LogEntry>
    requires |e| > 0
  {
    match OffsetOf(e, index)
    case None => None
    case Some(offset) => Some(e[offset])
  }

  function AppendOne(e: seq<LogEntry>, term: Term, kind: EntryType, command: seq<Byte>): seq<LogEntry>
    requires |e| > 0
  {
    e + [LogEntry(LastIndex(e) + 1, term, kind, command)]
  }

  function EntriesFrom(e: seq<LogEntry>, first: LogIndex, limit: nat): seq<LogEntry>
    requires |e| > 0
  {
    match OffsetOf(e, first)
    case None => []
    case Some(begin) => if limit == 0 then [] else e[begin..begin + Min(|e| - begin, limit)]
  }

  /** The batch is numbered consecutively after `previous`, with no zero index or term. */
  predicate BatchValid(previous: LogIndex, incoming: seq<LogEntry>) {
    forall j :: 0 <= j < |incoming| ==>
      incoming[j].index == previous + 1 + j && incoming[j].term != 0
  }

  predicate Holds(e: seq<LogEntry>, entry: LogEntry)
    requires |e| > 0
  {
    EntryAt(e, entry.index) == Some(entry)
  }

  /** How many leading entries of the batch the log already holds. */
  function Overlap(e: seq<LogEntry>, incoming: seq<LogEntry>): (k: nat)
    requires |e| > 0
    ensures k <= |incoming|
    ensures forall j :: 0 <= j < k ==> Holds(e, incoming[j])
    ensures k < |incoming| ==> !Holds(e, incoming[k])
  {
    if incoming == [] || !Holds(e, incoming[0]) then 0 else 1 + Overlap(e, incoming[1..])
  }

  /** A batch the log already holds changes nothing. Otherwise the first entry it lacks decides:
      the same index and term with another payload is refused; anything else replaces the
      whole suffix after `previous` with the batch. */
  function AppendFrom(e: seq<LogEntry>, previous: LogIndex, incoming: seq<LogEntry>): (r: AppendOutcome)
    requires Contiguous(e)
  {
    if OffsetOf(e, previous).None? then Refused(PreviousAbsent)
    else if incoming == [] then Appended(e)
    else if previous == MAX_WORD then Refused(IndexSpaceExhausted)
    else if !BatchValid(previous, incoming) then Refused(NotContiguous)
    else
      var k := Overlap(e, incoming);
      if k == |incoming| then Appended(e)
      else if TermAt(e, incoming[k].index) == Some(incoming[k].term) then Refused(DifferentPayload)
      else Appended(e[..OffsetOf(e, previous).value + 1] + incoming)
  }

  function FirstOfTerm(e: seq<LogEntry>, term: Term): (r: Option<LogIndex>)
  {
    if e == [] then None
    else if e[0].term == term then Some(e[0].index)
    else FirstOfTerm(e[1..], term)
  }

  function LastOfTerm(e: seq<LogEntry>, term: Term): (r: Option<LogIndex>)
  {
    if e == [] then None
    else if e[|e| - 1].term == term then Some(e[|e| - 1].index)
    else LastOfTerm(e[..|e| - 1], term)
  }

  predicate BoundaryPairs(index: LogIndex, term: Term) {
    index == 0 <==> term == 0
  }

  function Boundary(index: LogIndex, term: Term): LogEntry {
    LogEntry(index, term, NoOp, [])
  }

  function CompactTo(e: seq<LogEntry>, index: LogIndex, term: Term): Option<seq<LogEntry>>
    requires |e| > 0
  {
    match OffsetOf(e, index)
    case None => None
    case Some(offset) =>
      if e[offset].term != term || !BoundaryPairs(index, term) then None
      else Some([Boundary(index, term)] + e[offset + 1..])
  }

  /** What `restore` accepts after the boundary. */
  predicate Restorable(e: seq<LogEntry>) {
    && |e| > 0
    && e[0].kind == NoOp && e[0].command == [] && BoundaryPairs(e[0].index, e[0].term)
    && forall j :: 1 <= j < |e| ==>
         && e[0].index + j <= MAX_WORD
         && e[j].index == e[0].index + j
         && e[j].term != 0
         && (e[j].kind == NoOp <==> e[j].command == [])
  }

  // ---------------------------------------------------------------- term searches

  lemma {:induction false} FirstOfTermFinds(e: seq<LogEntry>, term: Term)
    ensures match FirstOfTerm(e, term)
            case None => forall j :: 0 <= j < |e| ==> e[j].term != term
            case Some(i) => exists j :: 0 <= j < |e| && e[j].term == term && e[j].index == i &&
                              (forall m :: 0 <= m < j ==> e[m].term != term)
  {
    if e != [] && e[0].term != term {
      FirstOfTermFinds(e[1..], term);
      match FirstOfTerm(e[1..], term)
      case None =>
        forall j | 0 <= j < |e| ensures e[j].term != term {
          if j > 0 { assert e[j] == e[1..][j - 1]; }
        }
      case Some(i) =>
        var j :| 0 <= j < |e[1..]| && e[1..][j].term == term && e[1..][j].index == i &&
          (forall m :: 0 <= m < j ==> e[1..][m].term != term);
        assert e[j + 1].term == term && e[j + 1].index == i;
        forall m | 0 <= m < j + 1 ensures e[m].term != term {
          if m > 0 { assert e[m] == e[1..][m - 1]; }
        }
    }
  }

  lemma {:induction false} LastOfTermFinds(e: seq<LogEntry>, term: Term)
    ensures match LastOfTerm(e, term)
            case None => forall j :: 0 <= j < |e| ==> e[j].term != term
            case Some(i) => exists j :: 0 <= j < |e| && e[j].term == term && e[j].index == i &&
                              (forall m :: j < m < |e| ==> e[m].term != term)
  {
    if e != [] && e[|e| - 1].term != term {
      var front := e[..|e| - 1];
      LastOfTermFinds(front, term);
      if LastOfTerm(front, term).Some? {
        var i := LastOfTerm(front, term).value;
        var j :| 0 <= j < |front| && front[j].term == term && front[j].index == i &&
          (forall m :: j < m < |front| ==> front[m].term != term);
        assert e[j].term == term && e[j].index == i;
        forall m | j < m < |e| ensures e[m].term != term {
          if m < |e| - 1 { assert e[m] == front[m]; }
        }
      } else {
        forall j | 0 <= j < |e| ensures e[j].term != term {
          if j < |e| - 1 { assert e[j] == front[j]; }
        }
      }
    }
  }

  // ---------------------------------------------------------------- appendFrom

  /** What a caller of `appendFrom` may rely on: the log stays contiguous on the same boundary,
      holds the whole batch, keeps everything up to `previous`, and keeps its old suffix
      unless some entry of the batch was absent or had another term. */
  lemma AppendFromMeaning(e: seq<LogEntry>, previous: LogIndex, incoming: seq<LogEntry>)
    requires Contiguous(e)
    requires AppendFrom(e, previous, incoming).Appended?
    ensures var r := AppendFrom(e, previous, incoming).entries;
            && Contiguous(r) && r[0] == e[0]
            && (forall j :: 0 <= j < |incoming| ==> Holds(r, incoming[j]))
            && (forall i: nat :: i <= previous ==> EntryAt(r, i) == EntryAt(e, i))
            && ((forall j :: 0 <= j < |incoming| ==> TermAt(e, incoming[j].index) == Some(incoming[j].term))
                  ==> r == e)
  {
    var r := AppendFrom(e, previous, incoming).entries;
    if r != e {
      var at := OffsetOf(e, previous).value;
      forall j | 0 <= j < |incoming| ensures Holds(r, incoming[j]) {
        assert r[at + 1 + j] == incoming[j];
      }
    }
  }

  /** Delivering the same batch again changes nothing. */
  lemma AppendFromIdempotent(e: seq<LogEntry>, previous: LogIndex, incoming: seq<LogEntry>)
    requires Contiguous(e)
    requires AppendFrom(e, previous, incoming).Appended?
    ensures var r := AppendFrom(e, previous, incoming).entries;
            Contiguous(r) && AppendFrom(r, previous, incoming) == Appended(r)
  {
    AppendFromMeaning(e, previous, incoming);
    var r := AppendFrom(e, previous, incoming).entries;
    assert EntryAt(r, previous) == EntryAt(e, previous);
  }

  // ---------------------------------------------------------------- compaction is invisible

  lemma CompactedShape(e: seq<LogEntry>, index: LogIndex, term: Term)
    requires Contiguous(e) && CompactTo(e, index, term).Some?
    ensures var c := CompactTo(e, index, term).value;
            var offset := OffsetOf(e, index).value;
            && |c| == |e| - offset && c[0] == Boundary(index, term) && e[offset].term == term
            && (forall j :: 1 <= j < |c| ==> c[j] == e[offset + j])
            && Contiguous(c) && LastIndex(c) == LastIndex(e) && LastTerm(c) == LastTerm(e)
  {
  }

  /** A log can be compacted exactly at an entry it has, named by index and term, and at the sentinel only as such. */
  lemma CompactsExactly(e: seq<LogEntry>, index: LogIndex, term: Term)
    requires Contiguous(e)
    ensures CompactTo(e, index, term).Some? <==>
              && (exists j :: 0 <= j < |e| && e[j].index == index && e[j].term == term)
              && (index == 0 <==> term == 0)
  {
    if j :| 0 <= j < |e| && e[j].index == index && e[j].term == term {
      assert OffsetOf(e, index) == Some(j);
    }
    if OffsetOf(e, index).Some? {
      var j := OffsetOf(e, index).value;
      assert e[j].index == index;
    }
  }

  /** Reads at or after the boundary see the full log. */
  lemma CompactedReads(e: seq<LogEntry>, index: LogIndex, term: Term, i: LogIndex, limit: nat)
    requires Contiguous(e) && CompactTo(e, index, term).Some? && index <= i
    ensures var c := CompactTo(e, index, term).value;
            && Contiguous(c) && LastIndex(c) == LastIndex(e) && LastTerm(c) == LastTerm(e)
            && TermAt(c, i) == TermAt(e, i)
            && (index < i ==> EntryAt(c, i) == EntryAt(e, i) && EntriesFrom(c, i, limit) == EntriesFrom(e, i, limit))
  {
    CompactedShape(e, index, term);
    var c := CompactTo(e, index, term).value;
    var offset := OffsetOf(e, index).value;
    if index < i <= LastIndex(e) {
      var at := OffsetOf(c, i).value;
      var stop := at + Min(|c| - at, limit);
      assert OffsetOf(e, i) == Some(offset + at);
      assert c[at..stop] == e[offset + at..offset + stop];
    }
  }

  /** Compacting before or after a local append gives the same log. */
  lemma CompactionCommutesWithAppend(e: seq<LogEntry>, index: LogIndex, term: Term,
                                     t: Term, kind: EntryType, command: seq<Byte>)
    requires Contiguous(e) && CompactTo(e, index, term).Some?
    ensures CompactTo(AppendOne(e, t, kind, command), index, term) ==
            Some(AppendOne(CompactTo(e, index, term).value, t, kind, command))
  {
    CompactedShape(e, index, term);
    var offset := OffsetOf(e, index).value;
    var last := LogEntry(LastIndex(e) + 1, t, kind, command);
    assert OffsetOf(e + [last], index) == Some(offset) && (e + [last])[offset] == e[offset];
    assert [Boundary(index, term)] + (e + [last])[offset + 1..] ==
           ([Boundary(index, term)] + e[offset + 1..]) + [last];
  }

  lemma {:induction false} CompactedOverlap(e: seq<LogEntry>, c: seq<LogEntry>, index: LogIndex,
                                            incoming: seq<LogEntry>)
    requires |e| > 0 && |c| > 0
    requires forall i :: index < i ==> EntryAt(c, i) == EntryAt(e, i)
    requires forall j :: 0 <= j < |incoming| ==> index < incoming[j].index
    ensures Overlap(c, incoming) == Overlap(e, incoming)
  {
    if incoming != [] {
      assert EntryAt(c, incoming[0].index) == EntryAt(e, incoming[0].index);
      CompactedOverlap(e, c, index, incoming[1..]);
    }
  }

  lemma CompactedReplacement(e: seq<LogEntry>, index: LogIndex, term: Term, previous: LogIndex, incoming: seq<LogEntry>)
    requires Contiguous(e) && CompactTo(e, index, term).Some? && index <= previous <= LastIndex(e)
    requires BatchValid(previous, incoming)
    ensures var c := CompactTo(e, index, term).value;
            && Contiguous(c) && OffsetOf(c, previous).Some?
            && CompactTo(e[..OffsetOf(e, previous).value + 1] + incoming, index, term) ==
               Some(c[..OffsetOf(c, previous).value + 1] + incoming)
  {
    CompactedShape(e, index, term);
    var c := CompactTo(e, index, term).value;
    var from, at := OffsetOf(e, index).value, OffsetOf(e, previous).value;
    assert OffsetOf(c, previous) == Some(at - from);
    var r := e[..at + 1] + incoming;
    assert r[from] == e[from];
    assert OffsetOf(r, index) == Some(from) by {
      assert LastIndex(r) == previous + |incoming|;
    }
    assert [Boundary(index, term)] + r[from + 1..] == c[..at - from + 1] + incoming;
  }

  /** A batch that starts at or after the boundary is accepted, refused and merged alike. */
  lemma CompactionCommutesWithAppendFrom(e: seq<LogEntry>, index: LogIndex, term: Term,
                                         previous: LogIndex, incoming: seq<LogEntry>)
    requires Contiguous(e) && CompactTo(e, index, term).Some? && index <= previous
    ensures var c := CompactTo(e, index, term).value;
            Contiguous(c) &&
            match AppendFrom(e, previous, incoming)
            case Refused(error) => AppendFrom(c, previous, incoming) == Refused(error)
            case Appended(r) => |r| > 0 && CompactTo(r, index, term).Some? &&
                                AppendFrom(c, previous, incoming) == Appended(CompactTo(r, index, term).value)
  {
    var c := CompactTo(e, index, term).value;
    CompactedReads(e, index, term, previous, 0);
    if OffsetOf(e, previous).Some? && incoming != [] && previous != MAX_WORD && BatchValid(previous, incoming) {
      var k := Overlap(e, incoming);
      assert Overlap(c, incoming) == k by {
        forall i | index < i ensures EntryAt(c, i) == EntryAt(e, i) {
          CompactedReads(e, index, term, i, 0);
        }
        CompactedOverlap(e, c, index, incoming);
      }
      if k < |incoming| {
        CompactedReads(e, index, term, incoming[k].index, 0);
        CompactedReplacement(e, index, term, previous, incoming);
      }
    }
  }

  /** Compacting twice is compacting once at the later boundary. */
  lemma CompactionComposes(e: seq<LogEntry>, i1: LogIndex, t1: Term, i2: LogIndex, t2: Term)
    requires Contiguous(e) && CompactTo(e, i1, t1).Some? && i1 <= i2
    ensures CompactTo(CompactTo(e, i1, t1).value, i2, t2) == CompactTo(e, i2, t2)
  {
    CompactedReads(e, i1, t1, i2, 0);
    var c := CompactTo(e, i1, t1).value;
    if OffsetOf(e, i2).Some? {
      var o1, o2 := OffsetOf(e, i1).value, OffsetOf(e, i2).value;
      assert c[o2 - o1 + 1..] == e[o2 + 1..];
    }
  }
}
