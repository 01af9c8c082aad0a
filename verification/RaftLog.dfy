/** `RaftLog` of `src/raft/raft_log.cpp`: the vector it mutates and its loops, each operation
    proved equal to the function of `LogSpec` that says what it computes. */
module RaftLogClass {
  import opened RaftTypes
  import opened LogSpec

  class RaftLog {
    var entries: seq<LogEntry>

    ghost predicate Valid()
      reads this
    {
      Contiguous(entries)
    }

    constructor ()
      ensures Valid() && entries == [Sentinel]
    {
      entries := [Sentinel];
    }

    method Append(term: Term, kind: EntryType, command: seq<Byte>) returns (index: LogIndex)
      requires Valid()
      modifies this
      ensures Valid() && entries == AppendOne(old(entries), term, kind, command)
      ensures index == LastIndex(entries) == LastIndex(old(entries)) + 1
    {
      index := LastIndex(entries) + 1;
      entries := entries + [LogEntry(index, term, kind, command)];
    }

    method AppendFrom(previous: LogIndex, incoming: seq<LogEntry>) returns (outcome: AppendOutcome)
      requires Valid()
      modifies this
      ensures Valid()
      ensures outcome == LogSpec.AppendFrom(old(entries), previous, incoming)
      ensures entries == if outcome.Appended? then outcome.entries else old(entries)
    {
      if OffsetOf(entries, previous).None? {
        return Refused(PreviousAbsent);
      }
      if incoming == [] {
        return Appended(entries);
      }
      if previous == MAX_WORD {
        return Refused(IndexSpaceExhausted);
      }
      var valid := CheckBatch(previous, incoming);
      if !valid {
        return Refused(NotContiguous);
      }
      ghost var before := entries;
      var incomingOffset := SkipPresent(previous, incoming);
      if incomingOffset < |incoming| && incoming[incomingOffset].index <= LastIndex(entries) {
        var entry := incoming[incomingOffset];
        if entries[OffsetOf(entries, entry.index).value].term == entry.term {
          return Refused(DifferentPayload);
        }
        TruncateFrom(entry.index);
      }
      assert entries + incoming[incomingOffset..] == LogSpec.AppendFrom(before, previous, incoming).entries by {
        PresentPrefix(before, previous, incoming, incomingOffset);
      }
      entries := entries + incoming[incomingOffset..];
      AppendFromMeaning(before, previous, incoming);
      return Appended(entries);
    }

    /** First loop of `appendFrom`: the batch must be numbered from `previous` on. */
    static method CheckBatch(previous: LogIndex, incoming: seq<LogEntry>) returns (ok: bool)
      ensures ok <==> BatchValid(previous, incoming)
    {
      var expected := previous + 1;
      for i := 0 to |incoming|
        invariant expected == previous + 1 + i
        invariant BatchValid(previous, incoming[..i])
      {
        if incoming[i].index != expected || incoming[i].index == 0 || incoming[i].term == 0 {
          return false;
        }
        expected := expected + 1;
      }
      assert incoming[..|incoming|] == incoming;
      return true;
    }

    /** Second loop of `appendFrom`: walks past the entries already stored and stops at the
        first one that is missing, has another term, or has another payload. */
    method SkipPresent(previous: LogIndex, incoming: seq<LogEntry>) returns (k: nat)
      requires Valid() && OffsetOf(entries, previous).Some? && BatchValid(previous, incoming)
      ensures k == Overlap(entries, incoming)
    {
      k := 0;
      while k < |incoming|
        invariant 0 <= k <= |incoming|
        invariant forall j :: 0 <= j < k ==> Holds(entries, incoming[j])
      {
        var entry := incoming[k];
        if entry.index > LastIndex(entries) || entries[OffsetOf(entries, entry.index).value] != entry {
          break;
        }
        k := k + 1;
      }
      OverlapIs(entries, incoming, k);
    }

    method TruncateFrom(index: LogIndex)
      requires Valid() && OffsetOf(entries, index).Some?
      modifies this
      ensures entries == old(entries)[..OffsetOf(old(entries), index).value]
    {
      entries := entries[..OffsetOf(entries, index).value];
    }

    method FirstIndexOfTerm(term: Term) returns (r: Option<LogIndex>)
      requires Valid()
      ensures r == FirstOfTerm(entries, term)
    {
      for i := 0 to |entries|
        invariant FirstOfTerm(entries, term) == FirstOfTerm(entries[i..], term)
      {
        if entries[i].term == term {
          return Some(entries[i].index);
        }
        assert entries[i..][1..] == entries[i + 1..];
      }
      return None;
    }

    method LastIndexOfTerm(term: Term) returns (r: Option<LogIndex>)
      requires Valid()
      ensures r == LastOfTerm(entries, term)
    {
      assert entries[..|entries|] == entries;
      for i := |entries| downto 0
        invariant LastOfTerm(entries, term) == LastOfTerm(entries[..i], term)
      {
        assert entries[..i + 1][..i] == entries[..i];
        if entries[i].term == term {
          return Some(entries[i].index);
        }
      }
      return None;
    }

    method CompactTo(index: LogIndex, term: Term) returns (ok: bool)
      requires Valid()
      modifies this
      ensures Valid()
      ensures match LogSpec.CompactTo(old(entries), index, term)
              case None => !ok && entries == old(entries)
              case Some(c) => ok && entries == c
    {
      var offset := OffsetOf(entries, index);
      if offset.None? || entries[offset.value].term != term ||
         (index == 0 && term != 0) || (index != 0 && term == 0) {
        return false;
      }
      CompactedShape(entries, index, term);
      entries := [Boundary(index, term)] + entries[offset.value + 1..];
      return true;
    }

    method Restore(image: seq<LogEntry>) returns (ok: bool)
      requires Valid()
      modifies this
      ensures Valid()
      ensures ok <==> Restorable(image)
      ensures entries == if ok then image else old(entries)
    {
      if image == [] || image[0].kind != NoOp || image[0].command != [] ||
         (image[0].index == 0 && image[0].term != 0) || (image[0].index != 0 && image[0].term == 0) {
        return false;
      }
      for i := 1 to |image|
        invariant Restorable(image[..i])
      {
        assert image[..i + 1][i] == image[i];
        if image[0].index > MAX_WORD - i || image[i].index != image[0].index + i || image[i].term == 0 ||
           (image[i].kind == NoOp && image[i].command != []) ||
           (image[i].kind != NoOp && image[i].command == []) {
          return false;
        }
      }
      assert image[..|image|] == image;
      entries := image;
      return true;
    }
  }

  lemma OverlapIs(e: seq<LogEntry>, incoming: seq<LogEntry>, k: nat)
    requires |e| > 0 && k <= |incoming|
    requires forall j :: 0 <= j < k ==> Holds(e, incoming[j])
    requires k < |incoming| ==> !Holds(e, incoming[k])
    ensures Overlap(e, incoming) == k
  {
  }

  /** Entries the log already holds are the stretch right after `previous`. */
  lemma PresentPrefix(e: seq<LogEntry>, previous: LogIndex, incoming: seq<LogEntry>, k: nat)
    requires Contiguous(e) && OffsetOf(e, previous).Some? && BatchValid(previous, incoming)
    requires k <= |incoming| && forall j :: 0 <= j < k ==> Holds(e, incoming[j])
    ensures var at := OffsetOf(e, previous).value;
            && at + 1 + k <= |e|
            && (k < |incoming| ==>
                  OffsetOf(e, incoming[k].index) == if at + 1 + k < |e| then Some(at + 1 + k) else None)
            && e[..at + 1 + k] + incoming[k..] == e[..at + 1] + incoming
  {
    var at := OffsetOf(e, previous).value;
    if k > 0 {
      assert Holds(e, incoming[k - 1]);
    }
    var left, right := e[..at + 1 + k] + incoming[k..], e[..at + 1] + incoming;
    forall j | 0 <= j < |left| ensures left[j] == right[j] {
      if at + 1 <= j < at + 1 + k {
        assert Holds(e, incoming[j - at - 1]);
      }
    }
  }
}
