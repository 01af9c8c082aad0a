/** What the journal writes and when it refuses, in terms of states and sizes alone. */
module JournalLaws {
  import opened RaftTypes
  import opened LogSpec
  import opened Bytes
  import opened ClusterConfig
  import opened JournalCodec
  import opened Journal
  import opened JournalFile

  /** The size of entries on file: twenty-one bytes each and their commands. */
  function EntriesSize(entries: seq<LogEntry>): nat {
    if entries == [] then 0 else 21 + |entries[0].command| + EntriesSize(entries[1..])
  }

  lemma {:induction false} EncodedSize(entries: seq<LogEntry>)
    ensures |EncodeEntries(entries)| == EntriesSize(entries)
  {
    if entries != [] {
      EncodedSize(entries[1..]);
    }
  }

  /** Entries numbered on from the boundary, as `restore` demands them, and the commit index among them. */
  ghost predicate WellNumbered(s: Persistent) {
    && |s.entries| > 0 && s.entries[0].kind == NoOp && s.entries[0].command == []
    && (s.entries[0].index == 0 <==> s.entries[0].term == 0)
    && (forall j :: 1 <= j < |s.entries| ==>
          && s.entries[j].index == s.entries[0].index + j <= MAX_WORD && s.entries[j].term != 0
          && (s.entries[j].kind == NoOp <==> s.entries[j].command == []))
    && s.commit <= s.entries[|s.entries| - 1].index
  }

  ghost predicate ShortCommands(entries: seq<LogEntry>) {
    forall j :: 0 <= j < |entries| ==> |entries[j].command| <= 1048576
  }

  ghost predicate WritableOptional(c: Option<Configuration>, o: Option<Operation>) {
    && (c.Some? ==> ValidConfiguration(c.value, 0))
    && (c.Some? ==> forall i :: 0 <= i < |c.value.members| ==> Encodable(c.value.members[i]))
    && (o.Some? ==> ValidOperation(o.value))
  }

  /** A full image is refused exactly if the log is malformed or longer than a million entries, a command is above a
      mebibyte, the part before the extension is above 64 MiB, or a configuration or operation cannot be written. */
  lemma ImageEncodes(s: Persistent)
    ensures EncodeState(s).Some? <==>
              && WellNumbered(s) && |s.entries| <= 1000000 && ShortCommands(s.entries)
              && 29 + EntriesSize(s.entries) <= 64 * 1024 * 1024
              && WritableOptional(s.cluster, s.active) && WritableOptional(s.joint, s.completed)
  {
    hide EncodeMeta, EncodeEntries, EncodeMembers;
    EncodedSize(s.entries);
    OptionalEncodes(s.cluster, s.active);
    OptionalEncodes(s.joint, s.completed);
  }

  lemma OptionalEncodes(c: Option<Configuration>, o: Option<Operation>)
    ensures EncodeOptionalConfiguration(c).Some? && EncodeOptionalOperation(o).Some? <==> WritableOptional(c, o)
  {
    hide EncodeMembers;
  }

  /** The entries both logs begin with, and no more. */
  ghost predicate LongestCommon(a: seq<LogEntry>, b: seq<LogEntry>, n: nat) {
    n <= |a| && n <= |b| && a[..n] == b[..n] && (n < |a| && n < |b| ==> a[n] != b[n])
  }

  /** A delta is refused exactly if term or commit index would fall, a log is malformed or too long, the logs do not
      begin with the same entry, or the part that differs is too large. */
  lemma DeltaEncodes(previous: Persistent, s: Persistent, common: nat)
    requires LongestCommon(previous.entries, s.entries, common)
    ensures EncodeDelta(previous, s).Some? <==>
              && s.term >= previous.term && s.commit >= previous.commit && common > 0
              && WellNumbered(s) && |s.entries| <= 1000000 && WellNumbered(previous.(commit := 0))
              && ShortCommands(s.entries[common..]) && 37 + EntriesSize(s.entries[common..]) <= 64 * 1024 * 1024
  {
    hide EncodeMeta, EncodeEntries, CommonPrefix;
    CommonPrefixIs(previous.entries, s.entries, common);
    EncodedSize(s.entries[common..]);
  }

  /** A delta carries exactly the entries behind what the two logs have in common. */
  lemma DeltaIsMinimal(previous: Persistent, s: Persistent, common: nat)
    requires Words(s) && LongestCommon(previous.entries, s.entries, common) && EncodeDelta(previous, s).Some?
    ensures DecodePatch(EncodeDelta(previous, s).value) ==
            Some(Patch(Meta(s.term, s.votedFor, s.commit), common, s.entries[common..]))
    ensures |EncodeDelta(previous, s).value| == 37 + EntriesSize(s.entries[common..])
  {
    hide EncodeMeta, EncodeEntries, CommonPrefix, DecodePatch;
    CommonPrefixIs(previous.entries, s.entries, common);
    EncodedSize(s.entries[common..]);
    PatchBack(s, common);
  }

  /** A save writes a delta exactly if a state was written before with the same first entry and the same configurations
      and operations; otherwise it writes a full image. */
  lemma RecordKind(last: Option<Persistent>, s: Persistent)
    requires Written(last, s).Some?
    ensures !Written(last, s).value.full <==>
              && last.Some? && |last.value.entries| > 0 && |s.entries| > 0 && last.value.entries[0] == s.entries[0]
              && last.value.cluster == s.cluster && last.value.joint == s.joint
              && last.value.active == s.active && last.value.completed == s.completed
  {
    hide EncodeState, EncodeDelta;
  }
}
