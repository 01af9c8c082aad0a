/** Publishing a snapshot: the image is written first, then the log is compacted and saved. Wherever
    the process dies, the constructor rebuilds the state of the whole committed log. */
module SnapshotPublication {
  import opened RaftTypes
  import opened LogSpec
  import opened Quorum
  import opened StateMachineSpec

  /** The snapshot file, and what the journal holds of the log. */
  datatype Disk = Disk(snapshot: Option<Image>, log: seq<LogEntry>, commit: LogIndex)

  // ---------------------------------------------------------------- replay

  /** `applyCommitted` run to its end: None when a committed entry is absent or cannot be applied. */
  function ApplyUpTo(m: Machine, decode: Decoder, log: seq<LogEntry>, commit: LogIndex): Option<Machine>
    requires |log| > 0
  {
    var reached := CatchUp(m, decode, log, commit).machine;
    if reached.lastApplied >= commit then Some(reached) else None
  }

  /** What the constructor checks of a snapshot before it restores it. */
  predicate Acceptable(image: Image, log: seq<LogEntry>, commit: LogIndex)
    requires |log| > 0
  {
    image.index <= commit && TermAt(log, image.index) == Some(image.term) && StateMachineSpec.Restorable(image)
  }

  /** The checks and the replay of the constructor over the files it finds. */
  function Recover(decode: Decoder, d: Disk): Option<Machine>
    requires |d.log| > 0
  {
    match d.snapshot
    case None => ApplyUpTo(Empty(), decode, d.log, d.commit)
    case Some(image) =>
      if !Acceptable(image, d.log, d.commit) then None
      else ApplyUpTo(Restored(image), decode, d.log, d.commit)
  }

  /** A snapshot ahead of the commit index, one whose boundary is not in the log with its term, and one with repeated or
      reserved keys or clients is refused, whatever the log holds. */
  lemma RefusedSnapshot(decode: Decoder, d: Disk)
    requires Contiguous(d.log) && d.snapshot.Some?
    requires var image := d.snapshot.value;
             || image.index > d.commit
             || !(exists j :: 0 <= j < |d.log| && d.log[j].index == image.index && d.log[j].term == image.term)
             || !StateMachineSpec.Restorable(image)
    ensures Recover(decode, d) == None
  {
    hide CatchUp;
    var image := d.snapshot.value;
    if OffsetOf(d.log, image.index).Some? {
      var j := OffsetOf(d.log, image.index).value;
      assert d.log[j].index == image.index;
    }
  }

  // ---------------------------------------------------------------- the log as a whole

  /** The machine after the first k entries of an uncompacted log. */
  function MachineAt(decode: Decoder, whole: seq<LogEntry>, k: nat): Machine
    requires k < |whole|
  {
    ApplyAll(Empty(), decode, whole[1..k + 1]).machine
  }

  /** An uncompacted log whose first `commit` entries all apply. */
  ghost predicate Sound(decode: Decoder, whole: seq<LogEntry>, commit: LogIndex) {
    && commit < |whole| && Contiguous(whole) && FirstIndex(whole) == 0 && Sane(decode)
    && (forall j :: 0 <= j < |whole| ==> (whole[j].term == 0 <==> j == 0))
    && AllApply(Empty(), decode, whole[1..commit + 1])
  }

  lemma {:induction false} AppliesBelow(m: Machine, decode: Decoder, entries: seq<LogEntry>, k: nat)
    requires AllApply(m, decode, entries) && k < |entries|
    ensures AllApply(m, decode, entries[..k])
    ensures Apply(ApplyAll(m, decode, entries[..k]).machine, decode, entries[k]).1 != Failed
    ensures ApplyAll(m, decode, entries[..k + 1]).machine ==
            Apply(ApplyAll(m, decode, entries[..k]).machine, decode, entries[k]).0
  {
    hide Apply;
    var front := entries[..|entries| - 1];
    var all, before := ApplyAll(m, decode, entries), ApplyAll(m, decode, front);
    var outcome := Apply(before.machine, decode, entries[|entries| - 1]).1;
    assert all.outcomes == before.outcomes + [outcome];
    assert all.outcomes[|before.outcomes|] == outcome;
    if k < |entries| - 1 {
      AppliesBelow(m, decode, front, k);
      assert front[..k] == entries[..k] && front[..k + 1] == entries[..k + 1];
    } else {
      assert entries[..k + 1] == entries;
    }
  }

  lemma SliceOf(whole: seq<LogEntry>, commit: nat, k: nat)
    requires k <= commit < |whole|
    ensures whole[1..commit + 1][..k] == whole[1..k + 1] && (k < commit ==> whole[1..commit + 1][k] == whole[k + 1])
  {
  }

  /** One committed entry further. */
  lemma MachineNext(decode: Decoder, whole: seq<LogEntry>, commit: LogIndex, k: nat)
    requires Sound(decode, whole, commit) && k < commit
    ensures Apply(MachineAt(decode, whole, k), decode, whole[k + 1]).1 != Failed
    ensures Apply(MachineAt(decode, whole, k), decode, whole[k + 1]).0 == MachineAt(decode, whole, k + 1)
  {
    hide Apply;
    var entries := whole[1..commit + 1];
    AppliesBelow(Empty(), decode, entries, k);
    SliceOf(whole, commit, k);
    SliceOf(whole, commit, k + 1);
  }

  lemma {:induction false} MachineReached(decode: Decoder, whole: seq<LogEntry>, commit: LogIndex, k: nat)
    requires Sound(decode, whole, commit) && k <= commit
    ensures MachineAt(decode, whole, k).lastApplied == k && SaneSessions(MachineAt(decode, whole, k))
  {
    if k > 0 {
      MachineReached(decode, whole, commit, k - 1);
      MachineNext(decode, whole, commit, k - 1);
    } else {
      assert whole[1..1] == [];
    }
  }

  // ---------------------------------------------------------------- recovery

  /** The log kept after compaction at b. */
  ghost predicate CompactedAt(log: seq<LogEntry>, whole: seq<LogEntry>, b: nat) {
    b < |whole| && log == [Boundary(b, whole[b].term)] + whole[b + 1..]
  }

  lemma CompactedEntries(log: seq<LogEntry>, whole: seq<LogEntry>, b: nat, i: nat)
    requires CompactedAt(log, whole, b) && Contiguous(whole) && FirstIndex(whole) == 0 && b <= i < |whole|
    ensures Contiguous(log) && TermAt(log, i) == Some(whole[i].term) && (i > b ==> EntryAt(log, i) == Some(whole[i]))
  {
    assert OffsetOf(log, i) == Some(i - b);
  }

  lemma {:induction false} ReplayReaches(decode: Decoder, log: seq<LogEntry>, whole: seq<LogEntry>, b: nat, k: nat,
                                         commit: LogIndex)
    requires Sound(decode, whole, commit) && CompactedAt(log, whole, b) && b <= k <= commit
    ensures ApplyUpTo(MachineAt(decode, whole, k), decode, log, commit) == Some(MachineAt(decode, whole, commit))
    decreases commit - k
  {
    hide Apply, MachineAt, EntryAt;
    MachineReached(decode, whole, commit, k);
    if k < commit {
      CompactedEntries(log, whole, b, k + 1);
      MachineNext(decode, whole, commit, k);
      MachineReached(decode, whole, commit, k + 1);
      ReplayReaches(decode, log, whole, b, k + 1, commit);
    }
  }

  /** A disk whose snapshot, if any, is an image of the committed log at or above the boundary of
      the journal's log, and whose log is uncompacted if there is none. */
  ghost predicate Consistent(decode: Decoder, d: Disk, whole: seq<LogEntry>, b: nat) {
    && Sound(decode, whole, d.commit) && CompactedAt(d.log, whole, b) && b <= d.commit
    && match d.snapshot
       case None => b == 0
       case Some(image) =>
         b <= image.index <= d.commit && Lists(image, MachineAt(decode, whole, image.index), whole[image.index].term)
  }

  /** Such a disk passes the constructor's checks and gives the state of the whole committed log. */
  lemma ConsistentRecovers(decode: Decoder, d: Disk, whole: seq<LogEntry>, b: nat)
    requires Consistent(decode, d, whole, b)
    ensures |d.log| > 0 && Recover(decode, d) == Some(MachineAt(decode, whole, d.commit))
  {
    hide ApplyUpTo, CatchUp, MachineAt, Lists, Apply;
    match d.snapshot
    case None =>
      MachineStart(decode, whole);
      ReplayReaches(decode, d.log, whole, 0, 0, d.commit);
    case Some(image) =>
      var k := image.index;
      CompactedEntries(d.log, whole, b, k);
      MachineReached(decode, whole, d.commit, k);
      ImageOf(image, MachineAt(decode, whole, k), whole[k].term);
      RestoreInvertsSnapshot(image, MachineAt(decode, whole, k), whole[k].term);
      ReplayReaches(decode, d.log, whole, b, k, d.commit);
  }

  lemma ImageOf(image: Image, m: Machine, term: Term)
    requires Lists(image, m, term)
    ensures image.index == m.lastApplied && image.term == term
  {
  }

  lemma MachineStart(decode: Decoder, whole: seq<LogEntry>)
    requires whole != []
    ensures MachineAt(decode, whole, 0) == Empty()
  {
    assert whole[1..1] == [];
  }

  // ---------------------------------------------------------------- the service

  ghost predicate Recovers(decode: Decoder, d: Disk) {
    |d.log| > 0 && Recover(decode, d).Some?
  }

  datatype Publication = Idle | Published | SaveFailed | NoTerm

  class RaftKVService {
    const decode: Decoder
    var started: bool  // whether the constructor returned instead of throwing
    var machine: Machine
    var lastSnapshotIndex: LogIndex
    var log: seq<LogEntry>
    var commit: LogIndex
    var disk: Disk
    ghost var whole: seq<LogEntry>
    ghost var boundary: nat
    ghost var crashes: seq<Disk>  // every content the disk has had

    /** Memory and disk agree, everything committed is applied, and the constructor would accept
        every content the disk has had. */
    ghost predicate Valid()
      reads this
    {
      && started && disk.log == log && disk.commit == commit && Consistent(decode, disk, whole, boundary)
      && machine == MachineAt(decode, whole, commit)
      && lastSnapshotIndex == (if disk.snapshot.Some? then disk.snapshot.value.index else 0)
      && |crashes| > 0 && crashes[|crashes| - 1] == disk
      && forall k :: 0 <= k < |crashes| ==> Recovers(decode, crashes[k])
    }

    /** Starting over any disk. It succeeds exactly when the disk can be recovered, and always over
        a disk that a service left behind. */
    constructor (decode: Decoder, d: Disk, ghost w: seq<LogEntry>, ghost b: nat)
      requires |d.log| > 0
      ensures started <==> Recover(decode, d).Some?
      ensures started ==> machine == Recover(decode, d).value
      ensures Consistent(decode, d, w, b) ==> Valid()
      ensures this.decode == decode && disk == d && whole == w && boundary == b && crashes == [d]
    {
      this.decode, disk, log, commit, whole, boundary, crashes := decode, d, d.log, d.commit, w, b, [d];
      machine, started := Empty(), false;
      lastSnapshotIndex := if d.snapshot.Some? then d.snapshot.value.index else 0;
      new;
      Rebuild();
    }

    /** The constructor's body: check the snapshot, restore it, apply what is committed. */
    method Rebuild()
      requires |log| > 0 && machine == Empty() && !started && disk.log == log && disk.commit == commit
      modifies this`machine, this`started
      ensures started <==> Recover(decode, disk).Some?
      ensures started ==> machine == Recover(decode, disk).value
      ensures Consistent(decode, disk, whole, boundary) ==> started && machine == MachineAt(decode, whole, commit)
    {
      hide Consistent, CatchUp, Acceptable, Restored, MachineAt;
      var accepted := disk.snapshot.None? || Acceptable(disk.snapshot.value, log, commit);
      if accepted {
        if disk.snapshot.Some? {
          machine := Restored(disk.snapshot.value);
        }
        started := ApplyCommitted();
      }
      if Consistent(decode, disk, whole, boundary) {
        ConsistentRecovers(decode, disk, whole, boundary);
      }
    }

    /** Applies the committed entries that have not been applied; false when one is absent or
        cannot be applied, where it stops. */
    method ApplyCommitted() returns (ok: bool)
      requires |log| > 0
      modifies this`machine
      ensures machine == CatchUp(old(machine), decode, log, commit).machine && (ok <==> machine.lastApplied >= commit)
    {
      hide Apply;
      while machine.lastApplied < commit
        invariant CatchUp(machine, decode, log, commit).machine == CatchUp(old(machine), decode, log, commit).machine
        decreases commit - machine.lastApplied
      {
        var entry := EntryAt(log, machine.lastApplied + 1);
        if entry.None? {
          return false;
        }
        AppliedMoves(machine, decode, entry.value);
        var (next, outcome) := Apply(machine, decode, entry.value);
        if outcome == Failed {
          return false;
        }
        machine := next;
      }
      return true;
    }

    /** A handler of the node that changed the log or the commit index: the journal is saved, then
        what is newly committed is applied. The committed entries are those they were. */
    method Progress(newLog: seq<LogEntry>, newCommit: LogIndex, ghost w: seq<LogEntry>) returns (ok: bool)
      requires Valid() && CompactedAt(newLog, w, boundary) && commit <= newCommit && Sound(decode, w, newCommit)
      requires w[..commit + 1] == whole[..commit + 1]
      modifies this
      ensures ok && Valid() && whole == w && commit == newCommit && log == newLog && crashes == old(crashes) + [disk]
      ensures disk.snapshot == old(disk.snapshot) && lastSnapshotIndex == old(lastSnapshotIndex)
      ensures boundary == old(boundary)
      ensures |disk.log| > 0 && Recover(decode, disk) == Some(machine)
    {
      hide Apply, Lists, CatchUp, Recover;
      ghost var c := commit;
      SameMachines(decode, whole, w, c);
      log, commit := newLog, newCommit;
      WriteDisk(disk.(log := newLog, commit := newCommit));
      whole := w;
      ReplayReaches(decode, log, w, boundary, c, newCommit);
      ok := ApplyCommitted();
      ConsistentRecovers(decode, disk, w, boundary);
    }

    method WriteDisk(d: Disk)
      modifies this`disk, this`crashes
      ensures disk == d && crashes == old(crashes) + [d]
    {
      disk, crashes := d, crashes + [d];
    }

    /** `image` is any image of the machine, the order of keys is not fixed here; `saved` is whether
        the snapshot store's write succeeded. The log always has a term at the last applied index,
        and compaction there never fails. */
    method TryPublishSnapshot(threshold: nat, image: Image, saved: bool) returns (r: Publication)
      requires Valid()
      requires var term := TermAt(log, machine.lastApplied); term.Some? ==> Lists(image, machine, term.value)
      modifies this
      ensures Valid() && whole == old(whole) && commit == old(commit) && machine == old(machine)
      ensures r == if threshold == 0 || old(machine.lastApplied) < old(lastSnapshotIndex) + threshold then Idle
                   else if saved then Published else SaveFailed
      ensures r == Published ==> boundary == commit && disk.snapshot == Some(image)
      ensures r == Published ==> lastSnapshotIndex == machine.lastApplied
      ensures r != Published ==> unchanged(this)
      ensures old(crashes) <= crashes
      ensures forall k :: |old(crashes)| <= k < |crashes| ==>
                |crashes[k].log| > 0 && Recover(decode, crashes[k]) == Some(machine)
    {
      hide Apply, MachineAt, Lists, Recover, CatchUp;
      var lastApplied := machine.lastApplied;
      if threshold == 0 || lastApplied <= lastSnapshotIndex || lastApplied - lastSnapshotIndex < threshold {
        return Idle;
      }
      MachineReached(decode, whole, commit, commit);
      CompactedEntries(log, whole, boundary, lastApplied);
      var term := TermAt(log, lastApplied);
      if term.None? {
        return NoTerm;
      }
      if !saved {
        return SaveFailed;
      }
      ImageOf(image, machine, term.value);
      WriteDisk(disk.(snapshot := Some(image)));
      ImageConsistent(decode, disk, whole, boundary, image, machine);
      ConsistentRecovers(decode, disk, whole, boundary);
      CompactedCompacts(log, whole, boundary, lastApplied, image.term);
      log := CompactTo(log, lastApplied, image.term).value;
      boundary := lastApplied;
      WriteDisk(disk.(log := log));
      ConsistentRecovers(decode, disk, whole, boundary);
      lastSnapshotIndex := lastApplied;
      return Published;
    }
  }

  /** Logs that agree up to a commit index give the same machines up to it. */
  lemma SameMachines(decode: Decoder, whole: seq<LogEntry>, w: seq<LogEntry>, commit: nat)
    requires commit < |whole| && commit < |w| && w[..commit + 1] == whole[..commit + 1]
    ensures forall k :: 0 <= k <= commit ==> MachineAt(decode, w, k) == MachineAt(decode, whole, k) && w[k] == whole[k]
  {
    forall k | 0 <= k <= commit ensures MachineAt(decode, w, k) == MachineAt(decode, whole, k) && w[k] == whole[k] {
      assert w[1..k + 1] == w[..commit + 1][1..k + 1] == whole[1..k + 1];
      assert w[k] == w[..commit + 1][k] == whole[k];
    }
  }

  lemma ImageConsistent(decode: Decoder, d: Disk, whole: seq<LogEntry>, b: nat, image: Image, m: Machine)
    requires Sound(decode, whole, d.commit) && CompactedAt(d.log, whole, b) && b <= d.commit
    requires d.snapshot == Some(image)
    requires m == MachineAt(decode, whole, d.commit) && Lists(image, m, image.term) && m.lastApplied == d.commit
    requires TermAt(d.log, d.commit) == Some(image.term)
    ensures Consistent(decode, d, whole, b) && image.index == d.commit
    ensures var log := [Boundary(d.commit, whole[d.commit].term)] + whole[d.commit + 1..];
            Consistent(decode, d.(log := log), whole, d.commit)
  {
    hide MachineAt, Apply;
    ImageOf(image, m, image.term);
    CompactedEntries(d.log, whole, b, d.commit);
  }

  /** Compacting an already compacted log is compacting the whole. */
  lemma CompactedCompacts(log: seq<LogEntry>, whole: seq<LogEntry>, b: nat, index: nat, term: Term)
    requires CompactedAt(log, whole, b) && Contiguous(whole) && FirstIndex(whole) == 0 && b <= index < |whole|
    requires (forall j :: 0 <= j < |whole| ==> (whole[j].term == 0 <==> j == 0)) && term == whole[index].term
    ensures |log| > 0 && CompactTo(log, index, term).Some?
    ensures CompactedAt(CompactTo(log, index, term).value, whole, index)
  {
    CompactedEntries(log, whole, b, index);
    assert OffsetOf(log, index) == Some(index - b);
    assert log[index - b + 1..] == whole[index + 1..];
  }
}
