/** A snapshot file sent in chunks that may be lost, repeated, reordered or mixed with those of other
    boundaries: the receiver holds a prefix of one file, or nothing. */
module SnapshotTransfer {
  import opened RaftTypes

  datatype Boundary = Boundary(index: LogIndex, term: Term)

  /** The file behind every boundary that is ever sent. */
  type Files = Boundary -> seq<Byte>

  datatype Chunk = Chunk(boundary: Boundary, offset: nat, data: seq<Byte>, last: bool)

  /** What one read of the boundary's file returns. */
  predicate DrawnFrom(files: Files, c: Chunk) {
    var file := files(c.boundary);
    && c.offset + |c.data| <= |file| && c.data == file[c.offset..c.offset + |c.data|]
    && (c.last <==> c.offset + |c.data| >= |file|)
  }

  /** A chunk of at most `maximum` bytes from an offset on; None if the offset is past the end. */
  method ReadBytes(file: seq<Byte>, offset: nat, maximum: nat) returns (r: Option<(seq<Byte>, bool)>)
    ensures r.Some? <==> maximum > 0 && offset <= |file|
    ensures r.Some? ==>
              && |r.value.0| == Min(|file| - offset, maximum) && r.value.0 == file[offset..offset + |r.value.0|]
              && (r.value.1 <==> offset + |r.value.0| >= |file|)
  {
    if maximum == 0 || |file| < offset {
      return None;
    }
    var toRead := Min(|file| - offset, maximum);
    var chunk: seq<Byte> := [];
    for readTotal := 0 to toRead
      invariant chunk == file[offset..offset + readTotal]
    {
      chunk := chunk + [file[offset + readTotal]];
    }
    return Some((chunk, offset + |chunk| >= |file|));
  }

  // ---------------------------------------------------------------- the follower's steps

  /** The temporary file of an active transfer. */
  datatype Transfer = Transfer(boundary: Boundary, received: seq<Byte>)

  datatype Installer = Installer(transfer: Option<Transfer>, published: Option<seq<Byte>>)

  /** What a complete file must pass before it is published: header, length, checksum, boundary. */
  type Acceptance = (Boundary, seq<Byte>) -> bool

  function Begun(b: Boundary): Option<Transfer> {
    if (b.index == 0) != (b.term == 0) then None else Some(Transfer(b, []))
  }

  /** `appendChunk`: None cancels the transfer. */
  function Appended(t: Transfer, c: Chunk): Option<Transfer> {
    if c.boundary != t.boundary || c.offset != |t.received| || (c.data == [] && !c.last) then None
    else
      var t' := t.(received := t.received + c.data);
      if c.last && t'.received == [] then None else Some(t')
  }

  /** The chunk would complete a file without a byte. */
  predicate EmptyFile(t: Transfer, c: Chunk) {
    c.boundary == t.boundary && c.offset == |t.received| == 0 && c.data == [] && c.last
  }

  /** `handleInstallSnapshot`, for a request of the current leader. */
  function Received(f: Installer, c: Chunk, accepts: Acceptance): Installer {
    var start := if c.offset == 0 then Begun(c.boundary) else f.transfer;
    if start.None? then f.(transfer := None)
    else
      match Appended(start.value, c)
      case None => f.(transfer := None)
      case Some(t) =>
        if !c.last then f.(transfer := Some(t))
        else if accepts(t.boundary, t.received) then Installer(None, Some(t.received))
        else f.(transfer := None)
  }

  // ---------------------------------------------------------------- every stream

  ghost predicate HoldsPrefix(f: Installer, files: Files) {
    f.transfer.Some? ==> f.transfer.value.received <= files(f.transfer.value.boundary)
  }

  lemma ReceivedKeeps(f: Installer, c: Chunk, files: Files, accepts: Acceptance)
    requires HoldsPrefix(f, files) && DrawnFrom(files, c)
    ensures HoldsPrefix(Received(f, c, accepts), files)
    ensures Received(f, c, accepts).published != f.published ==>
              Received(f, c, accepts).published == Some(files(c.boundary)) && accepts(c.boundary, files(c.boundary))
  {
    var start := if c.offset == 0 then Begun(c.boundary) else f.transfer;
    if start.Some? && Appended(start.value, c).Some? {
      var t := Appended(start.value, c).value;
      var file := files(c.boundary);
      assert start.value.received == file[..c.offset];
      assert t.received == file[..c.offset + |c.data|];
      if c.last {
        assert t.received == file;
      }
    }
  }

  ghost predicate Stream(fs: seq<Installer>, cs: seq<Chunk>, files: Files, accepts: Acceptance) {
    && |fs| == |cs| + 1 && fs[0].transfer == None
    && forall k :: 0 <= k < |cs| ==> DrawnFrom(files, cs[k]) && fs[k + 1] == Received(fs[k], cs[k], accepts)
  }

  /** The published file is the whole file of the chunk's boundary, and passed the checks. */
  ghost predicate PublishedBy(f: Installer, c: Chunk, files: Files, accepts: Acceptance) {
    f.published == Some(files(c.boundary)) && accepts(c.boundary, files(c.boundary))
  }

  /** Whatever chunks arrive, in whatever order: the receiver always holds a prefix of its
      boundary's file, and the published file is the one there was at the start or the whole file
      of a boundary that was sent. */
  lemma {:induction false} Reassembles(fs: seq<Installer>, cs: seq<Chunk>, files: Files, accepts: Acceptance, k: nat)
    requires Stream(fs, cs, files, accepts) && k < |fs|
    ensures HoldsPrefix(fs[k], files)
    ensures fs[k].published == fs[0].published ||
            exists j :: 0 <= j < k && PublishedBy(fs[k], cs[j], files, accepts)
  {
    if k > 0 {
      Reassembles(fs, cs, files, accepts, k - 1);
      assert fs[k - 1 + 1] == Received(fs[k - 1], cs[k - 1], accepts);
      ReceivedKeeps(fs[k - 1], cs[k - 1], files, accepts);
      if fs[k].published == fs[k - 1].published && fs[k].published != fs[0].published {
        var j :| 0 <= j < k - 1 && PublishedBy(fs[k - 1], cs[j], files, accepts);
        assert 0 <= j < k;
      }
    }
  }

  /** The chunk goes on where the receiver stopped, or starts anew, and brings a byte. */
  predicate Continues(f: Installer, c: Chunk) {
    && (if c.offset == 0 then (c.boundary.index == 0 <==> c.boundary.term == 0)
        else f.transfer.Some? && c.boundary == f.transfer.value.boundary && c.offset == |f.transfer.value.received|)
    && (c.data != [] || (c.last && c.offset > 0))
  }

  /** The bytes the receiver has once it took such a chunk. */
  function Gathered(f: Installer, c: Chunk): seq<Byte>
    requires Continues(f, c)
  {
    if c.offset == 0 then c.data else f.transfer.value.received + c.data
  }

  /** Any other chunk ends the transfer and publishes nothing. One that continues it is kept at the end of what was
      received; if it is the last, the transfer is over, and the file is published exactly if it is accepted. */
  lemma ChunkTaken(f: Installer, c: Chunk, accepts: Acceptance)
    ensures var f' := Received(f, c, accepts);
            && (!Continues(f, c) ==> f' == Installer(None, f.published))
            && (Continues(f, c) && !c.last ==> f' == Installer(Some(Transfer(c.boundary, Gathered(f, c))), f.published))
            && (Continues(f, c) && c.last ==>
                  f' == Installer(None, if accepts(c.boundary, Gathered(f, c)) then Some(Gathered(f, c))
                                        else f.published))
  {
    var start := if c.offset == 0 then Begun(c.boundary) else f.transfer;
    if start.Some? {
      assert c.offset == 0 ==> [] + c.data == c.data;
      assert c.data == [] ==> start.value.received + c.data == start.value.received;
    }
  }

  // ---------------------------------------------------------------- a stream that arrives

  /** The chunks of a file, in order. */
  function Chunks(files: Files, b: Boundary, offset: nat, maximum: nat): seq<Chunk>
    requires maximum > 0 && offset <= |files(b)|
    decreases |files(b)| - offset
  {
    var file := files(b);
    var size := Min(|file| - offset, maximum);
    var c := Chunk(b, offset, file[offset..offset + size], offset + size >= |file|);
    if c.last then [c] else [c] + Chunks(files, b, offset + size, maximum)
  }

  function ReceivedAll(f: Installer, cs: seq<Chunk>, accepts: Acceptance): Installer
    decreases |cs|
  {
    if cs == [] then f else ReceivedAll(Received(f, cs[0], accepts), cs[1..], accepts)
  }

  lemma {:induction false} DeliveryContinues(f: Installer, files: Files, b: Boundary, offset: nat, maximum: nat,
                                             accepts: Acceptance)
    requires maximum > 0 && 0 < offset < |files(b)| && accepts(b, files(b))
    requires f.transfer == Some(Transfer(b, files(b)[..offset]))
    ensures ReceivedAll(f, Chunks(files, b, offset, maximum), accepts) == Installer(None, Some(files(b)))
    decreases |files(b)| - offset
  {
    var file := files(b);
    var cs := Chunks(files, b, offset, maximum);
    var size := |cs[0].data|;
    assert file[..offset] + cs[0].data == file[..offset + size];
    var f' := Received(f, cs[0], accepts);
    if cs[0].last {
      assert file[..offset + size] == file;
      assert cs[1..] == [];
    } else {
      assert f'.transfer == Some(Transfer(b, file[..offset + size]));
      assert cs[1..] == Chunks(files, b, offset + size, maximum);
      DeliveryContinues(f', files, b, offset + size, maximum, accepts);
    }
  }

  /** Sent in order from the start, a file that the follower accepts is published whole, whatever
      transfer was under way. */
  lemma DeliveryPublishes(f: Installer, files: Files, b: Boundary, maximum: nat, accepts: Acceptance)
    requires maximum > 0 && files(b) != [] && accepts(b, files(b)) && (b.index == 0 <==> b.term == 0)
    ensures ReceivedAll(f, Chunks(files, b, 0, maximum), accepts) == Installer(None, Some(files(b)))
  {
    var file := files(b);
    var cs := Chunks(files, b, 0, maximum);
    var size := |cs[0].data|;
    assert [] + cs[0].data == file[..size];
    var f' := Received(f, cs[0], accepts);
    if cs[0].last {
      assert file[..size] == file;
      assert cs[1..] == [];
    } else {
      assert f'.transfer == Some(Transfer(b, file[..size]));
      assert cs[1..] == Chunks(files, b, size, maximum);
      DeliveryContinues(f', files, b, size, maximum, accepts);
    }
  }

  // ---------------------------------------------------------------- the receiver

  class SnapshotFileReceiver {
    var active: bool
    var boundary: Boundary
    var receivedSize: nat
    var temporary: seq<Byte>  // the temporary file

    ghost function View(): Option<Transfer>
      reads this
    {
      if active then Some(Transfer(boundary, temporary)) else None
    }

    ghost predicate Valid()
      reads this
    {
      active ==> receivedSize == |temporary|
    }

    constructor ()
      ensures Valid() && View() == None
    {
      active, boundary, receivedSize, temporary := false, Boundary(0, 0), 0, [];
    }

    method Cancel()
      modifies this
      ensures Valid() && View() == None
    {
      active, receivedSize, boundary, temporary := false, 0, Boundary(0, 0), [];
    }

    method Begin(b: Boundary) returns (ok: bool)
      requires Valid() && !active
      modifies this
      ensures Valid() && (ok <==> Begun(b).Some?) && View() == Begun(b)
    {
      if (b.index == 0) != (b.term == 0) {
        return false;
      }
      active, boundary, receivedSize, temporary := true, b, 0, [];
      return true;
    }

    /** A refused chunk leaves the transfer as it is, or just begun, for the caller to cancel; an
        empty file cancels it. */
    method AppendChunk(c: Chunk) returns (ok: bool)
      requires Valid()
      modifies this
      ensures Valid()
      ensures var start := if c.offset == 0 && old(View()).None? then Begun(c.boundary) else old(View());
              if start.Some? && Appended(start.value, c).Some? then ok && View() == Appended(start.value, c)
              else !ok && View() == if start.Some? && EmptyFile(start.value, c) then None else start
    {
      if c.offset == 0 && !active {
        var begun := Begin(c.boundary);
        if !begun {
          return false;
        }
      }
      if !active || c.boundary != boundary || c.offset != receivedSize || (c.data == [] && !c.last) {
        return false;
      }
      ghost var before := temporary;
      if c.data != [] {
        temporary := temporary[..c.offset] + c.data;
        receivedSize := receivedSize + |c.data|;
      }
      assert before[..|before|] == before;
      assert temporary == before + c.data;
      if c.last && receivedSize == 0 {
        Cancel();
        return false;
      }
      return true;
    }

    /** `handleInstallSnapshot` after the term checks; true when a file was published. */
    method Handle(c: Chunk, accepts: Acceptance, current: Option<seq<Byte>>) returns (published: Option<seq<Byte>>)
      requires Valid()
      modifies this
      ensures Valid() && Installer(View(), published) == Received(Installer(old(View()), current), c, accepts)
    {
      published := current;
      if c.offset == 0 {
        Cancel();
      }
      var ok := AppendChunk(c);
      if !ok {
        Cancel();
        return;
      }
      if !c.last {
        return;
      }
      if accepts(boundary, temporary) {
        published := Some(temporary);
      }
      Cancel();
    }
  }
}
