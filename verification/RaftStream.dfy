/** Frames cut out of a byte stream that arrives in arbitrary pieces. */
module RaftStream {
  import opened RaftTypes
  import opened Bytes
  import opened JournalCodec
  import opened RaftProtocol

  // ---------------------------------------------------------------- frames

  function FrameHeader(kind: Byte, size: nat): (bytes: seq<Byte>)
    ensures |bytes| == HEADER
  {
    U32(MAGIC) + ([1, kind, 0, 0] + U32(size))
  }

  /** `encode`: None is a refusal. */
  function Frame(p: Packet): Option<seq<Byte>> {
    if p.source == 0 then None
    else
      match EncodePayload(p.rpc)
      case None => None
      case Some(payload) =>
        var body := U64(p.source) + payload;
        if |body| > MAX_FRAME then None else Some(FrameHeader(WireType(p.rpc), |body|) + body)
  }

  datatype Decoded = NeedMore | Failure | Complete(packet: Packet, rest: seq<Byte>)

  function DecodePacket(kind: Byte, body: seq<Byte>): Option<Packet> {
    match Read64(body)
    case None => None
    case Some(source) =>
      if source.value == 0 then None
      else
        match DecodePayload(kind, source.rest)
        case None => None
        case Some(rpc) => Some(Packet(source.value, rpc))
  }

  predicate HeaderOk(buffer: seq<Byte>)
    requires |buffer| >= HEADER
  {
    && Value(buffer[..4]) == MAGIC && buffer[4] == 1 && buffer[6] == 0 && buffer[7] == 0
    && 1 <= buffer[5] <= 6 && 8 <= Value(buffer[8..12]) <= MAX_FRAME
  }

  /** `tryDecode` on the bytes buffered so far. */
  function TryDecode(buffer: seq<Byte>): Decoded {
    if |buffer| < HEADER then NeedMore
    else if !HeaderOk(buffer) then Failure
    else
      var size := Value(buffer[8..12]);
      if |buffer| < HEADER + size then NeedMore
      else
        match DecodePacket(buffer[5], buffer[HEADER..HEADER + size])
        case None => Failure
        case Some(packet) => Complete(packet, buffer[HEADER + size..])
  }

  // ---------------------------------------------------------------- one frame

  predicate Sendable(p: Packet) {
    Frame(p).Some? && p.source <= MAX_WORD && RpcWords(p.rpc)
  }

  lemma HeaderBack(kind: Byte, size: nat, body: seq<Byte>)
    requires 1 <= kind <= 6 && 8 <= size <= MAX_FRAME
    ensures var buffer := FrameHeader(kind, size) + body;
            HeaderOk(buffer) && buffer[5] == kind && Value(buffer[8..12]) == size
  {
    var buffer := FrameHeader(kind, size) + body;
    assert buffer[..4] == U32(MAGIC) && buffer[8..12] == U32(size);
    Limits();
    ValueOfBig(MAGIC, 4);
    ValueOfBig(size, 4);
  }

  lemma PacketBack(p: Packet)
    requires Sendable(p)
    ensures EncodePayload(p.rpc).Some?
    ensures DecodePacket(WireType(p.rpc), U64(p.source) + EncodePayload(p.rpc).value) ==
            if Answerable(p.rpc) then Some(p) else None
  {
    hide EncodePayload, DecodePayload, Read64;
    var payload := EncodePayload(p.rpc).value;
    Back64(p.source, payload);
    PayloadBack(p.rpc);
  }

  /** A whole frame is decoded and removed, whatever follows it; a response over the decoder's
      limit is the one kind that is refused. */
  lemma FrameBack(p: Packet, rest: seq<Byte>)
    requires Sendable(p)
    ensures TryDecode(Frame(p).value + rest) == if Answerable(p.rpc) then Complete(p, rest) else Failure
  {
    hide EncodePayload, DecodePacket, FrameHeader, HeaderOk;
    var body := U64(p.source) + EncodePayload(p.rpc).value;
    var buffer := Frame(p).value + rest;
    assert buffer == FrameHeader(WireType(p.rpc), |body|) + (body + rest);
    HeaderBack(WireType(p.rpc), |body|, body + rest);
    assert buffer[HEADER..HEADER + |body|] == body && buffer[HEADER + |body|..] == rest;
    PacketBack(p);
  }

  /** Once its header is there, a frame is refused exactly if the header has another magic, version or type, reserved
      bytes, or an impossible size, or if the frame is all there and its body is none that `encode` could have
      written for that type. */
  lemma RefusedFrame(buffer: seq<Byte>)
    ensures TryDecode(buffer) == Failure <==>
              && |buffer| >= 12
              && var size := Value(buffer[8..12]);
                 || Value(buffer[..4]) != 0x444b5652 || buffer[4] != 1 || buffer[5] == 0 || buffer[5] > 6
                 || buffer[6] != 0 || buffer[7] != 0 || size < 8 || size > 2097152
                 || (|buffer| >= 12 + size && DecodePacket(buffer[5], buffer[12..12 + size]).None?)
  {
    hide DecodePacket;
  }

  /** A proper prefix of a frame is not an error: more is needed. */
  lemma PartialFrame(p: Packet, n: nat)
    requires Sendable(p) && n < |Frame(p).value|
    ensures TryDecode(Frame(p).value[..n]) == NeedMore
  {
    hide EncodePayload, DecodePacket, FrameHeader, HeaderOk;
    if n >= HEADER {
      var body := U64(p.source) + EncodePayload(p.rpc).value;
      var frame := Frame(p).value;
      HeaderBack(WireType(p.rpc), |body|, body);
      HeaderOfPrefix(frame, n);
    }
  }

  lemma HeaderOfPrefix(frame: seq<Byte>, n: nat)
    requires HEADER <= n <= |frame|
    ensures HeaderOk(frame[..n]) == HeaderOk(frame) && Value(frame[..n][8..12]) == Value(frame[8..12])
  {
    assert frame[..n][..4] == frame[..4] && frame[..n][8..12] == frame[8..12];
  }

  // ---------------------------------------------------------------- the stream

  function Frames(ps: seq<Packet>): seq<Byte>
    requires forall i :: 0 <= i < |ps| ==> Sendable(ps[i])
  {
    if ps == [] then [] else assert Sendable(ps[0]); Frame(ps[0]).value + Frames(ps[1..])
  }

  datatype Drained = Drained(packets: seq<Packet>, buffer: seq<Byte>, failed: bool)

  /** Decoding until more is needed. */
  function Drain(buffer: seq<Byte>): Drained
    decreases |buffer|
  {
    match TryDecode(buffer)
    case NeedMore => Drained([], buffer, false)
    case Failure => Drained([], buffer, true)
    case Complete(p, rest) =>
      var more := Drain(rest);
      more.(packets := [p] + more.packets)
  }

  ghost predicate Good(ps: seq<Packet>) {
    forall i :: 0 <= i < |ps| ==> Sendable(ps[i]) && Answerable(ps[i].rpc)
  }

  lemma CutInFirstFrame(ps: seq<Packet>, n: nat)
    requires Good(ps) && ps != [] && n < |Frame(ps[0]).value|
    ensures n <= |Frames(ps)| && Frames(ps)[..n] == Frame(ps[0]).value[..n] == Frames(ps)[0..n] && Frames(ps[..0]) == []
  {
    hide Frame;
  }

  lemma CutAfterFirstFrame(ps: seq<Packet>, n: nat, j: nat)
    requires Good(ps) && ps != [] && |Frame(ps[0]).value| <= n <= |Frames(ps)| && j <= |ps| - 1
    requires |Frames(ps[1..][..j])| <= n - |Frame(ps[0]).value|
    ensures var first, m := Frame(ps[0]).value, n - |Frame(ps[0]).value|;
            && m <= |Frames(ps[1..])| && Frames(ps)[..n] == first + Frames(ps[1..])[..m]
            && |Frames(ps[..j + 1])| == |first| + |Frames(ps[1..][..j])|
            && Frames(ps)[|Frames(ps[..j + 1])|..n] == Frames(ps[1..])[|Frames(ps[1..][..j])|..m]
            && ps[..j + 1] == [ps[0]] + ps[1..][..j]
  {
    hide Frame;
    assert ps[..j + 1][0] == ps[0] && ps[..j + 1][1..] == ps[1..][..j];
  }

  lemma DrainFirst(p: Packet, rest: seq<Byte>)
    requires Sendable(p) && Answerable(p.rpc)
    ensures Drain(Frame(p).value + rest) == Drain(rest).(packets := [p] + Drain(rest).packets)
  {
    hide Frame, TryDecode;
    FrameBack(p, rest);
  }

  lemma DrainPartial(p: Packet, n: nat)
    requires Sendable(p) && n < |Frame(p).value|
    ensures Drain(Frame(p).value[..n]) == Drained([], Frame(p).value[..n], false)
  {
    hide Frame, TryDecode;
    PartialFrame(p, n);
  }

  /** What draining the first n bytes of a stream leaves: the whole frames are out, and the bytes of
      the frame that is cut wait in the buffer. */
  lemma {:induction false} DrainPrefix(ps: seq<Packet>, n: nat) returns (k: nat)
    requires Good(ps) && n <= |Frames(ps)|
    ensures k <= |ps| && |Frames(ps[..k])| <= n
    ensures Drain(Frames(ps)[..n]) == Drained(ps[..k], Frames(ps)[|Frames(ps[..k])|..n], false)
    decreases |ps|
  {
    hide Frame, Drain, Frames;
    if ps == [] {
      k := 0;
      DrainShort([]);
      NoFrames(ps);
      assert ps[..0] == ps;
    } else if n < |Frame(ps[0]).value| {
      k := 0;
      CutInFirstFrame(ps, n);
      DrainPartial(ps[0], n);
    } else {
      var m := n - |Frame(ps[0]).value|;
      EmptyPrefix(ps[1..]);
      CutAfterFirstFrame(ps, n, 0);
      var j := DrainPrefix(ps[1..], m);
      k := j + 1;
      CutAfterFirstFrame(ps, n, j);
      DrainFirst(ps[0], Frames(ps[1..])[..m]);
    }
  }

  lemma EmptyPrefix(ps: seq<Packet>)
    requires Good(ps)
    ensures Frames(ps[..0]) == []
  {
  }

  lemma DrainShort(buffer: seq<Byte>)
    requires |buffer| < HEADER
    ensures Drain(buffer) == Drained([], buffer, false)
  {
  }

  lemma {:induction false} FramesJoin(a: seq<Packet>, b: seq<Packet>)
    requires Good(a) && Good(b)
    ensures Good(a + b) && Frames(a + b) == Frames(a) + Frames(b)
  {
    hide Frame, Sendable;
    if a == [] {
      assert a + b == b;
    } else {
      FramesJoin(a[1..], b);
      assert (a + b)[1..] == a[1..] + b;
    }
  }

  function Joined(chunks: seq<seq<Byte>>): seq<Byte> {
    if chunks == [] then [] else Joined(chunks[..|chunks| - 1]) + chunks[|chunks| - 1]
  }

  /** The connection's loop: buffer each piece and drain; a failure ends it. */
  function Fed(chunks: seq<seq<Byte>>): Drained {
    if chunks == [] then Drained([], [], false)
    else
      var before := Fed(chunks[..|chunks| - 1]);
      if before.failed then before
      else
        var now := Drain(before.buffer + chunks[|chunks| - 1]);
        now.(packets := before.packets + now.packets)
  }

  /** After any pieces that make up a prefix of a stream, exactly its whole frames have come out. */
  lemma {:induction false} FedPrefix(ps: seq<Packet>, chunks: seq<seq<Byte>>) returns (k: nat)
    requires Good(ps) && Joined(chunks) <= Frames(ps)
    ensures k <= |ps| && |Frames(ps[..k])| <= |Joined(chunks)|
    ensures Fed(chunks) == Drained(ps[..k], Frames(ps)[|Frames(ps[..k])|..|Joined(chunks)|], false)
    decreases |chunks|
  {
    hide Drain, Frames;
    if chunks == [] {
      k := 0;
      NoFrames(ps);
    } else {
      var front, last := chunks[..|chunks| - 1], chunks[|chunks| - 1];
      var n := |Joined(chunks)|;
      assert Joined(front) <= Frames(ps) by {
        assert Joined(front) == Joined(chunks)[..|Joined(front)|];
      }
      var k1 := FedPrefix(ps, front);
      var left := ps[k1..];
      assert ps == ps[..k1] + left;
      FramesJoin(ps[..k1], left);
      var o := |Frames(ps[..k1])|;
      assert Frames(ps)[o..|Joined(front)|] + last == Frames(ps)[o..n] == Frames(left)[..n - o];
      var j := DrainPrefix(left, n - o);
      k := k1 + j;
      assert left[..j] == ps[k1..k];
      assert ps[..k] == ps[..k1] + left[..j];
      FramesJoin(ps[..k1], left[..j]);
      assert Frames(left)[|Frames(left[..j])|..n - o] == Frames(ps)[|Frames(ps[..k])|..n];
    }
  }

  lemma NoFrames(ps: seq<Packet>)
    requires Good(ps)
    ensures Frames(ps[..0]) == [] && Frames(ps)[0..0] == [] && (ps == [] ==> Frames(ps) == [])
  {
  }

  lemma WholeFrameDecodes(ps: seq<Packet>)
    requires Good(ps)
    ensures ps != [] ==> TryDecode(Frames(ps)).Complete?
  {
    hide Frame, TryDecode;
    if ps != [] {
      FrameBack(ps[0], Frames(ps[1..]));
    }
  }

  /** What waits in the buffer between pieces does not start with a whole frame. */
  lemma FedWaits(chunks: seq<seq<Byte>>)
    ensures !Fed(chunks).failed ==> TryDecode(Fed(chunks).buffer) == NeedMore
  {
    if chunks != [] {
      DrainEnds(Fed(chunks[..|chunks| - 1]).buffer + chunks[|chunks| - 1]);
    }
  }

  lemma {:induction false} DrainEnds(buffer: seq<Byte>)
    ensures !Drain(buffer).failed ==> TryDecode(Drain(buffer).buffer) == NeedMore
    decreases |buffer|
  {
    match TryDecode(buffer)
    case NeedMore =>
    case Failure =>
    case Complete(p, rest) => DrainEnds(rest);
  }

  /** However the bytes of a list of messages are cut into pieces, decoding gives exactly that list
      and leaves nothing behind. */
  lemma StreamDecodes(ps: seq<Packet>, chunks: seq<seq<Byte>>)
    requires Good(ps) && Joined(chunks) == Frames(ps)
    ensures Fed(chunks) == Drained(ps, [], false)
  {
    hide Drain, Frames, TryDecode;
    var k := FedPrefix(ps, chunks);
    var all := Frames(ps);
    var left := ps[k..];
    assert ps == ps[..k] + left;
    FramesJoin(ps[..k], left);
    assert all[|Frames(ps[..k])|..|all|] == Frames(left);
    FedWaits(chunks);
    WholeFrameDecodes(left);
    assert ps[..k] == ps;
    NoFrames(left);
    assert left[..0] == left;
  }

  // ---------------------------------------------------------------- the buffer

  datatype Status = Done(packet: Packet) | Waiting | Broken

  class StreamDecoder {
    var buffer: seq<Byte>

    constructor ()
      ensures buffer == []
    {
      buffer := [];
    }

    method TryDecodeOne() returns (status: Status)
      modifies this
      ensures match TryDecode(old(buffer))
              case NeedMore => status == Waiting && buffer == old(buffer)
              case Failure => status == Broken && buffer == old(buffer)
              case Complete(packet, rest) => status == Done(packet) && buffer == rest
    {
      hide DecodePacket;
      if |buffer| < HEADER {
        return Waiting;
      }
      if Value(buffer[..4]) != MAGIC || buffer[4] != 1 || buffer[6] != 0 || buffer[7] != 0 ||
         buffer[5] < 1 || buffer[5] > 6 {
        return Broken;
      }
      var size := Value(buffer[8..12]);
      if size < 8 || size > MAX_FRAME {
        return Broken;
      }
      if |buffer| < HEADER + size {
        return Waiting;
      }
      var packet := DecodePacket(buffer[5], buffer[HEADER..HEADER + size]);
      if packet.None? {
        return Broken;
      }
      buffer := buffer[HEADER + size..];
      return Done(packet.value);
    }

    /** Buffers a piece and takes out every complete frame. */
    method Receive(chunk: seq<Byte>) returns (packets: seq<Packet>, failed: bool)
      modifies this
      ensures Drained(packets, buffer, failed) == Drain(old(buffer) + chunk)
    {
      hide TryDecode;
      buffer := buffer + chunk;
      packets, failed := [], false;
      ghost var all := buffer;
      while true
        invariant !failed
        invariant Drain(all) == Drain(buffer).(packets := packets + Drain(buffer).packets)
        decreases |buffer|
      {
        DrainShrinks(buffer);
        ghost var before := buffer;
        var status := TryDecodeOne();
        if status.Waiting? {
          assert packets + [] == packets;
          return;
        }
        if status.Broken? {
          failed := true;
          assert packets + [] == packets;
          return;
        }
        assert packets + ([status.packet] + Drain(buffer).packets) == packets + [status.packet] + Drain(buffer).packets;
        packets := packets + [status.packet];
      }
    }
  }

  lemma DrainShrinks(buffer: seq<Byte>)
    ensures TryDecode(buffer).Complete? ==> |TryDecode(buffer).rest| < |buffer|
  {
  }
}
