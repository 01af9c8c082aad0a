/** Frames on the wire between nodes, `src/network/raft_protocol.cpp`. */
module RaftProtocol {
  import opened RaftTypes
  import opened LogSpec
  import opened NodeSpec
  import opened Bytes
  import opened JournalCodec

  const MAGIC: nat := 0x444b5652
  const HEADER: nat := 12
  const MAX_BATCH: nat := 256
  const MAX_CHUNK: nat := 1024 * 1024
  const MAX_FRAME: nat := 2 * 1024 * 1024

  datatype Rpc =
    | VoteAsk(ask: VoteRequest)
    | VoteAnswer(vote: VoteResponse)
    | AppendAsk(append: AppendRequest)
    | AppendAnswer(answer: AppendResponse)
    | InstallAsk(term: Term, leaderId: NodeId, index: LogIndex, indexTerm: Term, offset: nat, last: bool,
                 data: seq<Byte>)
    | InstallAnswer(installTerm: Term, success: bool)

  datatype Packet = Packet(source: NodeId, rpc: Rpc)

  /** Every number is a 64-bit word. */
  predicate RpcWords(r: Rpc) {
    match r
    case VoteAsk(q) =>
      q.term <= MAX_WORD && q.candidateId <= MAX_WORD && q.lastLogIndex <= MAX_WORD && q.lastLogTerm <= MAX_WORD
    case VoteAnswer(q) => q.term <= MAX_WORD && q.electionTerm <= MAX_WORD
    case AppendAsk(q) =>
      && q.term <= MAX_WORD && q.leaderId <= MAX_WORD && q.prevIndex <= MAX_WORD && q.prevTerm <= MAX_WORD
      && q.leaderCommit <= MAX_WORD && q.readContext <= MAX_WORD
      && forall j :: 0 <= j < |q.entries| ==> EntryWords(q.entries[j])
    case AppendAnswer(q) =>
      && q.term <= MAX_WORD && q.prevIndex <= MAX_WORD && q.entryCount <= MAX_WORD && q.matchIndex <= MAX_WORD
      && q.conflictIndex <= MAX_WORD && q.readContext <= MAX_WORD
      && (q.conflictTerm.Some? ==> q.conflictTerm.value <= MAX_WORD)
    case InstallAsk(term, leaderId, index, indexTerm, offset, _, _) =>
      term <= MAX_WORD && leaderId <= MAX_WORD && index <= MAX_WORD && indexTerm <= MAX_WORD && offset <= MAX_WORD
    case InstallAnswer(term, _) => term <= MAX_WORD
  }

  // ---------------------------------------------------------------- runs of words

  function Words64(ws: seq<nat>): (bytes: seq<Byte>)
    ensures |bytes| == 8 * |ws|
  {
    if ws == [] then [] else U64(ws[0]) + Words64(ws[1..])
  }

  function ReadWords(input: seq<Byte>, count: nat): (r: Option<Read<seq<nat>>>)
    ensures r.Some? ==> |r.value.value| == count
  {
    if count == 0 then Some(Read([], input))
    else
      match Read64(input)
      case None => None
      case Some(first) =>
        match ReadWords(first.rest, count - 1)
        case None => None
        case Some(others) => Some(Read([first.value] + others.value, others.rest))
  }

  lemma {:induction false} WordsBack(ws: seq<nat>, rest: seq<Byte>)
    requires forall i :: 0 <= i < |ws| ==> ws[i] <= MAX_WORD
    ensures ReadWords(Words64(ws) + rest, |ws|) == Some(Read(ws, rest))
  {
    hide Read64, U64;
    if ws == [] {
      assert Words64(ws) + rest == rest;
    } else {
      WordsBack(ws[1..], rest);
      Back64(ws[0], Words64(ws[1..]) + rest);
      assert Words64(ws) + rest == U64(ws[0]) + (Words64(ws[1..]) + rest);
      assert [ws[0]] + ws[1..] == ws;
    }
  }

  function BoolByte(b: bool): seq<Byte> {
    if b then [1] else [0]
  }

  function ReadBoolean(input: seq<Byte>): Option<Read<bool>> {
    if input == [] || input[0] > 1 then None else Some(Read(input[0] == 1, input[1..]))
  }

  lemma BooleanBack(b: bool, rest: seq<Byte>)
    ensures ReadBoolean(BoolByte(b) + rest) == Some(Read(b, rest))
  {
    assert (BoolByte(b) + rest)[1..] == rest;
  }

  // ---------------------------------------------------------------- payloads

  function WireType(r: Rpc): Byte {
    match r
    case VoteAsk(_) => 1
    case VoteAnswer(_) => 2
    case AppendAsk(_) => 3
    case AppendAnswer(_) => 4
    case InstallAsk(_, _, _, _, _, _, _) => 5
    case InstallAnswer(_, _) => 6
  }

  function EncodePayload(r: Rpc): Option<seq<Byte>> {
    match r
    case VoteAsk(q) => Some(Words64([q.term, q.candidateId, q.lastLogIndex, q.lastLogTerm]))
    case VoteAnswer(q) => Some(Words64([q.term, q.electionTerm]) + BoolByte(q.granted))
    case AppendAsk(q) =>
      if |q.entries| > MAX_BATCH || !CommandsFit(q.entries) then None
      else Some(Words64([q.term, q.leaderId, q.prevIndex, q.prevTerm, q.leaderCommit, q.readContext]) +
                (U32(|q.entries|) + EncodeEntries(q.entries)))
    case AppendAnswer(q) =>
      var counts := Words64([q.prevIndex, q.entryCount, q.matchIndex, q.conflictIndex]);
      var conflict := Words64([if q.conflictTerm.Some? then q.conflictTerm.value else 0, q.readContext]);
      Some(Words64([q.term]) + (BoolByte(q.success) + (counts + (BoolByte(q.conflictTerm.Some?) + conflict))))
    case InstallAsk(term, leaderId, index, indexTerm, offset, last, data) =>
      if |data| > MAX_CHUNK then None
      else Some(Words64([term, leaderId, index, indexTerm, offset]) + (BoolByte(last) + (U32(|data|) + data)))
    case InstallAnswer(term, success) => Some(Words64([term]) + BoolByte(success))
  }

  function DecodeVoteAsk(input: seq<Byte>): Option<Read<Rpc>> {
    match ReadWords(input, 4)
    case None => None
    case Some(ws) => Some(Read(VoteAsk(VoteRequest(ws.value[0], ws.value[1], ws.value[2], ws.value[3])), ws.rest))
  }

  function DecodeVoteAnswer(input: seq<Byte>): Option<Read<Rpc>> {
    match ReadWords(input, 2)
    case None => None
    case Some(ws) =>
      match ReadBoolean(ws.rest)
      case None => None
      case Some(granted) => Some(Read(VoteAnswer(VoteResponse(ws.value[0], ws.value[1], granted.value)), granted.rest))
  }

  function DecodeAppendAsk(input: seq<Byte>): Option<Read<Rpc>> {
    match ReadWords(input, 6)
    case None => None
    case Some(ws) =>
      match Read32(ws.rest)
      case None => None
      case Some(count) =>
        if count.value > MAX_BATCH then None
        else
          match DecodeEntries(count.rest, count.value)
          case None => None
          case Some(entries) =>
            var w := ws.value;
            Some(Read(AppendAsk(AppendRequest(w[0], w[1], w[2], w[3], entries.value, w[4], w[5])), entries.rest))
  }

  /** The conflict term, whose value must be zero when it is absent, and the read context. */
  function DecodeConflict(input: seq<Byte>): Option<Read<(Option<Term>, nat)>> {
    match ReadBoolean(input)
    case None => None
    case Some(has) =>
      match ReadWords(has.rest, 2)
      case None => None
      case Some(ws) =>
        if !has.value && ws.value[0] != 0 then None
        else Some(Read((if has.value then Option<Term>.Some(ws.value[0]) else None, ws.value[1]), ws.rest))
  }

  function DecodeAppendAnswer(input: seq<Byte>): Option<Read<Rpc>> {
    match ReadWords(input, 1)
    case None => None
    case Some(term) =>
      match ReadBoolean(term.rest)
      case None => None
      case Some(success) =>
        match ReadWords(success.rest, 4)
        case None => None
        case Some(ws) =>
          if ws.value[1] > MAX_BATCH then None
          else
            match DecodeConflict(ws.rest)
            case None => None
            case Some(c) =>
              var w := ws.value;
              var answer := AppendResponse(term.value[0], success.value, w[0], w[1], w[2], w[3], c.value.0, c.value.1);
              Some(Read(AppendAnswer(answer), c.rest))
  }

  function DecodeData(input: seq<Byte>): Option<Read<seq<Byte>>> {
    match Read32(input)
    case None => None
    case Some(size) => if size.value > MAX_CHUNK then None else ReadBytes(size.rest, size.value)
  }

  function DecodeInstallAsk(input: seq<Byte>): Option<Read<Rpc>> {
    match ReadWords(input, 5)
    case None => None
    case Some(ws) =>
      match ReadBoolean(ws.rest)
      case None => None
      case Some(last) =>
        match DecodeData(last.rest)
        case None => None
        case Some(data) =>
          var w := ws.value;
          Some(Read(InstallAsk(w[0], w[1], w[2], w[3], w[4], last.value, data.value), data.rest))
  }

  function DecodeInstallAnswer(input: seq<Byte>): Option<Read<Rpc>> {
    match ReadWords(input, 1)
    case None => None
    case Some(ws) =>
      match ReadBoolean(ws.rest)
      case None => None
      case Some(success) => Some(Read(InstallAnswer(ws.value[0], success.value), success.rest))
  }

  function DecodeByType(kind: Byte, input: seq<Byte>): Option<Read<Rpc>> {
    if kind == 1 then DecodeVoteAsk(input)
    else if kind == 2 then DecodeVoteAnswer(input)
    else if kind == 3 then DecodeAppendAsk(input)
    else if kind == 4 then DecodeAppendAnswer(input)
    else if kind == 5 then DecodeInstallAsk(input)
    else if kind == 6 then DecodeInstallAnswer(input)
    else None
  }

  function DecodePayload(kind: Byte, input: seq<Byte>): Option<Rpc> {
    match DecodeByType(kind, input)
    case None => None
    case Some(r) => if r.rest == [] then Some(r.value) else None
  }

  /** The one limit that only the decoder has. */
  predicate Answerable(r: Rpc) {
    r.AppendAnswer? ==> r.answer.entryCount <= MAX_BATCH
  }

  lemma VotesBack(r: Rpc, rest: seq<Byte>)
    requires RpcWords(r) && (r.VoteAsk? || r.VoteAnswer? || r.InstallAnswer?)
    ensures EncodePayload(r).Some? && DecodeByType(WireType(r), EncodePayload(r).value + rest) == Some(Read(r, rest))
  {
    hide ReadWords, Words64, ReadBoolean, BoolByte;
    match r
    case VoteAsk(q) => WordsBack([q.term, q.candidateId, q.lastLogIndex, q.lastLogTerm], rest);
    case VoteAnswer(q) =>
      var ws := [q.term, q.electionTerm];
      assert EncodePayload(r).value + rest == Words64(ws) + (BoolByte(q.granted) + rest);
      WordsBack(ws, BoolByte(q.granted) + rest);
      BooleanBack(q.granted, rest);
    case InstallAnswer(term, success) =>
      assert EncodePayload(r).value + rest == Words64([term]) + (BoolByte(success) + rest);
      WordsBack([term], BoolByte(success) + rest);
      BooleanBack(success, rest);
  }

  lemma AppendAskBack(q: AppendRequest, rest: seq<Byte>)
    requires RpcWords(AppendAsk(q)) && |q.entries| <= MAX_BATCH && CommandsFit(q.entries)
    ensures DecodeAppendAsk(EncodePayload(AppendAsk(q)).value + rest) == Some(Read(AppendAsk(q), rest))
  {
    hide ReadWords, Words64, Read32, EncodeEntries, DecodeEntries;
    var ws := [q.term, q.leaderId, q.prevIndex, q.prevTerm, q.leaderCommit, q.readContext];
    var entries := EncodeEntries(q.entries);
    var tail := U32(|q.entries|) + (entries + rest);
    assert EncodePayload(AppendAsk(q)).value + rest == Words64(ws) + tail;
    WordsBack(ws, tail);
    Back32(|q.entries|, entries + rest);
    EntriesBack(q.entries, rest);
  }

  lemma ConflictBack(term: Option<Term>, context: nat, rest: seq<Byte>)
    requires context <= MAX_WORD && (term.Some? ==> term.value <= MAX_WORD)
    ensures var words := Words64([if term.Some? then term.value else 0, context]);
            DecodeConflict(BoolByte(term.Some?) + words + rest) == Some(Read((term, context), rest))
  {
    hide ReadWords, Words64, ReadBoolean, BoolByte;
    var ws := [if term.Some? then term.value else 0, context];
    assert BoolByte(term.Some?) + Words64(ws) + rest == BoolByte(term.Some?) + (Words64(ws) + rest);
    BooleanBack(term.Some?, Words64(ws) + rest);
    WordsBack(ws, rest);
  }

  /** The pieces of an append response on the wire, taken apart again. */
  lemma AppendAnswerParts(q: AppendResponse, rest: seq<Byte>) returns (conflict: seq<Byte>)
    requires RpcWords(AppendAnswer(q))
    ensures var words := Words64([if q.conflictTerm.Some? then q.conflictTerm.value else 0, q.readContext]);
            conflict == BoolByte(q.conflictTerm.Some?) + words + rest
    ensures var ws := [q.prevIndex, q.entryCount, q.matchIndex, q.conflictIndex];
            var counts := Words64(ws) + conflict;
            var bytes := EncodePayload(AppendAnswer(q)).value + rest;
            && ReadWords(bytes, 1) == Some(Read([q.term], BoolByte(q.success) + counts))
            && ReadBoolean(BoolByte(q.success) + counts) == Some(Read(q.success, counts))
            && ReadWords(counts, 4) == Some(Read(ws, conflict))
  {
    hide ReadWords, Words64, ReadBoolean, BoolByte;
    var words := Words64([if q.conflictTerm.Some? then q.conflictTerm.value else 0, q.readContext]);
    conflict := BoolByte(q.conflictTerm.Some?) + words + rest;
    var ws := [q.prevIndex, q.entryCount, q.matchIndex, q.conflictIndex];
    var counts := Words64(ws) + conflict;
    assert EncodePayload(AppendAnswer(q)).value + rest == Words64([q.term]) + (BoolByte(q.success) + counts);
    WordsBack([q.term], BoolByte(q.success) + counts);
    BooleanBack(q.success, counts);
    WordsBack(ws, conflict);
  }

  /** A response comes back if and only if its entry count is within the decoder's limit. */
  lemma AppendAnswerBack(q: AppendResponse, rest: seq<Byte>)
    requires RpcWords(AppendAnswer(q))
    ensures DecodeAppendAnswer(EncodePayload(AppendAnswer(q)).value + rest) ==
            if q.entryCount <= MAX_BATCH then Some(Read(AppendAnswer(q), rest)) else None
  {
    hide ReadWords, Words64, ReadBoolean, BoolByte, DecodeConflict, EncodePayload;
    var conflict := AppendAnswerParts(q, rest);
    ConflictBack(q.conflictTerm, q.readContext, rest);
  }

  lemma InstallAskBack(r: Rpc, rest: seq<Byte>)
    requires r.InstallAsk? && RpcWords(r) && |r.data| <= MAX_CHUNK
    ensures DecodeInstallAsk(EncodePayload(r).value + rest) == Some(Read(r, rest))
  {
    hide ReadWords, Words64, ReadBoolean, BoolByte, DecodeData;
    var ws := [r.term, r.leaderId, r.index, r.indexTerm, r.offset];
    var data := U32(|r.data|) + r.data + rest;
    assert EncodePayload(r).value + rest == Words64(ws) + (BoolByte(r.last) + data);
    WordsBack(ws, BoolByte(r.last) + data);
    BooleanBack(r.last, data);
    DataBack(r.data, rest);
  }

  lemma DataBack(data: seq<Byte>, rest: seq<Byte>)
    requires |data| <= MAX_CHUNK
    ensures DecodeData(U32(|data|) + data + rest) == Some(Read(data, rest))
  {
    assert U32(|data|) + data + rest == U32(|data|) + (data + rest);
    Back32(|data|, data + rest);
    BackBytes(data, rest);
  }

  /** Every payload that is encoded is decoded to itself, except responses over the limit. */
  lemma PayloadBack(r: Rpc)
    requires RpcWords(r) && EncodePayload(r).Some?
    ensures DecodePayload(WireType(r), EncodePayload(r).value) == if Answerable(r) then Some(r) else None
  {
    hide DecodeVoteAsk, DecodeVoteAnswer, DecodeAppendAsk, DecodeAppendAnswer, DecodeInstallAsk, DecodeInstallAnswer;
    var bytes := EncodePayload(r).value;
    assert bytes + [] == bytes;
    if r.AppendAsk? {
      AppendAskBack(r.append, []);
    } else if r.AppendAnswer? {
      AppendAnswerBack(r.answer, []);
    } else if r.InstallAsk? {
      InstallAskBack(r, []);
    } else {
      VotesBack(r, []);
    }
  }
  // ---------------------------------------------------------------- the limit is never met

  /** A response repeats the number of entries of the request it answers. */
  lemma AnswersCountTheRequest(n: NodeState, request: AppendRequest, o: Outbound)
    requires Contiguous(n.log) && o in React(n, Deliver(request.leaderId, Append(request))).reply
    ensures o.payload.AnswerAppend? && o.payload.answer.entryCount == |request.entries|
  {
  }

  lemma {:induction false} DecodedCount(input: seq<Byte>, count: nat)
    ensures DecodeEntries(input, count).Some? ==> |DecodeEntries(input, count).value.value| == count
    decreases count
  {
    hide DecodeEntry;
    if count > 0 && DecodeEntry(input).Some? {
      DecodedCount(DecodeEntry(input).value.rest, count - 1);
    }
  }

  /** Whatever request comes off the wire, the response a node gives to it comes back: the limit
      that only the decoder has is never met. */
  lemma AnswersToDecodedComeBack(kind: Byte, bytes: seq<Byte>, n: NodeState, request: AppendRequest, o: Outbound)
    requires DecodePayload(kind, bytes) == Some(AppendAsk(request)) && Contiguous(n.log)
    requires o in React(n, Deliver(request.leaderId, Append(request))).reply
    requires o.payload.AnswerAppend? ==> RpcWords(AppendAnswer(o.payload.answer))
    ensures o.payload.AnswerAppend?
    ensures var r := AppendAnswer(o.payload.answer);
            EncodePayload(r).Some? && DecodePayload(WireType(r), EncodePayload(r).value) == Some(r)
  {
    AnswersCountTheRequest(n, request, o);
    WithinBatch(kind, bytes, request);
    PayloadBack(AppendAnswer(o.payload.answer));
  }

  lemma WithinBatch(kind: Byte, bytes: seq<Byte>, request: AppendRequest)
    requires DecodePayload(kind, bytes) == Some(AppendAsk(request))
    ensures |request.entries| <= MAX_BATCH
  {
    hide ReadWords, DecodeEntries, ReadBoolean;
    if ReadWords(bytes, 6).Some? && Read32(ReadWords(bytes, 6).value.rest).Some? {
      var count := Read32(ReadWords(bytes, 6).value.rest).value;
      DecodedCount(count.rest, count.value);
    }
  }
}
