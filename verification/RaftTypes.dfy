/** The vocabulary of `src/raft/types.h`: log entries, the four consensus RPCs and roles.
    Terms, indexes and ids are 64-bit words in the source; here they are naturals, and the
    places where the source compares against the largest word do so with `MAX_WORD`. */
module RaftTypes {

  datatype Option<+T> = None | Some(value: T)

  type Byte = b: int | 0 <= b < 256
  type NodeId = nat
  type Term = nat
  type LogIndex = nat

  const MAX_WORD: nat := 0xFFFF_FFFF_FFFF_FFFF

  datatype Role = Follower | Candidate | Leader

  datatype EntryType = NoOp | Command | ConfChange

  datatype LogEntry = LogEntry(index: LogIndex, term: Term, kind: EntryType, command: seq<Byte>)

  /** The index-zero, term-zero entry every log starts from. */
  const Sentinel: LogEntry := LogEntry(0, 0, NoOp, [])

  datatype VoteRequest = VoteRequest(
    term: Term, candidateId: NodeId, lastLogIndex: LogIndex, lastLogTerm: Term)

  datatype VoteResponse = VoteResponse(term: Term, electionTerm: Term, granted: bool)

  datatype AppendRequest = AppendRequest(
    term: Term, leaderId: NodeId, prevIndex: LogIndex, prevTerm: Term,
    entries: seq<LogEntry>, leaderCommit: LogIndex, readContext: nat)

  datatype AppendResponse = AppendResponse(
    term: Term, success: bool, prevIndex: LogIndex, entryCount: nat, matchIndex: LogIndex,
    conflictIndex: LogIndex, conflictTerm: Option<Term>, readContext: nat)

  datatype Payload =
    | AskVote(ask: VoteRequest)
    | AnswerVote(vote: VoteResponse)
    | Append(append: AppendRequest)
    | AnswerAppend(answer: AppendResponse)

  /** An RPC returned by a handler for its caller to send. */
  datatype Outbound = Outbound(destination: NodeId, payload: Payload)

  function Min(a: nat, b: nat): nat { if a <= b then a else b }

  function Max(a: nat, b: nat): nat { if a <= b then b else a }
}
