/** The read barrier of `NodeService`: reads wait in batches under a context that probes carry, until
    a majority has acknowledged it and the state machine has reached the batch's commit index. */
module ReadBarrier {
  import opened RaftTypes
  import opened LogSpec
  import opened NodeSpec
  import opened Quorum
  import StateMachineSpec

  type Key = StateMachineSpec.Key
  type Value = StateMachineSpec.Value
  type Machine = StateMachineSpec.Machine

  datatype Request = Request(connection: nat, id: nat, key: Key)

  datatype Outcome = NotLeader | LeaderNotReady | QuorumTimeout | Found(value: Value) | NotFound

  datatype Answer = Answer(request: Request, outcome: Outcome)

  datatype Pending = Pending(requests: seq<Request>, term: Term, readIndex: LogIndex, acks: set<NodeId>)

  datatype Service = Service(nextContext: nat, pending: map<nat, Pending>, deferred: seq<Request>)

  function NewService(): Service {
    Service(1, map[], [])
  }

  // ---------------------------------------------------------------- specification

  /** An acknowledgement counts towards the batch whose context it carries. The term compared is
      the receiver's own; the response's term is not looked at. */
  function Collected(sv: Service, current: Term, source: NodeId, response: AppendResponse): Service {
    var context := response.readContext;
    if response.success && context != 0 && context in sv.pending && sv.pending[context].term == current then
      var read := sv.pending[context];
      sv.(pending := sv.pending[context := read.(acks := read.acks + {source})])
    else sv
  }

  /** A leader that has committed an entry of its own term may open a batch. */
  predicate MayOpen(n: NodeState) {
    n.role == Leader && |n.log| > 0 && TermAt(n.log, n.commit) == Some(n.term)
  }

  function AnswerAll(requests: seq<Request>, outcome: Outcome): seq<Answer> {
    seq(|requests|, i requires 0 <= i < |requests| => Answer(requests[i], outcome))
  }

  function Opened(sv: Service, n: NodeState): Service {
    if sv.deferred == [] then sv
    else if !MayOpen(n) then sv.(deferred := [])
    else
      var context := if sv.nextContext == 0 then 1 else sv.nextContext;
      Service(context + 1, sv.pending[context := Pending(sv.deferred, n.term, n.commit, {n.self})], [])
  }

  /** The event the node handles when the batch opens: probes under the new context, or nothing. */
  function OpeningProbe(sv: Service, n: NodeState): nat {
    if sv.deferred == [] || !MayOpen(n) then 0 else if sv.nextContext == 0 then 1 else sv.nextContext
  }

  function OpeningAnswers(sv: Service, n: NodeState): seq<Answer> {
    if n.role != Leader then AnswerAll(sv.deferred, NotLeader)
    else if !MayOpen(n) then AnswerAll(sv.deferred, LeaderNotReady)
    else []
  }

  predicate ReadQuorum(read: Pending, members: nat) {
    |read.acks| >= members / 2 + 1
  }

  /** The condition under which `completePending` reads the store. */
  predicate Completes(read: Pending, n: NodeState, applied: LogIndex, expired: bool) {
    && n.role == Leader && n.term == read.term && !expired
    && ReadQuorum(read, |n.peers| + 1) && applied >= read.readIndex
  }

  predicate Stays(read: Pending, n: NodeState, applied: LogIndex, expired: bool) {
    n.role == Leader && n.term == read.term && !expired && !Completes(read, n, applied, expired)
  }

  function Swept(sv: Service, n: NodeState, applied: LogIndex, expired: set<nat>): Service {
    sv.(pending := map c | c in sv.pending && Stays(sv.pending[c], n, applied, c in expired) :: sv.pending[c])
  }

  function Lookup(store: map<Key, Value>, key: Key): Outcome {
    if key in store then Found(store[key]) else NotFound
  }

  /** The answers one batch gets from a sweep. */
  function BatchAnswers(read: Pending, n: NodeState, machine: Machine, expired: bool): seq<Answer> {
    if n.role != Leader || n.term != read.term then AnswerAll(read.requests, NotLeader)
    else if expired then AnswerAll(read.requests, QuorumTimeout)
    else if Completes(read, n, machine.lastApplied, expired) then StoreAnswers(read.requests, machine.store)
    else []
  }

  function SweepAnswers(sv: Service, order: seq<nat>, n: NodeState, machine: Machine, expired: set<nat>): seq<Answer>
    requires forall c :: c in order ==> c in sv.pending
  {
    if order == [] then []
    else
      var rest, c := order[..|order| - 1], order[|order| - 1];
      SweepAnswers(sv, rest, n, machine, expired) + BatchAnswers(sv.pending[c], n, machine, c in expired)
  }

  /** An answer that was read from the store. */
  predicate FromStore(a: Answer) {
    a.outcome.Found? || a.outcome.NotFound?
  }

  /** Such an answer belongs to a batch that completed in this sweep, and is what the machine's store
      says about its key. */
  lemma {:induction false} StoreAnswersAre(sv: Service, order: seq<nat>, n: NodeState, machine: Machine,
                                           expired: set<nat>, a: Answer)
    returns (context: nat)
    requires forall c :: c in order ==> c in sv.pending
    requires a in SweepAnswers(sv, order, n, machine, expired) && FromStore(a)
    ensures context in order && context in sv.pending && a.request in sv.pending[context].requests
    ensures Completes(sv.pending[context], n, machine.lastApplied, false)
    ensures a.outcome == Lookup(machine.store, a.request.key)
  {
    var rest, c := order[..|order| - 1], order[|order| - 1];
    if a in SweepAnswers(sv, rest, n, machine, expired) {
      context := StoreAnswersAre(sv, rest, n, machine, expired, a);
    } else {
      context := c;
      assert a in BatchAnswers(sv.pending[c], n, machine, c in expired);
    }
  }

  // ---------------------------------------------------------------- the service

  /** The fields of `NodeService` that belong to reads. */
  class ReadService {
    var nextContext: nat
    var pending: map<nat, Pending>
    var deferred: seq<Request>
    var batchOpen: bool  // whether the batch window's clock is running

    ghost function View(): Service
      reads this
    {
      Service(nextContext, pending, deferred)
    }

    ghost predicate Valid()
      reads this
    {
      batchOpen <==> deferred != []
    }

    constructor ()
      ensures Valid() && View() == NewService()
    {
      nextContext, pending, deferred, batchOpen := 1, map[], [], false;
    }

    method Defer(request: Request)
      requires Valid()
      modifies this
      ensures Valid() && View() == old(View()).(deferred := old(deferred) + [request])
    {
      if deferred == [] {
        batchOpen := true;
      }
      deferred := deferred + [request];
    }

    method Collect(current: Term, source: NodeId, response: AppendResponse)
      requires Valid()
      modifies this
      ensures Valid() && View() == Collected(old(View()), current, source, response)
    {
      if response.success && response.readContext != 0 && response.readContext in pending {
        var read := pending[response.readContext];
        if read.term == current {
          pending := pending[response.readContext := read.(acks := read.acks + {source})];
        }
      }
    }

    method StartReadBatchIfReady(n: NodeState, windowOver: bool) returns (answers: seq<Answer>, probes: seq<Outbound>)
      requires Valid() && |n.log| > 0
      modifies this
      ensures Valid()
      ensures View() == (if windowOver then Opened(old(View()), n) else old(View()))
      ensures answers == (if windowOver then OpeningAnswers(old(View()), n) else [])
      ensures probes == (if windowOver then ReadBarrier(n, OpeningProbe(old(View()), n)) else [])
    {
      answers, probes := [], [];
      if deferred == [] || !batchOpen || !windowOver {
        return;
      }
      var committedTerm := TermAt(n.log, n.commit);
      if n.role != Leader {
        answers := RejectDeferred(NotLeader);
      } else if committedTerm != Some(n.term) {
        answers := RejectDeferred(LeaderNotReady);
      } else {
        var context := nextContext;
        nextContext := nextContext + 1;
        if context == 0 {
          context := nextContext;
          nextContext := nextContext + 1;
        }
        pending := pending[context := Pending(deferred, n.term, n.commit, {n.self})];
        deferred, batchOpen := [], false;
        probes := ReadBarrier(n, context);
      }
    }

    method RejectDeferred(outcome: Outcome) returns (answers: seq<Answer>)
      requires Valid()
      modifies this
      ensures Valid() && View() == old(View()).(deferred := [])
      ensures answers == AnswerAll(old(deferred), outcome)
    {
      answers := [];
      for i := 0 to |deferred|
        invariant unchanged(this)
        invariant answers == AnswerAll(deferred[..i], outcome)
      {
        assert deferred[..i + 1] == deferred[..i] + [deferred[i]];
        answers := answers + [Answer(deferred[i], outcome)];
      }
      assert deferred[..|deferred|] == deferred;
      deferred, batchOpen := [], false;
    }

    method AnswerFromStore(requests: seq<Request>, store: map<Key, Value>) returns (answers: seq<Answer>)
      ensures answers == StoreAnswers(requests, store)
    {
      answers := [];
      for i := 0 to |requests|
        invariant answers == StoreAnswers(requests[..i], store)
      {
        assert requests[..i + 1] == requests[..i] + [requests[i]];
        answers := answers + [Answer(requests[i], Lookup(store, requests[i].key))];
      }
      assert requests[..|requests|] == requests;
    }

    /** One turn of the loop over the pending reads. */
    method SweepOne(context: nat, n: NodeState, machine: Machine, expired: bool) returns (answers: seq<Answer>)
      requires Valid() && context in pending
      modifies this`pending
      ensures Valid() && answers == BatchAnswers(old(pending)[context], n, machine, expired)
      ensures pending == if Stays(old(pending)[context], n, machine.lastApplied, expired) then old(pending)
                         else old(pending) - {context}
    {
      var read := pending[context];
      answers := [];
      if n.role != Leader || n.term != read.term {
        answers := AnswerAll(read.requests, NotLeader);
        pending := pending - {context};
      } else if expired {
        answers := AnswerAll(read.requests, QuorumTimeout);
        pending := pending - {context};
      } else if ReadQuorum(read, |n.peers| + 1) && machine.lastApplied >= read.readIndex {
        answers := AnswerFromStore(read.requests, machine.store);
        pending := pending - {context};
      }
    }

    /** `order` is the hash map's order of iteration. */
    method CompletePending(order: seq<nat>, n: NodeState, machine: Machine, expired: set<nat>)
      returns (answers: seq<Answer>)
      requires Valid() && Distinct(order) && Elements(order) == pending.Keys
      modifies this
      ensures Valid() && View() == Swept(old(View()), n, machine.lastApplied, expired)
      ensures forall c :: c in order ==> c in old(pending)
      ensures answers == SweepAnswers(old(View()), order, n, machine, expired)
    {
      hide Remaining, SweepAnswers, Swept, BatchAnswers, Stays;
      answers := [];
      ghost var before := View();
      var applied := machine.lastApplied;
      RemainingNone(before, n, machine, expired);
      ListedArePending(before, order);
      for i := 0 to |order|
        invariant Valid() && nextContext == before.nextContext && deferred == before.deferred
        invariant pending == Remaining(before, order[..i], n, applied, expired)
        invariant answers == SweepAnswers(before, order[..i], n, machine, expired)
      {
        RemainingNext(before, order, i, n, applied, expired);
        AnswersNext(before, order, i, n, machine, expired);
        var more := SweepOne(order[i], n, machine, order[i] in expired);
        answers := answers + more;
      }
      assert order[..|order|] == order;
      RemainingAll(before, order, n, applied, expired);
    }
  }

  function StoreAnswers(requests: seq<Request>, store: map<Key, Value>): seq<Answer> {
    seq(|requests|, i requires 0 <= i < |requests| => Answer(requests[i], Lookup(store, requests[i].key)))
  }

  /** The reads left once those of `visited` have been looked at. */
  ghost function Remaining(sv: Service, visited: seq<nat>, n: NodeState, applied: LogIndex, expired: set<nat>)
    : map<nat, Pending>
  {
    map c | c in sv.pending && (c !in visited || Stays(sv.pending[c], n, applied, c in expired)) :: sv.pending[c]
  }

  lemma RemainingNone(sv: Service, n: NodeState, machine: Machine, expired: set<nat>)
    ensures Remaining(sv, [], n, machine.lastApplied, expired) == sv.pending
    ensures SweepAnswers(sv, [], n, machine, expired) == []
  {
  }

  lemma AnswersNext(sv: Service, order: seq<nat>, i: nat, n: NodeState, machine: Machine, expired: set<nat>)
    requires i < |order| && Elements(order) == sv.pending.Keys && forall c :: c in order ==> c in sv.pending
    ensures forall c :: c in order[..i + 1] ==> c in sv.pending
    ensures order[i] in sv.pending
    ensures SweepAnswers(sv, order[..i + 1], n, machine, expired) ==
            SweepAnswers(sv, order[..i], n, machine, expired) +
            BatchAnswers(sv.pending[order[i]], n, machine, order[i] in expired)
  {
    assert order[..i + 1][..i] == order[..i];
  }

  lemma ListedArePending(sv: Service, order: seq<nat>)
    requires Elements(order) == sv.pending.Keys
    ensures forall c :: c in order ==> c in sv.pending
  {
    forall c | c in order ensures c in sv.pending {
      assert c in Elements(order);
    }
  }

  lemma RemainingNext(sv: Service, order: seq<nat>, i: nat, n: NodeState, applied: LogIndex, expired: set<nat>)
    requires i < |order| && Distinct(order) && Elements(order) == sv.pending.Keys
    ensures var now, c := Remaining(sv, order[..i], n, applied, expired), order[i];
            && c in now && now[c] == sv.pending[c]
            && Remaining(sv, order[..i + 1], n, applied, expired) ==
                 (if Stays(sv.pending[c], n, applied, c in expired) then now else now - {c})
  {
    var c := order[i];
    assert c in Elements(order);
    assert order[..i + 1] == order[..i] + [c];
    assert c !in order[..i];
  }

  lemma RemainingAll(sv: Service, order: seq<nat>, n: NodeState, applied: LogIndex, expired: set<nat>)
    requires Elements(order) == sv.pending.Keys
    ensures Swept(sv, n, applied, expired) == sv.(pending := Remaining(sv, order, n, applied, expired))
  {
    forall c | c in sv.pending ensures c in order {
      assert c in Elements(order);
    }
  }
}
