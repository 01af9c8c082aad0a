/** No read is lost and none is answered twice: what the read service was asked is, at every moment, what
    still waits and what has been answered. And each answer is the one its situation calls for. */
module ReadRequests {
  import opened RaftTypes
  import opened LogSpec
  import opened NodeSpec
  import opened Quorum
  import opened ReadBarrier

  // ---------------------------------------------------------------- which answer, and when

  /** More than half of the members, the node included. */
  predicate MajorityOf(count: nat, n: NodeState) {
    2 * count > |n.peers| + 1
  }

  /** The node leads and the entry at its commit index is of its own term. */
  predicate LeadsAndCommitted(n: NodeState) {
    && n.role == Leader && |n.log| > 0
    && exists j :: 0 <= j < |n.log| && n.log[j].index == n.commit && n.log[j].term == n.term
  }

  /** What one batch gets from a sweep: every request one answer in order, or the batch waits with none.
      It waits exactly while the node leads the batch's term, the deadline is ahead, and a majority or the
      batch's index is still missing. */
  lemma SweptBatch(read: Pending, n: NodeState, machine: Machine, expired: bool)
    ensures var answers := BatchAnswers(read, n, machine, expired);
            var leads := n.role == Leader && n.term == read.term;
            var ready := MajorityOf(|read.acks|, n) && machine.lastApplied >= read.readIndex;
            && (Stays(read, n, machine.lastApplied, expired) <==> leads && !expired && !ready)
            && (Stays(read, n, machine.lastApplied, expired) ==> answers == [])
            && (!Stays(read, n, machine.lastApplied, expired) ==>
                  && |answers| == |read.requests|
                  && forall i :: 0 <= i < |answers| ==>
                       && answers[i].request == read.requests[i]
                       && (answers[i].outcome == NotLeader <==> !leads)
                       && (answers[i].outcome == QuorumTimeout <==> leads && expired)
                       && (leads && !expired ==>
                             var key := read.requests[i].key;
                             answers[i].outcome ==
                               if key in machine.store then Found(machine.store[key]) else NotFound))
  {
  }

  /** What the waiting reads get when their window is over: a leader with a commit in its own term opens one
      batch of them all under a context not in use and probes its peers under that context, any other node turns
      every one away. */
  lemma OpenedBatch(sv: Service, n: NodeState)
    requires Contiguous(n.log) && sv.nextContext >= 1 && forall c :: c in sv.pending ==> c < sv.nextContext
    ensures var sv', answers := Opened(sv, n), OpeningAnswers(sv, n);
            && sv'.deferred == []
            && OpeningProbe(sv, n) == (if sv.deferred != [] && LeadsAndCommitted(n) then sv.nextContext else 0)
            && (sv.deferred == [] ==> sv' == sv && answers == [])
            && (sv.deferred != [] && LeadsAndCommitted(n) ==>
                  && answers == [] && sv.nextContext !in sv.pending && sv'.nextContext == sv.nextContext + 1
                  && sv'.pending == sv.pending[sv.nextContext := Pending(sv.deferred, n.term, n.commit, {n.self})])
            && (sv.deferred != [] && !LeadsAndCommitted(n) ==>
                  && sv' == sv.(deferred := []) && |answers| == |sv.deferred|
                  && forall i :: 0 <= i < |answers| ==>
                       && answers[i].request == sv.deferred[i]
                       && (answers[i].outcome == NotLeader <==> n.role != Leader)
                       && (answers[i].outcome == LeaderNotReady <==> n.role == Leader))
  {
    CommittedTerm(n);
  }

  lemma CommittedTerm(n: NodeState)
    requires Contiguous(n.log)
    ensures LeadsAndCommitted(n) <==> MayOpen(n)
  {
    if LeadsAndCommitted(n) {
      var j :| 0 <= j < |n.log| && n.log[j].index == n.commit && n.log[j].term == n.term;
      assert OffsetOf(n.log, n.commit) == Some(j);
    }
    if MayOpen(n) {
      var j := OffsetOf(n.log, n.commit).value;
      assert n.log[j].index == n.commit;
    }
  }

  /** A response adds its sender to the batch of its context, if it is a success and the batch is of the
      receiver's term, and changes nothing else. */
  lemma CollectedAck(sv: Service, current: Term, source: NodeId, r: AppendResponse)
    ensures var sv', c := Collected(sv, current, source, r), r.readContext;
            && sv'.nextContext == sv.nextContext && sv'.deferred == sv.deferred && sv'.pending.Keys == sv.pending.Keys
            && (forall d :: d in sv.pending ==>
                  && sv'.pending[d].requests == sv.pending[d].requests && sv'.pending[d].term == sv.pending[d].term
                  && sv'.pending[d].readIndex == sv.pending[d].readIndex
                  && sv'.pending[d].acks == sv.pending[d].acks +
                       (if d == c && c != 0 && r.success && sv.pending[d].term == current then {source} else {}))
  {
  }

  // ---------------------------------------------------------------- requests, counted

  /** All requests of the open batches. */
  ghost function Total(pending: map<nat, Pending>): multiset<Request> {
    if pending == map[] then multiset{}
    else
      var c :| c in pending;
      multiset(pending[c].requests) + Total(pending - {c})
  }

  /** Whichever batch is taken out first. */
  lemma {:induction false} TotalWithout(pending: map<nat, Pending>, c: nat)
    requires c in pending
    ensures Total(pending) == multiset(pending[c].requests) + Total(pending - {c})
    decreases |pending|
  {
    var d :| d in pending && Total(pending) == multiset(pending[d].requests) + Total(pending - {d});
    if d != c {
      Fewer(pending, c);
      Fewer(pending, d);
      TotalWithout(pending - {d}, c);
      TotalWithout(pending - {c}, d);
      assert pending - {d} - {c} == pending - {c} - {d};
    }
  }

  lemma Fewer(pending: map<nat, Pending>, c: nat)
    requires c in pending
    ensures |pending - {c}| == |pending| - 1
  {
    assert (pending - {c}).Keys == pending.Keys - {c};
    assert |pending.Keys| == |pending| && |(pending - {c}).Keys| == |pending - {c}|;
  }

  /** What a service still owes an answer. */
  ghost function Owed(sv: Service): multiset<Request> {
    multiset(sv.deferred) + Total(sv.pending)
  }

  function RequestsOf(answers: seq<Answer>): seq<Request> {
    seq(|answers|, i requires 0 <= i < |answers| => answers[i].request)
  }

  lemma RequestsJoin(a: seq<Answer>, b: seq<Answer>)
    ensures RequestsOf(a + b) == RequestsOf(a) + RequestsOf(b)
  {
  }

  lemma BatchRequests(read: Pending, n: NodeState, machine: Machine, expired: bool)
    ensures RequestsOf(BatchAnswers(read, n, machine, expired)) ==
            if Stays(read, n, machine.lastApplied, expired) then [] else read.requests
  {
  }

  /** A sweep answers exactly the requests of the batches it closes, each as often as it was asked. */
  lemma {:induction false} SweepAnswersAll(sv: Service, order: seq<nat>, n: NodeState, machine: Machine,
                                           expired: set<nat>, i: nat)
    requires Distinct(order) && Elements(order) == sv.pending.Keys && i <= |order|
    requires forall c :: c in order ==> c in sv.pending
    ensures Total(sv.pending) == multiset(RequestsOf(SweepAnswers(sv, order[..i], n, machine, expired))) +
                                 Total(Remaining(sv, order[..i], n, machine.lastApplied, expired))
  {
    hide Total, SweepAnswers, BatchAnswers, Remaining, Stays, Elements, Distinct;
    if i == 0 {
      RemainingNone(sv, n, machine, expired);
      assert order[..0] == [] && RequestsOf([]) == [];
    } else {
      SweepAnswersAll(sv, order, n, machine, expired, i - 1);
      RemainingNext(sv, order, i - 1, n, machine.lastApplied, expired);
      AnswersNext(sv, order, i - 1, n, machine, expired);
      var c := order[i - 1];
      var now := Remaining(sv, order[..i - 1], n, machine.lastApplied, expired);
      TotalWithout(now, c);
      BatchRequests(sv.pending[c], n, machine, c in expired);
      RequestsJoin(SweepAnswers(sv, order[..i - 1], n, machine, expired),
                   BatchAnswers(sv.pending[c], n, machine, c in expired));
    }
  }

  // ---------------------------------------------------------------- the life of a service

  datatype Step =
    | Asked(request: Request)
    | WindowOver(n: NodeState)
    | Heard(current: Term, source: NodeId, response: AppendResponse)
    | Swept(order: seq<nat>, at: NodeState, machine: Machine, expired: set<nat>)

  ghost predicate Possible(sv: Service, step: Step) {
    match step
    case Swept(order, _, _, _) =>
      Distinct(order) && Elements(order) == sv.pending.Keys && forall c :: c in order ==> c in sv.pending
    case WindowOver(n) => Contiguous(n.log)
    case _ => true
  }

  ghost function Next(sv: Service, step: Step): Service {
    match step
    case Asked(request) => sv.(deferred := sv.deferred + [request])
    case WindowOver(n) => Opened(sv, n)
    case Heard(current, source, response) => Collected(sv, current, source, response)
    case Swept(_, n, machine, expired) => ReadBarrier.Swept(sv, n, machine.lastApplied, expired)
  }

  ghost function Given(sv: Service, step: Step): seq<Answer>
    requires Possible(sv, step)
  {
    match step
    case WindowOver(n) => if sv.deferred == [] then [] else OpeningAnswers(sv, n)
    case Swept(order, n, machine, expired) => SweepAnswers(sv, order, n, machine, expired)
    case _ => []
  }

  ghost function AskedBy(step: Step): seq<Request> {
    if step.Asked? then [step.request] else []
  }

  /** Contexts in use are below the next one. */
  ghost predicate Numbered(sv: Service) {
    sv.nextContext >= 1 && forall c :: c in sv.pending ==> c < sv.nextContext
  }

  lemma NumberedNext(sv: Service, step: Step)
    requires Numbered(sv) && Possible(sv, step)
    ensures Numbered(Next(sv, step))
  {
  }

  /** One step: what was owed and is newly asked is answered or owed. */
  lemma StepConserves(sv: Service, step: Step)
    requires Numbered(sv) && Possible(sv, step)
    ensures Owed(sv) + multiset(AskedBy(step)) == Owed(Next(sv, step)) + multiset(RequestsOf(Given(sv, step)))
  {
    hide Total, OpeningAnswers, SweepAnswers, Opened, Collected, ReadBarrier.Swept, Numbered, RequestsOf, Elements,
         Distinct;
    NoRequests();
    match step
    case Asked(request) =>
    case WindowOver(n) => OpeningConserves(sv, n);
    case Heard(current, source, response) => CollectConserves(sv, current, source, response);
    case Swept(order, n, machine, expired) => SweepConserves(sv, order, n, machine, expired);
  }

  lemma NoRequests()
    ensures RequestsOf([]) == [] && multiset(RequestsOf([])) == multiset{}
  {
  }

  lemma SweepConserves(sv: Service, order: seq<nat>, n: NodeState, machine: Machine, expired: set<nat>)
    requires Distinct(order) && Elements(order) == sv.pending.Keys && forall c :: c in order ==> c in sv.pending
    ensures var sv' := ReadBarrier.Swept(sv, n, machine.lastApplied, expired);
            && sv'.deferred == sv.deferred
            && Total(sv.pending) ==
                 multiset(RequestsOf(SweepAnswers(sv, order, n, machine, expired))) + Total(sv'.pending)
  {
    hide Total, SweepAnswers, RequestsOf, Remaining, Elements, Distinct;
    assert order[..|order|] == order;
    SweepAnswersAll(sv, order, n, machine, expired, |order|);
    RemainingAll(sv, order, n, machine.lastApplied, expired);
  }

  lemma OpeningConserves(sv: Service, n: NodeState)
    requires Numbered(sv) && Contiguous(n.log)
    ensures Owed(sv) == Owed(Opened(sv, n)) +
                        multiset(RequestsOf(if sv.deferred == [] then [] else OpeningAnswers(sv, n)))
  {
    hide Total, MayOpen, LeadsAndCommitted;
    OpenedBatch(sv, n);
    if sv.deferred == [] {
      assert RequestsOf([]) == [];
    } else if LeadsAndCommitted(n) {
      var sv', c := Opened(sv, n), sv.nextContext;
      TotalWithout(sv'.pending, c);
      assert sv'.pending - {c} == sv.pending;
      assert RequestsOf([]) == [];
    } else {
      assert RequestsOf(OpeningAnswers(sv, n)) == sv.deferred;
    }
  }

  lemma CollectConserves(sv: Service, current: Term, source: NodeId, r: AppendResponse)
    ensures Collected(sv, current, source, r).deferred == sv.deferred
    ensures Total(Collected(sv, current, source, r).pending) == Total(sv.pending)
  {
    hide Total;
    var sv', c := Collected(sv, current, source, r), r.readContext;
    if c in sv.pending {
      CollectedAck(sv, current, source, r);
      TotalWithout(sv.pending, c);
      TotalWithout(sv'.pending, c);
      assert sv'.pending - {c} == sv.pending - {c};
    }
  }

  /** The services along a life, one step at a time from a new one. */
  ghost predicate Life(svs: seq<Service>, steps: seq<Step>) {
    && |svs| == |steps| + 1 && svs[0] == NewService()
    && forall k :: 0 <= k < |steps| ==> Possible(svs[k], steps[k]) && svs[k + 1] == Next(svs[k], steps[k])
  }

  /** What was asked in the first k steps. */
  ghost function AllAsked(steps: seq<Step>, k: nat): multiset<Request>
    requires k <= |steps|
  {
    if k == 0 then multiset{} else AllAsked(steps, k - 1) + multiset(AskedBy(steps[k - 1]))
  }

  /** What was answered in them. */
  ghost function AllAnswered(svs: seq<Service>, steps: seq<Step>, k: nat): multiset<Request>
    requires Life(svs, steps) && k <= |steps|
  {
    if k == 0 then multiset{}
    else AllAnswered(svs, steps, k - 1) + multiset(RequestsOf(Given(svs[k - 1], steps[k - 1])))
  }

  /** Whatever happens to a service, at every moment every request it was asked still waits or has been
      answered, exactly as often as it was asked. */
  lemma {:induction false} EveryReadAnsweredOnce(svs: seq<Service>, steps: seq<Step>, k: nat)
    requires Life(svs, steps) && k <= |steps|
    ensures AllAsked(steps, k) == AllAnswered(svs, steps, k) + Owed(svs[k]) && Numbered(svs[k])
  {
    hide Owed, Numbered, Possible, Next, Given, AskedBy, RequestsOf;
    if k == 0 {
      NothingOwed();
    } else {
      EveryReadAnsweredOnce(svs, steps, k - 1);
      assert svs[k - 1 + 1] == Next(svs[k - 1], steps[k - 1]);
      StepConserves(svs[k - 1], steps[k - 1]);
      NumberedNext(svs[k - 1], steps[k - 1]);
      Balance(AllAsked(steps, k - 1), AllAnswered(svs, steps, k - 1), Owed(svs[k - 1]), Owed(svs[k]),
              multiset(AskedBy(steps[k - 1])), multiset(RequestsOf(Given(svs[k - 1], steps[k - 1]))));
    }
  }

  lemma Balance(asked: multiset<Request>, answered: multiset<Request>, owed: multiset<Request>,
                owed': multiset<Request>,
                more: multiset<Request>, given: multiset<Request>)
    requires asked == answered + owed && owed + more == owed' + given
    ensures asked + more == answered + given + owed'
  {
    assert asked + more == answered + (owed + more);
  }

  lemma NothingOwed()
    ensures Owed(NewService()) == multiset{} && Numbered(NewService())
  {
  }
}
