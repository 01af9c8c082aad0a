/** What one step of the cluster with reads can do, with the handlers left out.

    The proof about reads needs little of what a handler does: which messages carry a read
    context, which nodes a success comes from, when a node takes office, how a batch's set of
    acknowledgements grows and what a restart does to the numbering of contexts. `Moves` collects
    these facts, and `NextMoves` shows that every step of the system has them. */
module ReadSteps {
  import opened RaftTypes
  import opened LogSpec
  import opened NodeSpec
  import opened Protocol
  import opened Cluster
  import opened Simulation
  import opened ReadBarrier
  import opened ReadSystem

  // ---------------------------------------------------------------- what a handler sends

  /** Append requests carry a context only as the probes of a barrier. */
  lemma SentAppends(n: NodeState, event: Event, o: Outbound)
    requires Contiguous(n.log) && o in React(n, event).reply && o.payload.Append?
    ensures o.payload.append.readContext == (if event.Barrier? then event.context else 0)
    ensures event.Barrier? ==> n.role == Leader && o.payload.append.term == n.term
  {
  }

  /** A success is answered only to the term's leader, for a request the node was not ahead of,
      and carries that request's context. */
  lemma SentAnswers(n: NodeState, event: Event, o: Outbound)
    requires Contiguous(n.log) && o in React(n, event).reply && o.payload.AnswerAppend? && o.payload.answer.success
    ensures event.Deliver? && event.payload.Append?
    ensures var q, r := event.payload.append, o.payload.answer;
            && o.destination == event.source == q.leaderId
            && r.readContext == q.readContext && r.term == q.term && n.term <= q.term
  {
  }

  ghost predicate NewOffice(n: NodeState, n': NodeState) {
    n'.role == Leader ==> n.term < n'.term || (n.term == n'.term && n.role != Follower)
  }

  lemma RequestsGiveNoOffice(n: NodeState, ask: VoteRequest, append: AppendRequest)
    requires Contiguous(n.log)
    ensures NewOffice(n, HandleVoteRequest(n, ask).node)
    ensures NewOffice(n, HandleAppend(n, append).node)
  {
  }

  lemma AnswersGiveOffice(n: NodeState, source: NodeId, vote: VoteResponse, answer: AppendResponse)
    requires |n.log| > 0
    ensures NewOffice(n, HandleVoteResponse(n, source, vote).node)
    ensures NewOffice(n, HandleAppendResponse(n, source, answer).node)
  {
  }

  /** Office is taken in a term the node was not leading, as its candidate or in a new term. */
  lemma NewLeader(n: NodeState, event: Event)
    requires Contiguous(n.log)
    ensures NewOffice(n, React(n, event).node)
  {
    match event
    case ElectionTimeout =>
    case Heartbeat =>
    case Barrier(_) =>
    case Client(_) =>
    case Deliver(_, AskVote(request)) => RequestsGiveNoOffice(n, request, AppendRequest(1, 0, 0, 0, [], 0, 0));
    case Deliver(source, AnswerVote(response)) =>
      AnswersGiveOffice(n, source, response, AppendResponse(0, false, 0, 0, 0, 0, None, 0));
    case Deliver(_, Append(request)) => RequestsGiveNoOffice(n, VoteRequest(1, 0, 0, 0), request);
    case Deliver(source, AnswerAppend(response)) =>
      AnswersGiveOffice(n, source, VoteResponse(0, 0, false), response);
  }

  // ---------------------------------------------------------------- one step of the system

  /** The batch was open before, for the same term and index. */
  ghost predicate KeptBatch(x: System, x': System, i: NodeId, context: nat)
    requires i in x.services && i in x'.services
  {
    var before, after := x.services[i].pending, x'.services[i].pending;
    && context in before && context in after
    && after[context].term == before[context].term && after[context].readIndex == before[context].readIndex
    && ((i, context) in x.began ==> (i, context) in x'.began && x'.began[(i, context)] == x.began[(i, context)])
  }

  /** The batch was opened by this step. */
  ghost predicate NewBatch(x: System, x': System, i: NodeId, context: nat, moment: nat)
    requires i in x.services && i in x'.services && i in x.cluster.servers
  {
    var n, after := x.cluster.servers[i].node, x'.services[i].pending;
    && MayOpen(n) && context == x.services[i].nextContext < x'.services[i].nextContext
    && context in after && after[context].term == n.term && after[context].readIndex == n.commit
    && after[context].acks == {n.self}
    && (i, context) in x'.began && x'.began[(i, context)] == moment
  }

  /** An acknowledgement that the rule counts. */
  ghost predicate Counts(rule: Rule, x: System, i: NodeId, context: nat, term: Term, source: NodeId,
                         r: AppendResponse) {
    && Message(source, i, AnswerAppend(r)) in x.cluster.net && r.success && r.readContext == context != 0
    && (rule == TermChecked ==> r.term == term)
  }

  ghost predicate AcksGrow(rule: Rule, x: System, x': System, i: NodeId, context: nat)
    requires i in x.services && i in x'.services && context in x.services[i].pending
    requires context in x'.services[i].pending
  {
    var before, after := x.services[i].pending[context], x'.services[i].pending[context];
    || after.acks == before.acks
    || exists source, r :: Counts(rule, x, i, context, before.term, source, r) && after.acks == before.acks + {source}
  }

  ghost predicate ServiceMoves(rule: Rule, x: System, x': System, i: NodeId, moment: nat)
    requires i in x.services && i in x'.services && i in x.cluster.servers && i in x'.cluster.servers
  {
    && (forall context {:trigger context in x'.services[i].pending} :: context in x'.services[i].pending ==>
          || (KeptBatch(x, x', i, context) && AcksGrow(rule, x, x', i, context))
          || NewBatch(x, x', i, context, moment))
    && x'.services[i].nextContext >= 1
    && (|| x'.services[i].nextContext >= x.services[i].nextContext
        || (rule != ContextsKept && x'.cluster.servers[i].node.role == Follower && x'.services[i].pending == map[]))
  }

  /** The request that a new success answers. */
  ghost predicate AnsweredRequest(x: System, x': System, m: Message, q: AppendRequest)
    requires m.payload.AnswerAppend?
  {
    var r := m.payload.answer;
    && Message(m.destination, m.source, Append(q)) in x.cluster.net
    && q.readContext == r.readContext && q.term == r.term
    && m.source in x.cluster.servers && x.cluster.servers[m.source].node.term <= q.term
    && x'.services == x.services && x'.began == x.began
  }

  ghost predicate NewMessage(x: System, x': System, i: NodeId, m: Message, moment: nat)
    requires i in x.services && i in x'.services && i in x.cluster.servers
  {
    && m.source == i
    && (m.payload.Append? && m.payload.append.readContext != 0 ==>
          && NewBatch(x, x', i, m.payload.append.readContext, moment)
          && m.payload.append.term == x.cluster.servers[i].node.term)
    && (m.payload.AnswerAppend? && m.payload.answer.success ==> exists q :: AnsweredRequest(x, x', m, q))
  }

  ghost predicate Staffed(x: System) {
    && x.services.Keys == x.cluster.servers.Keys == x.machines.Keys
    && forall i :: i in x.services ==> x.services[i].nextContext >= 1
  }

  /** What a step does, with the handlers left out. */
  ghost predicate Moves(rule: Rule, x: System, x': System, i: NodeId, moment: nat) {
    && Staffed(x) && Staffed(x') && x'.services.Keys == x.services.Keys && i in x.services
    && (forall j :: j in x.services && j != i ==>
          && x'.services[j] == x.services[j]
          && x'.cluster.servers[j] == x.cluster.servers[j]
          && forall context: nat :: (j, context) in x.began ==>
               (j, context) in x'.began && x'.began[(j, context)] == x.began[(j, context)])
    && ServiceMoves(rule, x, x', i, moment)
    && NewOffice(x.cluster.servers[i].node, x'.cluster.servers[i].node)
    && forall m {:trigger m in x'.cluster.net} ::
         m in x'.cluster.net ==> m in x.cluster.net || NewMessage(x, x', i, m, moment)
  }

  lemma CountedMoves(rule: Rule, x: System, x': System, i: NodeId, event: Event, moment: nat)
    requires Staffed(x) && Handles(rule, x, x', i, event)
    ensures i in x'.services && i in x'.cluster.servers && ServiceMoves(rule, x, x', i, moment)
  {
    hide React, CaughtUp;
    var sv, n := x.services[i], x.cluster.servers[i].node;
    if x'.services[i] != sv {
      var r := event.payload.answer;
      assert Counts(rule, x, i, r.readContext, n.term, event.source, r);
    }
  }

  lemma HandlerMessages(x: System, x': System, i: NodeId, event: Event, m: Message, moment: nat)
    requires Staffed(x) && i in x.services && i in x'.services && Offered(x.cluster, i, event) && !event.Barrier?
    requires m in From(i, React(x.cluster.servers[i].node, event).reply)
    requires event.Deliver? && event.payload.Append? ==> x'.services == x.services && x'.began == x.began
    ensures NewMessage(x, x', i, m, moment)
  {
    var n := x.cluster.servers[i].node;
    var o :| o in React(n, event).reply && m == Message(i, o.destination, o.payload);
    if o.payload.Append? {
      SentAppends(n, event, o);
    } else if o.payload.AnswerAppend? && o.payload.answer.success {
      SentAnswers(n, event, o);
      assert AnsweredRequest(x, x', m, event.payload.append);
    }
  }

  lemma HandlesMoves(rule: Rule, x: System, x': System, i: NodeId, event: Event, moment: nat)
    requires Staffed(x) && Handles(rule, x, x', i, event)
    ensures Moves(rule, x, x', i, moment)
  {
    hide React, CaughtUp;
    CountedMoves(rule, x, x', i, event, moment);
    NewLeader(x.cluster.servers[i].node, event);
    forall m | m in x'.cluster.net ensures m in x.cluster.net || NewMessage(x, x', i, m, moment) {
      if m !in x.cluster.net {
        if event.Deliver? && event.payload.Append? {
          assert x'.services == x.services;
        }
        HandlerMessages(x, x', i, event, m, moment);
      }
    }
  }

  lemma OpensBatch(rule: Rule, x: System, x': System, i: NodeId, moment: nat)
    requires Staffed(x) && Opens(x, x', i, moment)
    ensures i in x'.services && i in x'.cluster.servers && ServiceMoves(rule, x, x', i, moment)
    ensures var context := OpeningProbe(x.services[i], x.cluster.servers[i].node);
            context != 0 ==> NewBatch(x, x', i, context, moment)
  {
    var sv, n := x.services[i], x.cluster.servers[i].node;
    var context := OpeningProbe(sv, n);
    forall c | c in x'.services[i].pending
      ensures (KeptBatch(x, x', i, c) && AcksGrow(rule, x, x', i, c)) || NewBatch(x, x', i, c, moment)
    {
      if c != context || context == 0 {
        assert KeptBatch(x, x', i, c);
      }
    }
  }

  lemma OpensMoves(rule: Rule, x: System, x': System, i: NodeId, moment: nat)
    requires Staffed(x) && Opens(x, x', i, moment)
    ensures Moves(rule, x, x', i, moment)
  {
    var context := OpeningProbe(x.services[i], x.cluster.servers[i].node);
    OpensBatch(rule, x, x', i, moment);
    assert React(x.cluster.servers[i].node, Barrier(context)).node == x.cluster.servers[i].node;
    forall m | m in x'.cluster.net ensures m in x.cluster.net || NewMessage(x, x', i, m, moment) {
      if m !in x.cluster.net {
        ProbeMessages(x, x', i, context, m, moment);
      }
    }
  }

  lemma ProbeMessages(x: System, x': System, i: NodeId, context: nat, m: Message, moment: nat)
    requires Staffed(x) && i in x.services && i in x'.services && Offered(x.cluster, i, Barrier(context))
    requires m in From(i, React(x.cluster.servers[i].node, Barrier(context)).reply)
    requires context != 0 ==> NewBatch(x, x', i, context, moment)
    ensures NewMessage(x, x', i, m, moment)
  {
    var n := x.cluster.servers[i].node;
    var o :| o in React(n, Barrier(context)).reply && m == Message(i, o.destination, o.payload);
    SentAppends(n, Barrier(context), o);
  }

  /** Steps that touch one service and nothing else. */
  lemma ServiceOnlyMoves(rule: Rule, x: System, x': System, i: NodeId, moment: nat)
    requires Staffed(x) && i in x.services && i in x'.services && x' == x.(services := x'.services)
    requires x'.services == x.services[i := x'.services[i]] && x'.services[i].nextContext == x.services[i].nextContext
    requires forall c :: c in x'.services[i].pending ==>
               c in x.services[i].pending && x'.services[i].pending[c] == x.services[i].pending[c]
    ensures Moves(rule, x, x', i, moment)
  {
  }

  lemma DiesMoves(rule: Rule, x: System, x': System, i: NodeId, event: Event, k: nat, moment: nat)
    requires Staffed(x) && Dies(rule, x, x', i, event, k)
    ensures Moves(rule, x, x', i, moment)
  {
    hide Crashed, CaughtUp;
    CrashedNode(x.cluster, x'.cluster, i, event, k);
  }

  /** A crash costs one node its office and sends nothing. */
  lemma CrashedNode(c: Cluster, c': Cluster, i: NodeId, event: Event, k: nat)
    requires Crashed(c, c', i, event, k)
    ensures i in c.servers && i in c'.servers && c'.servers == c.servers[i := c'.servers[i]] && c'.net == c.net
    ensures c'.servers[i].node.role == Follower
  {
    hide React, Loadable;
  }

  lemma NextMoves(rule: Rule, x: System, x': System, moment: nat) returns (i: NodeId)
    requires Staffed(x) && Next(rule, x, x', moment)
    ensures Moves(rule, x, x', i, moment)
  {
    if j, event :| Handles(rule, x, x', j, event) {
      i := j;
      HandlesMoves(rule, x, x', i, event, moment);
    } else if j, request :| Defers(x, x', j, request) {
      i := j;
      ServiceOnlyMoves(rule, x, x', i, moment);
    } else if j :| Opens(x, x', j, moment) {
      i := j;
      OpensMoves(rule, x, x', i, moment);
    } else if j, order, expired, answers :| Sweeps(x, x', j, order, expired, answers) {
      i := j;
      ServiceOnlyMoves(rule, x, x', i, moment);
    } else {
      var j, event, k: nat :| Dies(rule, x, x', j, event, k);
      i := j;
      DiesMoves(rule, x, x', i, event, k, moment);
    }
  }
}
