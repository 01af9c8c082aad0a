/** Reads are linearizable once contexts survive a restart, or once acknowledgements of other terms are
    not counted; as written, as long as no acknowledgement of another term reaches an open batch. */
module ReadSafety {
  import opened RaftTypes
  import opened LogSpec
  import opened NodeSpec
  import opened Quorum
  import opened Protocol
  import opened Invariant
  import opened Stability
  import opened Replication
  import opened Cluster
  import opened Simulation
  import opened Runs
  import opened ClusterSafety
  import opened ReadBarrier
  import opened ReadSystem
  import opened ReadSteps
  import opened ReadMachines
  import StaleRead

  // ---------------------------------------------------------------- the run underneath

  /** The same nodes throughout, and terms that never fall. */
  ghost predicate TermsRise(xs: seq<System>) {
    forall a: nat, b: nat, i {:trigger Hosts(xs, a, i), Hosts(xs, b, i)} :: a <= b < |xs| ==>
      (Hosts(xs, a, i) <==> Hosts(xs, b, i)) && (Hosts(xs, a, i) ==> NodeAt(xs, a, i).term <= NodeAt(xs, b, i).term)
  }

  /** Term t is behind the node, or is one it has already led. */
  ghost predicate Past(n: NodeState, t: Term) {
    n.term >= t && (n.term == t ==> n.role != Candidate)
  }

  ghost predicate MessageSound(x: System, m: Message) {
    && m.source in x.cluster.servers && m.destination in x.cluster.servers && m.source != m.destination
    && (m.payload.Append? ==> Past(x.cluster.servers[m.source].node, m.payload.append.term))
    && (m.payload.AnswerAppend? && m.payload.answer.success ==>
          Past(x.cluster.servers[m.destination].node, m.payload.answer.term))
  }

  ghost predicate Sound(x: System) {
    && (forall i :: i in x.cluster.servers ==> x.cluster.servers[i].node.self == i)
    && (forall m {:trigger MessageSound(x, m)} :: m in x.cluster.net ==> MessageSound(x, m))
  }

  lemma MessagesSound(s: State, x: System, m: Message)
    requires Follows(s, x.cluster) && m in x.cluster.net
    ensures MessageSound(x, m)
  {
    assert MessageInv(s, m);
    if m.payload.Append? {
      assert TermInv(s, m.payload.append.term);
    } else if m.payload.AnswerAppend? && m.payload.answer.success {
      assert TermInv(s, m.payload.answer.term);
    }
  }

  lemma SystemSound(s: State, x: System)
    requires Follows(s, x.cluster)
    ensures Sound(x)
  {
    forall i | i in x.cluster.servers ensures x.cluster.servers[i].node.self == i {
      assert NodeInv(s, i);
    }
    forall m | m in x.cluster.net ensures MessageSound(x, m) {
      MessagesSound(s, x, m);
    }
  }

  lemma RunSound(ss: seq<State>, xs: seq<System>)
    requires Traces(ss, Clusters(xs))
    ensures TermsRise(xs)
    ensures forall k: nat :: k < |xs| ==> Sound(xs[k])
  {
    var cs := Clusters(xs);
    forall k: nat | k < |xs| ensures Sound(xs[k]) {
      assert Follows(ss[k], cs[k]);
      SystemSound(ss[k], xs[k]);
    }
    forall a: nat, b: nat, i | a <= b < |xs|
      ensures Hosts(xs, a, i) <==> Hosts(xs, b, i)
      ensures Hosts(xs, a, i) ==> NodeAt(xs, a, i).term <= NodeAt(xs, b, i).term
    {
      assert Follows(ss[a], cs[a]) && Follows(ss[b], cs[b]) && Later(ss[a], ss[b]);
    }
  }

  // ---------------------------------------------------------------- the invariant

  /** Everyone who acknowledged the batch was in no later term when it was opened. */
  ghost predicate BatchOk(xs: seq<System>, k: nat, i: NodeId, context: nat)
    requires Waiting(xs, k, i, context)
  {
    var read := xs[k].services[i].pending[context];
    && (i, context) in xs[k].began && context < xs[k].services[i].nextContext
    && var b := xs[k].began[(i, context)];
       && b <= k && Hosts(xs, b, i) && MayOpen(NodeAt(xs, b, i))
       && NodeAt(xs, b, i).term == read.term && NodeAt(xs, b, i).commit == read.readIndex
       && forall p :: p in read.acks ==> Hosts(xs, b, p) && NodeAt(xs, b, p).term <= read.term
  }

  /** No message in flight carries a context that node i may still issue for that term. */
  ghost predicate Spent(rule: Rule, x: System, i: NodeId, context: nat, term: Term) {
    i in x.services && i in x.cluster.servers &&
    (rule == ContextsKept || (x.cluster.servers[i].node.role == Leader && x.cluster.servers[i].node.term == term) ==>
       context < x.services[i].nextContext)
  }

  ghost predicate Concerns(rule: Rule, xs: seq<System>, k: nat, i: NodeId, context: nat, term: Term) {
    Waiting(xs, k, i, context) && (rule == TermChecked ==> term == xs[k].services[i].pending[context].term)
  }

  ghost predicate ProbeOk(rule: Rule, xs: seq<System>, k: nat, m: Message, r: AppendRequest)
    requires k < |xs|
  {
    r.readContext != 0 ==>
      && Spent(rule, xs[k], m.source, r.readContext, r.term)
      && (Concerns(rule, xs, k, m.source, r.readContext, r.term) ==>
            r.term == xs[k].services[m.source].pending[r.readContext].term)
  }

  ghost predicate AckOk(rule: Rule, xs: seq<System>, k: nat, m: Message, r: AppendResponse)
    requires k < |xs|
  {
    r.success && r.readContext != 0 ==>
      && Spent(rule, xs[k], m.destination, r.readContext, r.term)
      && (Concerns(rule, xs, k, m.destination, r.readContext, r.term) ==>
            && (m.destination, r.readContext) in xs[k].began
            && r.term == xs[k].services[m.destination].pending[r.readContext].term
            && var b := xs[k].began[(m.destination, r.readContext)];
               && Hosts(xs, b, m.source)
               && NodeAt(xs, b, m.source).term <= xs[k].services[m.destination].pending[r.readContext].term)
  }

  ghost predicate CarriedOk(rule: Rule, xs: seq<System>, k: nat, m: Message)
    requires k < |xs|
  {
    match m.payload
    case Append(r) => ProbeOk(rule, xs, k, m, r)
    case AnswerAppend(r) => AckOk(rule, xs, k, m, r)
    case _ => true
  }

  ghost predicate ReadInv(rule: Rule, xs: seq<System>, k: nat) {
    && k < |xs| && Staffed(xs[k])
    && (forall i, context: nat {:trigger BatchOk(xs, k, i, context)} ::
          Waiting(xs, k, i, context) ==> BatchOk(xs, k, i, context))
    && (forall m {:trigger CarriedOk(rule, xs, k, m)} :: m in xs[k].cluster.net ==> CarriedOk(rule, xs, k, m))
  }

  // ---------------------------------------------------------------- its preservation

  ghost predicate Going(rule: Rule, xs: seq<System>, k: nat, actor: NodeId) {
    && rule != AsWritten && ReadInv(rule, xs, k) && k + 1 < |xs| && TermsRise(xs) && Sound(xs[k])
    && Moves(rule, xs[k], xs[k + 1], actor, k)
  }

  lemma AckCounts(rule: Rule, xs: seq<System>, k: nat, i: NodeId, context: nat, source: NodeId, r: AppendResponse)
    requires ReadInv(rule, xs, k) && Waiting(xs, k, i, context) && BatchOk(xs, k, i, context)
    requires Counts(rule, xs[k], i, context, xs[k].services[i].pending[context].term, source, r)
    ensures var b := xs[k].began[(i, context)];
            Hosts(xs, b, source) && NodeAt(xs, b, source).term <= xs[k].services[i].pending[context].term
  {
    var m := Message(source, i, AnswerAppend(r));
    assert CarriedOk(rule, xs, k, m);
    assert Concerns(rule, xs, k, i, context, r.term);
  }

  lemma BatchKept(rule: Rule, xs: seq<System>, k: nat, i: NodeId, context: nat)
    requires Going(rule, xs, k, i) && Waiting(xs, k + 1, i, context)
    requires KeptBatch(xs[k], xs[k + 1], i, context) && AcksGrow(rule, xs[k], xs[k + 1], i, context)
    ensures BatchOk(xs, k + 1, i, context)
  {
    assert Waiting(xs, k, i, context) && BatchOk(xs, k, i, context);
    var before, after := xs[k].services[i].pending[context], xs[k + 1].services[i].pending[context];
    if after.acks != before.acks {
      var source, r :| Counts(rule, xs[k], i, context, before.term, source, r) && after.acks == before.acks + {source};
      AckCounts(rule, xs, k, i, context, source, r);
    }
  }

  lemma BatchNew(rule: Rule, xs: seq<System>, k: nat, i: NodeId, context: nat)
    requires Going(rule, xs, k, i) && Waiting(xs, k + 1, i, context)
    requires NewBatch(xs[k], xs[k + 1], i, context, k)
    ensures BatchOk(xs, k + 1, i, context)
  {
    assert NodeAt(xs, k, i).self == i;
  }

  lemma BatchSteps(rule: Rule, xs: seq<System>, k: nat, actor: NodeId, i: NodeId, context: nat)
    requires Going(rule, xs, k, actor) && Waiting(xs, k + 1, i, context)
    ensures BatchOk(xs, k + 1, i, context)
  {
    if i == actor {
      assert context in xs[k + 1].services[i].pending;
      if NewBatch(xs[k], xs[k + 1], i, context, k) {
        BatchNew(rule, xs, k, i, context);
      } else {
        BatchKept(rule, xs, k, i, context);
      }
    } else {
      assert Waiting(xs, k, i, context) && BatchOk(xs, k, i, context);
    }
  }

  /** A context stays spent: office in an old term is never taken again. */
  lemma SpentStays(rule: Rule, xs: seq<System>, k: nat, actor: NodeId, i: NodeId, context: nat, term: Term)
    requires Going(rule, xs, k, actor) && Spent(rule, xs[k], i, context, term)
    requires Past(xs[k].cluster.servers[i].node, term)
    ensures Spent(rule, xs[k + 1], i, context, term)
  {
    if i == actor {
      var n, n' := xs[k].cluster.servers[i].node, xs[k + 1].cluster.servers[i].node;
      assert NewOffice(n, n');
    }
  }

  /** A batch that a message in flight concerns was open before the step. */
  lemma ConcernsBefore(rule: Rule, xs: seq<System>, k: nat, actor: NodeId, i: NodeId, context: nat, term: Term)
    requires Going(rule, xs, k, actor) && Spent(rule, xs[k], i, context, term)
    requires Concerns(rule, xs, k + 1, i, context, term)
    ensures Concerns(rule, xs, k, i, context, term)
    ensures xs[k].services[i].pending[context].term == xs[k + 1].services[i].pending[context].term
    ensures (i, context) in xs[k].began && (i, context) in xs[k + 1].began
    ensures xs[k].began[(i, context)] == xs[k + 1].began[(i, context)]
  {
    if i == actor {
      assert context in xs[k + 1].services[i].pending;
      assert !NewBatch(xs[k], xs[k + 1], i, context, k);
      assert KeptBatch(xs[k], xs[k + 1], i, context);
    }
    assert Waiting(xs, k, i, context) && BatchOk(xs, k, i, context);
  }

  lemma OldCarried(rule: Rule, xs: seq<System>, k: nat, actor: NodeId, m: Message)
    requires Going(rule, xs, k, actor) && m in xs[k].cluster.net
    ensures CarriedOk(rule, xs, k + 1, m)
  {
    assert CarriedOk(rule, xs, k, m) && MessageSound(xs[k], m);
    if m.payload.Append? && m.payload.append.readContext != 0 {
      var r := m.payload.append;
      SpentStays(rule, xs, k, actor, m.source, r.readContext, r.term);
      if Concerns(rule, xs, k + 1, m.source, r.readContext, r.term) {
        ConcernsBefore(rule, xs, k, actor, m.source, r.readContext, r.term);
      }
    } else if m.payload.AnswerAppend? && m.payload.answer.success && m.payload.answer.readContext != 0 {
      var r := m.payload.answer;
      SpentStays(rule, xs, k, actor, m.destination, r.readContext, r.term);
      if Concerns(rule, xs, k + 1, m.destination, r.readContext, r.term) {
        ConcernsBefore(rule, xs, k, actor, m.destination, r.readContext, r.term);
      }
    }
  }

  lemma NewAck(rule: Rule, xs: seq<System>, k: nat, actor: NodeId, m: Message, q: AppendRequest)
    requires Going(rule, xs, k, actor) && m.payload.AnswerAppend? && m.payload.answer.success && m.source == actor
    requires AnsweredRequest(xs[k], xs[k + 1], m, q)
    ensures AckOk(rule, xs, k + 1, m, m.payload.answer)
  {
    var r := m.payload.answer;
    var mq := Message(m.destination, m.source, Append(q));
    assert CarriedOk(rule, xs, k, mq) && MessageSound(xs[k], mq);
    if r.readContext != 0 {
      SpentStays(rule, xs, k, actor, m.destination, r.readContext, r.term);
      if Concerns(rule, xs, k + 1, m.destination, r.readContext, r.term) {
        ConcernsBefore(rule, xs, k, actor, m.destination, r.readContext, r.term);
        assert BatchOk(xs, k, m.destination, r.readContext);
        var b := xs[k].began[(m.destination, r.readContext)];
        assert Hosts(xs, k, m.source) && Hosts(xs, b, m.source);
      }
    }
  }

  lemma NewCarried(rule: Rule, xs: seq<System>, k: nat, actor: NodeId, m: Message)
    requires Going(rule, xs, k, actor) && NewMessage(xs[k], xs[k + 1], actor, m, k)
    ensures CarriedOk(rule, xs, k + 1, m)
  {
    if m.payload.AnswerAppend? && m.payload.answer.success {
      var q :| AnsweredRequest(xs[k], xs[k + 1], m, q);
      NewAck(rule, xs, k, actor, m, q);
    }
  }

  lemma InvSteps(rule: Rule, xs: seq<System>, k: nat, actor: NodeId)
    requires Going(rule, xs, k, actor)
    ensures ReadInv(rule, xs, k + 1)
  {
    var k' := k + 1;
    forall i, context: nat | Waiting(xs, k', i, context) ensures BatchOk(xs, k', i, context) {
      BatchSteps(rule, xs, k, actor, i, context);
    }
    forall m | m in xs[k'].cluster.net ensures CarriedOk(rule, xs, k', m) {
      if m in xs[k].cluster.net {
        OldCarried(rule, xs, k, actor, m);
      } else {
        NewCarried(rule, xs, k, actor, m);
      }
    }
  }

  lemma {:induction false} InvHolds(rule: Rule, xs: seq<System>, k: nat)
    requires rule != AsWritten && ReadRun(rule, xs) && TermsRise(xs) && k < |xs|
    requires forall j: nat :: j < |xs| ==> Sound(xs[j])
    ensures ReadInv(rule, xs, k)
  {
    hide ReadRun, ReadInv, TermsRise, Sound, Moves;
    if k == 0 {
      InvStarts(rule, xs);
    } else {
      InvHolds(rule, xs, k - 1);
      StaffedThroughout(rule, xs, k - 1);
      var actor := StepMoves(rule, xs, k - 1);
      InvSteps(rule, xs, k - 1, actor);
    }
  }

  lemma InvStarts(rule: Rule, xs: seq<System>)
    requires ReadRun(rule, xs)
    ensures ReadInv(rule, xs, 0)
  {
  }

  // ---------------------------------------------------------------- linearizability

  /** A commit of a later term needs a majority in that term, and a majority was not. */
  lemma NoLaterCommit(s: State, u: Term, t: Term, acks: set<NodeId>)
    requires Inv(s) && u in s.hist.commits && IsQuorum(s.nodes.Keys, acks)
    requires forall p :: p in acks ==> s.nodes[p].term <= t
    ensures u <= t
  {
    assert CommitInv(s, u);
    var q :| ChosenBy(s, q, u, s.hist.commits[u]);
    var p := QuorumsMeet(s.nodes.Keys, q, acks);
    assert NodeInv(s, p) && Acked(s.hist, u, p, s.hist.commits[u]);
    assert AckInv(s, p, u);
  }

  /** What an earlier term committed lies below the leader's own committed entry. */
  lemma EarlierCommitBelow(s: State, i: NodeId, u: Term)
    requires Inv(s) && i in s.nodes && MayOpen(s.nodes[i]) && u in s.hist.commits && u < s.nodes[i].term
    ensures u in s.hist.logs && s.hist.commits[u] < |s.hist.logs[u]| && s.hist.commits[u] < s.nodes[i].commit
    ensures s.hist.logs[u][..s.hist.commits[u] + 1] <= s.nodes[i].log
  {
    hide Complete, CommitOk, Covered, Inherits;
    var n := s.nodes[i];
    LeaderLog(s, i);
    assert NodeInv(s, i) && LeaderInv(s, i);
    CommittedTermReaches(s, u, n.term);
    var c := s.hist.commits[u];
    assert s.hist.logs[u][..c + 1][c] == n.log[c];
  }

  /** What a node has committed while a majority is in no term past the leader's lies within what
      that leader has committed, given that it has committed an entry of its own term. */
  lemma LeaderKnowsCommits(s: State, i: NodeId, j: NodeId, acks: set<NodeId>)
    requires Inv(s) && i in s.nodes && j in s.nodes && MayOpen(s.nodes[i])
    requires IsQuorum(s.nodes.Keys, acks) && forall p :: p in acks ==> s.nodes[p].term <= s.nodes[i].term
    ensures s.nodes[i].commit < |s.nodes[i].log| && Contains(s.nodes[i], s.nodes[i].commit, s.nodes[j])
  {
    hide Complete, Covered, Inherits, FromLeader, VoteInv, AckInv;
    var n, m := s.nodes[i], s.nodes[j];
    LeaderLog(s, i);
    assert NodeInv(s, i) && NodeInv(s, j) && LeaderInv(s, i);
    if m.commit > 0 {
      var u: Term :| CommittedIn(s.hist, u, m.log, m.commit) && u <= m.term;
      NoLaterCommit(s, u, n.term, acks);
      if u < n.term {
        EarlierCommitBelow(s, i, u);
      }
      assert m.log[..m.commit + 1] <= n.log && m.commit <= n.commit;
    }
  }

  lemma AcksAreQuorum(xs: seq<System>, k: nat, b: nat, ss: seq<State>, i: NodeId, acks: set<NodeId>)
    requires Traces(ss, Clusters(xs)) && b <= k && Hosts(xs, k, i) && b < |ss|
    requires |acks| >= (|NodeAt(xs, k, i).peers| + 1) / 2 + 1 && forall p :: p in acks ==> Hosts(xs, b, p)
    ensures IsQuorum(ss[b].nodes.Keys, acks)
  {
    var cs := Clusters(xs);
    assert Follows(ss[k], cs[k]) && Follows(ss[b], cs[b]) && Later(ss[b], ss[k]);
    assert NodeInv(ss[k], i);
    assert |ss[k].nodes.Keys| == |ss[k].nodes|;
  }

  lemma ContainsLater(n: NodeState, n': NodeState, applied: LogIndex, m: NodeState, m': NodeState)
    requires Contains(n, n.commit, m') && n.commit <= applied <= n'.commit < |n'.log|
    requires n.log[..n.commit + 1] <= n'.log
    requires m.commit <= m'.commit && m.commit < |m.log| && m.log[..m.commit + 1] <= m'.log
    ensures Contains(n', applied, m)
  {
    var a, b, c := m.log[..m.commit + 1], m'.log[..m'.commit + 1], n.log[..n.commit + 1];
    assert a <= b <= c <= n'.log;
    assert a <= n'.log[..applied + 1];
  }

  /** The read completes only if every entry committed by anyone before its barrier is in the
      prefix it reads from. */
  lemma CompletedReadIsCurrent(rule: Rule, xs: seq<System>, ss: seq<State>, k: nat, i: NodeId, context: nat,
                               applied: LogIndex,
                               a: nat, j: NodeId)
    requires Traces(ss, Clusters(xs)) && Run(Clusters(xs)) && ReadInv(rule, xs, k) && Waiting(xs, k, i, context)
    requires BatchOk(xs, k, i, context) && applied <= NodeAt(xs, k, i).commit
    requires Completes(xs[k].services[i].pending[context], NodeAt(xs, k, i), applied, false)
    requires a <= xs[k].began[(i, context)] && Hosts(xs, a, j)
    ensures Contains(NodeAt(xs, k, i), applied, NodeAt(xs, a, j))
  {
    var read, b := xs[k].services[i].pending[context], xs[k].began[(i, context)];
    AcksAreQuorum(xs, k, b, ss, i, read.acks);
    SameHosts(xs, ss, a, b, j);
    AtOpening(xs, ss, b, i, j, read.acks);
    KeepsCommits(xs, a, b, j);
    KeepsCommits(xs, b, k, i);
    KeepsCommits(xs, k, k, i);
    ContainsLater(NodeAt(xs, b, i), NodeAt(xs, k, i), applied, NodeAt(xs, a, j), NodeAt(xs, b, j));
  }

  lemma SameHosts(xs: seq<System>, ss: seq<State>, a: nat, b: nat, j: NodeId)
    requires Traces(ss, Clusters(xs)) && a <= b < |xs|
    ensures Hosts(xs, a, j) <==> Hosts(xs, b, j)
  {
    var cs := Clusters(xs);
    assert Follows(ss[a], cs[a]) && Follows(ss[b], cs[b]) && Later(ss[a], ss[b]);
  }

  lemma AtOpening(xs: seq<System>, ss: seq<State>, b: nat, i: NodeId, j: NodeId, acks: set<NodeId>)
    requires Traces(ss, Clusters(xs)) && Hosts(xs, b, i) && Hosts(xs, b, j) && MayOpen(NodeAt(xs, b, i))
    requires b < |ss| && IsQuorum(ss[b].nodes.Keys, acks)
    requires forall p :: p in acks ==> Hosts(xs, b, p) && NodeAt(xs, b, p).term <= NodeAt(xs, b, i).term
    ensures Contains(NodeAt(xs, b, i), NodeAt(xs, b, i).commit, NodeAt(xs, b, j))
  {
    var cs := Clusters(xs);
    assert Follows(ss[b], cs[b]);
    LeaderKnowsCommits(ss[b], i, j, acks);
  }

  lemma KeepsCommits(xs: seq<System>, a: nat, b: nat, j: NodeId)
    requires Run(Clusters(xs)) && a <= b && Hosts(xs, a, j) && Hosts(xs, b, j)
    ensures var m, m' := NodeAt(xs, a, j), NodeAt(xs, b, j);
            m.commit <= m'.commit && m.commit < |m.log| && m.log[..m.commit + 1] <= m'.log
  {
    CommittedForever(Clusters(xs), a, b, j);
  }

  /** Every run is linearizable if contexts survive restarts, and if foreign terms do not count. */
  lemma ReadsLinearizable(rule: Rule, xs: seq<System>)
    requires rule != AsWritten && ReadRun(rule, xs)
    ensures Linearizable(xs)
  {
    hide ReadRun;
    ClustersRun(rule, xs);
    var ss := RunTraced(Clusters(xs));
    RunSound(ss, xs);
    forall k: nat, i, context: nat | Waiting(xs, k, i, context) && MayAnswer(xs, k, i, context)
      ensures UpToDateSince(xs, k, i, context, MachineAt(xs, k, i).lastApplied)
    {
      InvHolds(rule, xs, k);
      assert BatchOk(xs, k, i, context);
      MachinesReflectLogs(rule, xs, k, i);
      forall a: nat, j | a <= xs[k].began[(i, context)] && Hosts(xs, a, j)
        ensures Contains(NodeAt(xs, k, i), MachineAt(xs, k, i).lastApplied, NodeAt(xs, a, j))
      {
        CompletedReadIsCurrent(rule, xs, ss, k, i, context, MachineAt(xs, k, i).lastApplied, a, j);
      }
    }
  }

  /** Of the three rules, exactly the one in the code allows a read that misses a commit. */
  lemma LinearizableUnlessAsWritten(rule: Rule)
    ensures (forall xs :: ReadRun(rule, xs) ==> Linearizable(xs)) <==> rule != AsWritten
  {
    hide ReadRun, Linearizable;
    if rule == AsWritten {
      var xs := StaleRead.StaleReadHappens();
      assert ReadRun(rule, xs);
    } else {
      forall xs | ReadRun(rule, xs) ensures Linearizable(xs) {
        ReadsLinearizable(rule, xs);
      }
    }
  }

  // ---------------------------------------------------------------- when the code is right

  /** The branch the code is missing: a success of another term that completes nothing of this one, but
      carries the context of an open batch and comes from a node not yet counted. */
  predicate ForeignAck(sv: Service, n: NodeState, source: NodeId, r: AppendResponse) {
    && r.success && r.readContext != 0 && r.readContext in sv.pending && sv.pending[r.readContext].term == n.term
    && r.term != n.term && source !in sv.pending[r.readContext].acks
  }

  /** No such response is ever delivered. Restarts and reused contexts are not excluded. */
  ghost predicate OwnTermAcks(xs: seq<System>) {
    forall k: nat, i, source, r {:trigger Handles(AsWritten, xs[k], xs[k + 1], i, Deliver(source, AnswerAppend(r)))} ::
      k + 1 < |xs| && Handles(AsWritten, xs[k], xs[k + 1], i, Deliver(source, AnswerAppend(r))) ==>
        !ForeignAck(xs[k].services[i], NodeAt(xs, k, i), source, r)
  }

  lemma OwnTermInStep(x: System, x': System, moment: nat)
    requires ReadSystem.Next(AsWritten, x, x', moment)
    requires forall i, source, r :: Handles(AsWritten, x, x', i, Deliver(source, AnswerAppend(r))) ==>
               !ForeignAck(x.services[i], x.cluster.servers[i].node, source, r)
    ensures ReadSystem.Next(TermChecked, x, x', moment)
  {
    hide React, Handled, ReadSystem.CaughtUp, Crashed, Opens, Defers, Sweeps;
    if i, event :| Handles(AsWritten, x, x', i, event) {
      CountedAlike(x.services[i], x.cluster.servers[i].node, event);
      assert Handles(TermChecked, x, x', i, event);
    } else if i, event, k: nat :| Dies(AsWritten, x, x', i, event, k) {
      assert Dies(TermChecked, x, x', i, event, k);
    }
  }

  lemma CountedAlike(sv: Service, n: NodeState, event: Event)
    requires event.Deliver? && event.payload.AnswerAppend? ==> !ForeignAck(sv, n, event.source, event.payload.answer)
    ensures Counted(AsWritten, sv, n, event) == Counted(TermChecked, sv, n, event)
  {
    if event.Deliver? && event.payload.AnswerAppend? && event.payload.answer.term != n.term {
      var r := event.payload.answer;
      if r.success && r.readContext != 0 && r.readContext in sv.pending && sv.pending[r.readContext].term == n.term {
        var read := sv.pending[r.readContext];
        assert read.acks + {event.source} == read.acks;
        assert sv.pending[r.readContext := read] == sv.pending;
      }
    }
  }

  /** The service as written is linearizable, and its answers current, in every run in which no
      acknowledgement of another term reaches an open batch. */
  lemma LinearizableWithOwnTermAcks(xs: seq<System>)
    requires ReadRun(AsWritten, xs) && OwnTermAcks(xs)
    ensures Linearizable(xs) && AnswersCurrent(xs)
  {
    forall k: nat | k < |xs| - 1 ensures ReadSystem.Next(TermChecked, xs[k], xs[k + 1], k) {
      OwnTermAt(xs, k);
    }
    ReadsLinearizable(TermChecked, xs);
    AnswersAreCurrent(AsWritten, xs);
  }

  lemma OwnTermAt(xs: seq<System>, k: nat)
    requires ReadRun(AsWritten, xs) && OwnTermAcks(xs) && k < |xs| - 1
    ensures ReadSystem.Next(TermChecked, xs[k], xs[k + 1], k)
  {
    hide ReadSystem.Next, Handles, ForeignAck;
    assert ReadSystem.Next(AsWritten, xs[k], xs[k + 1], k);
    forall i, source, r | Handles(AsWritten, xs[k], xs[k + 1], i, Deliver(source, AnswerAppend(r)))
      ensures Served(xs[k], i) && !ForeignAck(xs[k].services[i], xs[k].cluster.servers[i].node, source, r)
    {
      HandlesServes(xs[k], xs[k + 1], i, Deliver(source, AnswerAppend(r)));
    }
    OwnTermInStep(xs[k], xs[k + 1], k);
  }

  lemma HandlesServes(x: System, x': System, i: NodeId, event: Event)
    requires Handles(AsWritten, x, x', i, event)
    ensures Served(x, i)
  {
  }

  /** That condition is what decides: with it every run of the code is linearizable, without it some
      run is not. */
  lemma OwnTermAcksDecide(required: bool)
    ensures (forall xs :: ReadRun(AsWritten, xs) && (required ==> OwnTermAcks(xs)) ==> Linearizable(xs)) <==> required
  {
    hide ReadRun, Linearizable, OwnTermAcks;
    if required {
      forall xs | ReadRun(AsWritten, xs) && OwnTermAcks(xs) ensures Linearizable(xs) {
        LinearizableWithOwnTermAcks(xs);
      }
    } else {
      var xs := StaleRead.StaleReadHappens();
      assert ReadRun(AsWritten, xs) && !Linearizable(xs);
    }
  }

  // ---------------------------------------------------------------- contexts that rise

  /** No process of a node numbers its contexts from below where an earlier one stopped. */
  ghost predicate ContextsRise(xs: seq<System>) {
    forall k: nat, i {:trigger xs[k + 1].services[i]} ::
      k + 1 < |xs| && i in xs[k].services && i in xs[k + 1].services ==>
      xs[k].services[i].nextContext <= xs[k + 1].services[i].nextContext
  }

  lemma KeptInStep(x: System, x': System, moment: nat)
    requires Staffed(x) && ReadSystem.Next(AsWritten, x, x', moment)
    requires forall i :: i in x.services && i in x'.services ==> x.services[i].nextContext <= x'.services[i].nextContext
    ensures ReadSystem.Next(ContextsKept, x, x', moment)
  {
    hide React, Handled, ReadSystem.CaughtUp, Crashed, Opens, Defers, Sweeps;
    if i, event :| Handles(AsWritten, x, x', i, event) {
      assert Handles(ContextsKept, x, x', i, event);
    } else if i, event, k: nat :| Dies(AsWritten, x, x', i, event, k) {
      assert i in x.services && i in x'.services;
      assert Dies(ContextsKept, x, x', i, event, k);
    }
  }

  lemma ContextsKeptThroughout(xs: seq<System>)
    requires ReadRun(AsWritten, xs) && ContextsRise(xs)
    ensures ReadRun(ContextsKept, xs)
  {
    forall k: nat | k < |xs| - 1 ensures ReadSystem.Next(ContextsKept, xs[k], xs[k + 1], k) {
      StaffedThroughout(AsWritten, xs, k);
      assert ReadSystem.Next(AsWritten, xs[k], xs[k + 1], k);
      KeptInStep(xs[k], xs[k + 1], k);
    }
  }

  /** In particular no acknowledgement of another term reaches an open batch, and so reads are
      linearizable, as long as context numbers never fall back. */
  lemma RisingContextsOwnTerm(xs: seq<System>)
    requires ReadRun(AsWritten, xs) && ContextsRise(xs)
    ensures OwnTermAcks(xs) && Linearizable(xs)
  {
    hide ReadRun, Linearizable;
    ContextsKeptThroughout(xs);
    ClustersRun(ContextsKept, xs);
    var ss := RunTraced(Clusters(xs));
    RunSound(ss, xs);
    forall k: nat, i, source, r {:trigger Handles(AsWritten, xs[k], xs[k + 1], i, Deliver(source, AnswerAppend(r)))} |
      k + 1 < |xs| && Handles(AsWritten, xs[k], xs[k + 1], i, Deliver(source, AnswerAppend(r)))
      ensures !ForeignAck(xs[k].services[i], NodeAt(xs, k, i), source, r)
    {
      InvHolds(ContextsKept, xs, k);
      NotForeign(xs, k, i, source, r);
    }
    LinearizableWithOwnTermAcks(xs);
  }

  lemma NotForeign(xs: seq<System>, k: nat, i: NodeId, source: NodeId, r: AppendResponse)
    requires ReadInv(ContextsKept, xs, k) && k + 1 < |xs|
    requires Handles(AsWritten, xs[k], xs[k + 1], i, Deliver(source, AnswerAppend(r)))
    ensures !ForeignAck(xs[k].services[i], NodeAt(xs, k, i), source, r)
  {
    hide React, Handled, ReadSystem.CaughtUp, Counted;
    var m := Message(source, i, AnswerAppend(r));
    assert CarriedOk(ContextsKept, xs, k, m);
    if r.readContext in xs[k].services[i].pending {
      assert Waiting(xs, k, i, r.readContext) && Concerns(ContextsKept, xs, k, i, r.readContext, r.term);
    }
  }

  // ---------------------------------------------------------------- values

  /** With either repair, every value any node answers in any run is what the committed log says about
      its key, after a prefix that contains everything committed before the barrier. */
  lemma ReadsReturnCurrentValues(rule: Rule, xs: seq<System>)
    requires rule != AsWritten && ReadRun(rule, xs)
    ensures AnswersCurrent(xs)
  {
    hide ReadRun, Linearizable, AnswersCurrent;
    ReadsLinearizable(rule, xs);
    AnswersAreCurrent(rule, xs);
  }
}
