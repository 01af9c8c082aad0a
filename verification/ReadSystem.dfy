/** The cluster with a state machine and a read service on every node. Where the service differs from what the design
    document asks of it, the difference is a parameter: the rule under which a system runs. */
module ReadSystem {
  import opened RaftTypes
  import opened LogSpec
  import opened NodeSpec
  import opened Quorum
  import opened Protocol
  import opened Cluster
  import opened ReadBarrier
  import StateMachineSpec

  datatype Rule =
    | AsWritten     // contexts start from 1 in every process; an acknowledgement's term is not compared
    | ContextsKept  // as written, but a restarted process continues the numbering of contexts
    | TermChecked   // as written, but only acknowledgements of the leader's term count

  /** `decode` is how machines read commands; `began` records, for every open batch, the moment of the
      run it was opened at. */
  datatype System = System(decode: StateMachineSpec.Decoder, cluster: Cluster, services: map<NodeId, Service>,
                           machines: map<NodeId, Machine>, began: map<(NodeId, nat), nat>)

  ghost predicate Start(x: System) {
    && Init(x.cluster) && x.began == map[]
    && x.services == (map i | i in x.cluster.servers :: NewService())
    && x.machines == map i | i in x.cluster.servers :: StateMachineSpec.Empty()
  }

  /** Every handler ends by applying what is committed. */
  function CaughtUp(m: Machine, decode: StateMachineSpec.Decoder, n: NodeState): Machine {
    if |n.log| == 0 then m else StateMachineSpec.CatchUp(m, decode, n.log, n.commit).machine
  }

  function Counted(rule: Rule, sv: Service, n: NodeState, event: Event): Service {
    match event
    case Deliver(source, AnswerAppend(response)) =>
      if rule == TermChecked && response.term != n.term then sv else Collected(sv, n.term, source, response)
    case _ => sv
  }

  predicate Served(x: System, i: NodeId) {
    i in x.cluster.servers && i in x.services && i in x.machines && Contiguous(x.cluster.servers[i].node.log)
  }

  /** A node handles an event; acknowledgements are collected on the way. */
  ghost predicate Handles(rule: Rule, x: System, x': System, i: NodeId, event: Event) {
    && Served(x, i) && Offered(x.cluster, i, event) && !event.Barrier?
    && var n := x.cluster.servers[i].node;
       x' == System(x.decode, Handled(x.cluster, i, event), x.services[i := Counted(rule, x.services[i], n, event)],
                    x.machines[i := CaughtUp(x.machines[i], x.decode, React(n, event).node)], x.began)
  }

  ghost predicate Defers(x: System, x': System, i: NodeId, request: Request) {
    && Served(x, i)
    && var sv := x.services[i];
       x' == x.(services := x.services[i := sv.(deferred := sv.deferred + [request])])
  }

  /** A leader opens a batch of the waiting reads and probes its peers under a new context. */
  ghost predicate Opens(x: System, x': System, i: NodeId, moment: nat) {
    && Served(x, i)
    && var sv, n := x.services[i], x.cluster.servers[i].node;
       var context := OpeningProbe(sv, n);
       x' == System(x.decode, Handled(x.cluster, i, Barrier(context)), x.services[i := Opened(sv, n)], x.machines,
                    if context == 0 then x.began else x.began[(i, context) := moment])
  }

  /** A sweep over the open batches, in any order, answers from the machine as it stands. */
  ghost predicate Sweeps(x: System, x': System, i: NodeId, order: seq<nat>, expired: set<nat>, answers: seq<Answer>) {
    && Served(x, i)
    && var sv, n, machine := x.services[i], x.cluster.servers[i].node, x.machines[i];
       && Distinct(order) && Elements(order) == sv.pending.Keys && (forall c :: c in order ==> c in sv.pending)
       && answers == SweepAnswers(sv, order, n, machine, expired)
       && x' == x.(services := x.services[i := Swept(sv, n, machine.lastApplied, expired)])
  }

  /** A process dies inside a handler; its reads die with it, and the machine is rebuilt from the log. */
  ghost predicate Dies(rule: Rule, x: System, x': System, i: NodeId, event: Event, k: nat) {
    && Served(x, i) && Crashed(x.cluster, x'.cluster, i, event, k)
    && x'.decode == x.decode && x'.began == x.began
    && x'.services == x.services[i := if rule == ContextsKept then Service(x.services[i].nextContext, map[], [])
                                      else NewService()]
    && x'.machines == x.machines[i := CaughtUp(StateMachineSpec.Empty(), x.decode, x'.cluster.servers[i].node)]
  }

  ghost predicate Next(rule: Rule, x: System, x': System, moment: nat) {
    || (exists i, event :: Handles(rule, x, x', i, event))
    || (exists i, request :: Defers(x, x', i, request))
    || (exists i :: Opens(x, x', i, moment))
    || (exists i, order, expired, answers :: Sweeps(x, x', i, order, expired, answers))
    || (exists i, event, k: nat :: Dies(rule, x, x', i, event, k))
  }

  ghost predicate ReadRun(rule: Rule, xs: seq<System>) {
    && |xs| > 0 && Start(xs[0])
    && forall k: nat {:trigger Next(rule, xs[k], xs[k + 1], k)} :: k < |xs| - 1 ==> Next(rule, xs[k], xs[k + 1], k)
  }

  predicate Hosts(xs: seq<System>, k: nat, i: NodeId) {
    k < |xs| && i in xs[k].cluster.servers
  }

  function NodeAt(xs: seq<System>, k: nat, i: NodeId): NodeState
    requires Hosts(xs, k, i)
  {
    xs[k].cluster.servers[i].node
  }

  function MachineAt(xs: seq<System>, k: nat, i: NodeId): Machine
    requires Hosts(xs, k, i)
  {
    if i in xs[k].machines then xs[k].machines[i] else StateMachineSpec.Empty()
  }

  predicate Waiting(xs: seq<System>, k: nat, i: NodeId, context: nat) {
    Hosts(xs, k, i) && i in xs[k].services && context in xs[k].services[i].pending
  }

  /** The prefix applied by n contains all that m counts as committed. */
  predicate Contains(n: NodeState, applied: LogIndex, m: NodeState) {
    && m.commit <= applied < |n.log| && m.commit < |m.log|
    && m.log[..m.commit + 1] <= n.log[..applied + 1]
  }

  predicate MayAnswer(xs: seq<System>, k: nat, i: NodeId, context: nat)
    requires Waiting(xs, k, i, context)
  {
    Completes(xs[k].services[i].pending[context], NodeAt(xs, k, i), MachineAt(xs, k, i).lastApplied, false)
  }

  /** Whenever a batch may be answered, what the node has applied contains everything any node had
      committed by the moment the batch was opened. */
  ghost predicate Linearizable(xs: seq<System>) {
    forall k: nat, i, context: nat :: Waiting(xs, k, i, context) && MayAnswer(xs, k, i, context) ==>
      UpToDateSince(xs, k, i, context, MachineAt(xs, k, i).lastApplied)
  }

  ghost predicate UpToDateSince(xs: seq<System>, k: nat, i: NodeId, context: nat, applied: LogIndex)
    requires Hosts(xs, k, i)
  {
    && (i, context) in xs[k].began && xs[k].began[(i, context)] <= k
    && forall a: nat, j :: a <= xs[k].began[(i, context)] && Hosts(xs, a, j) ==>
         Contains(NodeAt(xs, k, i), applied, NodeAt(xs, a, j))
  }

  /** The answer tells the value of its key after a stretch of the committed log that contains
      everything any node had committed when the batch of the request was opened. */
  ghost predicate Current(xs: seq<System>, k: nat, i: NodeId, context: nat, a: Answer) {
    && Waiting(xs, k, i, context) && a.request in xs[k].services[i].pending[context].requests
    && var n, applied := NodeAt(xs, k, i), MachineAt(xs, k, i).lastApplied;
       && applied <= n.commit < |n.log| && UpToDateSince(xs, k, i, context, applied)
       && var reached := StateMachineSpec.ApplyAll(StateMachineSpec.Empty(), xs[k].decode, n.log[1..applied + 1]);
          a.outcome == Lookup(reached.machine.store, a.request.key)
  }

  /** Every value any node answers in the run. */
  ghost predicate AnswersCurrent(xs: seq<System>) {
    forall k: nat, i, order, expired, answers, a
      {:trigger Sweeps(xs[k], xs[k + 1], i, order, expired, answers), a in answers} ::
      k + 1 < |xs| && Sweeps(xs[k], xs[k + 1], i, order, expired, answers) && a in answers && FromStore(a) ==>
        exists context: nat :: Current(xs, k, i, context, a)
  }
}
