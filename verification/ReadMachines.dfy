/** The state machines of a run: each is what its node's committed log makes of the empty machine, so
    replicas never diverge and every value a read returns can be told from the log. */
module ReadMachines {
  import opened RaftTypes
  import opened LogSpec
  import opened NodeSpec
  import opened Protocol
  import opened Invariant
  import opened Cluster
  import opened Simulation
  import opened Runs
  import opened ClusterSafety
  import opened ReadBarrier
  import opened ReadSystem
  import opened ReadSteps
  import opened StateMachineSpec
  import opened LastWrite

  // ---------------------------------------------------------------- the run underneath

  function Clusters(xs: seq<System>): seq<Cluster> {
    seq(|xs|, k requires 0 <= k < |xs| => xs[k].cluster)
  }

  lemma NextIsStep(rule: Rule, x: System, x': System, moment: nat)
    requires ReadSystem.Next(rule, x, x', moment)
    ensures Step(x.cluster, x'.cluster)
  {
    hide React, ReadSystem.CaughtUp;
    if i, event :| Handles(rule, x, x', i, event) {
    } else if i, event, k: nat :| Dies(rule, x, x', i, event, k) {
    } else if i :| Opens(x, x', i, moment) {
      assert Offered(x.cluster, i, Barrier(OpeningProbe(x.services[i], x.cluster.servers[i].node)));
    } else {
      assert x'.cluster == x.cluster;
    }
  }

  lemma StepNext(rule: Rule, xs: seq<System>, k: nat)
    requires ReadRun(rule, xs) && k + 1 < |xs|
    ensures ReadSystem.Next(rule, xs[k], xs[k + 1], k)
  {
    hide Start;
  }

  lemma ClustersRun(rule: Rule, xs: seq<System>)
    requires ReadRun(rule, xs)
    ensures Run(Clusters(xs))
  {
    hide ReadSystem.Next, Step, Init;
    var cs := Clusters(xs);
    forall k | 0 <= k < |cs| - 1 ensures Step(cs[k], cs[k + 1]) {
      ClusterSteps(rule, xs, k);
    }
  }

  lemma ClusterSteps(rule: Rule, xs: seq<System>, k: nat)
    requires ReadRun(rule, xs) && k + 1 < |xs|
    ensures Step(xs[k].cluster, xs[k + 1].cluster)
  {
    hide ReadRun, Step;
    StepNext(rule, xs, k);
    NextIsStep(rule, xs[k], xs[k + 1], k);
  }

  lemma StepMoves(rule: Rule, xs: seq<System>, k: nat) returns (actor: NodeId)
    requires ReadRun(rule, xs) && k + 1 < |xs| && Staffed(xs[k])
    ensures Moves(rule, xs[k], xs[k + 1], actor, k)
  {
    hide ReadRun, ReadSystem.Next;
    StepNext(rule, xs, k);
    actor := NextMoves(rule, xs[k], xs[k + 1], k);
  }

  lemma {:induction false} StaffedThroughout(rule: Rule, xs: seq<System>, k: nat)
    requires ReadRun(rule, xs) && k < |xs|
    ensures Staffed(xs[k]) && xs[k].decode == xs[0].decode
  {
    hide ReadSystem.Next, ServiceMoves, NewMessage, NewOffice, Init;
    if k > 0 {
      StaffedThroughout(rule, xs, k - 1);
      StepNext(rule, xs, k - 1);
      var actor := StepMoves(rule, xs, k - 1);
      SameDecoder(rule, xs[k - 1], xs[k], k - 1);
    }
  }

  lemma SameDecoder(rule: Rule, x: System, x': System, moment: nat)
    requires ReadSystem.Next(rule, x, x', moment)
    ensures x'.decode == x.decode
  {
    hide React, ReadSystem.CaughtUp;
  }

  // ---------------------------------------------------------------- one machine

  /** The machine is what a stretch of the log from its start makes of the empty one. */
  ghost predicate Reflects(m: Machine, decode: Decoder, log: seq<LogEntry>) {
    && m.lastApplied < |log| && m == ApplyAll(Empty(), decode, log[1..m.lastApplied + 1]).machine
    && AllApply(Empty(), decode, log[1..m.lastApplied + 1])
  }

  /** Uncompacted, as the logs of a run are. */
  ghost predicate FromZero(n: NodeState) {
    Contiguous(n.log) && FirstIndex(n.log) == 0 && n.commit < |n.log|
  }

  /** It reflects committed entries only, and lacks a committed one only if that cannot be applied. */
  ghost predicate MachineOk(m: Machine, decode: Decoder, n: NodeState) {
    FromZero(n) && m.lastApplied <= n.commit && Reflects(m, decode, n.log) && Stopped(m, decode, n.log, n.commit)
  }

  lemma EmptyReflects(decode: Decoder, log: seq<LogEntry>)
    requires |log| > 0
    ensures Reflects(Empty(), decode, log)
  {
    assert log[1..1] == [];
  }

  lemma ReflectsLonger(m: Machine, decode: Decoder, log: seq<LogEntry>, log': seq<LogEntry>, commit: nat)
    requires Reflects(m, decode, log) && m.lastApplied <= commit < |log| && log[..commit + 1] <= log'
    ensures Reflects(m, decode, log')
  {
    assert log'[1..m.lastApplied + 1] == log[1..m.lastApplied + 1];
  }

  /** Applying what is newly committed keeps the machine in step with the log. */
  lemma CatchingUp(m: Machine, decode: Decoder, n: NodeState)
    requires FromZero(n) && m.lastApplied <= n.commit && Reflects(m, decode, n.log)
    ensures MachineOk(ReadSystem.CaughtUp(m, decode, n), decode, n)
  {
    hide ApplyAll, CatchUp;
    CatchUpIs(m, decode, n.log, n.commit);
    var here, top := m.lastApplied, ReadSystem.CaughtUp(m, decode, n).lastApplied;
    assert n.log[1..top + 1] == n.log[1..here + 1] + n.log[here + 1..top + 1];
    ApplyAllJoin(Empty(), decode, n.log[1..here + 1], n.log[here + 1..top + 1]);
  }

  // ---------------------------------------------------------------- every machine of a run

  lemma LogsFromZero(rule: Rule, xs: seq<System>, k: nat, i: NodeId)
    requires ReadRun(rule, xs) && Hosts(xs, k, i)
    ensures FromZero(NodeAt(xs, k, i))
  {
    hide ReadRun;
    ClustersRun(rule, xs);
    var cs := Clusters(xs);
    var ss := RunTraced(cs);
    Traced(ss, cs, k, i);
    CommittedForever(cs, k, k, i);
  }

  /** A node's committed entries stay, whatever the step. */
  lemma CommitsKept(rule: Rule, xs: seq<System>, a: nat, b: nat, i: NodeId)
    requires ReadRun(rule, xs) && a <= b && Hosts(xs, a, i) && Hosts(xs, b, i)
    ensures var n, n' := NodeAt(xs, a, i), NodeAt(xs, b, i);
            n.commit <= n'.commit && n.commit < |n.log| && n.log[..n.commit + 1] <= n'.log
  {
    hide ReadRun;
    ClustersRun(rule, xs);
    CommittedForever(Clusters(xs), a, b, i);
  }

  /** What a step does to one node and its machine. */
  ghost predicate MachineMoves(x: System, x': System, i: NodeId) {
    && i in x.cluster.servers && i in x'.cluster.servers && i in x.machines && i in x'.machines
    && var n, n', m, m' := x.cluster.servers[i].node, x'.cluster.servers[i].node, x.machines[i], x'.machines[i];
       || (n' == n && m' == m)
       || m' == ReadSystem.CaughtUp(m, x.decode, n')
       || m' == ReadSystem.CaughtUp(Empty(), x.decode, n')
  }

  lemma StepMachine(rule: Rule, x: System, x': System, moment: nat, i: NodeId)
    requires Staffed(x) && ReadSystem.Next(rule, x, x', moment) && i in x.cluster.servers
    ensures MachineMoves(x, x', i)
  {
    hide React, ReadSystem.CaughtUp, Opened, Counted, SweepAnswers, Crashed;
    if j, event :| Handles(rule, x, x', j, event) {
    } else if j :| Opens(x, x', j, moment) {
      BarrierKeeps(x.cluster.servers[j].node, OpeningProbe(x.services[j], x.cluster.servers[j].node));
    } else if j, event, k: nat :| Dies(rule, x, x', j, event, k) {
      CrashedNode(x.cluster, x'.cluster, j, event, k);
    }
  }

  lemma BarrierKeeps(n: NodeState, context: nat)
    requires Contiguous(n.log)
    ensures React(n, Barrier(context)).node == n
  {
  }

  lemma MachineStep(m: Machine, m': Machine, decode: Decoder, n: NodeState, n': NodeState)
    requires MachineOk(m, decode, n) && FromZero(n') && n.commit <= n'.commit && n.log[..n.commit + 1] <= n'.log
    requires || (n' == n && m' == m)
             || m' == ReadSystem.CaughtUp(m, decode, n') || m' == ReadSystem.CaughtUp(Empty(), decode, n')
    ensures MachineOk(m', decode, n')
  {
    hide ReadSystem.CaughtUp, Reflects, Stopped;
    ReflectsLonger(m, decode, n.log, n'.log, n.commit);
    EmptyReflects(decode, n'.log);
    if m' == ReadSystem.CaughtUp(m, decode, n') {
      CatchingUp(m, decode, n');
    } else if m' == ReadSystem.CaughtUp(Empty(), decode, n') {
      CatchingUp(Empty(), decode, n');
    }
  }

  /** At every moment of every run, under every rule, each machine reflects its node's committed log. */
  lemma {:induction false} MachinesReflectLogs(rule: Rule, xs: seq<System>, k: nat, i: NodeId)
    requires ReadRun(rule, xs) && Hosts(xs, k, i)
    ensures MachineOk(MachineAt(xs, k, i), xs[0].decode, NodeAt(xs, k, i))
  {
    hide ReadRun, Staffed, MachineOk, FromZero, Moves;
    StaffedThroughout(rule, xs, k);
    LogsFromZero(rule, xs, k, i);
    if k == 0 {
      FirstMachine(rule, xs, i);
    } else {
      StaffedThroughout(rule, xs, k - 1);
      Previously(rule, xs, k, i);
      MachinesReflectLogs(rule, xs, k - 1, i);
      CommitsKept(rule, xs, k - 1, k, i);
      MachineStep(MachineAt(xs, k - 1, i), MachineAt(xs, k, i), xs[0].decode, NodeAt(xs, k - 1, i), NodeAt(xs, k, i));
    }
  }

  lemma Previously(rule: Rule, xs: seq<System>, k: nat, i: NodeId)
    requires ReadRun(rule, xs) && Hosts(xs, k, i) && k > 0 && Staffed(xs[k - 1])
    ensures Hosts(xs, k - 1, i) && MachineMoves(xs[k - 1], xs[k], i)
  {
    hide ReadSystem.Next, MachineMoves;
    var actor := StepMoves(rule, xs, k - 1);
    StepNext(rule, xs, k - 1);
    StepMachine(rule, xs[k - 1], xs[k], k - 1, i);
  }

  lemma FirstMachine(rule: Rule, xs: seq<System>, i: NodeId)
    requires ReadRun(rule, xs) && Hosts(xs, 0, i) && FromZero(NodeAt(xs, 0, i))
    ensures MachineOk(MachineAt(xs, 0, i), xs[0].decode, NodeAt(xs, 0, i))
  {
    EmptyReflects(xs[0].decode, NodeAt(xs, 0, i).log);
  }

  // ---------------------------------------------------------------- replicas

  /** Replicas never diverge: of any two machines at any two moments, the one that is further on is
      what the other becomes by applying the entries between. */
  lemma ReplicasAgree(rule: Rule, xs: seq<System>, a: nat, b: nat, i: NodeId, j: NodeId)
    requires ReadRun(rule, xs) && Hosts(xs, a, i) && Hosts(xs, b, j)
    requires MachineAt(xs, a, i).lastApplied <= MachineAt(xs, b, j).lastApplied
    ensures var m, m' := MachineAt(xs, a, i), MachineAt(xs, b, j);
            && m'.lastApplied < |NodeAt(xs, b, j).log|
            && m' == ApplyAll(m, xs[0].decode, NodeAt(xs, b, j).log[m.lastApplied + 1..m'.lastApplied + 1]).machine
  {
    hide ReadRun, ApplyAll, Stopped;
    MachinesReflectLogs(rule, xs, a, i);
    MachinesReflectLogs(rule, xs, b, j);
    ClustersRun(rule, xs);
    var here, top := MachineAt(xs, a, i).lastApplied, MachineAt(xs, b, j).lastApplied;
    var log, log' := NodeAt(xs, a, i).log, NodeAt(xs, b, j).log;
    StateMachineSafety(Clusters(xs), a, b, i, j, here);
    assert log[1..here + 1] == log[..here + 1][1..] == log'[..here + 1][1..] == log'[1..here + 1];
    assert log'[1..top + 1] == log'[1..here + 1] + log'[here + 1..top + 1];
    ApplyAllJoin(Empty(), xs[0].decode, log'[1..here + 1], log'[here + 1..top + 1]);
  }

  // ---------------------------------------------------------------- exactly once

  /** Entry q, applied by node j at moment b, decodes to the command that node i had committed at the
      earlier index p by moment a. */
  ghost predicate Retried(xs: seq<System>, a: nat, i: NodeId, p: nat, b: nat, j: NodeId, q: nat) {
    && Hosts(xs, a, i) && Hosts(xs, b, j) && 1 <= p < q <= MachineAt(xs, b, j).lastApplied
    && p <= NodeAt(xs, a, i).commit < |NodeAt(xs, a, i).log| && q < |NodeAt(xs, b, j).log|
    && var first, again := NodeAt(xs, a, i).log[p], NodeAt(xs, b, j).log[q];
       && first.kind == Command && again.kind == Command
       && xs[0].decode(first.command).Some? && xs[0].decode(again.command) == xs[0].decode(first.command)
  }

  /** Over one log: the later of two entries that decode to the same command changes neither the map
      nor the sessions. */
  lemma RetryInLog(decode: Decoder, log: seq<LogEntry>, p: nat, q: nat)
    requires Contiguous(log) && FirstIndex(log) == 0 && 1 <= p < q < |log|
    requires log[p].kind == Command && log[q].kind == Command
    requires decode(log[p].command).Some? && decode(log[q].command) == decode(log[p].command)
    requires AllApply(Empty(), decode, log[1..q]) && ApplyAll(Empty(), decode, log[1..q]).machine.lastApplied == q - 1
    ensures var before := ApplyAll(Empty(), decode, log[1..q]).machine;
            ApplyAll(Empty(), decode, log[1..q + 1]).machine == before.(lastApplied := q)
  {
    hide ApplyAll, Apply;
    assert log[1..q][p - 1] == log[p] && log[1..q + 1] == log[1..q] + [log[q]];
    ReappendingChangesNothing(Empty(), decode, log[1..q], p - 1, log[q]);
    ApplyAllJoin(Empty(), decode, log[1..q], [log[q]]);
    ApplyOne(ApplyAll(Empty(), decode, log[1..q]).machine, decode, log[q]);
  }

  /** What is applied up to an index is applied up to every index below. */
  lemma ReachedBelow(decode: Decoder, log: seq<LogEntry>, top: nat, q: nat)
    requires Contiguous(log) && FirstIndex(log) == 0 && q <= top < |log| && AllApply(Empty(), decode, log[1..top + 1])
    ensures AllApply(Empty(), decode, log[1..q + 1])
    ensures ApplyAll(Empty(), decode, log[1..q + 1]).machine.lastApplied == q
  {
    hide ApplyAll;
    assert log[1..top + 1] == log[1..q + 1] + log[q + 1..top + 1];
    ApplyAllJoin(Empty(), decode, log[1..q + 1], log[q + 1..top + 1]);
    AppliedCount(decode, log, q);
  }

  lemma {:induction false} AppliedCount(decode: Decoder, log: seq<LogEntry>, q: nat)
    requires Contiguous(log) && FirstIndex(log) == 0 && q < |log| && AllApply(Empty(), decode, log[1..q + 1])
    ensures ApplyAll(Empty(), decode, log[1..q + 1]).machine.lastApplied == q
  {
    hide ApplyAll, Apply;
    if q == 0 {
      assert log[1..1] == [];
      ApplyNothing(Empty(), decode);
    } else {
      assert log[1..q + 1] == log[1..q] + [log[q]];
      var before := ApplyAll(Empty(), decode, log[1..q]);
      ApplyAllJoin(Empty(), decode, log[1..q], [log[q]]);
      ApplyOne(before.machine, decode, log[q]);
      var outcome := Apply(before.machine, decode, log[q]).1;
      assert (before.outcomes + [outcome])[|before.outcomes|] == outcome;
      AppliedCount(decode, log, q - 1);
      AppliedMoves(before.machine, decode, log[q]);
    }
  }

  /** The node that applied the retry has the first entry at the same index, whoever committed it. */
  lemma SameFirst(rule: Rule, xs: seq<System>, a: nat, i: NodeId, p: nat, b: nat, j: NodeId, q: nat)
    requires ReadRun(rule, xs) && Retried(xs, a, i, p, b, j, q)
    ensures p < |NodeAt(xs, b, j).log| && NodeAt(xs, b, j).log[p] == NodeAt(xs, a, i).log[p]
  {
    hide ReadRun, MachineOk;
    MachineBound(rule, xs, b, j);
    ClustersRun(rule, xs);
    StateMachineSafety(Clusters(xs), a, b, i, j, p);
    assert NodeAt(xs, a, i).log[..p + 1][p] == NodeAt(xs, b, j).log[..p + 1][p];
  }

  lemma MachineBound(rule: Rule, xs: seq<System>, b: nat, j: NodeId)
    requires ReadRun(rule, xs) && Hosts(xs, b, j)
    ensures MachineAt(xs, b, j).lastApplied <= NodeAt(xs, b, j).commit
  {
    hide ReadRun;
    MachinesReflectLogs(rule, xs, b, j);
  }

  /** Exactly once, in every run: an entry that decodes to a command committed before it, by whatever
      node, only moves the last applied index. Every machine that has applied it is what the entries
      before it and behind it make. */
  lemma RetriesChangeNothing(rule: Rule, xs: seq<System>, a: nat, i: NodeId, p: nat, b: nat, j: NodeId, q: nat)
    requires ReadRun(rule, xs) && Retried(xs, a, i, p, b, j, q)
    ensures var log, m, decode := NodeAt(xs, b, j).log, MachineAt(xs, b, j), xs[0].decode;
            var before := ApplyAll(Empty(), decode, log[1..q]).machine;
            && m.lastApplied < |log| && before.lastApplied == q - 1
            && m == ApplyAll(before.(lastApplied := q), decode, log[q + 1..m.lastApplied + 1]).machine
  {
    hide ReadRun, ApplyAll, Stopped;
    var log, top := NodeAt(xs, b, j).log, MachineAt(xs, b, j).lastApplied;
    SameFirst(rule, xs, a, i, p, b, j, q);
    MachinesReflectLogs(rule, xs, b, j);
    ReachedBelow(xs[0].decode, log, top, q - 1);
    RetryInLog(xs[0].decode, log, p, q);
    assert log[1..top + 1] == log[1..q + 1] + log[q + 1..top + 1];
    ApplyAllJoin(Empty(), xs[0].decode, log[1..q + 1], log[q + 1..top + 1]);
  }

  /** So any machine that has applied up to the retry has the map and the sessions of any machine that
      has applied up to just before it. */
  lemma RetriesAreInvisible(rule: Rule, xs: seq<System>, a: nat, i: NodeId, p: nat, b: nat, j: NodeId, q: nat,
                            c: nat, u: NodeId, d: nat, v: NodeId)
    requires ReadRun(rule, xs) && Retried(xs, a, i, p, b, j, q) && Hosts(xs, c, u) && Hosts(xs, d, v)
    requires MachineAt(xs, c, u).lastApplied == q - 1 && MachineAt(xs, d, v).lastApplied == q
    ensures MachineAt(xs, d, v) == MachineAt(xs, c, u).(lastApplied := q)
  {
    hide ReadRun, ApplyAll, MachineOk;
    SameFirst(rule, xs, a, i, p, b, j, q);
    ReachedInRun(rule, xs, b, j, q - 1, c, u);
    ReachedInRun(rule, xs, b, j, q, d, v);
    RetryInLog(xs[0].decode, NodeAt(xs, b, j).log, p, q);
  }

  /** Whoever has applied q entries has the machine that any log with those entries applied makes. */
  lemma ReachedInRun(rule: Rule, xs: seq<System>, b: nat, j: NodeId, q: nat, d: nat, v: NodeId)
    requires ReadRun(rule, xs) && Hosts(xs, b, j) && Hosts(xs, d, v)
    requires q <= MachineAt(xs, b, j).lastApplied && MachineAt(xs, d, v).lastApplied == q
    ensures var log := NodeAt(xs, b, j).log;
            && Contiguous(log) && FirstIndex(log) == 0 && q < |log|
            && MachineAt(xs, d, v) == ApplyAll(Empty(), xs[0].decode, log[1..q + 1]).machine
            && AllApply(Empty(), xs[0].decode, log[1..q + 1])
  {
    hide ReadRun, ApplyAll, Stopped;
    MachinesReflectLogs(rule, xs, b, j);
    MachinesReflectLogs(rule, xs, d, v);
    ClustersRun(rule, xs);
    var log, log' := NodeAt(xs, b, j).log, NodeAt(xs, d, v).log;
    StateMachineSafety(Clusters(xs), b, d, j, v, q);
    assert log[1..q + 1] == log[..q + 1][1..] == log'[..q + 1][1..] == log'[1..q + 1];
  }

  // ---------------------------------------------------------------- answers

  /** Whatever makes a run linearizable makes its answers current. */
  lemma AnswersAreCurrent(rule: Rule, xs: seq<System>)
    requires ReadRun(rule, xs) && Linearizable(xs)
    ensures AnswersCurrent(xs)
  {
    hide ReadRun, Sweeps, Current, Linearizable;
    forall k: nat, i, order, expired, answers, a
      {:trigger Sweeps(xs[k], xs[k + 1], i, order, expired, answers), a in answers} |
      k + 1 < |xs| && Sweeps(xs[k], xs[k + 1], i, order, expired, answers) && a in answers && FromStore(a)
      ensures exists context: nat :: Current(xs, k, i, context, a)
    {
      var context := AnswerIsCurrent(rule, xs, k, i, order, expired, answers, a);
    }
  }

  lemma AnswerIsCurrent(rule: Rule, xs: seq<System>, k: nat, i: NodeId, order: seq<nat>, expired: set<nat>,
                        answers: seq<Answer>, a: Answer)
    returns (context: nat)
    requires ReadRun(rule, xs) && Linearizable(xs) && k + 1 < |xs|
    requires Sweeps(xs[k], xs[k + 1], i, order, expired, answers) && a in answers && FromStore(a)
    ensures Current(xs, k, i, context, a)
  {
    hide ReadRun, UpToDateSince, Completes, SweepAnswers, Stopped, ApplyAll;
    context := StoreAnswersAre(xs[k].services[i], order, NodeAt(xs, k, i), MachineAt(xs, k, i), expired, a);
    assert Waiting(xs, k, i, context) && MayAnswer(xs, k, i, context);
    MachinesReflectLogs(rule, xs, k, i);
    StaffedThroughout(rule, xs, k);
  }
  /** Such an answer is the key's last write: it tells the value of the last put of the key in the prefix read,
      repeated requests not counted, unless a delete came behind it or there was none. */
  lemma AnswerIsLastWrite(rule: Rule, xs: seq<System>, k: nat, i: NodeId, context: nat, a: Answer)
    requires ReadRun(rule, xs) && Current(xs, k, i, context, a)
    ensures var decode, entries := xs[k].decode, NodeAt(xs, k, i).log[1..MachineAt(xs, k, i).lastApplied + 1];
            && (a.outcome.Found? <==> exists j: nat :: Decides(decode, entries, j, a.request.key) &&
                                        CommandOf(decode, entries[j]).value.Put?)
            && (a.outcome.Found? || a.outcome.NotFound?)
            && forall j: nat :: Decides(decode, entries, j, a.request.key) &&
                                CommandOf(decode, entries[j]).value.Put? ==>
                 a.outcome == Found(CommandOf(decode, entries[j]).value.value)
  {
    hide ReadRun, UpToDateSince, Stopped, ApplyAll, Decides;
    MachinesReflectLogs(rule, xs, k, i);
    StaffedThroughout(rule, xs, k);
    var entries := NodeAt(xs, k, i).log[1..MachineAt(xs, k, i).lastApplied + 1];
    StoreIsLastWrite(xs[k].decode, entries, a.request.key);
  }
}
