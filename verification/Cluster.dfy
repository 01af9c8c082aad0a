/** The cluster as deployed: handlers over disks, crashes before, after or between the saves of any
    handler, and restarts from the last image. There is no history here.

    Every run of this system is followed by a run of the protocol, which is where the proofs are;
    the theorems themselves speak of this system alone. */
module Cluster {
  import opened RaftTypes
  import opened LogSpec
  import opened NodeSpec
  import opened Quorum
  import opened Protocol

  datatype Server = Server(node: NodeState, disk: Option<Image>)

  datatype Cluster = Cluster(servers: map<NodeId, Server>, net: set<Message>)

  ghost predicate Init(c: Cluster) {
    && c.net == {}
    && forall i :: i in c.servers ==>
         var n := c.servers[i].node;
         && n == Fresh(i, n.peers, n.batch) && c.servers[i].disk == None && n.batch >= 1
         && Elements(n.peers) == c.servers.Keys - {i} && |n.peers| + 1 == |c.servers|
  }

  /** Which events the environment may offer to node i. */
  predicate Offered(c: Cluster, i: NodeId, event: Event) {
    && i in c.servers && Contiguous(c.servers[i].node.log)
    && (event.Deliver? ==> Message(event.source, i, event.payload) in c.net)
    && (event.Client? ==> event.command != [])
  }

  function Handled(c: Cluster, i: NodeId, event: Event): Cluster
    requires Offered(c, i, event)
  {
    var server := c.servers[i];
    var done := React(server.node, event);
    Cluster(c.servers[i := Server(done.node, DiskAfter(server.disk, done.saves))],
            c.net + From(i, done.reply))
  }

  /** The disk if the process dies after the first k saves of a handler. */
  function DiskAtCrash(server: Server, event: Event, k: nat): Option<Image>
    requires Contiguous(server.node.log) && k <= |React(server.node, event).saves|
  {
    DiskAfter(server.disk, React(server.node, event).saves[..k])
  }

  /** Node i dies inside the handler of `event`, after k saves and before any RPC leaves, and
      comes back; a start the constructor refuses is no step at all. */
  ghost predicate Crashed(c: Cluster, c': Cluster, i: NodeId, event: Event, k: nat) {
    && Offered(c, i, event)
    && var server := c.servers[i];
       && k <= |React(server.node, event).saves|
       && var disk := DiskAtCrash(server, event, k);
          var again := Restart(disk, server.node.self, server.node.peers, server.node.batch);
          again.Some? && c' == Cluster(c.servers[i := Server(again.value, disk)], c.net)
  }

  /** Nothing, a handler, or a crash. */
  ghost predicate Step(c: Cluster, c': Cluster) {
    || c' == c
    || (exists i, event :: Offered(c, i, event) && c' == Handled(c, i, event))
    || (exists i, event, k: nat :: Crashed(c, c', i, event, k))
  }

  ghost predicate Run(cs: seq<Cluster>) {
    && |cs| > 0 && Init(cs[0])
    && forall k :: 0 <= k < |cs| - 1 ==> Step(cs[k], cs[k + 1])
  }
}
