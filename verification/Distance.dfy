/** Hop distance in a finite graph given by its adjacency sets, and the queue discipline that
    makes a first-in first-out walk visit events in order of distance. */
module Distance {
  import opened Basics

  type Graph = seq<set<nat>>

  datatype Node = Node(pos: nat, depth: nat)

  predicate IsGraph(g: Graph) {
    forall u, v | 0 <= u < |g| && v in g[u] :: v < |g|
  }

  ghost predicate IsPath(g: Graph, p: seq<nat>) {
    && p != []
    && (forall i | 0 <= i < |p| :: p[i] < |g|)
    && (forall i | 0 < i < |p| :: p[i] in g[p[i - 1]])
  }

  ghost predicate PathTo(g: Graph, root: nat, v: nat, p: seq<nat>) {
    IsPath(g, p) && p[0] == root && p[|p| - 1] == v
  }

  ghost predicate Follows(g: Graph, s: set<nat>, v: nat) {
    exists u :: u in s && u < |g| && v in g[u]
  }

  /** The vertices at most `n` hops from the root. */
  ghost function Within(g: Graph, root: nat, n: nat): (s: set<nat>)
    requires root < |g|
    ensures forall v | v in s :: v < |g|
  {
    if n == 0 then {root} else
      var s := Within(g, root, n - 1);
      s + set v | 0 <= v < |g| && Follows(g, s, v)
  }

  ghost predicate AtDistance(g: Graph, root: nat, v: nat, d: nat)
    requires root < |g|
  {
    v in Within(g, root, d) && (d > 0 ==> v !in Within(g, root, d - 1))
  }

  lemma WithinMonotone(g: Graph, root: nat, m: nat, n: nat)
    requires root < |g| && m <= n
    ensures Within(g, root, m) <= Within(g, root, n)
    decreases n
  {
    if m < n { WithinMonotone(g, root, m, n - 1); }
  }

  lemma WithinStep(g: Graph, root: nat, u: nat, v: nat, n: nat)
    requires IsGraph(g) && root < |g| && u in Within(g, root, n) && v in g[u]
    ensures v in Within(g, root, n + 1)
  {
    assert Follows(g, Within(g, root, n), v);
  }

  lemma PathIsWithin(g: Graph, root: nat, v: nat, p: seq<nat>)
    requires IsGraph(g) && root < |g| && PathTo(g, root, v, p)
    ensures v in Within(g, root, |p| - 1)
    decreases |p|
  {
    if |p| > 1 {
      var q := p[..|p| - 1];
      PathIsWithin(g, root, q[|q| - 1], q);
      WithinStep(g, root, q[|q| - 1], v, |q| - 1);
    }
  }

  lemma WithinHasPath(g: Graph, root: nat, v: nat, n: nat) returns (p: seq<nat>)
    requires root < |g| && v in Within(g, root, n)
    ensures PathTo(g, root, v, p) && |p| <= n + 1
    decreases n
  {
    if n == 0 {
      p := [root];
    } else if v in Within(g, root, n - 1) {
      p := WithinHasPath(g, root, v, n - 1);
    } else {
      var u :| u in Within(g, root, n - 1) && v in g[u];
      var q := WithinHasPath(g, root, u, n - 1);
      p := q + [v];
    }
  }

  /** Distance by layers is distance by shortest path. */
  lemma {:induction false} DistanceIsShortestPath(g: Graph, root: nat, v: nat, d: nat)
    requires IsGraph(g) && root < |g|
    ensures AtDistance(g, root, v, d) <==>
              && (exists p :: PathTo(g, root, v, p) && |p| == d + 1)
              && (forall p | PathTo(g, root, v, p) :: |p| >= d + 1)
  {
    if AtDistance(g, root, v, d) {
      forall p | PathTo(g, root, v, p) ensures |p| >= d + 1 {
        if |p| <= d {
          PathIsWithin(g, root, v, p);
          WithinMonotone(g, root, |p| - 1, d - 1);
        }
      }
      var p := WithinHasPath(g, root, v, d);
      assert |p| == d + 1;
    }
    if p :| PathTo(g, root, v, p) && |p| == d + 1 {
      PathIsWithin(g, root, v, p);
      if d > 0 && v in Within(g, root, d - 1) {
        var q := WithinHasPath(g, root, v, d - 1);
        assert PathTo(g, root, v, q) && |q| < d + 1;
      }
    }
  }

  // ----------------------------------------------------------- the queue

  ghost predicate Exact(g: Graph, root: nat, nodes: map<nat, nat>)
    requires root < |g|
  {
    forall v {:trigger v in nodes} | v in nodes :: AtDistance(g, root, v, nodes[v])
  }

  /** The queue holds reachable vertices in order of depth, at most one layer apart. */
  ghost predicate Layered(g: Graph, root: nat, queue: seq<Node>, limit: nat)
    requires root < |g|
  {
    && (forall n | n in queue :: n.depth <= limit && n.pos in Within(g, root, n.depth))
    && (forall i, j | 0 <= i < j < |queue| :: queue[i].depth <= queue[j].depth <= queue[i].depth + 1)
  }

  /** Whatever an expanded node leads to is a node or waits in the queue one layer further. */
  ghost predicate Pending(g: Graph, root: nat, nodes: map<nat, nat>, queue: seq<Node>, depth: int) {
    && (root in nodes || Node(root, 0) in queue)
    && (forall u, v {:trigger u in nodes, v in g[u]} | u in nodes && u < |g| && nodes[u] < depth && v in g[u] ::
          v in nodes || Node(v, nodes[u] + 1) in queue)
  }

  function Limit(depth: int): nat {
    if depth < 0 then 0 else depth
  }

  /** A vertex first reached at layer `k` is one hop past layer `k - 1`. */
  lemma LastHop(g: Graph, root: nat, v: nat, k: nat) returns (u: nat)
    requires root < |g| && k > 0 && v in Within(g, root, k) && v !in Within(g, root, k - 1)
    ensures u in Within(g, root, k - 1) && u < |g| && v in g[u]
  {
    u :| u in Within(g, root, k - 1) && u < |g| && v in g[u];
  }

  lemma DistanceAtMost(g: Graph, root: nat, v: nat, d: nat, k: nat)
    requires root < |g| && AtDistance(g, root, v, d) && v in Within(g, root, k)
    ensures d <= k
  {
    if d > k { WithinMonotone(g, root, k, d - 1); }
  }

  /** A successor of a node of an earlier layer is a node, or still waits nearer than the queue allows. */
  lemma NextLayer(
    g: Graph, root: nat, nodes: map<nat, nat>, queue: seq<Node>, depth: int, k: nat, u: nat, v: nat)
    requires root < |g| && Exact(g, root, nodes) && Pending(g, root, nodes, queue, depth)
    requires 0 < k <= Limit(depth) && forall n | n in queue :: k < n.depth
    requires u in nodes && u in Within(g, root, k - 1) && u < |g| && v in g[u] && v < |g|
    ensures v in nodes
  {
    DistanceAtMost(g, root, u, nodes[u], k - 1);
    var n := Node(v, nodes[u] + 1);
    assert v in nodes || n in queue;
  }

  /** Once every queued entry lies beyond layer `k`, layer `k` is among the nodes. */
  lemma {:induction false} LayersComplete(
    g: Graph, root: nat, nodes: map<nat, nat>, queue: seq<Node>, depth: int, k: nat, v: nat)
    requires root < |g| && Exact(g, root, nodes)
    requires Pending(g, root, nodes, queue, depth)
    requires k <= Limit(depth) && forall n | n in queue :: k < n.depth
    requires v in Within(g, root, k)
    ensures v in nodes
    decreases k
  {
    if k > 0 {
      if v in Within(g, root, k - 1) {
        LayersComplete(g, root, nodes, queue, depth, k - 1, v);
      } else {
        var u := LastHop(g, root, v, k);
        LayersComplete(g, root, nodes, queue, depth, k - 1, u);
        NextLayer(g, root, nodes, queue, depth, k, u, v);
      }
    }
  }

  lemma QueuedIsReachable(g: Graph, root: nat, v: nat, d: nat, n: Node)
    requires IsGraph(g) && root < |g| && v in Within(g, root, d)
    requires n.depth == d + 1 && n.pos in g[v]
    ensures n.pos in Within(g, root, n.depth)
  {
    WithinStep(g, root, v, n.pos, d);
  }

  /** The queue invariant survives taking the first entry and queueing its successors. */
  lemma QueueGrows(g: Graph, root: nat, v: nat, d: nat, rest: seq<Node>, added: seq<Node>, limit: nat)
    requires IsGraph(g) && root < |g|
    requires d < limit || added == []
    requires Layered(g, root, [Node(v, d)] + rest, limit)
    requires forall n | n in added :: n.depth == d + 1 && n.pos in g[v]
    ensures Layered(g, root, rest + added, limit)
    ensures forall n | n in rest + added :: d <= n.depth
  {
    var before := [Node(v, d)] + rest;
    assert before[0] in before;
    assert forall i | 0 <= i < |rest| :: rest[i] == before[i + 1];
    assert forall n | n in rest :: n in before && d <= n.depth <= d + 1;
    forall n | n in added ensures n.pos in Within(g, root, n.depth) {
      QueuedIsReachable(g, root, v, d, n);
    }
  }

  lemma StillPending(
    g: Graph, root: nat, nodes: map<nat, nat>, v: nat, d: nat, rest: seq<Node>, added: seq<Node>, depth: int)
    requires Pending(g, root, nodes, [Node(v, d)] + rest, depth) && v !in nodes && v < |g|
    requires d < depth ==> forall p | p in g[v] :: Node(p, d + 1) in added
    ensures Pending(g, root, nodes[v := d], rest + added, depth)
  {
  }

  function Smaller(a: int, b: int): int {
    if a <= b then a else b
  }

  ghost predicate NothingNearerMissing(g: Graph, root: nat, nodes: map<nat, nat>)
    requires root < |g|
  {
    forall u {:trigger u in nodes} | u in nodes && nodes[u] > 0 :: Within(g, root, nodes[u] - 1) <= nodes.Keys
  }

  /** What holds at the head of the walk's loop. */
  ghost predicate Walking(g: Graph, root: nat, nodes: map<nat, nat>, queue: seq<Node>, depth: int)
    requires root < |g|
  {
    && Exact(g, root, nodes) && (forall u {:trigger u in nodes} | u in nodes :: nodes[u] <= Limit(depth))
    && Layered(g, root, queue, Limit(depth))
    && Pending(g, root, nodes, queue, depth)
    && (forall u, n {:trigger u in nodes, n in queue} | u in nodes && n in queue :: nodes[u] <= n.depth)
  }

  /** A second arrival at a node is dropped, and never lowers its depth: the source's `min` is idle. */
  lemma SecondArrival(g: Graph, root: nat, nodes: map<nat, nat>, queue: seq<Node>, depth: int)
    requires root < |g| && Walking(g, root, nodes, queue, depth)
    requires queue != [] && queue[0].pos in nodes
    ensures nodes[queue[0].pos] <= queue[0].depth
    ensures Walking(g, root, nodes, queue[1..], depth)
  {
    assert queue == [queue[0]] + queue[1..];
    assert queue[0] in queue;
    DistanceAtMost(g, root, queue[0].pos, nodes[queue[0].pos], queue[0].depth);
  }

  lemma FirstArrivalIsExact(g: Graph, root: nat, nodes: map<nat, nat>, queue: seq<Node>, depth: int)
    requires root < |g| && Walking(g, root, nodes, queue, depth)
    requires queue != [] && queue[0].pos !in nodes
    ensures AtDistance(g, root, queue[0].pos, queue[0].depth)
  {
    assert queue[0] in queue;
    var Node(v, d) := queue[0];
    if d > 0 && v in Within(g, root, d - 1) {
      forall n | n in queue ensures d - 1 < n.depth { }
      LayersComplete(g, root, nodes, queue, depth, d - 1, v);
    }
  }

  /** A node no nearer than the others and no further than the queue joins them. */
  lemma WalkGoesOn(g: Graph, root: nat, nodes: map<nat, nat>, v: nat, d: nat, queue: seq<Node>, depth: int)
    requires root < |g| && Exact(g, root, nodes) && AtDistance(g, root, v, d) && d <= Limit(depth)
    requires forall u {:trigger u in nodes} | u in nodes :: nodes[u] <= d
    requires Layered(g, root, queue, Limit(depth)) && Pending(g, root, nodes[v := d], queue, depth)
    requires forall n | n in queue :: d <= n.depth
    ensures Walking(g, root, nodes[v := d], queue, depth)
  {
  }

  lemma FirstArrival(
    g: Graph, root: nat, nodes: map<nat, nat>, queue: seq<Node>, depth: int, added: seq<Node>)
    requires IsGraph(g) && root < |g| && Walking(g, root, nodes, queue, depth)
    requires queue != [] && queue[0].pos !in nodes && queue[0].pos < |g|
    requires queue[0].depth >= depth ==> added == []
    requires forall n | n in added :: n.depth == queue[0].depth + 1 && n.pos in g[queue[0].pos]
    requires queue[0].depth < depth ==> forall p | p in g[queue[0].pos] :: Node(p, queue[0].depth + 1) in added
    ensures Walking(g, root, nodes[queue[0].pos := queue[0].depth], queue[1..] + added, depth)
  {
    var Node(v, d) := queue[0];
    assert queue == [Node(v, d)] + queue[1..];
    assert queue[0] in queue;
    FirstArrivalIsExact(g, root, nodes, queue, depth);
    StillPending(g, root, nodes, v, d, queue[1..], added, depth);
    QueueGrows(g, root, v, d, queue[1..], added, Limit(depth));
    WalkGoesOn(g, root, nodes, v, d, queue[1..] + added, depth);
  }

  lemma NodesAreWithin(g: Graph, root: nat, nodes: map<nat, nat>, limit: nat)
    requires root < |g| && Exact(g, root, nodes)
    requires forall u {:trigger u in nodes} | u in nodes :: nodes[u] <= limit
    ensures nodes.Keys <= Within(g, root, limit)
  {
    forall u | u in nodes ensures u in Within(g, root, limit) {
      WithinMonotone(g, root, nodes[u], limit);
    }
  }

  lemma EmptyQueueIsWhole(g: Graph, root: nat, nodes: map<nat, nat>, depth: int)
    requires root < |g| && Exact(g, root, nodes) && Pending(g, root, nodes, [], depth)
    ensures Within(g, root, Limit(depth)) <= nodes.Keys
  {
    forall v | v in Within(g, root, Limit(depth)) ensures v in nodes {
      LayersComplete(g, root, nodes, [], depth, Limit(depth), v);
    }
  }

  lemma NearerIsListed(g: Graph, root: nat, nodes: map<nat, nat>, queue: seq<Node>, depth: int, u: nat)
    requires root < |g| && Exact(g, root, nodes) && Pending(g, root, nodes, queue, depth)
    requires u in nodes && 0 < nodes[u] <= Limit(depth) && forall n | n in queue :: nodes[u] <= n.depth
    ensures Within(g, root, nodes[u] - 1) <= nodes.Keys
  {
    forall v | v in Within(g, root, nodes[u] - 1) ensures v in nodes {
      LayersComplete(g, root, nodes, queue, depth, nodes[u] - 1, v);
    }
  }

  /** On exit the queue is empty and the walk is whole, or the cap was reached in mid-layer. */
  lemma WholeOrCapped(
    g: Graph, root: nat, nodes: map<nat, nat>, queue: seq<Node>, depth: int, maxNodes: int)
    requires root < |g| && Walking(g, root, nodes, queue, depth)
    requires |nodes| <= Limit(maxNodes) && (queue == [] || |nodes| >= maxNodes)
    ensures nodes.Keys <= Within(g, root, Limit(depth))
    ensures |nodes| == Smaller(|Within(g, root, Limit(depth))|, Limit(maxNodes))
    ensures NothingNearerMissing(g, root, nodes)
  {
    NodesAreWithin(g, root, nodes, Limit(depth));
    SubsetSize(nodes.Keys, Within(g, root, Limit(depth)));
    if queue == [] {
      EmptyQueueIsWhole(g, root, nodes, depth);
      SubsetSize(Within(g, root, Limit(depth)), nodes.Keys);
    }
    forall u | u in nodes && nodes[u] > 0 ensures Within(g, root, nodes[u] - 1) <= nodes.Keys {
      NearerIsListed(g, root, nodes, queue, depth, u);
    }
  }
}
