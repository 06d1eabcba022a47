/** The bounded provenance walk (monitor.py, monitor_provenance): a first-in first-out walk
    from one event through the events it cites, with a depth cap and a node cap. */
module Provenance {
  import opened EventLog
  import opened Distance
  import opened Basics
  import opened Sorting

  datatype LinkKind = CausedBy | RelatedTo | RecalledFrom

  datatype Edge = Edge(from: nat, to: nat, kind: LinkKind)

  datatype Answer = UnknownEvent | Chain(nodes: seq<Node>, edges: seq<Edge>)

  function Tagged(kind: LinkKind, refs: seq<Ref>): seq<(LinkKind, Ref)> {
    if refs == [] then [] else [(kind, refs[0])] + Tagged(kind, refs[1..])
  }

  /** What the walk follows out of one event, in the order it follows it. */
  function Upstream(e: Event): seq<(LinkKind, Ref)> {
    Tagged(CausedBy, e.causedBy) + Tagged(RelatedTo, e.relatedTo) + Tagged(RecalledFrom, e.recalled)
  }

  predicate IsEdge(log: Log, e: Edge) {
    e.from < |log| && e.to < |log| && (e.kind, Evt(e.to)) in Upstream(log[e.from])
  }

  /** The existing events that event `u` cites in any of the three ways. */
  ghost function Parents(log: Log, u: nat): set<nat>
    requires u < |log|
  {
    set v | 0 <= v < |log| && CitedBy(log, u, v)
  }

  ghost predicate CitedBy(log: Log, u: nat, v: nat) {
    exists kind :: IsEdge(log, Edge(u, v, kind))
  }

  ghost function Citations(log: Log): (g: Graph)
    ensures |g| == |log| && IsGraph(g)
    ensures forall u | 0 <= u < |log| :: g[u] == Parents(log, u)
  {
    seq(|log|, u requires 0 <= u < |log| => Parents(log, u))
  }

  lemma {:induction false} TaggedHolds(kind: LinkKind, refs: seq<Ref>, k: LinkKind, r: Ref)
    ensures (k, r) in Tagged(kind, refs) <==> k == kind && r in refs
  {
    if refs != [] {
      assert refs == [refs[0]] + refs[1..];
      TaggedHolds(kind, refs[1..], k, r);
    }
  }

  /** The edges are the citations an event makes in its own fields: what caused it, what it relates to, and what it
      recalled, as far as the log has them. */
  lemma EdgesAreCitations(log: Log, e: Edge)
    ensures IsEdge(log, e) <==>
              && e.from < |log| && e.to < |log|
              && Evt(e.to) in (match e.kind
                               case CausedBy => log[e.from].causedBy
                               case RelatedTo => log[e.from].relatedTo
                               case RecalledFrom => log[e.from].recalled)
  {
    if e.from < |log| {
      var u := log[e.from];
      TaggedHolds(CausedBy, u.causedBy, e.kind, Evt(e.to));
      TaggedHolds(RelatedTo, u.relatedTo, e.kind, Evt(e.to));
      TaggedHolds(RecalledFrom, u.recalled, e.kind, Evt(e.to));
    }
  }

  /** So the graph that is walked leads from an event to all it names in the three fields. */
  lemma CitationsAreFields(log: Log, u: nat, v: nat)
    requires u < |log| && v < |log|
    ensures v in Citations(log)[u]
            <==> Evt(v) in log[u].causedBy || Evt(v) in log[u].relatedTo || Evt(v) in log[u].recalled
  {
    EdgesAreCitations(log, Edge(u, v, CausedBy));
    EdgesAreCitations(log, Edge(u, v, RelatedTo));
    EdgesAreCitations(log, Edge(u, v, RecalledFrom));
    assert v in Citations(log)[u] <==> CitedBy(log, u, v);
    if CitedBy(log, u, v) {
      var kind :| IsEdge(log, Edge(u, v, kind));
      assert kind == CausedBy || kind == RelatedTo || kind == RecalledFrom;
    }
  }

  // -------------------------------------------------------------- the walk

  /** Every citation of an expanded node is recorded, once, and nothing else is. */
  ghost predicate EdgesOf(log: Log, edges: seq<Edge>, nodes: map<nat, nat>, depth: int) {
    && Distinct(edges)
    && (forall e: Edge :: e in edges <==> IsEdge(log, e) && e.from in nodes && nodes[e.from] < depth)
  }

  /** The inner loop: queue the parents of `v` and record each citation once. */
  method Expand(log: Log, v: nat, d: nat, edges: seq<Edge>, seen: set<Edge>)
    returns (added: seq<Node>, edges': seq<Edge>, seen': set<Edge>)
    requires v < |log|
    requires (forall e :: e in seen <==> e in edges) && Distinct(edges)
    ensures forall n | n in added :: n.depth == d + 1 && n.pos in Citations(log)[v]
    ensures forall p | p in Citations(log)[v] :: Node(p, d + 1) in added
    ensures (forall e :: e in seen' <==> e in edges') && Distinct(edges')
    ensures forall e: Edge :: e in edges' <==> e in edges || (e.from == v && IsEdge(log, e))
  {
    added, edges', seen' := [], edges, seen;
    var up := Upstream(log[v]);
    for i := 0 to |up|
      invariant forall n | n in added :: n.depth == d + 1 && n.pos in Parents(log, v)
      invariant forall j | 0 <= j < i :: Resolves(log, up[j].1) ==> Node(up[j].1.pos, d + 1) in added
      invariant (forall e :: e in seen' <==> e in edges') && Distinct(edges')
      invariant forall e: Edge :: e in edges' ==> e in edges || (e.from == v && IsEdge(log, e))
      invariant forall e: Edge :: e in edges ==> e in edges'
      invariant forall j | 0 <= j < i :: Resolves(log, up[j].1) ==> Edge(v, up[j].1.pos, up[j].0) in edges'
    {
      var (kind, rid) := up[i];
      if Resolves(log, rid) {
        var edge := Edge(v, rid.pos, kind);
        assert up[i] == (edge.kind, Evt(edge.to));
        assert IsEdge(log, edge);
        if edge !in seen' {
          seen' := seen' + {edge};
          edges' := edges' + [edge];
        }
        added := added + [Node(rid.pos, d + 1)];
      }
    }
    forall p | p in Parents(log, v) ensures Node(p, d + 1) in added {
      var kind :| IsEdge(log, Edge(v, p, kind));
      var j :| 0 <= j < |up| && up[j] == (kind, Evt(p));
    }
    forall e: Edge | e.from == v && IsEdge(log, e) ensures e in edges' {
      var j :| 0 <= j < |up| && up[j] == (e.kind, Evt(e.to));
    }
  }

  lemma EdgesGrow(
    log: Log, edges: seq<Edge>, edges': seq<Edge>, nodes: map<nat, nat>, v: nat, d: nat, depth: int)
    requires EdgesOf(log, edges, nodes, depth) && v !in nodes && Distinct(edges')
    requires if d < depth then forall e: Edge :: e in edges' <==> e in edges || (e.from == v && IsEdge(log, e))
             else edges' == edges
    ensures EdgesOf(log, edges', nodes[v := d], depth)
  {
  }

  /** A first arrival becomes a node and, above the depth cap, is expanded. */
  method Discover(
    log: Log, root: nat, depth: int, nodes: map<nat, nat>, frontier: seq<Node>, edges: seq<Edge>, seen: set<Edge>)
    returns (frontier': seq<Node>, edges': seq<Edge>, seen': set<Edge>)
    requires root < |log| && Walking(Citations(log), root, nodes, frontier, depth)
    requires frontier != [] && frontier[0].pos !in nodes
    requires EdgesOf(log, edges, nodes, depth) && forall e :: e in seen <==> e in edges
    ensures Walking(Citations(log), root, nodes[frontier[0].pos := frontier[0].depth], frontier', depth)
    ensures EdgesOf(log, edges', nodes[frontier[0].pos := frontier[0].depth], depth)
    ensures forall e :: e in seen' <==> e in edges'
  {
    var Node(v, d) := frontier[0];
    FirstArrivalIsExact(Citations(log), root, nodes, frontier, depth);
    if d < depth {
      var added;
      added, edges', seen' := Expand(log, v, d, edges, seen);
      frontier' := frontier[1..] + added;
      FirstArrival(Citations(log), root, nodes, frontier, depth, added);
    } else {
      edges', seen' := edges, seen;
      frontier' := frontier[1..];
      FirstArrival(Citations(log), root, nodes, frontier, depth, []);
      assert frontier[1..] + [] == frontier[1..];
    }
    EdgesGrow(log, edges, edges', nodes, v, d, depth);
  }

  /** One turn of the loop: take the oldest queue entry; a second arrival is dropped. */
  method TakeFirst(
    log: Log, root: nat, depth: int, nodes: map<nat, nat>, frontier: seq<Node>, edges: seq<Edge>, seen: set<Edge>)
    returns (nodes': map<nat, nat>, frontier': seq<Node>, edges': seq<Edge>, seen': set<Edge>)
    requires root < |log| && Walking(Citations(log), root, nodes, frontier, depth) && frontier != []
    requires EdgesOf(log, edges, nodes, depth) && forall e :: e in seen <==> e in edges
    ensures Walking(Citations(log), root, nodes', frontier', depth)
    ensures EdgesOf(log, edges', nodes', depth) && forall e :: e in seen' <==> e in edges'
    ensures |nodes'| == |nodes| + 1 || (|nodes'| == |nodes| && |frontier'| < |frontier|)
  {
    var Node(v, d) := frontier[0];
    if v in nodes {
      SecondArrival(Citations(log), root, nodes, frontier, depth);
      assert nodes == nodes[v := nodes[v]];
      nodes' := nodes[v := if nodes[v] <= d then nodes[v] else d];
      frontier', edges', seen' := frontier[1..], edges, seen;
    } else {
      frontier', edges', seen' := Discover(log, root, depth, nodes, frontier, edges, seen);
      nodes' := nodes[v := d];
      assert nodes'.Keys == nodes.Keys + {v};
    }
  }

  /** The loop of the walk. The number of nodes is the number of events within `depth` hops, or
      the cap if that is smaller. */
  method Walk(log: Log, root: nat, depth: int, maxNodes: int)
    returns (nodes: map<nat, nat>, edges: seq<Edge>)
    requires root < |log|
    ensures Exact(Citations(log), root, nodes)
    ensures nodes.Keys <= Within(Citations(log), root, Limit(depth))
    ensures |nodes| == Smaller(|Within(Citations(log), root, Limit(depth))|, Limit(maxNodes))
    ensures NothingNearerMissing(Citations(log), root, nodes)
    ensures EdgesOf(log, edges, nodes, depth)
  {
    nodes, edges := map[], [];
    var seen: set<Edge> := {};
    var frontier := [Node(root, 0)];
    while frontier != [] && |nodes| < maxNodes
      invariant Walking(Citations(log), root, nodes, frontier, depth)
      invariant |nodes| <= Limit(maxNodes)
      invariant EdgesOf(log, edges, nodes, depth) && forall e :: e in seen <==> e in edges
      decreases Limit(maxNodes) - |nodes|, |frontier|
    {
      nodes, frontier, edges, seen := TakeFirst(log, root, depth, nodes, frontier, edges, seen);
    }
    WholeOrCapped(Citations(log), root, nodes, frontier, depth, maxNodes);
  }

  // ------------------------------------------------------------ the answer

  predicate Before(a: Node, b: Node) {
    a.depth < b.depth || (a.depth == b.depth && a.pos < b.pos)
  }

  /** The nodes of the map, by depth and then by position. */
  method Ordered(nodes: map<nat, nat>) returns (s: seq<Node>)
    ensures |s| == |nodes|
    ensures forall i, j | 0 <= i < j < |s| ::
              s[i].depth < s[j].depth || (s[i].depth == s[j].depth && s[i].pos < s[j].pos)
    ensures forall n: Node :: n in s <==> n.pos in nodes && nodes[n.pos] == n.depth
  {
    s := [];
    var keys := nodes.Keys;
    while keys != {}
      invariant keys <= nodes.Keys && |s| + |keys| == |nodes|
      invariant Sorted(s, Before)
      invariant forall n: Node :: n in s <==> n.pos in nodes && n.pos !in keys && nodes[n.pos] == n.depth
    {
      var k :| k in keys;
      s := Insert(Node(k, nodes[k]), s, Before);
      keys := keys - {k};
    }
  }

  ghost predicate Lists(nodes: seq<Node>, v: nat) {
    exists n :: n in nodes && n.pos == v
  }

  ghost predicate Whole(log: Log, root: nat, depth: int, nodes: seq<Node>)
    requires root < |log|
  {
    forall v :: v in Within(Citations(log), root, Limit(depth)) ==> Lists(nodes, v)
  }

  /** The answer for a known event: exact depths in sorted order; whole exactly when the events
      within `depth` hops fit under the node cap, and then every edge ends in a node; otherwise
      still everything nearer than the deepest returned node. */
  method MonitorProvenance(log: Log, event: Ref, depth: int, maxNodes: int) returns (r: Answer)
    ensures r.UnknownEvent? <==> !Resolves(log, event)
    ensures r.Chain? ==>
              var g := Citations(log);
              && (forall i, j | 0 <= i < j < |r.nodes| ::
                    || r.nodes[i].depth < r.nodes[j].depth
                    || (r.nodes[i].depth == r.nodes[j].depth && r.nodes[i].pos < r.nodes[j].pos))
              && |r.nodes| == Smaller(|Within(g, event.pos, Limit(depth))|, Limit(maxNodes))
              && (forall n | n in r.nodes :: AtDistance(g, event.pos, n.pos, n.depth) && n.depth <= Limit(depth))
              && (Whole(log, event.pos, depth, r.nodes) <==>
                  |Within(g, event.pos, Limit(depth))| <= Limit(maxNodes))
              && (forall n, v | n in r.nodes && n.depth > 0 && AtDistance(g, event.pos, v, n.depth - 1) ::
                    Lists(r.nodes, v))
    ensures r.Chain? ==>
              && Distinct(r.edges)
              && (forall e: Edge :: e in r.edges <==>
                    IsEdge(log, e) && exists n :: n in r.nodes && n.pos == e.from && n.depth < depth)
              && (Whole(log, event.pos, depth, r.nodes) ==> forall e | e in r.edges :: Lists(r.nodes, e.to))
  {
    if !Resolves(log, event) {
      return UnknownEvent;
    }
    var root := event.pos;
    var nodes, edges := Walk(log, root, depth, maxNodes);
    var s := Ordered(nodes);
    r := Chain(s, edges);
    ghost var g := Citations(log);
    ghost var all := Within(g, root, Limit(depth));
    forall v ensures v in nodes <==> Lists(s, v) {
      if v in nodes { assert Node(v, nodes[v]) in s; }
    }
    SubsetSize(nodes.Keys, all);
    DepthsBounded(g, root, nodes, Limit(depth));
    forall e: Edge | e in edges ensures Node(e.from, nodes[e.from]) in s { }
    if nodes.Keys == all {
      forall e: Edge | e in edges ensures e.to in nodes {
        EdgeEndsWithin(log, root, nodes, depth, e);
      }
    }
  }

  lemma DepthsBounded(g: Graph, root: nat, nodes: map<nat, nat>, limit: nat)
    requires root < |g| && Exact(g, root, nodes) && nodes.Keys <= Within(g, root, limit)
    ensures forall u | u in nodes :: nodes[u] <= limit
  {
    forall u | u in nodes ensures nodes[u] <= limit {
      DistanceAtMost(g, root, u, nodes[u], limit);
    }
  }

  lemma EdgeEndsWithin(log: Log, root: nat, nodes: map<nat, nat>, depth: int, e: Edge)
    requires root < |log| && Exact(Citations(log), root, nodes)
    requires IsEdge(log, e) && e.from in nodes && nodes[e.from] < depth
    ensures e.to in Within(Citations(log), root, Limit(depth))
  {
    var g := Citations(log);
    assert AtDistance(g, root, e.from, nodes[e.from]);
    assert e == Edge(e.from, e.to, e.kind);
    assert e.to in Parents(log, e.from);
    WithinStep(g, root, e.from, e.to, nodes[e.from]);
    WithinMonotone(g, root, nodes[e.from] + 1, Limit(depth));
  }
}
