/** The class Graph of congress/datalog/utility.py. */
module Graph {
  import opened Options
  import opened Datalog
  import opened Walks

  /** When the depth-first search came to a node and when it left it. */
  datatype DfsData = DfsData(begin: Option<nat>, end: Option<nat>)

  /** The (node, level) pairs that strata may still rise to: they get fewer with every change. */
  ghost function Room(s: Strata, top: int): set<(Name, int)> {
    set n, k | n in s && 0 <= k <= top && s[n] < k :: (n, k)
  }

  lemma RoomShrinks(s: Strata, s': Strata, top: int, n: Name)
    requires s.Keys == s'.Keys && n in s && 0 <= s[n] < s'[n] <= top
    requires forall m :: m in s ==> s[m] <= s'[m]
    ensures Room(s', top) < Room(s, top)
  {
    assert (n, s'[n]) in Room(s, top) && (n, s'[n]) !in Room(s', top);
  }

  /** Strata on the way up: no higher than any solution, and as high as some walk climbs. */
  ghost predicate Rising<L(!new)>(nodes: set<Name>, edges: Edges<L>, labels: set<Option<L>>, s: Strata) {
    && s.Keys == nodes
    && (forall n :: n in s ==> s[n] >= 1 && Climbs(edges, labels, n, s[n] - 1))
    && (forall t, n :: IsStrata(nodes, edges, labels, t) && n in s ==> s[n] <= t[n])
  }

  /** The edges from a, except those still to be looked at, are respected. */
  ghost predicate RespectsFrom<L(!new)>(edges: Edges<L>, labels: set<Option<L>>, s: Strata, a: Name,
      left: set<Edge<L>>) {
    forall e :: HasEdge(edges, a, e) && e !in left ==> a in s && e.node in s && s[a] >= Cost(e, labels) + s[e.node]
  }

  lemma RespectsAll<L(!new)>(edges: Edges<L>, labels: set<Option<L>>, s: Strata)
    requires forall a :: RespectsFrom(edges, labels, s, a, {})
    ensures Respects(edges, labels, s)
  {
    forall a, e | HasEdge(edges, a, e)
      ensures a in s && e.node in s && s[a] >= Cost(e, labels) + s[e.node]
    {
      assert RespectsFrom(edges, labels, s, a, {});
    }
  }

  lemma RisingStep<L(!new)>(nodes: set<Name>, edges: Edges<L>, labels: set<Option<L>>, s: Strata, a: Name,
      e: Edge<L>, wanted: int)
    requires Rising(nodes, edges, labels, s) && HasEdge(edges, a, e) && a in s && e.node in s
    requires s[a] < wanted == Cost(e, labels) + s[e.node]
    ensures Rising(nodes, edges, labels, s[a := wanted])
  {
    var s' := s[a := wanted];
    ClimbsStep(edges, labels, a, e, s[e.node] - 1);
    forall t, n | IsStrata(nodes, edges, labels, t) && n in s'
      ensures s'[n] <= t[n]
    {
      assert t[a] >= Cost(e, labels) + t[e.node];
    }
  }

  lemma RisingKeys<L(!new)>(nodes: set<Name>, edges: Edges<L>, labels: set<Option<L>>, s: Strata, a: Name, e: Edge<L>)
    requires Closed(nodes, edges) && Rising(nodes, edges, labels, s) && HasEdge(edges, a, e)
    ensures a in s && e.node in s && s[a] >= 1
  {
  }

  lemma RisingTooHigh<L(!new)>(nodes: set<Name>, edges: Edges<L>, labels: set<Option<L>>, s: Strata, n: Name)
    requires Closed(nodes, edges) && Rising(nodes, edges, labels, s) && n in s && s[n] > |nodes|
    ensures LabelledCycle(edges, labels)
  {
    HighClimbCycles(nodes, edges, labels, n, s[n] - 1);
  }

  /** Whether anything has changed, and if so, for the higher. */
  ghost predicate Progress(before: Strata, now: Strata, changes: bool, top: int) {
    if changes then Room(now, top) < Room(before, top) else now == before
  }

  lemma ProgressNone(before: Strata, top: int)
    ensures Progress(before, before, false, top)
  {
  }

  lemma ProgressUp(before: Strata, n: Name, k: int, top: int)
    requires n in before && 0 <= before[n] < k <= top
    ensures Progress(before, before[n := k], true, top)
  {
    RoomShrinks(before, before[n := k], top, n);
  }

  lemma ProgressMore(before: Strata, middle: Strata, now: Strata, changes: bool, more: bool, top: int)
    requires Progress(before, middle, changes, top) && Progress(middle, now, more, top)
    ensures Progress(before, now, changes || more, top)
  {
  }

  lemma LinkClosed<L(!new)>(nodes: set<Name>, edges: Edges<L>, a: Name, e: Edge<L>)
    requires Closed(nodes, edges) && a in nodes && e.node in nodes
    ensures var edges' := Link(edges, a, e);
      && Closed(nodes, edges')
      && (forall b, f :: HasEdge(edges', b, f) <==> HasEdge(edges, b, f) || (b == a && f == e))
      && forall b, c :: Linked(edges', b, c) <==> Linked(edges, b, c) || (b == a && c == e.node)
  {
    var edges' := Link(edges, a, e);
    forall b, f
      ensures HasEdge(edges', b, f) <==> HasEdge(edges, b, f) || (b == a && f == e)
    {
    }
    forall b, c
      ensures Linked(edges', b, c) <==> Linked(edges, b, c) || (b == a && c == e.node)
    {
      assert HasEdge(edges', a, e);
    }
  }

  class Graph<L(==, !new)> {
    var nodes: map<Name, DfsData>
    var edges: Edges<L>
    var counter: nat
    var targetPaths: seq<seq<Name>>

    constructor ()
      ensures Valid() && nodes == map[] && edges == map[]
    {
      nodes := map[];
      edges := map[];
      counter := 0;
      targetPaths := [];
    }

    ghost predicate Valid()
      reads `nodes, `edges
    {
      Closed(nodes.Keys, edges)
    }

    method AddNode(val: Name) returns (added: bool)
      modifies this`nodes
      ensures old(Valid()) ==> Valid()
      ensures added == (val !in old(nodes)) && nodes.Keys == old(nodes.Keys) + {val}
      ensures forall n :: n in old(nodes) ==> nodes[n] == old(nodes[n])
    {
      added := val !in nodes;
      if added {
        nodes := nodes[val := DfsData(None, None)];
      }
    }

    method AddEdge(val1: Name, val2: Name, tag: Option<L>)
      requires Valid()
      modifies this`nodes, this`edges
      ensures Valid() && nodes.Keys == old(nodes.Keys) + {val1, val2}
      ensures forall a, e :: HasEdge(edges, a, e) <==> HasEdge(old(edges), a, e) || (a == val1 && e == Edge(val2, tag))
    {
      var _ := AddNode(val1);
      var _ := AddNode(val2);
      LinkNodes(val1, val2, tag);
    }

    /** The part of add_edge that subclasses inherit. */
    method LinkNodes(val1: Name, val2: Name, tag: Option<L>)
      requires val1 in nodes && val2 in nodes
      modifies this`edges
      ensures old(Valid()) ==> Valid()
      ensures edges == Link(old(edges), val1, Edge(val2, tag))
      ensures forall a, e :: HasEdge(edges, a, e) <==> HasEdge(old(edges), a, e) || (a == val1 && e == Edge(val2, tag))
    {
      if Closed(nodes.Keys, edges) {
        LinkClosed(nodes.Keys, edges, val1, Edge(val2, tag));
      }
      edges := Link(edges, val1, Edge(val2, tag));
    }

    /** Delete a node and the edges that leave it. */
    method DeleteNode(val: Name)
      requires val in edges ==> val in nodes
      modifies this`nodes, this`edges
      ensures nodes == old(nodes) - {val} && edges == old(edges) - {val}
    {
      if val in nodes {
        nodes := nodes - {val};
        if val in edges {
          edges := edges - {val};
        }
      } else {
        assert val !in edges;
      }
    }

    /** Delete an edge, but no node. */
    method DeleteEdge(val1: Name, val2: Name, tag: Option<L>)
      modifies this`edges
      ensures edges == Unlink(old(edges), val1, Edge(val2, tag))
    {
      edges := Unlink(edges, val1, Edge(val2, tag));
    }

    // ----- stratification

    /** The least strata, or None if there are none, which is so iff a cycle contains an edge
        with one of the labels.  Giving up above the number of nodes is never wrong. */
    method Stratification(labels: set<Option<L>>) returns (r: Option<Strata>)
      requires Valid()
      ensures r.Some? ==> IsStrata(nodes.Keys, edges, labels, r.value)
      ensures r.Some? ==> forall t, n :: IsStrata(nodes.Keys, edges, labels, t) && n in nodes ==> r.value[n] <= t[n]
      ensures r.None? <==> LabelledCycle(edges, labels)
    {
      var stratum: Strata := map n | n in nodes :: 1;
      RisingStart(labels);
      var top := |nodes|;
      var changes := true;
      while changes
        invariant Rising(nodes.Keys, edges, labels, stratum)
        invariant !changes ==> Respects(edges, labels, stratum)
        decreases Room(stratum, top), changes
      {
        var s, c := Pass(labels, stratum);
        if s.None? {
          return None;
        }
        stratum, changes := s.value, c;
      }
      StrataExcludeCycles(edges, labels, stratum);
      return Some(stratum);
    }

    lemma RisingStart(labels: set<Option<L>>)
      ensures Rising(nodes.Keys, edges, labels, map n | n in nodes :: 1)
    {
      forall n | n in nodes
        ensures Climbs(edges, labels, n, 0)
      {
        ClimbsNone(edges, labels, n);
      }
    }

    /** One edge.  None iff the stratum of its start rises above the number of nodes. */
    method Raise(labels: set<Option<L>>, stratum: Strata, node: Name, edge: Edge<L>)
        returns (r: Option<Strata>, risen: bool)
      requires Valid() && Rising(nodes.Keys, edges, labels, stratum) && HasEdge(edges, node, edge)
      ensures r.None? ==> LabelledCycle(edges, labels)
      ensures r.Some? ==> Rising(nodes.Keys, edges, labels, r.value)
      ensures r.Some? ==> Progress(stratum, r.value, risen, |nodes|)
      ensures r.Some? && !risen ==> r.value == stratum
      ensures r.Some? && !risen ==>
        node in stratum && edge.node in stratum && stratum[node] >= Cost(edge, labels) + stratum[edge.node]
    {
      hide Rising, LabelledCycle, Closed, Progress, Room;
      RisingKeys(nodes.Keys, edges, labels, stratum, node, edge);
      var wanted := if edge.tag in labels then 1 + stratum[edge.node] else stratum[edge.node];
      if wanted <= stratum[node] {
        ProgressNone(stratum, |nodes|);
        return Some(stratum), false;
      }
      var higher := stratum[node := wanted];
      RisingStep(nodes.Keys, edges, labels, stratum, node, edge, wanted);
      if wanted > |nodes| {
        RisingTooHigh(nodes.Keys, edges, labels, higher, node);
        return None, true;
      }
      ProgressUp(stratum, node, wanted, |nodes|);
      return Some(higher), true;
    }

    /** One pass over all edges.  None iff a stratum rose above the number of nodes. */
    method Pass(labels: set<Option<L>>, before: Strata) returns (r: Option<Strata>, changes: bool)
      requires Valid() && Rising(nodes.Keys, edges, labels, before)
      ensures r.None? ==> LabelledCycle(edges, labels)
      ensures r.Some? ==> Rising(nodes.Keys, edges, labels, r.value) && Progress(before, r.value, changes, |nodes|)
      ensures r.Some? && !changes ==> Respects(edges, labels, before)
    {
      hide Rising, Progress, LabelledCycle, Room, Closed;
      var stratum := before;
      changes := false;
      ProgressNone(before, |nodes|);
      var todo := edges.Keys;
      while todo != {}
        invariant todo <= edges.Keys
        invariant Rising(nodes.Keys, edges, labels, stratum) && Progress(before, stratum, changes, |nodes|)
        invariant !changes ==>
          stratum == before && forall a :: a !in todo ==> RespectsFrom(edges, labels, before, a, {})
        decreases todo
      {
        var node :| node in todo;
        todo := todo - {node};
        var left := edges[node];
        ghost var earlier := changes;
        while left != {}
          invariant left <= edges[node] && (earlier ==> changes)
          invariant Rising(nodes.Keys, edges, labels, stratum) && Progress(before, stratum, changes, |nodes|)
          invariant !changes ==> stratum == before && RespectsFrom(edges, labels, before, node, left)
          decreases left
        {
          var edge :| edge in left;
          left := left - {edge};
          var risen;
          r, risen := Raise(labels, stratum, node, edge);
          if r.None? {
            return None, true;
          }
          ProgressMore(before, stratum, r.value, changes, risen, |nodes|);
          stratum, changes := r.value, changes || risen;
        }
      }
      if !changes {
        RespectsAll(edges, labels, before);
      }
      return Some(stratum), changes;
    }

    // ----- depth-first search

    ghost function Visited(): set<Name>
      reads `nodes
    {
      set n | n in nodes && nodes[n].begin.Some?
    }

    method NextCounter() returns (c: nat)
      modifies this`counter
      ensures c == old(counter) && counter == c + 1
    {
      c := counter;
      counter := counter + 1;
    }

    method ResetDfsData()
      modifies this`nodes, this`counter, this`targetPaths
      ensures nodes.Keys == old(nodes.Keys) && Visited() == {} && counter == 0 && targetPaths == []
    {
      nodes := map n | n in nodes :: DfsData(None, None);
      counter := 0;
      targetPaths := [];
    }

    /** Marks a node as begun. */
    method Begin(node: Name)
      requires node in nodes
      modifies this`nodes, this`counter
      ensures nodes.Keys == old(nodes.Keys) && Visited() == old(Visited()) + {node}
    {
      var begin := NextCounter();
      nodes := nodes[node := DfsData(Some(begin), None)];
    }

    /** Marks a node as ended. */
    method End(node: Name)
      requires node in nodes
      modifies this`nodes, this`counter
      ensures nodes.Keys == old(nodes.Keys) && Visited() == old(Visited())
    {
      var end := NextCounter();
      nodes := nodes[node := DfsData(nodes[node].begin, Some(end))];
    }

    /** Visits everything that can be reached from node without passing through what has been
        visited, and records every way found to come back to the target. */
    method Dfs(node: Name, target: Option<Name>, dfsStack: seq<Name>)
      requires Valid() && node in nodes && IsPath(edges, dfsStack + [node])
      modifies this`nodes, this`counter, this`targetPaths
      ensures nodes.Keys == old(nodes.Keys) && node in Visited()
      ensures Swept(edges, node, (dfsStack + [node])[0], target, old(Visited()), Visited(), old(targetPaths),
        targetPaths)
      ensures target == Some(node) && dfsStack != [] ==> |targetPaths| > |old(targetPaths)|
      decreases nodes.Keys - Visited()
    {
      hide Swept, Partly, IsPath, ComesBack;
      var stack := dfsStack + [node];
      ghost var start, before, paths := stack[0], Visited(), targetPaths;
      SweptNothing(edges, node, start, target, before, targetPaths);
      if target == Some(node) && |stack| > 1 {
        SweptPath(edges, node, stack, before, targetPaths);
        targetPaths := targetPaths + [stack];
      }
      if nodes[node].begin.Some? {
        return;
      }
      Begin(node);
      PartlyStart(edges, node, start, target, before, paths, targetPaths);
      if node in edges {
        var left := edges[node];
        while left != {}
          invariant left <= edges[node] && nodes.Keys == old(nodes.Keys)
          invariant before + {node} <= Visited()
          invariant Partly(edges, node, start, target, left, before, Visited(), paths, targetPaths)
          invariant target == Some(node) && dfsStack != [] ==> |targetPaths| > |paths|
          invariant |targetPaths| >= |paths|
          decreases left
        {
          var edge :| edge in left;
          assert HasEdge(edges, node, edge);
          PathStep(edges, stack, edge);
          ghost var middle, middlePaths := Visited(), targetPaths;
          Dfs(edge.node, target, stack);
          PartlyNext(edges, node, start, target, left, edge, before, middle, Visited(), paths, middlePaths,
            targetPaths);
          left := left - {edge};
        }
      }
      PartlyDone(edges, node, start, target, before, Visited(), paths, targetPaths);
      End(node);
    }

    /** Visits exactly what can be reached from the roots. */
    method DepthFirstSearch(roots: set<Name>)
      requires Valid()
      modifies this`nodes, this`counter, this`targetPaths
      ensures nodes.Keys == old(nodes.Keys)
      ensures forall v :: v in Visited() <==> v in nodes && FromRoots(nodes.Keys, edges, roots, v)
    {
      ResetDfsData();
      var todo := roots;
      while todo != {}
        invariant todo <= roots && nodes.Keys == old(nodes.Keys)
        invariant Explored(edges, {}, Visited())
        invariant forall r :: r in roots && r !in todo && r in nodes ==> r in Visited()
        invariant forall v :: v in Visited() ==> FromRoots(nodes.Keys, edges, roots, v)
        decreases todo
      {
        var node :| node in todo;
        todo := todo - {node};
        if node in nodes && nodes[node].begin.None? {
          ghost var before := Visited();
          Dfs(node, None, []);
          assert Explored(edges, {}, Visited());
        }
      }
      forall v | v in nodes && FromRoots(nodes.Keys, edges, roots, v)
        ensures v in Visited()
      {
        var r :| r in roots && r in nodes && Reaches(edges, r, v);
        ReachesStays(edges, Visited(), r, v);
      }
    }

    /** All nodes reachable from the roots. */
    method FindReachableNodes(roots: set<Name>) returns (result: set<Name>)
      requires Valid()
      modifies this`nodes, this`counter, this`targetPaths
      ensures nodes.Keys == old(nodes.Keys)
      ensures forall v :: v in result <==> v in nodes && FromRoots(nodes.Keys, edges, roots, v)
    {
      if |roots| == 0 {
        return {};
      }
      DepthFirstSearch(roots);
      result := set n | n in nodes && nodes[n].begin.Some?;
      nodes := map n | n in nodes :: DfsData(None, None);
    }

    /** The nodes from which one of the given nodes can be reached, and the given nodes. */
    method FindDependentNodes(given: set<Name>) returns (result: set<Name>)
      requires Valid()
      modifies this`nodes
      ensures nodes.Keys == old(nodes.Keys)
      ensures forall t :: t in result <==>
        t in given || (t in nodes && exists r :: r in given && r in nodes && Reaches(edges, t, r))
    {
      var inverted := InvertedEdgeGraph();
      var reachable := inverted.FindReachableNodes(given);
      nodes := inverted.nodes;
      forall t, r
        ensures Reaches(inverted.edges, r, t) <==> Reaches(edges, t, r)
      {
        if Reaches(inverted.edges, r, t) {
          ReachesBack(inverted.edges, edges, r, t);
        }
        if Reaches(edges, t, r) {
          ReachesBack(edges, inverted.edges, t, r);
        }
      }
      result := reachable + given;
    }

    /** A graph with the same nodes and the edges turned round. */
    method InvertedEdgeGraph() returns (g: Graph<L>)
      requires Valid()
      ensures fresh(g) && g.Valid() && g.nodes == nodes && Inverse(edges, g.edges)
    {
      g := new Graph<L>();
      g.nodes := nodes;
      var todo := edges.Keys;
      while todo != {}
        invariant todo <= edges.Keys && g.nodes == nodes && g.Valid()
        invariant forall a, b :: Linked(g.edges, b, a) <==> Linked(edges, a, b) && a !in todo
        decreases todo
      {
        var a :| a in todo;
        todo := todo - {a};
        var left := edges[a];
        hide Linked, Taken;
        AllTaken(edges, a);
        while left != {}
          invariant left <= edges[a] && g.nodes == nodes && g.Valid()
          invariant forall c, b :: Linked(g.edges, b, c) <==>
            (c != a && c !in todo && Linked(edges, c, b)) || (c == a && Taken(edges[a], left, b))
          decreases left
        {
          var edge :| edge in left;
          assert HasEdge(edges, a, edge);
          forall b
            ensures Taken(edges[a], left - {edge}, b) <==> Taken(edges[a], left, b) || b == edge.node
          {
            TakenNext(edges[a], left, edge, b);
          }
          left := left - {edge};
          LinkClosed(g.nodes.Keys, g.edges, edge.node, Edge(a, None));
          ghost var was := g.edges;
          g.edges := g.edges[edge.node := (if edge.node in g.edges then g.edges[edge.node] else {}) + {Edge(a, None)}];
          assert forall b, c :: Linked(g.edges, b, c) <==> Linked(was, b, c) || (b == edge.node && c == a);
          assert forall b :: Taken(edges[a], left, b) <==> Taken(edges[a], left + {edge}, b) || b == edge.node;
        }
      }
    }

    // ----- cycles

    /** The cycles found through one node. */
    method CyclesFrom(node: Name) returns (more: set<set<(Name, Name)>>)
      requires Valid() && node in nodes
      modifies this`nodes, this`counter, this`targetPaths
      ensures nodes.Keys == old(nodes.Keys)
      ensures forall c :: c in more ==> CycleThrough(edges, c, node)
      ensures more == {} ==> !OnCycle(edges, node)
    {
      hide Swept, ArcsOf;
      ResetDfsData();
      Dfs(node, Some(node), []);
      CyclesAt(edges, node, Visited(), targetPaths);
      more := set p | p in targetPaths :: ArcsOf(p);
      assert targetPaths != [] ==> ArcsOf(targetPaths[0]) in more;
    }

    /** Cycles, each as the set of its arcs: through every node that is on one, there is one. */
    method EnumerateCycles() returns (cycles: set<set<(Name, Name)>>)
      requires Valid()
      modifies this`nodes, this`counter, this`targetPaths
      ensures nodes.Keys == old(nodes.Keys)
      ensures forall c :: c in cycles ==> exists p :: ClosedPath(edges, p) && c == ArcsOf(p)
      ensures forall p, i :: ClosedPath(edges, p) && 0 <= i < |p| ==> RunsThrough(edges, cycles, p[i])
      ensures cycles != {} <==> exists p :: ClosedPath(edges, p)
    {
      hide CycleThrough, OnCycle, ClosedPath;
      cycles := {};
      var todo := nodes.Keys;
      while todo != {}
        invariant todo <= nodes.Keys == old(nodes.Keys)
        invariant forall c :: c in cycles ==> exists n :: CycleThrough(edges, c, n)
        invariant forall n :: n in nodes && n !in todo && OnCycle(edges, n) ==> RunsThrough(edges, cycles, n)
        decreases todo
      {
        var node :| node in todo;
        todo := todo - {node};
        var more := CyclesFrom(node);
        cycles := cycles + more;
      }
      CyclesThroughAll(nodes.Keys, edges, cycles);
    }

    method HasCycle() returns (r: bool)
      requires Valid()
      modifies this`nodes, this`counter, this`targetPaths
      ensures nodes.Keys == old(nodes.Keys)
      ensures r <==> Cyclic(edges)
    {
      var cycles := EnumerateCycles();
      CyclesAgree(edges);
      return |cycles| > 0;
    }
  }

  /** c is the arcs of a walk from the node back to itself. */
  ghost predicate CycleThrough<L(!new)>(edges: Edges<L>, c: set<(Name, Name)>, node: Name) {
    exists p :: ClosedPath(edges, p) && p[0] == node && c == ArcsOf(p)
  }

  ghost predicate RunsThrough<L(!new)>(edges: Edges<L>, cycles: set<set<(Name, Name)>>, node: Name) {
    exists c :: c in cycles && CycleThrough(edges, c, node)
  }

  ghost predicate OnCycle<L(!new)>(edges: Edges<L>, node: Name) {
    exists p :: ClosedPath(edges, p) && p[0] == node
  }

  lemma AnyStart<L(!new)>(nodes: set<Name>, edges: Edges<L>, p: seq<Name>, i: nat)
    requires Closed(nodes, edges) && ClosedPath(edges, p) && i < |p|
    ensures OnCycle(edges, p[i]) && p[i] in nodes
  {
    var q := Rotate(edges, p, i);
    assert Linked(edges, q[0], q[0 + 1]);
  }

  lemma CyclesThroughAll<L(!new)>(nodes: set<Name>, edges: Edges<L>, cycles: set<set<(Name, Name)>>)
    requires Closed(nodes, edges) && forall c :: c in cycles ==> exists n :: CycleThrough(edges, c, n)
    requires forall n :: n in nodes && OnCycle(edges, n) ==> RunsThrough(edges, cycles, n)
    ensures forall c :: c in cycles ==> exists p :: ClosedPath(edges, p) && c == ArcsOf(p)
    ensures forall p, i :: ClosedPath(edges, p) && 0 <= i < |p| ==> RunsThrough(edges, cycles, p[i])
    ensures cycles != {} <==> exists p :: ClosedPath(edges, p)
  {
    hide *;
    forall p, i | ClosedPath(edges, p) && 0 <= i < |p|
      ensures RunsThrough(edges, cycles, p[i])
    {
      AnyStart(nodes, edges, p, i);
    }
    forall c | c in cycles
      ensures exists p :: ClosedPath(edges, p) && c == ArcsOf(p)
    {
      var n :| CycleThrough(edges, c, n);
      ThroughClosed(edges, c, n);
    }
    if p :| ClosedPath(edges, p) {
      ClosedLong(edges, p);
      SomeThrough(edges, cycles, p[0]);
    }
    if cycles != {} {
      var c :| c in cycles;
    }
  }

  lemma SomeThrough<L(!new)>(edges: Edges<L>, cycles: set<set<(Name, Name)>>, node: Name)
    requires RunsThrough(edges, cycles, node)
    ensures cycles != {}
  {
    hide CycleThrough;
  }

  lemma ClosedLong<L(!new)>(edges: Edges<L>, p: seq<Name>)
    requires ClosedPath(edges, p)
    ensures |p| > 1
  {
  }

  lemma ThroughClosed<L(!new)>(edges: Edges<L>, c: set<(Name, Name)>, n: Name)
    requires CycleThrough(edges, c, n)
    ensures exists p :: ClosedPath(edges, p) && c == ArcsOf(p)
  {
    hide ArcsOf, IsPath;
  }

  /** A closed path may start at any of its nodes. */
  lemma Rotate<L(!new)>(edges: Edges<L>, p: seq<Name>, i: nat) returns (q: seq<Name>)
    requires ClosedPath(edges, p) && i < |p|
    ensures ClosedPath(edges, q) && q[0] == p[i]
  {
    if i == |p| - 1 {
      return p;
    }
    q := p[i..] + p[1..i + 1];
    forall k | 0 <= k < |q| - 1
      ensures Linked(edges, q[k], q[k + 1])
    {
      var j := if k < |p| - 1 - i then i + k else i + k - (|p| - 1);
      assert Linked(edges, p[j], p[j + 1]);
    }
  }

  /** The arcs of a path are the steps that it takes. */
  lemma {:induction false} ArcsAreSteps(p: seq<Name>, x: Name, y: Name)
    ensures (x, y) in ArcsOf(p) <==> exists i :: 0 <= i < |p| - 1 && p[i] == x && p[i + 1] == y
    decreases |p|
  {
    if |p| >= 2 {
      ArcsAreSteps(p[1..], x, y);
      if i :| 0 <= i < |p| - 1 && p[i] == x && p[i + 1] == y && i > 0 {
        assert p[1..][i - 1] == x && p[1..][i - 1 + 1] == y;
      }
      if i :| 0 <= i < |p[1..]| - 1 && p[1..][i] == x && p[1..][i + 1] == y {
        assert p[i + 1] == x && p[i + 1 + 1] == y;
      }
    }
  }

  /** Some edge to b has been taken. */
  ghost predicate Taken<L(!new)>(all: set<Edge<L>>, left: set<Edge<L>>, b: Name) {
    exists e :: e in all - left && e.node == b
  }

  lemma TakenNext<L(!new)>(all: set<Edge<L>>, left: set<Edge<L>>, e: Edge<L>, b: Name)
    requires e in left && left <= all
    ensures Taken(all, left - {e}, b) <==> Taken(all, left, b) || b == e.node
  {
    assert all - (left - {e}) == all - left + {e};
    if Taken(all, left, b) {
      var f :| f in all - left && f.node == b;
      assert f in all - (left - {e});
    }
    assert e in all - (left - {e});
  }

  lemma AllTaken<L(!new)>(edges: Edges<L>, a: Name)
    requires a in edges
    ensures forall b :: Taken(edges[a], {}, b) <==> Linked(edges, a, b)
    ensures forall b :: !Taken(edges[a], edges[a], b)
  {
  }

  /** The arcs of a path, regardless of order. */
  function ArcsOf(p: seq<Name>): set<(Name, Name)> {
    if |p| < 2 then {} else {(p[0], p[1])} + ArcsOf(p[1..])
  }

  /** The paths recorded when a node is its own target: closed, and none only if it is on no cycle. */
  lemma CyclesAt<L(!new)>(edges: Edges<L>, node: Name, now: set<Name>, paths: seq<seq<Name>>)
    requires Swept(edges, node, node, Some(node), {}, now, [], paths) && node in now
    ensures forall p :: p in paths ==> ClosedPath(edges, p) && p[0] == node
    ensures paths == [] ==> forall p :: ClosedPath(edges, p) ==> p[0] != node
  {
    forall p | ClosedPath(edges, p) && p[0] == node
      ensures paths != []
    {
      PathStays(edges, now, p, |p| - 2);
      assert Linked(edges, p[|p| - 2], p[|p| - 2 + 1]);
      assert Leads(edges, {}, now, node);
    }
  }

  // ----- what a depth-first search does

  /** From before to now a search has swept up nodes reachable from root, all of whose
      successors are now visited; and it has recorded only paths that come back to the target,
      at least one if it swept up a node with an edge to the target. */
  ghost predicate Swept<L(!new)>(edges: Edges<L>, root: Name, start: Name, target: Option<Name>,
      before: set<Name>, now: set<Name>, pathsBefore: seq<seq<Name>>, paths: seq<seq<Name>>) {
    && before <= now && Explored(edges, before, now)
    && (forall v :: v in now && v !in before ==> Reaches(edges, root, v))
    && pathsBefore <= paths
    && (forall p :: p in paths ==> p in pathsBefore || ComesBack(edges, p, start, target))
    && (target.Some? && Leads(edges, before, now, target.value) ==> |paths| > |pathsBefore|)
  }

  /** The same while root itself is being searched: the edges in left are still to come. */
  ghost predicate Partly<L(!new)>(edges: Edges<L>, root: Name, start: Name, target: Option<Name>, left: set<Edge<L>>,
      before: set<Name>, now: set<Name>, pathsBefore: seq<seq<Name>>, paths: seq<seq<Name>>) {
    && before + {root} <= now && Explored(edges, before + {root}, now)
    && (forall v :: v in now && v !in before ==> Reaches(edges, root, v))
    && pathsBefore <= paths
    && (forall p :: p in paths ==> p in pathsBefore || ComesBack(edges, p, start, target))
    && (target.Some? && Leads(edges, before + {root}, now, target.value) ==> |paths| > |pathsBefore|)
    && (forall e :: HasEdge(edges, root, e) && e !in left ==>
        e.node in now && (target == Some(e.node) ==> |paths| > |pathsBefore|))
  }

  lemma SweptNothing<L(!new)>(edges: Edges<L>, root: Name, start: Name, target: Option<Name>, now: set<Name>,
      paths: seq<seq<Name>>)
    ensures Swept(edges, root, start, target, now, now, paths, paths)
  {
  }

  lemma SweptPath<L(!new)>(edges: Edges<L>, root: Name, stack: seq<Name>, now: set<Name>, paths: seq<seq<Name>>)
    requires IsPath(edges, stack) && |stack| > 1 && stack[|stack| - 1] == root
    ensures Swept(edges, root, stack[0], Some(root), now, now, paths, paths + [stack])
  {
  }

  lemma PartlyStart<L(!new)>(edges: Edges<L>, root: Name, start: Name, target: Option<Name>, before: set<Name>,
      pathsBefore: seq<seq<Name>>, paths: seq<seq<Name>>)
    requires Swept(edges, root, start, target, before, before, pathsBefore, paths)
    ensures Partly(edges, root, start, target, if root in edges then edges[root] else {},
      before, before + {root}, pathsBefore, paths)
    ensures |paths| >= |pathsBefore|
  {
    ReachesSelf(edges, root);
  }

  lemma PartlyNext<L(!new)>(edges: Edges<L>, root: Name, start: Name, target: Option<Name>, left: set<Edge<L>>,
      e: Edge<L>, before: set<Name>, middle: set<Name>, now: set<Name>,
      pathsBefore: seq<seq<Name>>, pathsMiddle: seq<seq<Name>>, paths: seq<seq<Name>>)
    requires Partly(edges, root, start, target, left, before, middle, pathsBefore, pathsMiddle)
    requires HasEdge(edges, root, e) && e.node in now
    requires Swept(edges, e.node, start, target, middle, now, pathsMiddle, paths)
    requires target == Some(e.node) ==> |paths| > |pathsMiddle|
    ensures Partly(edges, root, start, target, left - {e}, before, now, pathsBefore, paths)
    ensures |paths| >= |pathsMiddle| && before + {root} <= now
  {
    forall v | v in now && v !in middle
      ensures Reaches(edges, root, v)
    {
      ReachesStep(edges, root, e, v);
    }
    if target.Some? && Leads(edges, before + {root}, now, target.value) {
      var a :| a in now && a !in before + {root} && Linked(edges, a, target.value);
      assert a in middle || Leads(edges, middle, now, target.value);
    }
  }

  lemma PartlyDone<L(!new)>(edges: Edges<L>, root: Name, start: Name, target: Option<Name>, before: set<Name>,
      now: set<Name>, pathsBefore: seq<seq<Name>>, paths: seq<seq<Name>>)
    requires Partly(edges, root, start, target, {}, before, now, pathsBefore, paths)
    ensures Swept(edges, root, start, target, before, now, pathsBefore, paths)
  {
    if target.Some? && Leads(edges, before, now, target.value) {
      var a :| a in now && a !in before && Linked(edges, a, target.value);
      if a != root {
        assert a !in before + {root};
      }
    }
  }
}
