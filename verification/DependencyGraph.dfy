/** BagGraph of congress/datalog/utility.py and RuleDependencyGraph of congress/datalog/compile.py:
    a graph that counts how often each node and edge was inserted. */
module DependencyGraph {
  import opened Datalog
  import opened Options
  import opened Walks
  import opened Bags
  import Graph

  datatype Arc = Arc(src: Name, dst: Name, tag: Option<bool>)

  ghost function Ends(a: Arc): multiset<Name> {
    multiset{a.src, a.dst}
  }

  predicate HasArc(edges: Edges<bool>, a: Arc) {
    HasEdge(edges, a.src, Edge(a.dst, a.tag))
  }

  // ----- counters

  /** The table m counts the elements of the bag b. */
  ghost predicate Counts<T(!new)>(m: map<T, int>, b: multiset<T>) {
    && (forall t :: t in m <==> t in b)
    && (forall t :: t in m ==> m[t] == b[t])
  }

  function Up<T(==)>(m: map<T, int>, t: T): map<T, int> {
    m[t := if t in m then m[t] + 1 else 1]
  }

  function Down<T(==)>(m: map<T, int>, t: T): map<T, int>
    requires t in m
  {
    if m[t] == 1 then m - {t} else m[t := m[t] - 1]
  }

  /** Nothing happens if there is nothing to count down. */
  function Discount<T(==)>(m: map<T, int>, t: T): map<T, int> {
    if t in m then Down(m, t) else m
  }

  lemma DiscountIs<T>(m: map<T, int>, t: T)
    ensures Discount(m, t) == if t in m then Down(m, t) else m
  {
  }

  /** A node that is no longer counted has lost its adjacency set. */
  ghost predicate Dropped(counts: map<Name, int>, edges: Edges<bool>, v: Name, edges': Edges<bool>) {
    edges' == if v in counts && v !in Discount(counts, v) then edges - {v} else edges
  }

  ghost predicate Positive<T>(m: map<T, int>) {
    forall t :: t in m ==> m[t] > 0
  }

  lemma CountsPositive<T(!new)>(m: map<T, int>, b: multiset<T>)
    requires Counts(m, b)
    ensures Positive(m)
  {
  }

  lemma PositiveUpDown<T>(m: map<T, int>, t: T)
    requires Positive(m)
    ensures Positive(Up(m, t)) && Positive(Discount(m, t))
    ensures Up(m, t).Keys == m.Keys + {t}
  {
  }

  lemma CountsUp<T(!new)>(m: map<T, int>, b: multiset<T>, t: T)
    requires Counts(m, b)
    ensures Counts(Up(m, t), b + multiset{t})
  {
  }

  lemma CountsDown<T(!new)>(m: map<T, int>, b: multiset<T>, t: T)
    requires Counts(m, b)
    ensures t in b <==> t in m
    ensures t in m ==> Counts(Down(m, t), b - multiset{t})
    ensures t !in m ==> b - multiset{t} == b
    ensures t in m ==> (t in Down(m, t) <==> t in b - multiset{t})
  {
  }

  // ----- nodes: inserted on their own account, and as ends of arcs

  ghost function AllNodes(direct: multiset<Name>, held: multiset<Arc>): multiset<Name> {
    direct + Total(Ends, held)
  }

  lemma AllNodesDirect(direct: multiset<Name>, held: multiset<Arc>, v: Name)
    ensures AllNodes(direct + multiset{v}, held) == AllNodes(direct, held) + multiset{v}
    ensures v in direct ==> v in AllNodes(direct, held)
    ensures v in direct ==> AllNodes(direct - multiset{v}, held) == AllNodes(direct, held) - multiset{v}
  {
  }

  lemma Rearranged<T>(d: multiset<T>, t: multiset<T>, x: T, y: T)
    ensures d + (multiset{x, y} + t) == d + t + multiset{x} + multiset{y}
  {
  }

  lemma AllNodesMore(direct: multiset<Name>, held: multiset<Arc>, a: Arc)
    ensures AllNodes(direct, held + multiset{a}) == AllNodes(direct, held) + multiset{a.src} + multiset{a.dst}
  {
    hide Total;
    TotalAdd(Ends, held, a);
    Rearranged(direct, Total(Ends, held), a.src, a.dst);
  }

  lemma AllNodesLess(direct: multiset<Name>, held: multiset<Arc>, a: Arc)
    requires a in held
    ensures a.src in AllNodes(direct, held) && a.dst in AllNodes(direct, held) - multiset{a.src}
    ensures AllNodes(direct, held - multiset{a}) == AllNodes(direct, held) - multiset{a.src} - multiset{a.dst}
  {
    AllNodesMore(direct, held - multiset{a}, a);
    assert held - multiset{a} + multiset{a} == held;
  }

  // ----- adjacency

  /** The adjacency sets hold exactly the arcs held. */
  ghost predicate Adjacent(edges: Edges<bool>, held: multiset<Arc>) {
    forall a: Arc :: a in held <==> HasArc(edges, a)
  }

  /** The same, but for one arc that may be left over. */
  ghost predicate Nearly(edges: Edges<bool>, held: multiset<Arc>, arc: Arc) {
    && (forall a: Arc :: a in held ==> HasArc(edges, a))
    && (forall a: Arc :: HasArc(edges, a) ==> a in held || a == arc)
  }

  /** No node outside the given ones has an arc. */
  ghost predicate Within(nodes: set<Name>, held: multiset<Arc>) {
    forall a: Arc :: a in held ==> a.src in nodes && a.dst in nodes
  }

  lemma WithinCounted(counts: map<Name, int>, direct: multiset<Name>, held: multiset<Arc>)
    requires Counts(counts, AllNodes(direct, held))
    ensures Within(counts.Keys, held)
  {
    forall a: Arc | a in held
      ensures a.src in counts && a.dst in counts
    {
      AllNodesLess(direct, held, a);
      assert a.dst in AllNodes(direct, held);
    }
  }

  lemma NearlyStart(edges: Edges<bool>, held: multiset<Arc>, arc: Arc)
    requires Adjacent(edges, held)
    ensures Nearly(edges, held - multiset{arc}, arc)
  {
  }

  /** Dropping the adjacency set of a node that is no longer counted loses no arc held. */
  lemma NearlyDrop(edges: Edges<bool>, edges': Edges<bool>, held: multiset<Arc>, arc: Arc, nodes: set<Name>, v: Name)
    requires Nearly(edges, held, arc) && Within(nodes, held)
    requires edges' == edges || (edges' == edges - {v} && v !in nodes)
    ensures Nearly(edges', held, arc)
  {
    if edges' != edges {
      forall a: Arc | a in held
        ensures HasArc(edges', a)
      {
        assert HasArc(edges, a) && a.src != v;
      }
      forall a: Arc | HasArc(edges', a)
        ensures a in held || a == arc
      {
        assert HasArc(edges, a);
      }
    }
  }

  lemma AdjacentDrop(edges: Edges<bool>, held: multiset<Arc>, nodes: set<Name>, v: Name)
    requires Adjacent(edges, held) && Within(nodes, held) && v !in nodes
    ensures Adjacent(edges - {v}, held)
  {
    forall a: Arc
      ensures a in held <==> HasArc(edges - {v}, a)
    {
      assert a in held <==> HasArc(edges, a);
    }
  }

  lemma AdjacentLink(edges: Edges<bool>, held: multiset<Arc>, arc: Arc)
    requires Adjacent(edges, held)
    ensures Adjacent(Link(edges, arc.src, Edge(arc.dst, arc.tag)), held + multiset{arc})
  {
    forall a: Arc
      ensures a in held + multiset{arc} <==> HasArc(Link(edges, arc.src, Edge(arc.dst, arc.tag)), a)
    {
      assert a in held <==> HasArc(edges, a);
      assert Edge(a.dst, a.tag) == Edge(arc.dst, arc.tag) && a.src == arc.src <==> a == arc;
    }
  }

  lemma AdjacentUnlink(edges: Edges<bool>, held: multiset<Arc>, arc: Arc)
    requires Nearly(edges, held, arc)
    ensures arc in held ==> Adjacent(edges, held)
    ensures arc !in held ==> Adjacent(Unlink(edges, arc.src, Edge(arc.dst, arc.tag)), held)
  {
    if arc !in held {
      forall a: Arc
        ensures a in held <==> HasArc(Unlink(edges, arc.src, Edge(arc.dst, arc.tag)), a)
      {
        assert a in held ==> HasArc(edges, a);
        assert HasArc(edges, a) ==> a in held || a == arc;
        assert Edge(a.dst, a.tag) == Edge(arc.dst, arc.tag) && a.src == arc.src <==> a == arc;
      }
    }
  }

  // ----- the graph

  ghost predicate Consistent(nodes: set<Name>, edges: Edges<bool>, nodeRefcounts: map<Name, int>,
      edgeRefcounts: map<Arc, int>, direct: multiset<Name>, held: multiset<Arc>) {
    && Counts(nodeRefcounts, AllNodes(direct, held))
    && nodes == nodeRefcounts.Keys
    && Counts(edgeRefcounts, held)
    && Adjacent(edges, held)
  }

  /** Such a graph has no edge that leads out of its nodes. */
  lemma ConsistentClosed(nodes: set<Name>, edges: Edges<bool>, nodeRefcounts: map<Name, int>,
      edgeRefcounts: map<Arc, int>, direct: multiset<Name>, held: multiset<Arc>)
    requires Consistent(nodes, edges, nodeRefcounts, edgeRefcounts, direct, held)
    ensures Closed(nodes, edges)
  {
    WithinCounted(nodeRefcounts, direct, held);
    forall a, e | HasEdge(edges, a, e)
      ensures a in nodes && e.node in nodes
    {
      assert HasArc(edges, Arc(a, e.node, e.tag));
    }
  }

  class BagGraph {
    const graph: Graph.Graph<bool>
    var nodeRefcounts: map<Name, int>
    var edgeRefcounts: map<Arc, int>
    /** The nodes inserted on their own account, and the arcs inserted. */
    ghost var direct: multiset<Name>
    ghost var held: multiset<Arc>

    constructor ()
      ensures Valid() && direct == multiset{} && held == multiset{} && fresh(graph)
    {
      graph := new Graph.Graph<bool>();
      nodeRefcounts := map[];
      edgeRefcounts := map[];
      direct := multiset{};
      held := multiset{};
    }

    /** Nodes, counters and adjacency sets are those of a graph built from scratch by inserting
        the nodes of direct and the arcs of held. */
    ghost predicate Valid()
      reads this, graph
    {
      Consistent(graph.nodes.Keys, graph.edges, nodeRefcounts, edgeRefcounts, direct, held)
    }

    /** The counters count, and there is a node for each of them. */
    ghost predicate Tallied()
      reads this, graph
    {
      graph.nodes.Keys == nodeRefcounts.Keys && Positive(nodeRefcounts) && Positive(edgeRefcounts)
    }

    lemma ValidTallied()
      requires Valid()
      ensures Tallied()
    {
      CountsPositive(nodeRefcounts, AllNodes(direct, held));
      CountsPositive(edgeRefcounts, held);
    }

    /** One more of a node. */
    method CountNode(val: Name)
      modifies this`nodeRefcounts, graph`nodes
      ensures old(graph.Valid()) ==> graph.Valid()
      ensures graph.nodes.Keys == old(graph.nodes.Keys) + {val} && nodeRefcounts == Up(old(nodeRefcounts), val)
    {
      var _ := graph.AddNode(val);
      nodeRefcounts := Up(nodeRefcounts, val);
    }

    /** One less of a node, ignored if there is none; the last one takes the node's adjacency
        set with it. */
    method DiscountNode(val: Name)
      requires graph.nodes.Keys == nodeRefcounts.Keys
      modifies this`nodeRefcounts, graph`nodes, graph`edges
      ensures graph.nodes.Keys == nodeRefcounts.Keys && nodeRefcounts == Discount(old(nodeRefcounts), val)
      ensures Dropped(old(nodeRefcounts), old(graph.edges), val, graph.edges)
    {
      if val !in nodeRefcounts {
        return;
      }
      nodeRefcounts := Down(nodeRefcounts, val);
      if val !in nodeRefcounts {
        graph.DeleteNode(val);
      }
    }

    method AddNode(val: Name)
      requires Tallied()
      modifies this`nodeRefcounts, this`direct, graph`nodes
      ensures Tallied() && nodeRefcounts == Up(old(nodeRefcounts), val)
      ensures old(Valid()) ==> Valid()
      ensures direct == old(direct) + multiset{val}
    {
      hide AllNodes, Adjacent, Counts, Up, Positive, Closed;
      ghost var valid := Valid();
      PositiveUpDown(nodeRefcounts, val);
      if valid {
        AllNodesDirect(direct, held, val);
        CountsUp(nodeRefcounts, AllNodes(direct, held), val);
      }
      CountNode(val);
      direct := direct + multiset{val};
    }

    /** Ignored if the node is not counted.  For the graph to stay what direct and held say, the
        node must have been inserted on its own account. */
    method DeleteNode(val: Name)
      requires Tallied()
      modifies this`nodeRefcounts, this`direct, graph`nodes, graph`edges
      ensures Tallied() && nodeRefcounts == Discount(old(nodeRefcounts), val)
      ensures old(Valid()) && val in old(direct) ==> Valid()
      ensures direct == old(direct) - multiset{val}
    {
      hide AllNodes, Adjacent, Within, Counts, Positive, Down;
      ghost var valid, counts, edges := Valid() && val in direct, nodeRefcounts, graph.edges;
      PositiveUpDown(nodeRefcounts, val);
      if valid {
        AllNodesDirect(direct, held, val);
        CountsDown(nodeRefcounts, AllNodes(direct, held), val);
      }
      DiscountNode(val);
      direct := direct - multiset{val};
      if valid {
        WithinCounted(nodeRefcounts, direct, held);
        if val !in nodeRefcounts {
          AdjacentDrop(edges, held, nodeRefcounts.Keys, val);
        }
      }
    }

    method AddEdge(arc: Arc)
      requires Tallied()
      modifies this`nodeRefcounts, this`edgeRefcounts, this`held, graph`nodes, graph`edges
      ensures Tallied() && nodeRefcounts == Up(Up(old(nodeRefcounts), arc.src), arc.dst)
        && edgeRefcounts == Up(old(edgeRefcounts), arc)
      ensures old(Valid()) ==> Valid()
      ensures held == old(held) + multiset{arc}
    {
      hide Consistent, Link, Up, Positive, Closed;
      if Valid() {
        ConsistentMore(graph.nodes.Keys, graph.edges, nodeRefcounts, edgeRefcounts, direct, held, arc);
      }
      PositiveUpDown(nodeRefcounts, arc.src);
      PositiveUpDown(Up(nodeRefcounts, arc.src), arc.dst);
      PositiveUpDown(edgeRefcounts, arc);
      CountNode(arc.src);
      CountNode(arc.dst);
      graph.LinkNodes(arc.src, arc.dst, arc.tag);
      edgeRefcounts := Up(edgeRefcounts, arc);
      held := held + multiset{arc};
    }

    /** One less of both ends of an arc. */
    method DiscountEnds(arc: Arc) returns (ghost edges1: Edges<bool>)
      requires graph.nodes.Keys == nodeRefcounts.Keys
      modifies this`nodeRefcounts, graph`nodes, graph`edges
      ensures graph.nodes.Keys == nodeRefcounts.Keys
      ensures nodeRefcounts == Discount(Discount(old(nodeRefcounts), arc.src), arc.dst)
      ensures Dropped(old(nodeRefcounts), old(graph.edges), arc.src, edges1)
      ensures Dropped(Discount(old(nodeRefcounts), arc.src), edges1, arc.dst, graph.edges)
    {
      hide Discount;
      DiscountNode(arc.src);
      edges1 := graph.edges;
      DiscountNode(arc.dst);
    }

    /** One less of an arc, and of both its ends.  Ignored if the arc is not there. */
    method DeleteEdge(arc: Arc)
      requires Tallied()
      modifies this`nodeRefcounts, this`edgeRefcounts, this`held, graph`nodes, graph`edges
      ensures Tallied() && edgeRefcounts == Discount(old(edgeRefcounts), arc)
      ensures nodeRefcounts ==
        if arc in old(edgeRefcounts) then Discount(Discount(old(nodeRefcounts), arc.src), arc.dst)
          else old(nodeRefcounts)
      ensures old(Valid()) ==> Valid()
      ensures held == old(held) - multiset{arc}
      ensures arc !in old(edgeRefcounts) ==> graph.nodes == old(graph.nodes) && graph.edges == old(graph.edges)
    {
      hide Consistent, Unlink, Down, Positive, Discount;
      DiscountIs(edgeRefcounts, arc);
      ghost var counts, tallies, edges := nodeRefcounts, edgeRefcounts, graph.edges;
      PositiveUpDown(edgeRefcounts, arc);
      PositiveUpDown(nodeRefcounts, arc.src);
      PositiveUpDown(Discount(nodeRefcounts, arc.src), arc.dst);
      held := held - multiset{arc};
      if arc !in edgeRefcounts {
        if old(Valid()) {
          ConsistentSame(graph.nodes.Keys, graph.edges, nodeRefcounts, edgeRefcounts, direct, old(held), arc);
        }
        return;
      }
      ghost var edges1 := DiscountEnds(arc);
      ghost var edges2 := graph.edges;
      edgeRefcounts := Down(edgeRefcounts, arc);
      if arc !in edgeRefcounts {
        graph.DeleteEdge(arc.src, arc.dst, arc.tag);
      }
      if old(Valid()) {
        ConsistentLess(counts, tallies, direct, old(held), arc, edges, edges1, edges2);
      }
    }
  }

  lemma ConsistentMore(nodes: set<Name>, edges: Edges<bool>, nodeRefcounts: map<Name, int>,
      edgeRefcounts: map<Arc, int>, direct: multiset<Name>, held: multiset<Arc>, arc: Arc)
    requires Consistent(nodes, edges, nodeRefcounts, edgeRefcounts, direct, held)
    ensures Consistent(nodes + {arc.src} + {arc.dst}, Link(edges, arc.src, Edge(arc.dst, arc.tag)),
      Up(Up(nodeRefcounts, arc.src), arc.dst), Up(edgeRefcounts, arc), direct, held + multiset{arc})
  {
    hide AllNodes, Adjacent, Link, Up, Counts;
    var all := AllNodes(direct, held);
    AllNodesMore(direct, held, arc);
    CountsUp(nodeRefcounts, all, arc.src);
    CountsUp(Up(nodeRefcounts, arc.src), all + multiset{arc.src}, arc.dst);
    CountsUp(edgeRefcounts, held, arc);
    AdjacentLink(edges, held, arc);
    UpKeys(nodeRefcounts, arc.src);
    UpKeys(Up(nodeRefcounts, arc.src), arc.dst);
  }

  lemma ConsistentSame(nodes: set<Name>, edges: Edges<bool>, nodeRefcounts: map<Name, int>,
      edgeRefcounts: map<Arc, int>, direct: multiset<Name>, held: multiset<Arc>, arc: Arc)
    requires Consistent(nodes, edges, nodeRefcounts, edgeRefcounts, direct, held) && arc !in edgeRefcounts
    ensures Consistent(nodes, edges, nodeRefcounts, edgeRefcounts, direct, held - multiset{arc})
  {
    CountsDown(edgeRefcounts, held, arc);
  }

  lemma ConsistentLess(counts: map<Name, int>, tallies: map<Arc, int>, direct: multiset<Name>,
      held: multiset<Arc>, arc: Arc, edges: Edges<bool>, edges1: Edges<bool>, edges2: Edges<bool>)
    requires Consistent(counts.Keys, edges, counts, tallies, direct, held) && arc in tallies
    requires Dropped(counts, edges, arc.src, edges1) && Dropped(Discount(counts, arc.src), edges1, arc.dst, edges2)
    ensures var counts2 := Discount(Discount(counts, arc.src), arc.dst);
      Consistent(counts2.Keys,
        if arc in Down(tallies, arc) then edges2 else Unlink(edges2, arc.src, Edge(arc.dst, arc.tag)),
        counts2, Down(tallies, arc), direct, held - multiset{arc})
  {
    hide AllNodes, Adjacent, Nearly, Unlink, Counts, Down;
    CountsDown(tallies, held, arc);
    EndsGone(counts, direct, held, arc, edges, edges1, edges2);
    AdjacentUnlink(edges2, held - multiset{arc}, arc);
  }

  /** With both ends of an arc discounted, the counters count what is left, and no other arc has
      been lost with them. */
  lemma EndsGone(counts: map<Name, int>, direct: multiset<Name>, held: multiset<Arc>, arc: Arc,
      edges: Edges<bool>, edges1: Edges<bool>, edges2: Edges<bool>)
    requires Counts(counts, AllNodes(direct, held)) && arc in held && Adjacent(edges, held)
    requires Dropped(counts, edges, arc.src, edges1) && Dropped(Discount(counts, arc.src), edges1, arc.dst, edges2)
    ensures Counts(Discount(Discount(counts, arc.src), arc.dst), AllNodes(direct, held - multiset{arc}))
    ensures Nearly(edges2, held - multiset{arc}, arc)
  {
    hide AllNodes, Adjacent, Nearly, Counts, Down, Within;
    var all, rest := AllNodes(direct, held), held - multiset{arc};
    var counts1 := Discount(counts, arc.src);
    var counts2 := Discount(counts1, arc.dst);
    NearlyStart(edges, held, arc);
    AllNodesLess(direct, held, arc);
    CountsDown(counts, all, arc.src);
    DownKeys(counts, arc.src);
    CountsDown(counts1, all - multiset{arc.src}, arc.dst);
    DownKeys(counts1, arc.dst);
    WithinCounted(counts2, direct, rest);
    NearlyDrop(edges, edges1, rest, arc, counts2.Keys, arc.src);
    NearlyDrop(edges1, edges2, rest, arc, counts2.Keys, arc.dst);
  }

  lemma UpKeys<T>(m: map<T, int>, t: T)
    ensures Up(m, t).Keys == m.Keys + {t}
  {
  }

  lemma DownKeys<T>(m: map<T, int>, t: T)
    requires t in m
    ensures Down(m, t).Keys == m.Keys || Down(m, t).Keys == m.Keys - {t}
    ensures t in Down(m, t) ==> Down(m, t).Keys == m.Keys
  {
  }
}
