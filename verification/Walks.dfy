/** Directed graphs with labelled edges, seen as values: walks, cycles and reachability. */
module Walks {
  import opened Options
  import opened Datalog

  /** An edge, to a node, with a label or none. */
  datatype Edge<L> = Edge(node: Name, tag: Option<L>)

  type Edges<L(==)> = map<Name, set<Edge<L>>>

  predicate HasEdge<L(!new)>(edges: Edges<L>, a: Name, e: Edge<L>) {
    a in edges && e in edges[a]
  }

  function Link<L(==)>(edges: Edges<L>, a: Name, e: Edge<L>): Edges<L> {
    edges[a := (if a in edges then edges[a] else {}) + {e}]
  }

  function Unlink<L(==)>(edges: Edges<L>, a: Name, e: Edge<L>): Edges<L> {
    if a in edges then edges[a := edges[a] - {e}] else edges
  }

  /** There is an edge from a to b, whatever its label. */
  ghost predicate Linked<L(!new)>(edges: Edges<L>, a: Name, b: Name) {
    exists e :: HasEdge(edges, a, e) && e.node == b
  }

  /** Every edge starts and ends at a node. */
  ghost predicate Closed<L(!new)>(nodes: set<Name>, edges: Edges<L>) {
    forall a, e :: HasEdge(edges, a, e) ==> a in nodes && e.node in nodes
  }

  // ----- walks, edge by edge

  datatype Step<L> = Step(from: Name, edge: Edge<L>)

  ghost predicate IsWalk<L(!new)>(edges: Edges<L>, w: seq<Step<L>>) {
    && (forall i :: 0 <= i < |w| ==> HasEdge(edges, w[i].from, w[i].edge))
    && (forall i :: 0 <= i < |w| - 1 ==> w[i].edge.node == w[i + 1].from)
  }

  ghost predicate IsCycle<L(!new)>(edges: Edges<L>, w: seq<Step<L>>) {
    IsWalk(edges, w) && w != [] && w[|w| - 1].edge.node == w[0].from
  }

  ghost predicate Cyclic<L(!new)>(edges: Edges<L>) {
    exists w: seq<Step<L>> :: IsCycle(edges, w)
  }

  ghost predicate HasLabel<L(!new)>(w: seq<Step<L>>, labels: set<Option<L>>) {
    exists i :: 0 <= i < |w| && w[i].edge.tag in labels
  }

  /** Some cycle contains an edge with one of the labels. */
  ghost predicate LabelledCycle<L(!new)>(edges: Edges<L>, labels: set<Option<L>>) {
    exists w: seq<Step<L>> :: IsCycle(edges, w) && HasLabel(w, labels)
  }

  function Cost<L(==)>(e: Edge<L>, labels: set<Option<L>>): nat {
    if e.tag in labels then 1 else 0
  }

  ghost function LabelCount<L(!new)>(w: seq<Step<L>>, labels: set<Option<L>>): nat {
    if w == [] then 0 else Cost(w[0].edge, labels) + LabelCount(w[1..], labels)
  }

  /** The positions ps in a walk are marked by labels, in rising order. */
  ghost predicate Marked<L(!new)>(w: seq<Step<L>>, labels: set<Option<L>>, ps: seq<nat>) {
    && (forall i :: 0 <= i < |ps| ==> ps[i] < |w| && w[ps[i]].edge.tag in labels)
    && (forall i, j :: 0 <= i < j < |ps| ==> ps[i] < ps[j])
  }

  function Moved(ps: seq<nat>): (moved: seq<nat>)
    ensures |moved| == |ps| && forall i :: 0 <= i < |ps| ==> moved[i] == ps[i] + 1
  {
    seq(|ps|, i requires 0 <= i < |ps| => ps[i] + 1)
  }

  lemma MarkedMoved<L(!new)>(w: seq<Step<L>>, labels: set<Option<L>>, ps: seq<nat>)
    requires w != [] && Marked(w[1..], labels, ps)
    ensures Marked(w, labels, Moved(ps))
    ensures w[0].edge.tag in labels ==> Marked(w, labels, [0] + Moved(ps))
  {
    var moved := Moved(ps);
    forall i | 0 <= i < |moved|
      ensures moved[i] < |w| && w[moved[i]].edge.tag in labels
    {
      assert w[moved[i]] == w[1..][ps[i]];
    }
  }

  /** The positions of the edges with one of the labels. */
  ghost function Marks<L(!new)>(w: seq<Step<L>>, labels: set<Option<L>>): (ps: seq<nat>)
    ensures |ps| == LabelCount(w, labels) && Marked(w, labels, ps)
  {
    if w == [] then []
    else
      var rest := Marks(w[1..], labels);
      MarkedMoved(w, labels, rest);
      if w[0].edge.tag in labels then [0] + Moved(rest) else Moved(rest)
  }

  lemma {:induction false} Pigeonhole(nodes: set<Name>, xs: seq<Name>) returns (i: nat, j: nat)
    requires |xs| > |nodes| && forall k :: 0 <= k < |xs| ==> xs[k] in nodes
    ensures i < j < |xs| && xs[i] == xs[j]
    decreases |xs|
  {
    var last := |xs| - 1;
    if k :| 0 <= k < last && xs[k] == xs[last] {
      return k, last;
    }
    i, j := Pigeonhole(nodes - {xs[last]}, xs[..last]);
  }

  /** A walk with as many labelled edges as there are nodes goes round a labelled cycle. */
  lemma LongWalkCycles<L(!new)>(nodes: set<Name>, edges: Edges<L>, w: seq<Step<L>>, labels: set<Option<L>>)
    requires Closed(nodes, edges) && IsWalk(edges, w) && LabelCount(w, labels) >= |nodes| && w != []
    ensures LabelledCycle(edges, labels)
  {
    var ps := Marks(w, labels);
    var xs := seq(|ps|, k requires 0 <= k < |ps| => w[ps[k]].from) + [w[|w| - 1].edge.node];
    forall k | 0 <= k < |xs|
      ensures xs[k] in nodes
    {
      assert k < |ps| ==> HasEdge(edges, w[ps[k]].from, w[ps[k]].edge);
      assert HasEdge(edges, w[|w| - 1].from, w[|w| - 1].edge);
    }
    var i, j := Pigeonhole(nodes, xs);
    var stop := if j < |ps| then ps[j] else |w|;
    var c := w[ps[i]..stop];
    assert IsWalk(edges, c) by {
      forall k | 0 <= k < |c|
        ensures HasEdge(edges, c[k].from, c[k].edge) && (k < |c| - 1 ==> c[k].edge.node == c[k + 1].from)
      {
        assert c[k] == w[ps[i] + k];
        assert k < |c| - 1 ==> c[k + 1] == w[ps[i] + k + 1];
      }
    }
    assert c[0] == w[ps[i]] && c[|c| - 1] == w[stop - 1];
    assert IsCycle(edges, c) && HasLabel(c, labels);
  }

  // ----- strata

  type Strata = map<Name, int>

  /** A node is at least as high as what it depends on, and higher across a listed label. */
  ghost predicate Respects<L(!new)>(edges: Edges<L>, labels: set<Option<L>>, s: Strata) {
    forall a, e :: HasEdge(edges, a, e) ==> a in s && e.node in s && s[a] >= Cost(e, labels) + s[e.node]
  }

  ghost predicate IsStrata<L(!new)>(nodes: set<Name>, edges: Edges<L>, labels: set<Option<L>>, s: Strata) {
    s.Keys == nodes && (forall n :: n in s ==> s[n] >= 1) && Respects(edges, labels, s)
  }

  lemma {:induction false} WalkDescends<L(!new)>(edges: Edges<L>, labels: set<Option<L>>, s: Strata, w: seq<Step<L>>)
    requires Respects(edges, labels, s) && IsWalk(edges, w) && w != []
    ensures w[0].from in s && w[|w| - 1].edge.node in s
    ensures s[w[0].from] >= LabelCount(w, labels) + s[w[|w| - 1].edge.node]
    decreases |w|
  {
    assert HasEdge(edges, w[0].from, w[0].edge);
    if |w| > 1 {
      assert IsWalk(edges, w[1..]) by {
        forall i | 0 <= i < |w[1..]|
          ensures HasEdge(edges, w[1..][i].from, w[1..][i].edge)
            && (i < |w[1..]| - 1 ==> w[1..][i].edge.node == w[1..][i + 1].from)
        {
          assert w[1..][i] == w[i + 1];
          assert i < |w[1..]| - 1 ==> w[1..][i + 1] == w[i + 2];
        }
      }
      WalkDescends(edges, labels, s, w[1..]);
    }
  }

  lemma {:induction false} LabelCounted<L(!new)>(w: seq<Step<L>>, labels: set<Option<L>>, i: nat)
    requires i < |w| && w[i].edge.tag in labels
    ensures LabelCount(w, labels) > 0
    decreases i
  {
    if i > 0 {
      LabelCounted(w[1..], labels, i - 1);
    }
  }

  /** A graph with strata has no labelled cycle. */
  lemma StrataExcludeCycles<L(!new)>(edges: Edges<L>, labels: set<Option<L>>, s: Strata)
    requires Respects(edges, labels, s)
    ensures !LabelledCycle(edges, labels)
  {
    forall w: seq<Step<L>> | IsCycle(edges, w)
      ensures !HasLabel(w, labels)
    {
      WalkDescends(edges, labels, s, w);
      if HasLabel(w, labels) {
        var i :| 0 <= i < |w| && w[i].edge.tag in labels;
        LabelCounted(w, labels, i);
      }
    }
  }

  /** There is a walk from n across k labelled edges. */
  ghost predicate Climbs<L(!new)>(edges: Edges<L>, labels: set<Option<L>>, n: Name, k: int) {
    exists w: seq<Step<L>> :: IsWalk(edges, w) && (w == [] || w[0].from == n) && LabelCount(w, labels) == k
  }

  lemma ClimbsNone<L(!new)>(edges: Edges<L>, labels: set<Option<L>>, n: Name)
    ensures Climbs(edges, labels, n, 0)
  {
    assert IsWalk(edges, []) && LabelCount([], labels) == 0;
  }

  lemma ClimbsStep<L(!new)>(edges: Edges<L>, labels: set<Option<L>>, n: Name, e: Edge<L>, k: int)
    requires HasEdge(edges, n, e) && Climbs(edges, labels, e.node, k)
    ensures Climbs(edges, labels, n, k + Cost(e, labels))
  {
    var w: seq<Step<L>> :| IsWalk(edges, w) && (w == [] || w[0].from == e.node) && LabelCount(w, labels) == k;
    var w' := [Step(n, e)] + w;
    assert w'[1..] == w;
    forall i | 0 <= i < |w'|
      ensures HasEdge(edges, w'[i].from, w'[i].edge) && (i < |w'| - 1 ==> w'[i].edge.node == w'[i + 1].from)
    {
      assert i > 0 ==> w'[i] == w[i - 1];
      assert i < |w'| - 1 ==> w'[i + 1] == w[i];
    }
    assert IsWalk(edges, w') && LabelCount(w', labels) == k + Cost(e, labels);
  }

  /** A node that climbs as high as there are nodes lies before a labelled cycle. */
  lemma HighClimbCycles<L(!new)>(nodes: set<Name>, edges: Edges<L>, labels: set<Option<L>>, n: Name, k: int)
    requires Closed(nodes, edges) && n in nodes && k >= |nodes| && Climbs(edges, labels, n, k)
    ensures LabelledCycle(edges, labels)
  {
    var w: seq<Step<L>> :| IsWalk(edges, w) && (w == [] || w[0].from == n) && LabelCount(w, labels) == k;
    assert |nodes| > 0 by {
      assert {n} <= nodes;
      assert |nodes| == |nodes - {n}| + 1;
    }
    LongWalkCycles(nodes, edges, w, labels);
  }

  /** The highest climb from n that is at most top. */
  ghost function Highest<L(!new)>(edges: Edges<L>, labels: set<Option<L>>, n: Name, top: int): (k: int)
    requires top >= 0
    ensures 0 <= k <= top && Climbs(edges, labels, n, k)
    ensures forall j :: k < j <= top ==> !Climbs(edges, labels, n, j)
  {
    ClimbsNone(edges, labels, n);
    if Climbs(edges, labels, n, top) then top
    else Highest(edges, labels, n, top - 1)
  }

  /** A graph without a labelled cycle has strata. */
  lemma NoCycleHasStrata<L(!new)>(nodes: set<Name>, edges: Edges<L>, labels: set<Option<L>>)
    requires Closed(nodes, edges) && !LabelledCycle(edges, labels)
    ensures exists s :: IsStrata(nodes, edges, labels, s)
  {
    var top := |nodes|;
    var s: Strata := map n | n in nodes :: 1 + Highest(edges, labels, n, top);
    forall a, e | HasEdge(edges, a, e)
      ensures a in s && e.node in s && s[a] >= Cost(e, labels) + s[e.node]
    {
      var k := Highest(edges, labels, e.node, top);
      ClimbsStep(edges, labels, a, e, k);
      if k + Cost(e, labels) >= top {
        HighClimbCycles(nodes, edges, labels, a, k + Cost(e, labels));
      }
    }
    assert IsStrata(nodes, edges, labels, s);
  }

  // ----- paths, node by node

  ghost predicate IsPath<L(!new)>(edges: Edges<L>, p: seq<Name>) {
    forall i :: 0 <= i < |p| - 1 ==> Linked(edges, p[i], p[i + 1])
  }

  ghost predicate Reaches<L(!new)>(edges: Edges<L>, a: Name, b: Name) {
    exists p: seq<Name> :: IsPath(edges, p) && p != [] && p[0] == a && p[|p| - 1] == b
  }

  lemma ReachesSelf<L(!new)>(edges: Edges<L>, a: Name)
    ensures Reaches(edges, a, a)
  {
    assert IsPath(edges, [a]) && [a][0] == a;
  }

  lemma ReachesStep<L(!new)>(edges: Edges<L>, a: Name, e: Edge<L>, b: Name)
    requires HasEdge(edges, a, e) && Reaches(edges, e.node, b)
    ensures Reaches(edges, a, b)
  {
    var p: seq<Name> :| IsPath(edges, p) && p != [] && p[0] == e.node && p[|p| - 1] == b;
    var q := [a] + p;
    assert IsPath(edges, q) && q[0] == a && q[|q| - 1] == b;
  }

  lemma PathStep<L(!new)>(edges: Edges<L>, p: seq<Name>, e: Edge<L>)
    requires IsPath(edges, p) && p != [] && HasEdge(edges, p[|p| - 1], e)
    ensures IsPath(edges, p + [e.node])
  {
  }

  /** Whatever is new among the visited has all of its successors among the visited. */
  ghost predicate Explored<L(!new)>(edges: Edges<L>, before: set<Name>, now: set<Name>) {
    forall a, b :: a in now && a !in before && Linked(edges, a, b) ==> b in now
  }

  /** Something new among the visited has an edge to the target. */
  ghost predicate Leads<L(!new)>(edges: Edges<L>, before: set<Name>, now: set<Name>, target: Name) {
    exists a :: a in now && a !in before && Linked(edges, a, target)
  }

  /** A path of at least one edge from start to the target. */
  ghost predicate ComesBack<L(!new)>(edges: Edges<L>, p: seq<Name>, start: Name, target: Option<Name>) {
    IsPath(edges, p) && |p| > 1 && p[0] == start && Some(p[|p| - 1]) == target
  }

  lemma {:induction false} PathStays<L(!new)>(edges: Edges<L>, visited: set<Name>, p: seq<Name>, i: nat)
    requires Explored(edges, {}, visited) && IsPath(edges, p) && i < |p| && p[0] in visited
    ensures p[i] in visited
  {
    if i > 0 {
      PathStays(edges, visited, p, i - 1);
      assert Linked(edges, p[i - 1], p[i - 1 + 1]);
    }
  }

  /** A set that contains the successors of its members contains all that they reach. */
  lemma ReachesStays<L(!new)>(edges: Edges<L>, visited: set<Name>, a: Name, b: Name)
    requires Explored(edges, {}, visited) && a in visited && Reaches(edges, a, b)
    ensures b in visited
  {
    var p: seq<Name> :| IsPath(edges, p) && p != [] && p[0] == a && p[|p| - 1] == b;
    PathStays(edges, visited, p, |p| - 1);
  }

  /** v is reachable from one of the roots that are nodes. */
  ghost predicate FromRoots<L(!new)>(nodes: set<Name>, edges: Edges<L>, roots: set<Name>, v: Name) {
    exists r :: r in roots && r in nodes && Reaches(edges, r, v)
  }

  ghost predicate ClosedPath<L(!new)>(edges: Edges<L>, p: seq<Name>) {
    IsPath(edges, p) && |p| > 1 && p[0] == p[|p| - 1]
  }

  function Reverse(p: seq<Name>): (r: seq<Name>)
    ensures |r| == |p| && forall i :: 0 <= i < |r| ==> r[i] == p[|p| - 1 - i]
  {
    seq(|p|, i requires 0 <= i < |p| => p[|p| - 1 - i])
  }

  ghost predicate Inverse<L(!new)>(edges: Edges<L>, inverted: Edges<L>) {
    forall a, b :: Linked(edges, a, b) <==> Linked(inverted, b, a)
  }

  lemma ReachesBack<L(!new)>(edges: Edges<L>, inverted: Edges<L>, a: Name, b: Name)
    requires Inverse(edges, inverted) && Reaches(edges, a, b)
    ensures Reaches(inverted, b, a)
  {
    var p: seq<Name> :| IsPath(edges, p) && p != [] && p[0] == a && p[|p| - 1] == b;
    var q := Reverse(p);
    forall i | 0 <= i < |q| - 1
      ensures Linked(inverted, q[i], q[i + 1])
    {
      var j := |p| - 2 - i;
      assert Linked(edges, p[j], p[j + 1]);
    }
    assert IsPath(inverted, q) && q[0] == b && q[|q| - 1] == a;
  }

  /** Some edge from a to b. */
  ghost function EdgeOf<L(!new)>(edges: Edges<L>, a: Name, b: Name): (e: Edge<L>)
    requires Linked(edges, a, b)
    ensures HasEdge(edges, a, e) && e.node == b
  {
    var e :| HasEdge(edges, a, e) && e.node == b;
    e
  }

  /** A closed path round a graph is a cycle of edges, and the other way round. */
  lemma ClosedPathCycle<L(!new)>(edges: Edges<L>, p: seq<Name>)
    requires ClosedPath(edges, p)
    ensures Cyclic(edges)
  {
    assert forall i :: 0 <= i < |p| - 1 ==> Linked(edges, p[i], p[i + 1]);
    var w := seq(|p| - 1, i requires 0 <= i < |p| - 1 => Step(p[i], EdgeOf(edges, p[i], p[i + 1])));
    assert IsCycle(edges, w);
  }

  lemma CycleClosedPath<L(!new)>(edges: Edges<L>, w: seq<Step<L>>)
    requires IsCycle(edges, w)
    ensures exists p :: ClosedPath(edges, p)
  {
    var p := seq(|w| + 1, i requires 0 <= i < |w| + 1 => if i < |w| then w[i].from else w[0].from);
    forall i | 0 <= i < |p| - 1
      ensures Linked(edges, p[i], p[i + 1])
    {
      assert HasEdge(edges, w[i].from, w[i].edge);
    }
    assert ClosedPath(edges, p);
  }

  lemma CyclesAgree<L(!new)>(edges: Edges<L>)
    ensures Cyclic(edges) <==> exists p :: ClosedPath(edges, p)
  {
    if p :| ClosedPath(edges, p) {
      ClosedPathCycle(edges, p);
    }
    if w :| IsCycle(edges, w) {
      CycleClosedPath(edges, w);
    }
  }
}
