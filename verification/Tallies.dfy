/** Counters of nodes and arcs under lists of changes, in whatever order and whether or not there
    is anything to count down: when taking the changes back restores the counters. */
module Tallies {
  import opened Datalog
  import opened Options
  import opened DependencyGraph

  datatype Change = NodeChange(node: Name, insert: bool) | EdgeChange(arc: Arc, insert: bool)

  /** The counters of a BagGraph. */
  datatype Tally = Tally(nodes: map<Name, int>, arcs: map<Arc, int>)

  function Opposite(c: Change): Change {
    c.(insert := !c.insert)
  }

  function Opposites(cs: seq<Change>): (inv: seq<Change>)
    ensures |inv| == |cs| && forall i :: 0 <= i < |cs| ==> inv[i] == Opposite(cs[i])
  {
    seq(|cs|, i requires 0 <= i < |cs| => Opposite(cs[i]))
  }

  /** What add_node, delete_node, add_edge and delete_edge do to the counters. */
  function Made(t: Tally, c: Change): Tally {
    match c
    case NodeChange(n, insert) => t.(nodes := if insert then Up(t.nodes, n) else Discount(t.nodes, n))
    case EdgeChange(a, insert) =>
      if insert then Tally(Up(Up(t.nodes, a.src), a.dst), Up(t.arcs, a))
      else if a in t.arcs then Tally(Discount(Discount(t.nodes, a.src), a.dst), Discount(t.arcs, a))
      else t
  }

  function AllMade(t: Tally, cs: seq<Change>): Tally {
    if cs == [] then t else Made(AllMade(t, cs[..|cs| - 1]), cs[|cs| - 1])
  }

  /** Whatever the change counts down is there. */
  predicate Finds(t: Tally, c: Change) {
    c.insert ||
    match c
    case NodeChange(n, _) => n in t.nodes
    case EdgeChange(a, _) => a in t.arcs && a.src in t.nodes && a.dst in Discount(t.nodes, a.src)
  }

  predicate FindsAll(t: Tally, cs: seq<Change>) {
    forall i :: 0 <= i < |cs| ==> Finds(AllMade(t, cs[..i]), cs[i])
  }

  ghost predicate IsTally(t: Tally) {
    Positive(t.nodes) && Positive(t.arcs)
  }

  function CountOf<T>(m: map<T, int>, x: T): int {
    if x in m then m[x] else 0
  }

  // ----- the net change

  function Sign(insert: bool): int {
    if insert then 1 else -1
  }

  function NodeNet(c: Change, n: Name): int {
    match c
    case NodeChange(m, insert) => if m == n then Sign(insert) else 0
    case EdgeChange(a, insert) => (if a.src == n then Sign(insert) else 0) + if a.dst == n then Sign(insert) else 0
  }

  function ArcNet(c: Change, a: Arc): int {
    if c.EdgeChange? && c.arc == a then Sign(c.insert) else 0
  }

  function NodesNet(cs: seq<Change>, n: Name): int {
    if cs == [] then 0 else NodesNet(cs[..|cs| - 1], n) + NodeNet(cs[|cs| - 1], n)
  }

  function ArcsNet(cs: seq<Change>, a: Arc): int {
    if cs == [] then 0 else ArcsNet(cs[..|cs| - 1], a) + ArcNet(cs[|cs| - 1], a)
  }

  lemma {:induction false} OppositeNets(cs: seq<Change>, n: Name, a: Arc)
    ensures NodesNet(Opposites(cs), n) == -NodesNet(cs, n) && ArcsNet(Opposites(cs), a) == -ArcsNet(cs, a)
    decreases |cs|
  {
    if cs != [] {
      var k := |cs| - 1;
      assert Opposites(cs)[..k] == Opposites(cs[..k]);
      OppositeNets(cs[..k], n, a);
    }
  }

  /** From one state of the counters to another with at least some net change. */
  ghost predicate AtLeast(b: Tally, a: Tally, nodes: Name -> int, arcs: Arc -> int) {
    && (forall n :: CountOf(a.nodes, n) >= CountOf(b.nodes, n) + nodes(n))
    && (forall x :: CountOf(a.arcs, x) >= CountOf(b.arcs, x) + arcs(x))
  }

  ghost predicate Exactly(b: Tally, a: Tally, nodes: Name -> int, arcs: Arc -> int) {
    && (forall n :: CountOf(a.nodes, n) == CountOf(b.nodes, n) + nodes(n))
    && (forall x :: CountOf(a.arcs, x) == CountOf(b.arcs, x) + arcs(x))
  }

  ghost function NodeNets(cs: seq<Change>): Name -> int {
    n => NodesNet(cs, n)
  }

  ghost function ArcNets(cs: seq<Change>): Arc -> int {
    a => ArcsNet(cs, a)
  }

  lemma UpCounts<T>(m: map<T, int>, t: T, x: T)
    ensures CountOf(Up(m, t), x) == CountOf(m, x) + if x == t then 1 else 0
  {
  }

  lemma DiscountCounts<T>(m: map<T, int>, t: T, x: T)
    ensures CountOf(Discount(m, t), x) == CountOf(m, x) - if x == t && t in m then 1 else 0
  {
  }

  /** One change changes the counters by its net change or, where it found nothing to count
      down, leaves a counter higher. */
  lemma MadeCounts(t: Tally, c: Change)
    requires IsTally(t)
    ensures IsTally(Made(t, c))
    ensures forall n :: CountOf(Made(t, c).nodes, n) >= CountOf(t.nodes, n) + NodeNet(c, n)
    ensures forall x :: CountOf(Made(t, c).arcs, x) >= CountOf(t.arcs, x) + ArcNet(c, x)
    ensures Finds(t, c) <==>
      && (forall n :: CountOf(Made(t, c).nodes, n) == CountOf(t.nodes, n) + NodeNet(c, n))
      && (forall x :: CountOf(Made(t, c).arcs, x) == CountOf(t.arcs, x) + ArcNet(c, x))
  {
    match c
    case NodeChange(m, insert) =>
      NodeMadeCounts(t, m, insert);
      assert NodeNet(c, m) == Sign(insert);
    case EdgeChange(a, insert) =>
      if insert {
        ArcMadeCounts(t, a);
      } else {
        ArcUnmadeCounts(t, a);
      }
  }

  lemma NodeMadeCounts(t: Tally, m: Name, insert: bool)
    requires IsTally(t)
    ensures var t' := Made(t, NodeChange(m, insert));
      && IsTally(t') && t'.arcs == t.arcs
      && forall n ::
        CountOf(t'.nodes, n) == CountOf(t.nodes, n) + if n == m && (insert || m in t.nodes) then Sign(insert) else 0
  {
    PositiveUpDown(t.nodes, m);
    forall n
      ensures CountOf(Up(t.nodes, m), n) == CountOf(t.nodes, n) + if n == m then 1 else 0
      ensures CountOf(Discount(t.nodes, m), n) == CountOf(t.nodes, n) - if n == m && m in t.nodes then 1 else 0
    {
      UpCounts(t.nodes, m, n);
      DiscountCounts(t.nodes, m, n);
    }
  }

  lemma ArcMadeCounts(t: Tally, a: Arc)
    requires IsTally(t)
    ensures var t', c := Made(t, EdgeChange(a, true)), EdgeChange(a, true);
      && IsTally(t')
      && (forall n :: CountOf(t'.nodes, n) == CountOf(t.nodes, n) + NodeNet(c, n))
      && forall x :: CountOf(t'.arcs, x) == CountOf(t.arcs, x) + ArcNet(c, x)
  {
    hide Up;
    PositiveUpDown(t.nodes, a.src);
    PositiveUpDown(Up(t.nodes, a.src), a.dst);
    PositiveUpDown(t.arcs, a);
    forall n
      ensures CountOf(Up(Up(t.nodes, a.src), a.dst), n) == CountOf(t.nodes, n) + NodeNet(EdgeChange(a, true), n)
    {
      UpCounts(t.nodes, a.src, n);
      UpCounts(Up(t.nodes, a.src), a.dst, n);
    }
    forall x
      ensures CountOf(Up(t.arcs, a), x) == CountOf(t.arcs, x) + ArcNet(EdgeChange(a, true), x)
    {
      UpCounts(t.arcs, a, x);
    }
  }

  lemma ArcUnmadeCounts(t: Tally, a: Arc)
    requires IsTally(t)
    ensures var t', c := Made(t, EdgeChange(a, false)), EdgeChange(a, false);
      && IsTally(t')
      && (forall n :: CountOf(t'.nodes, n) >= CountOf(t.nodes, n) + NodeNet(c, n))
      && (forall x :: CountOf(t'.arcs, x) >= CountOf(t.arcs, x) + ArcNet(c, x))
      && (Finds(t, c) <==>
        && (forall n :: CountOf(t'.nodes, n) == CountOf(t.nodes, n) + NodeNet(c, n))
        && (forall x :: CountOf(t'.arcs, x) == CountOf(t.arcs, x) + ArcNet(c, x)))
  {
    hide Discount, Positive;
    var c, less := EdgeChange(a, false), Discount(t.nodes, a.src);
    PositiveUpDown(t.nodes, a.src);
    PositiveUpDown(less, a.dst);
    PositiveUpDown(t.arcs, a);
    forall n
      ensures CountOf(Discount(less, a.dst), n) == CountOf(t.nodes, n)
        - (if n == a.src && a.src in t.nodes then 1 else 0) - if n == a.dst && a.dst in less then 1 else 0
    {
      DiscountCounts(t.nodes, a.src, n);
      DiscountCounts(less, a.dst, n);
    }
    forall x
      ensures CountOf(Discount(t.arcs, a), x) == CountOf(t.arcs, x) - if x == a && a in t.arcs then 1 else 0
    {
      DiscountCounts(t.arcs, a, x);
    }
    assert NodeNet(c, a.src) < 0 && NodeNet(c, a.dst) < 0 && ArcNet(c, a) == -1;
  }

  /** The same for a list of changes: what is not found is never made up for. */
  lemma {:induction false} AllMadeCounts(t: Tally, cs: seq<Change>)
    requires IsTally(t)
    ensures IsTally(AllMade(t, cs)) && AtLeast(t, AllMade(t, cs), NodeNets(cs), ArcNets(cs))
    ensures FindsAll(t, cs) <==> Exactly(t, AllMade(t, cs), NodeNets(cs), ArcNets(cs))
    decreases |cs|
  {
    hide Made, Finds, CountOf, NodeNet, ArcNet;
    if cs != [] {
      var k := |cs| - 1;
      var init, c, now := cs[..k], cs[k], AllMade(t, cs[..k]);
      AllMadeCounts(t, init);
      MadeCounts(now, c);
      FindsAllLast(t, cs);
      if FindsAll(t, cs) {
      } else if FindsAll(t, init) {
        HigherLast(t, cs);
      } else {
        HigherFirst(t, cs);
      }
    }
  }

  lemma FindsAllLast(t: Tally, cs: seq<Change>)
    requires cs != []
    ensures var k := |cs| - 1;
      FindsAll(t, cs) <==> FindsAll(t, cs[..k]) && Finds(AllMade(t, cs[..k]), cs[k])
  {
    hide Finds, AllMade;
    var k := |cs| - 1;
    forall i | 0 <= i < k
      ensures cs[..k][..i] == cs[..i]
    {
    }
    if FindsAll(t, cs[..k]) && Finds(AllMade(t, cs[..k]), cs[k]) {
      forall i | 0 <= i < |cs|
        ensures Finds(AllMade(t, cs[..i]), cs[i])
      {
        if i < k {
          assert Finds(AllMade(t, cs[..k][..i]), cs[..k][i]);
        }
      }
    }
    if FindsAll(t, cs) {
      forall i | 0 <= i < k
        ensures Finds(AllMade(t, cs[..k][..i]), cs[..k][i])
      {
        assert Finds(AllMade(t, cs[..i]), cs[i]);
      }
    }
  }

  lemma HigherLast(t: Tally, cs: seq<Change>)
    requires cs != []
    requires var init, c, now := cs[..|cs| - 1], cs[|cs| - 1], AllMade(t, cs[..|cs| - 1]);
      && Exactly(t, now, NodeNets(init), ArcNets(init))
      && !((forall n :: CountOf(Made(now, c).nodes, n) == CountOf(now.nodes, n) + NodeNet(c, n))
        && (forall x :: CountOf(Made(now, c).arcs, x) == CountOf(now.arcs, x) + ArcNet(c, x)))
    ensures !Exactly(t, AllMade(t, cs), NodeNets(cs), ArcNets(cs))
  {
    hide Made, CountOf, NodeNet, ArcNet;
    var init, c, now := cs[..|cs| - 1], cs[|cs| - 1], AllMade(t, cs[..|cs| - 1]);
    if n :| CountOf(Made(now, c).nodes, n) != CountOf(now.nodes, n) + NodeNet(c, n) {
      assert NodeNets(cs)(n) == NodeNets(init)(n) + NodeNet(c, n);
    } else {
      var x :| CountOf(Made(now, c).arcs, x) != CountOf(now.arcs, x) + ArcNet(c, x);
      assert ArcNets(cs)(x) == ArcNets(init)(x) + ArcNet(c, x);
    }
  }

  lemma HigherFirst(t: Tally, cs: seq<Change>)
    requires cs != []
    requires var init, c, now := cs[..|cs| - 1], cs[|cs| - 1], AllMade(t, cs[..|cs| - 1]);
      && AtLeast(t, now, NodeNets(init), ArcNets(init)) && !Exactly(t, now, NodeNets(init), ArcNets(init))
      && (forall n :: CountOf(Made(now, c).nodes, n) >= CountOf(now.nodes, n) + NodeNet(c, n))
      && (forall x :: CountOf(Made(now, c).arcs, x) >= CountOf(now.arcs, x) + ArcNet(c, x))
    ensures !Exactly(t, AllMade(t, cs), NodeNets(cs), ArcNets(cs))
  {
    hide Made, CountOf, NodeNet, ArcNet;
    var init, c, now := cs[..|cs| - 1], cs[|cs| - 1], AllMade(t, cs[..|cs| - 1]);
    if n :| CountOf(now.nodes, n) != CountOf(t.nodes, n) + NodeNets(init)(n) {
      assert NodeNets(cs)(n) == NodeNets(init)(n) + NodeNet(c, n);
    } else {
      var x :| CountOf(now.arcs, x) != CountOf(t.arcs, x) + ArcNets(init)(x);
      assert ArcNets(cs)(x) == ArcNets(init)(x) + ArcNet(c, x);
    }
  }

  // ----- taking changes back

  lemma SameCounts<T(!new)>(m: map<T, int>, m': map<T, int>)
    requires Positive(m) && Positive(m') && forall x :: CountOf(m, x) == CountOf(m', x)
    ensures m == m'
  {
    forall x
      ensures x in m <==> x in m'
      ensures x in m ==> m[x] == m'[x]
    {
      assert CountOf(m, x) == CountOf(m', x);
    }
  }

  /** Making changes and taking them back, first change first, restores all counters iff every
      step, there and back, finds what it counts down. */
  lemma UndoneExactly(b: Tally, cs: seq<Change>)
    requires IsTally(b)
    ensures var a := AllMade(b, cs);
      AllMade(a, Opposites(cs)) == b <==> FindsAll(b, cs) && FindsAll(a, Opposites(cs))
  {
    hide AllMade, FindsAll, CountOf, NodesNet, ArcsNet, Positive;
    var inv, a := Opposites(cs), AllMade(b, cs);
    AllMadeCounts(b, cs);
    AllMadeCounts(a, inv);
    var u := AllMade(a, inv);
    if FindsAll(b, cs) && FindsAll(a, inv) {
      forall n
        ensures CountOf(u.nodes, n) == CountOf(b.nodes, n)
      {
        BackNode(b, a, u, cs, n);
      }
      forall x
        ensures CountOf(u.arcs, x) == CountOf(b.arcs, x)
      {
        BackArc(b, a, u, cs, x);
      }
      SameCounts(u.nodes, b.nodes);
      SameCounts(u.arcs, b.arcs);
    }
    if u == b {
      forall n
        ensures CountOf(a.nodes, n) == CountOf(b.nodes, n) + NodeNets(cs)(n)
        ensures CountOf(u.nodes, n) == CountOf(a.nodes, n) + NodeNets(inv)(n)
      {
        BackNode(b, a, u, cs, n);
      }
      forall x
        ensures CountOf(a.arcs, x) == CountOf(b.arcs, x) + ArcNets(cs)(x)
        ensures CountOf(u.arcs, x) == CountOf(a.arcs, x) + ArcNets(inv)(x)
      {
        BackArc(b, a, u, cs, x);
      }
      assert Exactly(b, a, NodeNets(cs), ArcNets(cs)) && Exactly(a, u, NodeNets(inv), ArcNets(inv));
    }
  }

  lemma BackNode(b: Tally, a: Tally, u: Tally, cs: seq<Change>, n: Name)
    requires AtLeast(b, a, NodeNets(cs), ArcNets(cs)) && AtLeast(a, u, NodeNets(Opposites(cs)), ArcNets(Opposites(cs)))
    ensures CountOf(a.nodes, n) >= CountOf(b.nodes, n) + NodeNets(cs)(n)
    ensures CountOf(u.nodes, n) >= CountOf(a.nodes, n) + NodeNets(Opposites(cs))(n)
    ensures NodeNets(Opposites(cs))(n) == -NodeNets(cs)(n)
  {
    OppositeNets(cs, n, Arc(n, n, None));
  }

  lemma BackArc(b: Tally, a: Tally, u: Tally, cs: seq<Change>, x: Arc)
    requires AtLeast(b, a, NodeNets(cs), ArcNets(cs)) && AtLeast(a, u, NodeNets(Opposites(cs)), ArcNets(Opposites(cs)))
    ensures CountOf(a.arcs, x) >= CountOf(b.arcs, x) + ArcNets(cs)(x)
    ensures CountOf(u.arcs, x) >= CountOf(a.arcs, x) + ArcNets(Opposites(cs))(x)
    ensures ArcNets(Opposites(cs))(x) == -ArcNets(cs)(x)
  {
    OppositeNets(cs, x.src, x);
  }

  /** No prefix of the changes takes a counter below 0. */
  ghost predicate NeverBelow(t: Tally, cs: seq<Change>) {
    forall k :: 0 <= k <= |cs| ==> Stays(t, cs[..k])
  }

  ghost predicate Stays(t: Tally, cs: seq<Change>) {
    && (forall n :: CountOf(t.nodes, n) + NodesNet(cs, n) >= 0)
    && (forall x :: CountOf(t.arcs, x) + ArcsNet(cs, x) >= 0)
  }

  lemma CountsNotNegative<T>(m: map<T, int>, x: T)
    requires Positive(m)
    ensures CountOf(m, x) >= 0 && (CountOf(m, x) > 0 <==> x in m)
  {
  }

  lemma ExactlyStays(t: Tally, cs: seq<Change>)
    requires IsTally(t) && FindsAll(t, cs)
    ensures Stays(t, cs)
  {
    AllMadeCounts(t, cs);
    var now := AllMade(t, cs);
    forall n
      ensures CountOf(t.nodes, n) + NodesNet(cs, n) >= 0
    {
      CountsNotNegative(now.nodes, n);
      assert NodeNets(cs)(n) == NodesNet(cs, n);
    }
    forall x
      ensures CountOf(t.arcs, x) + ArcsNet(cs, x) >= 0
    {
      CountsNotNegative(now.arcs, x);
      assert ArcNets(cs)(x) == ArcsNet(cs, x);
    }
  }

  lemma StaysFinds(t: Tally, c: Change)
    requires IsTally(t)
    requires forall n :: CountOf(t.nodes, n) + NodeNet(c, n) >= 0
    requires forall x :: CountOf(t.arcs, x) + ArcNet(c, x) >= 0
    ensures Finds(t, c)
  {
    if !c.insert {
      match c
      case NodeChange(n, _) =>
        assert CountOf(t.nodes, n) + NodeNet(c, n) >= 0;
      case EdgeChange(a, _) =>
        assert CountOf(t.arcs, a) + ArcNet(c, a) >= 0;
        assert CountOf(t.nodes, a.src) + NodeNet(c, a.src) >= 0;
        assert CountOf(t.nodes, a.dst) + NodeNet(c, a.dst) >= 0;
        DiscountCounts(t.nodes, a.src, a.dst);
        PositiveUpDown(t.nodes, a.src);
        CountsNotNegative(Discount(t.nodes, a.src), a.dst);
    }
  }

  /** Every step finds what it counts down iff no prefix takes a counter below 0. */
  lemma {:induction false} FindsAllExactly(t: Tally, cs: seq<Change>)
    requires IsTally(t)
    ensures FindsAll(t, cs) <==> NeverBelow(t, cs)
    decreases |cs|
  {
    hide Finds, Made, CountOf, NodeNet, ArcNet, Positive;
    if cs == [] {
      ExactlyStays(t, cs);
    } else {
      var k := |cs| - 1;
      FindsAllExactly(t, cs[..k]);
      FindsAllLast(t, cs);
      NeverBelowLast(t, cs);
      AllMadeCounts(t, cs[..k]);
      if FindsAll(t, cs) {
        ExactlyStays(t, cs);
      }
      if NeverBelow(t, cs) {
        LastFinds(t, cs);
      }
    }
  }

  lemma NeverBelowLast(t: Tally, cs: seq<Change>)
    requires cs != []
    ensures NeverBelow(t, cs) <==> NeverBelow(t, cs[..|cs| - 1]) && Stays(t, cs)
  {
    hide Stays;
    var k := |cs| - 1;
    assert cs[..|cs|] == cs;
    forall j | 0 <= j <= k
      ensures cs[..k][..j] == cs[..j]
    {
    }
    if NeverBelow(t, cs[..k]) && Stays(t, cs) {
      forall j | 0 <= j <= |cs|
        ensures Stays(t, cs[..j])
      {
        if j <= k {
          assert Stays(t, cs[..k][..j]);
        }
      }
    }
    if NeverBelow(t, cs) {
      forall j | 0 <= j <= k
        ensures Stays(t, cs[..k][..j])
      {
        assert Stays(t, cs[..j]);
      }
      assert Stays(t, cs[..|cs|]);
    }
  }

  lemma LastFinds(t: Tally, cs: seq<Change>)
    requires IsTally(t) && cs != [] && FindsAll(t, cs[..|cs| - 1]) && Stays(t, cs)
    ensures Finds(AllMade(t, cs[..|cs| - 1]), cs[|cs| - 1])
  {
    hide Finds, Made, CountOf, NodeNet, ArcNet, Positive;
    var init, c := cs[..|cs| - 1], cs[|cs| - 1];
    AllMadeCounts(t, init);
    var now := AllMade(t, init);
    forall n
      ensures CountOf(now.nodes, n) + NodeNet(c, n) >= 0
    {
      assert NodeNets(init)(n) == NodesNet(init, n);
      assert NodesNet(cs, n) == NodesNet(init, n) + NodeNet(c, n);
    }
    forall x
      ensures CountOf(now.arcs, x) + ArcNet(c, x) >= 0
    {
      assert ArcNets(init)(x) == ArcsNet(init, x);
      assert ArcsNet(cs, x) == ArcsNet(init, x) + ArcNet(c, x);
    }
    StaysFinds(now, c);
  }
}
