/** RuleDependencyGraph of congress/datalog/compile.py: the tables of a bag of formulas and how
    they depend on each other, kept up to date by inserting, deleting and undoing. */
module RuleDependencies {
  import opened Datalog
  import opened Options
  import opened Walks
  import opened Bags
  import opened Semantics
  import opened DependencyGraph
  import opened Tallies

  // ----- formulas

  /** Whether edges lead from head to body, and whether atoms that stand alone contribute. */
  datatype Style = Style(headToBody: bool, includeAtoms: bool)

  /** The tables of a formula. */
  function Tables(r: Rule, style: Style): set<Name> {
    if r.body == [] && !style.includeAtoms then {} else {r.head.table} + set lit | lit in r.body :: lit.table
  }

  function ArcOf(r: Rule, lit: Literal, style: Style): Arc {
    if style.headToBody then Arc(r.head.table, lit.table, Some(lit.negated))
    else Arc(lit.table, r.head.table, Some(lit.negated))
  }

  /** An arc between the head and each table in the body, labelled true under negation.  A table
      used twice in the same way gives one arc. */
  function Arcs(r: Rule, style: Style): set<Arc> {
    set lit | lit in r.body :: ArcOf(r, lit, style)
  }

  ghost function FormulaNodes(style: Style): Rule -> multiset<Name> {
    (r: Rule) => multiset(Tables(r, style))
  }

  ghost function FormulaArcs(style: Style): Rule -> multiset<Arc> {
    (r: Rule) => multiset(Arcs(r, style))
  }

  // ----- batches of events and the changes they make

  /** The formulas held after the events. */
  ghost function After(bag: multiset<Rule>, events: seq<FormulaEvent>): multiset<Rule> {
    if events == [] then bag
    else
      Next(After(bag, events[..|events| - 1]), events[|events| - 1])
  }

  ghost function Next(bag: multiset<Rule>, e: FormulaEvent): multiset<Rule> {
    if e.insert then bag + multiset{e.formula} else bag - multiset{e.formula}
  }

  /** Each deletion is of a formula held when its turn comes. */
  ghost predicate DeletesHeld(bag: multiset<Rule>, events: seq<FormulaEvent>) {
    forall i :: 0 <= i < |events| && !events[i].insert ==> events[i].formula in After(bag, events[..i])
  }

  /** The formulas that the events insert, or delete. */
  ghost function Touched(events: seq<FormulaEvent>, insert: bool): multiset<Rule> {
    if events == [] then multiset{}
    else
      var e := events[|events| - 1];
      Touched(events[..|events| - 1], insert) + if e.insert == insert then multiset{e.formula} else multiset{}
  }

  ghost function NodesChanged(changes: seq<Change>, insert: bool): multiset<Name> {
    if changes == [] then multiset{}
    else
      var c := changes[|changes| - 1];
      NodesChanged(changes[..|changes| - 1], insert)
        + if c.NodeChange? && c.insert == insert then multiset{c.node} else multiset{}
  }

  ghost function ArcsChanged(changes: seq<Change>, insert: bool): multiset<Arc> {
    if changes == [] then multiset{}
    else
      var c := changes[|changes| - 1];
      ArcsChanged(changes[..|changes| - 1], insert)
        + if c.EdgeChange? && c.insert == insert then multiset{c.arc} else multiset{}
  }

  lemma ChangedMore(changes: seq<Change>, c: Change)
    ensures c.NodeChange? ==>
      && NodesChanged(changes + [c], c.insert) == NodesChanged(changes, c.insert) + multiset{c.node}
      && NodesChanged(changes + [c], !c.insert) == NodesChanged(changes, !c.insert)
      && forall b :: ArcsChanged(changes + [c], b) == ArcsChanged(changes, b)
    ensures c.EdgeChange? ==>
      && ArcsChanged(changes + [c], c.insert) == ArcsChanged(changes, c.insert) + multiset{c.arc}
      && ArcsChanged(changes + [c], !c.insert) == ArcsChanged(changes, !c.insert)
      && forall b :: NodesChanged(changes + [c], b) == NodesChanged(changes, b)
  {
    assert (changes + [c])[..|changes|] == changes;
  }

  lemma {:induction false} NodesPrefix(changes: seq<Change>, k: nat, insert: bool)
    requires k <= |changes|
    ensures NodesChanged(changes[..k], insert) <= NodesChanged(changes, insert)
    decreases |changes|
  {
    if k == |changes| {
      assert changes[..k] == changes;
    } else {
      var shorter := changes[..|changes| - 1];
      NodesPrefix(shorter, k, insert);
      assert shorter[..k] == changes[..k];
    }
  }

  lemma {:induction false} ArcsPrefix(changes: seq<Change>, k: nat, insert: bool)
    requires k <= |changes|
    ensures ArcsChanged(changes[..k], insert) <= ArcsChanged(changes, insert)
    decreases |changes|
  {
    if k == |changes| {
      assert changes[..k] == changes;
    } else {
      var shorter := changes[..|changes| - 1];
      ArcsPrefix(shorter, k, insert);
      assert shorter[..k] == changes[..k];
    }
  }

  lemma TouchedMore(events: seq<FormulaEvent>, e: FormulaEvent)
    ensures forall b :: (Touched(events + [e], b) ==
        Touched(events, b) + if e.insert == b then multiset{e.formula} else multiset{})
    ensures forall bag :: After(bag, events + [e]) == Next(After(bag, events), e)
  {
    assert (events + [e])[..|events|] == events;
  }

  /** From before to now by inserting ins and deleting del. */
  ghost predicate Balanced<T(!new)>(before: multiset<T>, now: multiset<T>, ins: multiset<T>, del: multiset<T>) {
    now + del == before + ins
  }

  lemma BalancedInsert<T(!new)>(before: multiset<T>, now: multiset<T>, ins: multiset<T>, del: multiset<T>,
      more: multiset<T>)
    requires Balanced(before, now, ins, del)
    ensures Balanced(before, now + more, ins + more, del)
  {
    assert now + more + del == now + del + more;
    assert before + (ins + more) == before + ins + more;
  }

  lemma BalancedDelete<T(!new)>(before: multiset<T>, now: multiset<T>, ins: multiset<T>, del: multiset<T>,
      less: multiset<T>)
    requires Balanced(before, now, ins, del) && less <= now
    ensures Balanced(before, now - less, ins, del + less)
  {
    assert now - less + (del + less) == now + del;
  }

  /** With everything undone, everything is as before. */
  lemma UndoEnds<T(!new)>(before: multiset<T>, now: multiset<T>, after: multiset<T>, ins: multiset<T>, del: multiset<T>)
    requires Balanced(before, after, ins, del) && Balanced(after, now, del, ins)
    ensures now == before
  {
    forall t
      ensures now[t] == before[t]
    {
      assert (now + ins)[t] == (after + del)[t] == (before + ins)[t];
    }
  }

  /** The changes are those that the formulas of the events contribute. */
  ghost predicate Recorded(style: Style, events: seq<FormulaEvent>, changes: seq<Change>) {
    forall insert ::
      && NodesChanged(changes, insert) == Total(FormulaNodes(style), Touched(events, insert))
      && ArcsChanged(changes, insert) == Total(FormulaArcs(style), Touched(events, insert))
  }

  /** And they lead from the bag before to the bag after. */
  ghost predicate Records(style: Style, before: multiset<Rule>, after: multiset<Rule>, events: seq<FormulaEvent>,
      changes: seq<Change>) {
    Recorded(style, events, changes) && Balanced(before, after, Touched(events, true), Touched(events, false))
  }

  lemma BalancedTotal<T(!new), X(!new)>(f: T -> multiset<X>, before: multiset<T>, now: multiset<T>,
      ins: multiset<T>, del: multiset<T>)
    requires Balanced(before, now, ins, del)
    ensures Balanced(Total(f, before), Total(f, now), Total(f, ins), Total(f, del))
  {
    TotalSum(f, now, del);
    TotalSum(f, before, ins);
  }

  lemma RecordsNothing(style: Style, bag: multiset<Rule>, events: seq<FormulaEvent>)
    ensures After(bag, events[..0]) == bag && Recorded(style, events[..0], [])
    ensures Balanced(bag, bag, Touched(events[..0], true), Touched(events[..0], false))
  {
  }

  lemma EventNext(bag: multiset<Rule>, events: seq<FormulaEvent>, i: nat)
    requires i < |events|
    ensures events[..i + 1] == events[..i] + [events[i]]
    ensures After(bag, events[..i + 1]) == Next(After(bag, events[..i]), events[i])
  {
    assert events[..i + 1] == events[..i] + [events[i]];
    TouchedMore(events[..i], events[i]);
  }

  lemma EventHeld(style: Style, bag: multiset<Rule>, events: seq<FormulaEvent>, i: nat)
    requires DeletesHeld(bag, events) && i < |events|
    ensures !events[i].insert ==> events[i].formula in After(bag, events[..i])
    ensures !events[i].insert ==>
      multiset(Tables(events[i].formula, style)) <= Total(FormulaNodes(style), After(bag, events[..i]))
  {
    if !events[i].insert {
      TotalRemove(FormulaNodes(style), After(bag, events[..i]), events[i].formula);
    }
  }

  /** Inserting or deleting what one formula contributes keeps totals totals. */
  lemma TotalNext<X(!new)>(f: Rule -> multiset<X>, bag: multiset<Rule>, e: FormulaEvent, done: set<X>, now: multiset<X>)
    requires f(e.formula) == multiset(done) && Shifted(e.insert, Total(f, bag), now, done)
    requires !e.insert ==> e.formula in bag
    ensures now == Total(f, Next(bag, e))
  {
    if e.insert {
      TotalAdd(f, bag, e.formula);
    } else {
      TotalRemove(f, bag, e.formula);
    }
  }

  lemma TotalTouched<X(!new)>(f: Rule -> multiset<X>, events: seq<FormulaEvent>, e: FormulaEvent, done: set<X>,
      now: multiset<X>)
    requires f(e.formula) == multiset(done) && Shifted(true, Total(f, Touched(events, e.insert)), now, done)
    ensures now == Total(f, Touched(events + [e], e.insert))
  {
    TouchedMore(events, e);
    TotalAdd(f, Touched(events, e.insert), e.formula);
  }

  lemma BalancedNext(before: multiset<Rule>, bag: multiset<Rule>, events: seq<FormulaEvent>, e: FormulaEvent)
    requires Balanced(before, bag, Touched(events, true), Touched(events, false))
    requires !e.insert ==> e.formula in bag
    ensures Balanced(before, Next(bag, e), Touched(events + [e], true), Touched(events + [e], false))
  {
    TouchedMore(events, e);
    if e.insert {
      BalancedInsert(before, bag, Touched(events, true), Touched(events, false), multiset{e.formula});
    } else {
      BalancedDelete(before, bag, Touched(events, true), Touched(events, false), multiset{e.formula});
    }
  }

  lemma EventRecorded(style: Style, events: seq<FormulaEvent>, e: FormulaEvent,
      changes0: seq<Change>, changes1: seq<Change>, changes: seq<Change>,
      direct0: multiset<Name>, direct: multiset<Name>, held0: multiset<Arc>, held: multiset<Arc>)
    requires Recorded(style, events, changes0)
    requires NodesDone(e.insert, direct0, direct, Tables(e.formula, style), changes0, changes1)
    requires ArcsDone(e.insert, held0, held, Arcs(e.formula, style), changes1, changes)
    ensures Recorded(style, events + [e], changes)
  {
    hide Shifted, Total;
    TotalTouched(FormulaNodes(style), events, e, Tables(e.formula, style), NodesChanged(changes, e.insert));
    TotalTouched(FormulaArcs(style), events, e, Arcs(e.formula, style), ArcsChanged(changes, e.insert));
    TouchedMore(events, e);
    assert Touched(events + [e], !e.insert) == Touched(events, !e.insert);
  }

  lemma EventDone(style: Style, start: multiset<Rule>, bag: multiset<Rule>, events: seq<FormulaEvent>, e: FormulaEvent,
      changes0: seq<Change>, changes1: seq<Change>, changes: seq<Change>,
      direct0: multiset<Name>, direct: multiset<Name>, held0: multiset<Arc>, held: multiset<Arc>)
    requires Balanced(start, bag, Touched(events, true), Touched(events, false))
    requires direct0 == Total(FormulaNodes(style), bag) && held0 == Total(FormulaArcs(style), bag)
    requires !e.insert ==> e.formula in bag
    requires NodesDone(e.insert, direct0, direct, Tables(e.formula, style), changes0, changes1)
    requires ArcsDone(e.insert, held0, held, Arcs(e.formula, style), changes1, changes)
    ensures direct == Total(FormulaNodes(style), Next(bag, e)) && held == Total(FormulaArcs(style), Next(bag, e))
    ensures Balanced(start, Next(bag, e), Touched(events + [e], true), Touched(events + [e], false))
  {
    hide Shifted, Total, Balanced, Next;
    TotalNext(FormulaNodes(style), bag, e, Tables(e.formula, style), direct);
    TotalNext(FormulaArcs(style), bag, e, Arcs(e.formula, style), held);
    BalancedNext(start, bag, events, e);
  }

  class RuleDependencyGraph {
    const bags: BagGraph
    const style: Style
    /** The formulas held. */
    ghost var bag: multiset<Rule>

    constructor (style: Style)
      ensures Valid() && bag == multiset{} && this.style == style && fresh(bags) && fresh(bags.graph)
    {
      bags := new BagGraph();
      this.style := style;
      bag := multiset{};
    }

    /** The graph is the one built from scratch by inserting the formulas held. */
    ghost predicate Valid()
      reads this, bags, bags.graph
    {
      bags.Valid() && bags.direct == Total(FormulaNodes(style), bag) && bags.held == Total(FormulaArcs(style), bag)
    }

    ghost function Counters(): Tally
      reads bags
    {
      Tally(bags.nodeRefcounts, bags.edgeRefcounts)
    }

    lemma Unpack()
      requires Valid()
      ensures bags.Valid() && bags.direct == Total(FormulaNodes(style), bag)
        && bags.held == Total(FormulaArcs(style), bag)
    {
    }

    lemma Pack()
      requires bags.Valid() && bags.direct == Total(FormulaNodes(style), bag)
        && bags.held == Total(FormulaArcs(style), bag)
      ensures Valid()
    {
    }

    lemma ValidTallied()
      requires Valid()
      ensures bags.Tallied() && CountsBag(style, Counters(), bag)
    {
      bags.ValidTallied();
    }

    /** One change of the counters, and its record. */
    method Make(c: Change)
      requires bags.Tallied()
      modifies bags, bags.graph
      ensures bags.Tallied() && Counters() == Made(old(Counters()), c)
      ensures c.NodeChange? ==> bags.held == old(bags.held)
      ensures c.NodeChange? ==>
        bags.direct == if c.insert then old(bags.direct) + multiset{c.node} else old(bags.direct) - multiset{c.node}
      ensures c.EdgeChange? ==> bags.direct == old(bags.direct)
      ensures c.EdgeChange? ==>
        bags.held == if c.insert then old(bags.held) + multiset{c.arc} else old(bags.held) - multiset{c.arc}
      ensures old(bags.Valid()) && (c.NodeChange? && !c.insert ==> c.node in old(bags.direct)) ==> bags.Valid()
    {
      hide BagGraph.Valid, BagGraph.Tallied, Discount, Up;
      match c
      case NodeChange(node, insert) =>
        if insert {
          bags.AddNode(node);
        } else {
          bags.DeleteNode(node);
        }
      case EdgeChange(arc, insert) =>
        if insert {
          bags.AddEdge(arc);
        } else {
          DiscountIs(bags.edgeRefcounts, arc);
          bags.DeleteEdge(arc);
        }
    }

    method UpdateNodes(nodes: set<Name>, insert: bool, before: seq<Change>, ghost start: Tally)
        returns (changes: seq<Change>)
      requires bags.Tallied() && Counters() == AllMade(start, before)
      modifies bags, bags.graph
      ensures bags.Tallied() && Counters() == AllMade(start, changes) && bags.held == old(bags.held)
      ensures old(bags.Valid()) && (!insert ==> multiset(nodes) <= old(bags.direct)) ==> bags.Valid()
      ensures NodesDone(insert, old(bags.direct), bags.direct, nodes, before, changes)
    {
      hide *;
      ghost var valid := bags.Valid() && (!insert ==> multiset(nodes) <= bags.direct);
      changes := before;
      var left := nodes;
      NodesDoneNothing(insert, bags.direct, nodes, before);
      while left != {}
        invariant left <= nodes && bags.Tallied() && Counters() == AllMade(start, changes)
          && bags.held == old(bags.held)
        invariant valid ==> bags.Valid()
        invariant NodesDone(insert, old(bags.direct), bags.direct, nodes - left, before, changes)
        decreases left
      {
        var node :| node in left;
        NodesDoneMore(insert, old(bags.direct), bags.direct, nodes, left, before, changes, node);
        if valid && !insert {
          NodesDoneFinds(old(bags.direct), bags.direct, nodes, left, before, changes, node);
        }
        MadeNext(start, changes, NodeChange(node, insert));
        Make(NodeChange(node, insert));
        left := left - {node};
        changes := changes + [NodeChange(node, insert)];
      }
      assert nodes - left == nodes;
    }

    method UpdateArcs(arcs: set<Arc>, insert: bool, before: seq<Change>, ghost start: Tally)
        returns (changes: seq<Change>)
      requires bags.Tallied() && Counters() == AllMade(start, before)
      modifies bags, bags.graph
      ensures bags.Tallied() && Counters() == AllMade(start, changes) && bags.direct == old(bags.direct)
      ensures old(bags.Valid()) ==> bags.Valid()
      ensures ArcsDone(insert, old(bags.held), bags.held, arcs, before, changes)
    {
      hide *;
      changes := before;
      var left := arcs;
      ArcsDoneNothing(insert, bags.held, arcs, before);
      while left != {}
        invariant left <= arcs && bags.Tallied() && Counters() == AllMade(start, changes)
          && bags.direct == old(bags.direct)
        invariant old(bags.Valid()) ==> bags.Valid()
        invariant ArcsDone(insert, old(bags.held), bags.held, arcs - left, before, changes)
        decreases left
      {
        var arc :| arc in left;
        ArcsDoneMore(insert, old(bags.held), bags.held, arcs, left, before, changes, arc);
        MadeNext(start, changes, EdgeChange(arc, insert));
        Make(EdgeChange(arc, insert));
        left := left - {arc};
        changes := changes + [EdgeChange(arc, insert)];
      }
      assert arcs - left == arcs;
    }

    /** Insert and delete formulas, held or not, and tell what was done to the counters.  If each
        deletion is of a formula held, the graph stays that of the formulas held. */
    method FormulaUpdate(events: seq<FormulaEvent>) returns (changes: seq<Change>)
      requires bags.Tallied()
      modifies this`bag, bags, bags.graph
      ensures bags.Tallied() && Counters() == AllMade(old(Counters()), changes)
      ensures Recorded(style, events, changes) && bag == After(old(bag), events)
      ensures old(Valid()) && DeletesHeld(old(bag), events) ==>
        Valid() && Records(style, old(bag), bag, events, changes)
    {
      hide *;
      ghost var start, valid := Counters(), Valid() && DeletesHeld(bag, events);
      changes := [];
      RecordsNothing(style, bag, events);
      MadeNone(start);
      if valid {
        Unpack();
      }
      for i := 0 to |events|
        invariant bags.Tallied() && Counters() == AllMade(start, changes) && bag == After(old(bag), events[..i])
        invariant valid ==>
          bags.Valid() && bags.direct == Total(FormulaNodes(style), bag) && bags.held == Total(FormulaArcs(style), bag)
        invariant valid ==> Balanced(old(bag), bag, Touched(events[..i], true), Touched(events[..i], false))
        invariant Recorded(style, events[..i], changes)
      {
        var e := events[i];
        EventNext(old(bag), events, i);
        if valid {
          EventHeld(style, old(bag), events, i);
        }
        ghost var direct0, held0, changes0 := bags.direct, bags.held, changes;
        changes := UpdateNodes(Tables(e.formula, style), e.insert, changes, start);
        ghost var changes1 := changes;
        changes := UpdateArcs(Arcs(e.formula, style), e.insert, changes, start);
        EventRecorded(style, events[..i], e, changes0, changes1, changes, direct0, bags.direct, held0, bags.held);
        if valid {
          EventDone(style, old(bag), bag, events[..i], e, changes0, changes1, changes, direct0, bags.direct, held0,
            bags.held);
        }
        bag := Next(bag, e);
      }
      assert events[..|events|] == events;
      if valid {
        Pack();
        IsRecord(style, old(bag), bag, events, changes);
      }
    }

    /** Take changes back, first change first.  The counters end as the changes, each inverted,
        make them.  If none of the nodes and arcs is then deleted that is not there, the graph
        ends as that of the formulas held before. */
    method UndoChanges(changes: seq<Change>, ghost before: multiset<Rule>, ghost events: seq<FormulaEvent>)
      requires bags.Tallied()
      modifies this`bag, bags, bags.graph
      ensures bags.Tallied() && Counters() == AllMade(old(Counters()), Opposites(changes))
      ensures
        old(Valid()) && Records(style, before, old(bag), events, changes)
        && Undoable(changes, old(bags.direct), old(bags.held)) ==>
        Valid() && bag == before
    {
      hide *;
      ghost var start, after, direct0, held0 := Counters(), bag, bags.direct, bags.held;
      ghost var valid := Valid() && Records(style, before, bag, events, changes)
        && Undoable(changes, bags.direct, bags.held);
      if valid {
        Unpack();
      }
      MadeNone(start);
      OppositesNone(changes);
      UndoneNothing(changes, direct0, held0);
      for i := 0 to |changes|
        invariant bags.Tallied() && Counters() == AllMade(start, Opposites(changes[..i]))
        invariant valid ==> bags.Valid() && Undone(changes, i, direct0, bags.direct, held0, bags.held)
      {
        MadeNext(start, Opposites(changes[..i]), Opposite(changes[i]));
        OppositesNext(changes, i);
        if valid {
          UndoneNext(changes, i, direct0, bags.direct, held0, bags.held);
        }
        Make(Opposite(changes[i]));
      }
      assert changes[..|changes|] == changes;
      if valid {
        UndoneAll(style, before, after, events, changes, direct0, bags.direct, held0, bags.held);
        bag := before;
        Pack();
      }
    }

    /** Is there a cycle?  With edges from head to body this asks whether the rules are recursive. */
    method HasCycle() returns (r: bool)
      requires Valid()
      modifies bags.graph`nodes, bags.graph`counter, bags.graph`targetPaths
      ensures Valid() && bag == old(bag) && bags.graph.edges == old(bags.graph.edges)
      ensures Counters() == old(Counters())
      ensures style.headToBody ==> (r <==> !Nonrecursive(bag))
    {
      ConsistentClosed(bags.graph.nodes.Keys, bags.graph.edges, bags.nodeRefcounts, bags.edgeRefcounts, bags.direct,
        bags.held);
      r := bags.graph.HasCycle();
      if style.headToBody {
        CycleMeansRecursive(style, bag, bags.graph.nodes.Keys, bags.graph.edges);
      }
    }

    /** The least strata in which every table is at least as high as those it is defined by, and
        higher than those it is defined by under negation.  None iff there are no such strata. */
    method Stratify() returns (r: Option<Strata>)
      requires Valid() && style.headToBody
      ensures r.None? <==> forall rank :: !Stratifies(bag, rank)
      ensures r.Some? ==> r.value.Keys == bags.graph.nodes.Keys && forall n :: n in r.value ==> r.value[n] >= 1
      ensures r.Some? ==> Stratifies(bag, n => RankIn(r.value, n))
      ensures r.Some? ==> forall rank, n :: Stratifies(bag, rank) && n in r.value ==> r.value[n] <= 1 + rank(n)
    {
      ConsistentClosed(bags.graph.nodes.Keys, bags.graph.edges, bags.nodeRefcounts, bags.edgeRefcounts, bags.direct,
        bags.held);
      assert Adjacent(bags.graph.edges, Total(FormulaArcs(style), bag));
      hide *;
      var labels: set<Option<bool>> := {Some(true)};
      r := bags.graph.Stratification(labels);
      StratifiedExactly(style, bag, bags.graph.nodes.Keys, bags.graph.edges, r);
    }

    /** Apply a batch of events unless the rules would then be recursive; if so, take the changes
        back: to what the graph was, if all formulas deleted had been held before the batch. */
    method UpdateUnlessRecursive(events: seq<FormulaEvent>) returns (permitted: bool, changes: seq<Change>)
      requires Valid() && DeletesHeld(bag, events) && style.headToBody
      modifies this`bag, bags, bags.graph
      ensures bags.Tallied() && Recorded(style, events, changes)
      ensures events != [] ==> (permitted <==> Nonrecursive(After(old(bag), events)))
      ensures permitted ==> Valid() && bag == After(old(bag), events)
      ensures !permitted ==> Counters() == AllMade(AllMade(old(Counters()), changes), Opposites(changes))
      ensures !permitted && Touched(events, false) <= old(bag) ==> Valid() && bag == old(bag)
    {
      hide *;
      permitted := true;
      ValidTallied();
      changes := FormulaUpdate(events);
      if events != [] {
        ghost var counters, direct, held := Counters(), bags.direct, bags.held;
        var cyclic := HasCycle();
        ValidTallied();
        if cyclic {
          permitted := false;
          if Touched(events, false) <= old(bag) {
            Unpack();
            HeldBeforeUndoable(style, old(bag), bag, events, changes, bags.direct, bags.held);
          }
          UndoChanges(changes, old(bag), events);
        }
      }
    }
  }

  lemma MadeNone(t: Tally)
    ensures AllMade(t, []) == t
  {
  }

  lemma MadeNext(t: Tally, cs: seq<Change>, c: Change)
    ensures AllMade(t, cs + [c]) == Made(AllMade(t, cs), c)
  {
    assert (cs + [c])[..|cs|] == cs;
  }

  lemma OppositesNone(cs: seq<Change>)
    ensures Opposites(cs[..0]) == []
  {
  }

  lemma OppositesNext(cs: seq<Change>, i: nat)
    requires i < |cs|
    ensures Opposites(cs[..i + 1]) == Opposites(cs[..i]) + [Opposite(cs[i])]
  {
  }

  lemma IsRecord(style: Style, before: multiset<Rule>, after: multiset<Rule>, events: seq<FormulaEvent>,
      changes: seq<Change>)
    requires Recorded(style, events, changes) && Balanced(before, after, Touched(events, true), Touched(events, false))
    ensures Records(style, before, after, events, changes)
  {
  }

  function RulesOf(bag: multiset<Rule>): Program {
    Program(set r | r in bag, map[])
  }

  /** The rules can be ranked so that every body ranks below its head. */
  ghost predicate Nonrecursive(bag: multiset<Rule>) {
    exists sh :: Fits(RulesOf(bag), sh)
  }

  /** The arcs are those of the rules. */
  lemma ArcsOfRules(style: Style, bag: multiset<Rule>, edges: Edges<bool>, a: Arc)
    requires Adjacent(edges, Total(FormulaArcs(style), bag))
    ensures HasArc(edges, a) <==> exists r, lit :: r in bag && lit in r.body && a == ArcOf(r, lit, style)
  {
    var f := FormulaArcs(style);
    assert a in Total(f, bag) <==> HasArc(edges, a);
    TotalMember(f, bag, a);
    if r, lit :| r in bag && lit in r.body && a == ArcOf(r, lit, style) {
      assert a in f(r);
    }
    if r :| r in bag && a in f(r) {
      assert a in Arcs(r, style);
    }
  }

  /** The nodes and edges of the graph, told from the formulas: tables that a formula mentions; and
      an edge between head and body, the way the style says, labelled true exactly under negation. */
  lemma GraphSays(style: Style, bag: multiset<Rule>, nodes: set<Name>, edges: Edges<bool>, counts: map<Name, int>,
      tallies: map<Arc, int>, n: Name, a: Name, e: Edge<bool>)
    requires Consistent(nodes, edges, counts, tallies, Total(FormulaNodes(style), bag), Total(FormulaArcs(style), bag))
    ensures n in nodes <==> exists r :: r in bag && (r.body != [] || style.includeAtoms) && Mentions(r, n)
    ensures HasEdge(edges, a, e) <==> exists r, lit ::
      r in bag && lit in r.body && e.tag == Some(lit.negated)
      && (a, e.node) == if style.headToBody then (r.head.table, lit.table) else (lit.table, r.head.table)
  {
    ArcsOfRules(style, bag, edges, Arc(a, e.node, e.tag));
    NodesOfRules(style, bag, n);
    var all := AllNodes(Total(FormulaNodes(style), bag), Total(FormulaArcs(style), bag));
    assert n in nodes <==> n in all;
  }

  ghost predicate Mentions(r: Rule, n: Name) {
    n == r.head.table || exists lit :: lit in r.body && n == lit.table
  }

  lemma NodesOfRules(style: Style, bag: multiset<Rule>, n: Name)
    ensures n in AllNodes(Total(FormulaNodes(style), bag), Total(FormulaArcs(style), bag)) <==>
      exists r :: r in bag && (r.body != [] || style.includeAtoms) && Mentions(r, n)
  {
    var f, g := FormulaNodes(style), FormulaArcs(style);
    hide Total;
    TotalMember(f, bag, n);
    TotalMember(Ends, Total(g, bag), n);
    forall r | r in bag
      ensures n in f(r) <==> (r.body != [] || style.includeAtoms) && Mentions(r, n)
    {
      TableMentions(style, r, n);
    }
    hide Tables, Mentions, Ends;
    if a :| a in Total(g, bag) && n in Ends(a) {
      TotalMember(g, bag, a);
      var r :| r in bag && a in g(r);
      ArcMentions(style, r, a, n);
    }
  }

  lemma TableMentions(style: Style, r: Rule, n: Name)
    ensures n in FormulaNodes(style)(r) <==> (r.body != [] || style.includeAtoms) && Mentions(r, n)
  {
  }

  lemma ArcMentions(style: Style, r: Rule, a: Arc, n: Name)
    requires a in FormulaArcs(style)(r) && n in Ends(a)
    ensures Mentions(r, n) && r.body != []
  {
  }

  function RankIn(s: Strata, n: Name): nat {
    if n in s && s[n] >= 0 then s[n] else 0
  }

  ghost function WidthOf(rules: set<Rule>): (w: nat)
    ensures forall r :: r in rules ==> |r.body| <= w
  {
    if rules == {} then 0
    else
      var r :| r in rules;
      |r.body| + WidthOf(rules - {r})
  }

  /** Bodies are no higher than their heads, and lower under negation. */
  ghost predicate Stratifies(bag: multiset<Rule>, rank: Name -> nat) {
    forall r, lit :: r in bag && lit in r.body ==>
      rank(lit.table) + (if lit.negated then 1 else 0) <= rank(r.head.table)
  }

  lemma RankGivesStrata(style: Style, bag: multiset<Rule>, nodes: set<Name>, edges: Edges<bool>, rank: Name -> nat)
    requires Closed(nodes, edges) && Adjacent(edges, Total(FormulaArcs(style), bag)) && style.headToBody
    requires Stratifies(bag, rank)
    ensures IsStrata(nodes, edges, {Some(true)}, StrataFor(nodes, rank))
  {
    var s := StrataFor(nodes, rank);
    forall a, e | HasEdge(edges, a, e)
      ensures a in s && e.node in s && s[a] >= Cost(e, {Some(true)}) + s[e.node]
    {
      ArcsOfRules(style, bag, edges, Arc(a, e.node, e.tag));
      assert HasArc(edges, Arc(a, e.node, e.tag));
    }
  }

  lemma StrataStratify(style: Style, bag: multiset<Rule>, nodes: set<Name>, edges: Edges<bool>, s: Strata)
    requires Adjacent(edges, Total(FormulaArcs(style), bag)) && style.headToBody
    requires IsStrata(nodes, edges, {Some(true)}, s)
    ensures Stratifies(bag, n => RankIn(s, n))
  {
    forall r, lit | r in bag && lit in r.body
      ensures RankIn(s, lit.table) + (if lit.negated then 1 else 0) <= RankIn(s, r.head.table)
    {
      var arc := ArcOf(r, lit, style);
      ArcsOfRules(style, bag, edges, arc);
      assert HasEdge(edges, arc.src, Edge(arc.dst, arc.tag));
    }
  }

  ghost function StrataFor(nodes: set<Name>, rank: Name -> nat): Strata {
    map n | n in nodes :: 1 + rank(n)
  }

  lemma StratifiedExactly(style: Style, bag: multiset<Rule>, nodes: set<Name>, edges: Edges<bool>, r: Option<Strata>)
    requires Closed(nodes, edges) && Adjacent(edges, Total(FormulaArcs(style), bag)) && style.headToBody
    requires r.None? <==> LabelledCycle(edges, {Some(true)})
    requires r.Some? ==> IsStrata(nodes, edges, {Some(true)}, r.value)
    requires r.Some? ==> forall t, n :: IsStrata(nodes, edges, {Some(true)}, t) && n in nodes ==> r.value[n] <= t[n]
    ensures r.None? <==> forall rank :: !Stratifies(bag, rank)
    ensures r.Some? ==> r.value.Keys == nodes && Stratifies(bag, n => RankIn(r.value, n))
    ensures r.Some? ==> forall rank, n :: Stratifies(bag, rank) && n in r.value ==> r.value[n] <= 1 + rank(n)
  {
    forall rank | Stratifies(bag, rank)
      ensures IsStrata(nodes, edges, {Some(true)}, StrataFor(nodes, rank)) && r.Some?
    {
      RankGivesStrata(style, bag, nodes, edges, rank);
      StrataExcludeCycles(edges, {Some(true)}, StrataFor(nodes, rank));
    }
    hide Stratifies, LabelledCycle, Closed, Adjacent;
    if r.Some? {
      StrataStratify(style, bag, nodes, edges, r.value);
    }
  }

  const AnyLabel: set<Option<bool>> := {None, Some(true), Some(false)}

  lemma CyclesAreLabelled(edges: Edges<bool>)
    ensures Cyclic(edges) <==> LabelledCycle(edges, AnyLabel)
  {
    if w: seq<Step<bool>> :| IsCycle(edges, w) {
      var tag := w[0].edge.tag;
      assert tag in AnyLabel by {
        assert tag.Some? ==> tag == Some(tag.value) && (tag.value == true || tag.value == false);
      }
      assert HasLabel(w, AnyLabel);
    }
  }

  lemma CycleMeansRecursive(style: Style, bag: multiset<Rule>, nodes: set<Name>, edges: Edges<bool>)
    requires Closed(nodes, edges) && Adjacent(edges, Total(FormulaArcs(style), bag)) && style.headToBody
    ensures Cyclic(edges) <==> !Nonrecursive(bag)
  {
    hide Fits, IsStrata, LabelledCycle, Cyclic;
    CyclesAreLabelled(edges);
    if !Cyclic(edges) {
      NoCycleHasStrata(nodes, edges, AnyLabel);
      var s :| IsStrata(nodes, edges, AnyLabel, s);
      StrataGiveShape(style, bag, nodes, edges, s);
    }
    if sh :| Fits(RulesOf(bag), sh) {
      ShapeGivesStrata(style, bag, nodes, edges, sh);
    }
  }

  lemma StrataGiveShape(style: Style, bag: multiset<Rule>, nodes: set<Name>, edges: Edges<bool>, s: Strata)
    requires Adjacent(edges, Total(FormulaArcs(style), bag)) && style.headToBody
    requires IsStrata(nodes, edges, AnyLabel, s)
    ensures Nonrecursive(bag)
  {
    var p := RulesOf(bag);
    var sh := Shape(n => RankIn(s, n), WidthOf(p.rules));
    forall r, i | r in p.rules && 0 <= i < |r.body|
      ensures sh.rank(r.body[i].table) < sh.rank(r.head.table)
    {
      ArcsOfRules(style, bag, edges, ArcOf(r, r.body[i], style));
      assert HasEdge(edges, r.head.table, Edge(r.body[i].table, Some(r.body[i].negated)));
    }
    assert Fits(p, sh);
  }

  lemma ShapeGivesStrata(style: Style, bag: multiset<Rule>, nodes: set<Name>, edges: Edges<bool>, sh: Shape)
    requires Closed(nodes, edges) && Adjacent(edges, Total(FormulaArcs(style), bag)) && style.headToBody
    requires Fits(RulesOf(bag), sh)
    ensures !Cyclic(edges)
  {
    var s: Strata := map n | n in nodes :: sh.rank(n);
    forall a, e | HasEdge(edges, a, e)
      ensures a in s && e.node in s && s[a] >= Cost(e, AnyLabel) + s[e.node]
    {
      var arc := Arc(a, e.node, e.tag);
      ArcsOfRules(style, bag, edges, arc);
      assert HasArc(edges, arc);
      var r, lit :| r in bag && lit in r.body && arc == ArcOf(r, lit, style);
      var i :| 0 <= i < |r.body| && r.body[i] == lit;
      assert r in RulesOf(bag).rules;
      assert sh.rank(r.body[i].table) < sh.rank(r.head.table);
    }
    StrataExcludeCycles(edges, AnyLabel, s);
    CyclesAreLabelled(edges);
  }

  lemma CountsUnique<T(!new)>(m: map<T, int>, m': map<T, int>, b: multiset<T>)
    requires Counts(m, b) && Counts(m', b)
    ensures m == m'
  {
  }

  /** Two graphs that hold the same bag of formulas agree in every counter, node and edge,
      however they came to hold it. */
  lemma HistoryForgotten(g: RuleDependencyGraph, h: RuleDependencyGraph)
    requires g.Valid() && h.Valid() && g.style == h.style && g.bag == h.bag
    ensures g.bags.nodeRefcounts == h.bags.nodeRefcounts && g.bags.edgeRefcounts == h.bags.edgeRefcounts
    ensures g.bags.graph.nodes.Keys == h.bags.graph.nodes.Keys
    ensures forall a, e :: HasEdge(g.bags.graph.edges, a, e) <==> HasEdge(h.bags.graph.edges, a, e)
  {
    CountsUnique(g.bags.nodeRefcounts, h.bags.nodeRefcounts, AllNodes(g.bags.direct, g.bags.held));
    CountsUnique(g.bags.edgeRefcounts, h.bags.edgeRefcounts, g.bags.held);
    forall a, e
      ensures HasEdge(g.bags.graph.edges, a, e) <==> HasEdge(h.bags.graph.edges, a, e)
    {
      assert HasArc(g.bags.graph.edges, Arc(a, e.node, e.tag)) <==> HasArc(h.bags.graph.edges, Arc(a, e.node, e.tag));
    }
  }

  /** A bag has got or lost one of each of some elements. */
  ghost predicate Shifted<T>(insert: bool, before: multiset<T>, now: multiset<T>, done: set<T>) {
    now == if insert then before + multiset(done) else before - multiset(done)
  }

  lemma ShiftedMore<T>(insert: bool, before: multiset<T>, now: multiset<T>, all: set<T>, left: set<T>, t: T)
    requires Shifted(insert, before, now, all - left) && left <= all && t in left
    ensures Shifted(insert, before, if insert then now + multiset{t} else now - multiset{t}, all - (left - {t}))
  {
    assert all - (left - {t}) == all - left + {t};
    assert multiset(all - (left - {t})) == multiset(all - left) + multiset{t};
  }

  lemma ShiftedFinds<T>(before: multiset<T>, now: multiset<T>, all: set<T>, left: set<T>, t: T)
    requires Shifted(false, before, now, all - left) && multiset(all) <= before && left <= all && t in left
    ensures t in now
  {
    assert multiset(all)[t] == 1 && multiset(all - left)[t] == 0;
  }

  /** All of some nodes have been inserted, or deleted, and recorded. */
  ghost predicate NodesDone(insert: bool, direct0: multiset<Name>, direct: multiset<Name>, done: set<Name>,
      before: seq<Change>, changes: seq<Change>) {
    && Shifted(insert, direct0, direct, done)
    && Shifted(true, NodesChanged(before, insert), NodesChanged(changes, insert), done)
    && NodesChanged(changes, !insert) == NodesChanged(before, !insert)
    && (forall b :: ArcsChanged(changes, b) == ArcsChanged(before, b))
  }

  lemma NodesDoneNothing(insert: bool, direct: multiset<Name>, nodes: set<Name>, before: seq<Change>)
    ensures NodesDone(insert, direct, direct, nodes - nodes, before, before)
  {
    assert nodes - nodes == {};
  }

  lemma NodesDoneMore(insert: bool, direct0: multiset<Name>, direct: multiset<Name>, nodes: set<Name>, left: set<Name>,
      before: seq<Change>, changes: seq<Change>, node: Name)
    requires NodesDone(insert, direct0, direct, nodes - left, before, changes) && left <= nodes && node in left
    ensures NodesDone(insert, direct0, if insert then direct + multiset{node} else direct - multiset{node},
        nodes - (left - {node}), before, changes + [NodeChange(node, insert)])
  {
    hide Shifted;
    ShiftedMore(insert, direct0, direct, nodes, left, node);
    ShiftedMore(true, NodesChanged(before, insert), NodesChanged(changes, insert), nodes, left, node);
    ChangedMore(changes, NodeChange(node, insert));
  }

  lemma NodesDoneFinds(direct0: multiset<Name>, direct: multiset<Name>, nodes: set<Name>, left: set<Name>,
      before: seq<Change>, changes: seq<Change>, node: Name)
    requires NodesDone(false, direct0, direct, nodes - left, before, changes) && left <= nodes && node in left
    requires multiset(nodes) <= direct0
    ensures node in direct
  {
    ShiftedFinds(direct0, direct, nodes, left, node);
  }

  /** The same for arcs. */
  ghost predicate ArcsDone(insert: bool, held0: multiset<Arc>, held: multiset<Arc>, done: set<Arc>,
      before: seq<Change>, changes: seq<Change>) {
    && Shifted(insert, held0, held, done)
    && Shifted(true, ArcsChanged(before, insert), ArcsChanged(changes, insert), done)
    && ArcsChanged(changes, !insert) == ArcsChanged(before, !insert)
    && (forall b :: NodesChanged(changes, b) == NodesChanged(before, b))
  }

  lemma ArcsDoneNothing(insert: bool, held: multiset<Arc>, arcs: set<Arc>, before: seq<Change>)
    ensures ArcsDone(insert, held, held, arcs - arcs, before, before)
  {
    assert arcs - arcs == {};
  }

  lemma ArcsDoneMore(insert: bool, held0: multiset<Arc>, held: multiset<Arc>, arcs: set<Arc>, left: set<Arc>,
      before: seq<Change>, changes: seq<Change>, arc: Arc)
    requires ArcsDone(insert, held0, held, arcs - left, before, changes) && left <= arcs && arc in left
    ensures ArcsDone(insert, held0, if insert then held + multiset{arc} else held - multiset{arc},
        arcs - (left - {arc}), before, changes + [EdgeChange(arc, insert)])
  {
    hide Shifted;
    ShiftedMore(insert, held0, held, arcs, left, arc);
    ShiftedMore(true, ArcsChanged(before, insert), ArcsChanged(changes, insert), arcs, left, arc);
    ChangedMore(changes, EdgeChange(arc, insert));
  }

  /** The first i changes have been taken back. */
  ghost predicate Undone(changes: seq<Change>, i: nat, direct0: multiset<Name>, direct: multiset<Name>,
      held0: multiset<Arc>, held: multiset<Arc>)
    requires i <= |changes|
  {
    && Balanced(direct0, direct, NodesChanged(changes[..i], false), NodesChanged(changes[..i], true))
    && Balanced(held0, held, ArcsChanged(changes[..i], false), ArcsChanged(changes[..i], true))
  }

  lemma UndoneNothing(changes: seq<Change>, direct: multiset<Name>, held: multiset<Arc>)
    ensures Undone(changes, 0, direct, direct, held, held)
  {
  }

  /** Each node and arc that is to be deleted while the changes are taken back is there. */
  ghost predicate Undoable(changes: seq<Change>, direct: multiset<Name>, held: multiset<Arc>) {
    forall i :: 0 <= i < |changes| && changes[i].insert ==> FoundBack(changes, i, direct, held)
  }

  ghost predicate FoundBack(changes: seq<Change>, i: nat, direct: multiset<Name>, held: multiset<Arc>)
    requires i < |changes|
  {
    match changes[i]
    case NodeChange(n, _) => NodesChanged(changes[..i], true)[n] < (direct + NodesChanged(changes[..i], false))[n]
    case EdgeChange(a, _) => ArcsChanged(changes[..i], true)[a] < (held + ArcsChanged(changes[..i], false))[a]
  }

  /** Whatever was inserted is still there to be deleted, if all that was deleted had been there
      before. */
  lemma UndoFinds<T(!new)>(before: multiset<T>, after: multiset<T>, ins: multiset<T>, del: multiset<T>,
      undoneIns: multiset<T>, t: T)
    requires Balanced(before, after, ins, del) && del <= before && undoneIns + multiset{t} <= ins
    ensures undoneIns[t] < after[t]
  {
    assert (after + del)[t] == (before + ins)[t];
    assert (undoneIns + multiset{t})[t] <= ins[t];
    assert del[t] <= before[t];
  }

  lemma HeldBeforeUndoable(style: Style, before: multiset<Rule>, after: multiset<Rule>, events: seq<FormulaEvent>,
      changes: seq<Change>, direct: multiset<Name>, held: multiset<Arc>)
    requires Records(style, before, after, events, changes) && Touched(events, false) <= before
    requires direct == Total(FormulaNodes(style), after) && held == Total(FormulaArcs(style), after)
    ensures Undoable(changes, direct, held)
  {
    hide Balanced, Total;
    var nodes, arcs := FormulaNodes(style), FormulaArcs(style);
    BalancedTotal(nodes, before, after, Touched(events, true), Touched(events, false));
    BalancedTotal(arcs, before, after, Touched(events, true), Touched(events, false));
    TotalMonotone(nodes, Touched(events, false), before);
    TotalMonotone(arcs, Touched(events, false), before);
    forall i | 0 <= i < |changes| && changes[i].insert
      ensures FoundBack(changes, i, direct, held)
    {
      assert changes[..i + 1] == changes[..i] + [changes[i]];
      ChangedMore(changes[..i], changes[i]);
      match changes[i]
      case NodeChange(n, _) =>
        NodesPrefix(changes, i + 1, true);
        UndoFinds(Total(nodes, before), direct, NodesChanged(changes, true), NodesChanged(changes, false),
          NodesChanged(changes[..i], true), n);
      case EdgeChange(a, _) =>
        ArcsPrefix(changes, i + 1, true);
        UndoFinds(Total(arcs, before), held, ArcsChanged(changes, true), ArcsChanged(changes, false),
          ArcsChanged(changes[..i], true), a);
    }
  }

  lemma BalancedFinds<T(!new)>(before: multiset<T>, now: multiset<T>, ins: multiset<T>, del: multiset<T>, t: T)
    requires Balanced(before, now, ins, del) && del[t] < (before + ins)[t]
    ensures t in now
  {
    assert (now + del)[t] == (before + ins)[t];
  }

  lemma UndoneNext(changes: seq<Change>, i: nat, direct0: multiset<Name>, direct: multiset<Name>,
      held0: multiset<Arc>, held: multiset<Arc>)
    requires i < |changes| && Undoable(changes, direct0, held0) && Undone(changes, i, direct0, direct, held0, held)
    ensures var c := Opposite(changes[i]);
      && (c.NodeChange? && !c.insert ==> c.node in direct)
      && (c.NodeChange? ==>
        Undone(changes, i + 1, direct0,
          if c.insert then direct + multiset{c.node} else direct - multiset{c.node}, held0, held))
      && (c.EdgeChange? ==>
        Undone(changes, i + 1, direct0, direct, held0,
          if c.insert then held + multiset{c.arc} else held - multiset{c.arc}))
  {
    hide Balanced;
    var c := changes[i];
    assert changes[..i + 1] == changes[..i] + [c];
    ChangedMore(changes[..i], c);
    match c
    case NodeChange(n, insert) =>
      if insert {
        assert FoundBack(changes, i, direct0, held0);
        BalancedFinds(direct0, direct, NodesChanged(changes[..i], false), NodesChanged(changes[..i], true), n);
        BalancedDelete(direct0, direct, NodesChanged(changes[..i], false), NodesChanged(changes[..i], true),
          multiset{n});
      } else {
        BalancedInsert(direct0, direct, NodesChanged(changes[..i], false), NodesChanged(changes[..i], true),
          multiset{n});
      }
    case EdgeChange(a, insert) =>
      if insert {
        assert FoundBack(changes, i, direct0, held0);
        BalancedFinds(held0, held, ArcsChanged(changes[..i], false), ArcsChanged(changes[..i], true), a);
        BalancedDelete(held0, held, ArcsChanged(changes[..i], false), ArcsChanged(changes[..i], true), multiset{a});
      } else {
        BalancedInsert(held0, held, ArcsChanged(changes[..i], false), ArcsChanged(changes[..i], true), multiset{a});
      }
  }

  lemma UndoneAll(style: Style, before: multiset<Rule>, after: multiset<Rule>, events: seq<FormulaEvent>,
      changes: seq<Change>, direct0: multiset<Name>, direct: multiset<Name>, held0: multiset<Arc>, held: multiset<Arc>)
    requires Records(style, before, after, events, changes)
    requires direct0 == Total(FormulaNodes(style), after) && held0 == Total(FormulaArcs(style), after)
    requires Undone(changes, |changes|, direct0, direct, held0, held)
    ensures direct == Total(FormulaNodes(style), before) && held == Total(FormulaArcs(style), before)
  {
    assert changes[..|changes|] == changes;
    BalancedTotal(FormulaNodes(style), before, after, Touched(events, true), Touched(events, false));
    BalancedTotal(FormulaArcs(style), before, after, Touched(events, true), Touched(events, false));
    UndoEnds(Total(FormulaNodes(style), before), direct, direct0, NodesChanged(changes, true),
      NodesChanged(changes, false));
    UndoEnds(Total(FormulaArcs(style), before), held, held0, ArcsChanged(changes, true), ArcsChanged(changes, false));
  }

  // ----- exactly when a batch can be taken back

  /** The net change of the counters is what the changes insert less what they delete. */
  lemma {:induction false} NetIs(cs: seq<Change>, n: Name, a: Arc)
    ensures NodesNet(cs, n) + AllNodes(NodesChanged(cs, false), ArcsChanged(cs, false))[n]
      == AllNodes(NodesChanged(cs, true), ArcsChanged(cs, true))[n]
    ensures ArcsNet(cs, a) + ArcsChanged(cs, false)[a] == ArcsChanged(cs, true)[a]
    decreases |cs|
  {
    if cs != [] {
      assert cs == cs[..|cs| - 1] + [cs[|cs| - 1]];
      NetIs(cs[..|cs| - 1], n, a);
      NetNext(cs[..|cs| - 1], cs[|cs| - 1], n, a);
    }
  }

  /** What one more change adds to the counts of what was inserted, or deleted. */
  lemma CountNext(init: seq<Change>, c: Change, insert: bool, n: Name, a: Arc)
    ensures AllNodes(NodesChanged(init + [c], insert), ArcsChanged(init + [c], insert))[n]
      == AllNodes(NodesChanged(init, insert), ArcsChanged(init, insert))[n]
        + if c.insert == insert then NodeNet(c, n) * Sign(insert) else 0
    ensures ArcsChanged(init + [c], insert)[a] ==
      ArcsChanged(init, insert)[a] + if c.insert == insert then ArcNet(c, a) * Sign(insert) else 0
  {
    hide AllNodes, NodesChanged, ArcsChanged;
    ChangedMore(init, c);
    match c
    case NodeChange(m, _) => AllNodesDirect(NodesChanged(init, insert), ArcsChanged(init, insert), m);
    case EdgeChange(x, _) => AllNodesMore(NodesChanged(init, insert), ArcsChanged(init, insert), x);
  }

  lemma NetNext(init: seq<Change>, c: Change, n: Name, a: Arc)
    requires NodesNet(init, n) + AllNodes(NodesChanged(init, false), ArcsChanged(init, false))[n]
      == AllNodes(NodesChanged(init, true), ArcsChanged(init, true))[n]
    requires ArcsNet(init, a) + ArcsChanged(init, false)[a] == ArcsChanged(init, true)[a]
    ensures NodesNet(init + [c], n) + AllNodes(NodesChanged(init + [c], false), ArcsChanged(init + [c], false))[n]
      == AllNodes(NodesChanged(init + [c], true), ArcsChanged(init + [c], true))[n]
    ensures ArcsNet(init + [c], a) + ArcsChanged(init + [c], false)[a] == ArcsChanged(init + [c], true)[a]
  {
    hide AllNodes, NodesChanged, ArcsChanged, NodesNet, ArcsNet, NodeNet, ArcNet;
    CountNext(init, c, true, n, a);
    CountNext(init, c, false, n, a);
    NetMore(init, c, n, a);
  }

  lemma NetMore(init: seq<Change>, c: Change, n: Name, a: Arc)
    ensures NodesNet(init + [c], n) == NodesNet(init, n) + NodeNet(c, n)
    ensures ArcsNet(init + [c], a) == ArcsNet(init, a) + ArcNet(c, a)
  {
    assert (init + [c])[..|init|] == init;
  }

  /** The counters are those of a bag of formulas. */
  ghost predicate CountsBag(style: Style, t: Tally, bag: multiset<Rule>) {
    && Counts(t.nodes, AllNodes(Total(FormulaNodes(style), bag), Total(FormulaArcs(style), bag)))
    && Counts(t.arcs, Total(FormulaArcs(style), bag))
  }

  lemma BalancedNet(style: Style, before: multiset<Rule>, after: multiset<Rule>, events: seq<FormulaEvent>,
      cs: seq<Change>, n: Name, a: Arc)
    requires Records(style, before, after, events, cs)
    ensures var nodes, arcs := FormulaNodes(style), FormulaArcs(style);
      && AllNodes(Total(nodes, after), Total(arcs, after))[n] ==
        AllNodes(Total(nodes, before), Total(arcs, before))[n] + NodesNet(cs, n)
      && Total(arcs, after)[a] == Total(arcs, before)[a] + ArcsNet(cs, a)
  {
    hide Total, FormulaNodes, FormulaArcs;
    var nodes, arcs := FormulaNodes(style), FormulaArcs(style);
    var ins, del := Touched(events, true), Touched(events, false);
    NetIs(cs, n, a);
    assert NodesChanged(cs, true) == Total(nodes, ins) && ArcsChanged(cs, true) == Total(arcs, ins);
    assert NodesChanged(cs, false) == Total(nodes, del) && ArcsChanged(cs, false) == Total(arcs, del);
    BalancedTotal(nodes, before, after, ins, del);
    BalancedTotal(arcs, before, after, ins, del);
    BalancedTotal(Ends, Total(arcs, before), Total(arcs, after), Total(arcs, ins), Total(arcs, del));
    BalancedAt(Total(nodes, before), Total(nodes, after), Total(nodes, ins), Total(nodes, del), n);
    BalancedAt(Total(arcs, before), Total(arcs, after), Total(arcs, ins), Total(arcs, del), a);
    BalancedAt(Total(Ends, Total(arcs, before)), Total(Ends, Total(arcs, after)), Total(Ends, Total(arcs, ins)),
      Total(Ends, Total(arcs, del)), n);
  }

  lemma BalancedAt<T(!new)>(before: multiset<T>, now: multiset<T>, ins: multiset<T>, del: multiset<T>, t: T)
    requires Balanced(before, now, ins, del)
    ensures now[t] + del[t] == before[t] + ins[t]
  {
    assert (now + del)[t] == (before + ins)[t];
  }

  /** A batch that deletes only what is held finds all that it counts down. */
  lemma RecordsFind(style: Style, before: multiset<Rule>, after: multiset<Rule>, events: seq<FormulaEvent>,
      cs: seq<Change>, b: Tally)
    requires Records(style, before, after, events, cs)
    requires CountsBag(style, b, before) && CountsBag(style, AllMade(b, cs), after)
    ensures IsTally(b) && FindsAll(b, cs)
  {
    hide Records, Total, FormulaNodes, FormulaArcs, AllNodes, AllMade, FindsAll, NodesNet, ArcsNet;
    var a := AllMade(b, cs);
    var nodes, arcs := FormulaNodes(style), FormulaArcs(style);
    CountsPositive(b.nodes, AllNodes(Total(nodes, before), Total(arcs, before)));
    CountsPositive(b.arcs, Total(arcs, before));
    AllMadeCounts(b, cs);
    forall n
      ensures CountOf(a.nodes, n) == CountOf(b.nodes, n) + NodeNets(cs)(n)
    {
      BalancedNet(style, before, after, events, cs, n, Arc(n, n, None));
    }
    forall x
      ensures CountOf(a.arcs, x) == CountOf(b.arcs, x) + ArcNets(cs)(x)
    {
      BalancedNet(style, before, after, events, cs, x.src, x);
    }
  }

  /** Taking such a batch back restores all counters iff it finds all that it counts down, which
      is so iff on the way no counter, less the net change taken back so far, is below 0. */
  lemma UndoExactly(style: Style, before: multiset<Rule>, after: multiset<Rule>, events: seq<FormulaEvent>,
      cs: seq<Change>, b: Tally)
    requires Records(style, before, after, events, cs)
    requires CountsBag(style, b, before) && CountsBag(style, AllMade(b, cs), after)
    ensures AllMade(AllMade(b, cs), Opposites(cs)) == b <==> NeverBelow(AllMade(b, cs), Opposites(cs))
    ensures NeverBelow(AllMade(b, cs), Opposites(cs)) <==> FindsAll(AllMade(b, cs), Opposites(cs))
  {
    hide Records, CountsBag, AllMade, FindsAll, NeverBelow, IsTally;
    RecordsFind(style, before, after, events, cs, b);
    UndoneExactly(b, cs);
    AllMadeCounts(b, cs);
    FindsAllExactly(AllMade(b, cs), Opposites(cs));
  }

  lemma TotalOne<X(!new)>(f: Rule -> multiset<X>, r: Rule)
    ensures Total(f, multiset{r}) == f(r)
  {
    TotalAdd(f, multiset{}, r);
    assert multiset{} + multiset{r} == multiset{r};
  }

  lemma TouchedTwice(atom: Rule, insert: bool)
    ensures Touched([FormulaEvent(atom, true), FormulaEvent(atom, false)], insert) == multiset{atom}
  {
    var e, e' := FormulaEvent(atom, true), FormulaEvent(atom, false);
    assert [e, e'] == [e] + [e'] && [e] == [] + [e];
    TouchedMore([e], e');
    TouchedMore([], e);
    assert multiset{} + multiset{atom} == multiset{atom} && multiset{atom} + multiset{} == multiset{atom};
  }

  lemma ChangedTwice(p: Name, insert: bool)
    ensures var cs := [NodeChange(p, true), NodeChange(p, false)];
      NodesChanged(cs, insert) == multiset{p} && ArcsChanged(cs, insert) == multiset{}
  {
    var c, c' := NodeChange(p, true), NodeChange(p, false);
    assert [c, c'] == [c] + [c'] && [c] == [] + [c];
    ChangedMore([c], c');
    ChangedMore([], c);
    assert multiset{} + multiset{p} == multiset{p} && multiset{p} + multiset{} == multiset{p};
  }

  lemma AtomRecorded(p: Name, atom: Rule, events: seq<FormulaEvent>, changes: seq<Change>)
    requires atom == Rule(Literal(p, [], false), [])
    requires events == [FormulaEvent(atom, true), FormulaEvent(atom, false)]
    requires changes == [NodeChange(p, true), NodeChange(p, false)]
    ensures Recorded(Style(true, true), events, changes)
  {
    var nodes, arcs := FormulaNodes(Style(true, true)), FormulaArcs(Style(true, true));
    assert nodes(atom) == multiset{p} && arcs(atom) == multiset{};
    TotalOne(nodes, atom);
    TotalOne(arcs, atom);
    hide Total, FormulaNodes, FormulaArcs, Touched, NodesChanged, ArcsChanged;
    forall insert
      ensures NodesChanged(changes, insert) == Total(nodes, Touched(events, insert))
      ensures ArcsChanged(changes, insert) == Total(arcs, Touched(events, insert))
    {
      TouchedTwice(atom, insert);
      ChangedTwice(p, insert);
    }
  }

  /** A batch that inserts an atom and deletes it again changes no counter, but taking it back
      does: the deletion comes first and finds nothing. */
  lemma UndoBreaks(p: Name) returns (events: seq<FormulaEvent>, changes: seq<Change>)
    ensures var atom := Rule(Literal(p, [], false), []);
      events == [FormulaEvent(atom, true), FormulaEvent(atom, false)] && DeletesHeld(multiset{}, events)
    ensures Recorded(Style(true, true), events, changes)
    ensures var none := Tally(map[], map[]);
      && AllMade(none, changes) == none && !FindsAll(none, Opposites(changes))
      && AllMade(none, Opposites(changes)) == Tally(map[p := 1], map[])
  {
    var atom, none := Rule(Literal(p, [], false), []), Tally(map[], map[]);
    events := [FormulaEvent(atom, true), FormulaEvent(atom, false)];
    changes := [NodeChange(p, true), NodeChange(p, false)];
    AtomRecorded(p, atom, events, changes);
    hide Recorded;
    assert events[..1] == [events[0]] && [events[0]][..0] == [];
    assert After(multiset{}, events[..1]) == multiset{atom};
    assert changes[..1] == [changes[0]] && [changes[0]][..0] == [];
    var opposites := Opposites(changes);
    assert opposites == [NodeChange(p, false), NodeChange(p, true)];
    assert opposites[..1] == [opposites[0]] && opposites[..0] == [] && [opposites[0]][..0] == [];
    assert !Finds(AllMade(none, opposites[..0]), opposites[0]);
  }
}
