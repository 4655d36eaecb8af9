/** Runs of the view theory: why the queue empties, and what inserting alone arrives at. */
module ViewRuns {
  import opened Datalog
  import opened Semantics
  import opened Search
  import opened RuleSet
  import opened Views

  // ----- a finite universe that the rules do not leave

  ghost predicate ClosedUnder(u: set<Atom>, rules: set<Rule>) {
    forall pr: Proof :: pr.rule in rules && Satisfied(u, pr) ==> HeadOf(pr) in u
  }

  ghost function Rows(cs: set<Const>, n: nat): (rows: set<seq<Const>>)
    ensures forall row: seq<Const> :: row in rows <==> |row| == n && forall i :: 0 <= i < n ==> row[i] in cs
  {
    if n == 0 then {[]}
    else
      var shorter := Rows(cs, n - 1);
      var rows := set c, row | c in cs && row in shorter :: [c] + row;
      assert forall row: seq<Const> :: (|row| == n && forall i :: 0 <= i < n ==> row[i] in cs) ==> row in rows by {
        forall row: seq<Const> | |row| == n && forall i :: 0 <= i < n ==> row[i] in cs
          ensures row in rows
        {
          assert row == [row[0]] + row[1..] && row[1..] in shorter;
        }
      }
      rows
  }

  /** All facts of some tables with rows of some widths over some constants. */
  ghost function AllFacts(tables: set<Name>, widths: set<nat>, cs: set<Const>): set<Atom> {
    set t, n, row | t in tables && n in widths && row in Rows(cs, n) :: Atom(t, row)
  }

  lemma InAllFacts(tables: set<Name>, widths: set<nat>, cs: set<Const>, a: Atom)
    ensures a in AllFacts(tables, widths, cs) <==>
      a.table in tables && |a.row| in widths && forall i :: 0 <= i < |a.row| ==> a.row[i] in cs
  {
    if a.table in tables && |a.row| in widths && forall i :: 0 <= i < |a.row| ==> a.row[i] in cs {
      assert a.row in Rows(cs, |a.row|) && a == Atom(a.table, a.row);
    }
  }

  ghost function TablesIn(atoms: set<Atom>, rules: set<Rule>): set<Name> {
    (set a | a in atoms :: a.table) + set r | r in rules :: r.head.table
  }

  ghost function WidthsIn(atoms: set<Atom>, rules: set<Rule>): set<nat> {
    (set a | a in atoms :: |a.row|) + set r | r in rules :: |r.head.args|
  }

  ghost function ConstsIn(atoms: set<Atom>, rules: set<Rule>): set<Const> {
    (set a, c | a in atoms && c in a.row :: c) + set r, t | r in rules && t in r.head.args && t.Obj? :: t.value
  }

  lemma AtomInUniverse(atoms: set<Atom>, rules: set<Rule>, a: Atom)
    requires a in atoms
    ensures a in AllFacts(TablesIn(atoms, rules), WidthsIn(atoms, rules), ConstsIn(atoms, rules))
  {
    hide AllFacts;
    forall i | 0 <= i < |a.row|
      ensures a.row[i] in ConstsIn(atoms, rules)
    {
      assert a.row[i] in a.row;
    }
    InAllFacts(TablesIn(atoms, rules), WidthsIn(atoms, rules), ConstsIn(atoms, rules), a);
  }

  /** The tuples that can be made from those given. */
  ghost function Universe(atoms: set<Atom>, rules: set<Rule>): set<Atom> {
    AllFacts(TablesIn(atoms, rules), WidthsIn(atoms, rules), ConstsIn(atoms, rules))
  }

  lemma UniverseCloses(atoms: set<Atom>, rules: set<Rule>)
    requires forall r :: r in rules ==> Good(r)
    ensures atoms <= Universe(atoms, rules) && ClosedUnder(Universe(atoms, rules), rules)
  {
    hide AllFacts, TablesIn, WidthsIn, ConstsIn, Good, Satisfied, HeadOf;
    var tables, widths, cs := TablesIn(atoms, rules), WidthsIn(atoms, rules), ConstsIn(atoms, rules);
    var u := AllFacts(tables, widths, cs);
    forall a | a in atoms
      ensures a in u
    {
      AtomInUniverse(atoms, rules, a);
    }
    forall pr: Proof | pr.rule in rules && Satisfied(u, pr)
      ensures HeadOf(pr) in u
    {
      RuleInUniverse(atoms, rules, pr.rule);
      HeadInUniverse(tables, widths, cs, pr);
    }
  }

  lemma RuleInUniverse(atoms: set<Atom>, rules: set<Rule>, r: Rule)
    requires r in rules
    ensures r.head.table in TablesIn(atoms, rules) && |r.head.args| in WidthsIn(atoms, rules)
    ensures forall t :: t in r.head.args && t.Obj? ==> t.value in ConstsIn(atoms, rules)
  {
  }

  lemma HeadInUniverse(tables: set<Name>, widths: set<nat>, cs: set<Const>, pr: Proof)
    requires Good(pr.rule) && Satisfied(AllFacts(tables, widths, cs), pr)
    requires pr.rule.head.table in tables && |pr.rule.head.args| in widths
    requires forall t :: t in pr.rule.head.args && t.Obj? ==> t.value in cs
    ensures HeadOf(pr) in AllFacts(tables, widths, cs)
  {
    var r, a := pr.rule, HeadOf(pr);
    forall i | 0 <= i < |a.row|
      ensures a.row[i] in cs
    {
      var t := r.head.args[i];
      assert a.row[i] == Eval(Values(pr.binding), t);
      if t.Var? {
        assert t.name in r.head.Vars();
        var lit :| lit in r.body && t.name in lit.Vars();
        var j :| 0 <= j < |r.body| && r.body[j] == lit;
        var k :| 0 <= k < |lit.args| && lit.args[k] == t;
        var b := Plug(pr.binding, r.body[j]);
        InAllFacts(tables, widths, cs, b);
        assert b.row[k] == Eval(Values(pr.binding), t);
      }
    }
    InAllFacts(tables, widths, cs, a);
  }

  // ----- instances of rules, one leading to the next

  /** A tuple at one place of the body leads to the head of the instance. */
  datatype Hop = Hop(instance: Proof, at: nat) {
    ghost function From(): Atom
      requires at < |instance.rule.body|
    {
      Plug(instance.binding, instance.rule.body[at])
    }

    ghost function To(): Atom {
      HeadOf(instance)
    }
  }

  ghost predicate IsHop(u: set<Atom>, rules: set<Rule>, h: Hop) {
    h.instance.rule in rules && h.at < |h.instance.rule.body| && Satisfied(u, h.instance)
  }

  ghost predicate Chain(u: set<Atom>, rules: set<Rule>, hops: seq<Hop>) {
    && (forall i :: 0 <= i < |hops| ==> IsHop(u, rules, hops[i]))
    && (forall i :: 0 <= i < |hops| - 1 ==> hops[i].To() == hops[i + 1].From())
  }

  ghost predicate Loop(u: set<Atom>, rules: set<Rule>, hops: seq<Hop>) {
    Chain(u, rules, hops) && hops != [] && hops[|hops| - 1].To() == hops[0].From()
  }

  /** No tuple of u is among its own causes. */
  ghost predicate Acyclic(u: set<Atom>, rules: set<Rule>) {
    forall hops: seq<Hop> :: !Loop(u, rules, hops)
  }

  /** The tuples along a chain. */
  ghost function Stops(u: set<Atom>, rules: set<Rule>, hops: seq<Hop>): (stops: seq<Atom>)
    requires Chain(u, rules, hops) && hops != [] && ClosedUnder(u, rules)
    ensures |stops| == |hops| + 1 && forall i :: 0 <= i < |stops| ==> stops[i] in u
    ensures forall i :: 0 <= i < |hops| ==> stops[i] == hops[i].From() && stops[i + 1] == hops[i].To()
  {
    assert forall i :: 0 <= i < |hops| ==> hops[i].From() in u && hops[i].To() in u by {
      forall i | 0 <= i < |hops|
        ensures hops[i].From() in u && hops[i].To() in u
      {
        assert IsHop(u, rules, hops[i]);
      }
    }
    seq(|hops|, i requires 0 <= i < |hops| => hops[i].From()) + [hops[|hops| - 1].To()]
  }

  lemma CutLoop(u: set<Atom>, rules: set<Rule>, hops: seq<Hop>, i: nat, j: nat)
    requires Chain(u, rules, hops) && i < j <= |hops| && hops[j - 1].To() == hops[i].From()
    ensures Loop(u, rules, hops[i..j])
  {
    hide IsHop, Hop.To;
    var loop := hops[i..j];
    assert loop[0] == hops[i] && loop[|loop| - 1] == hops[j - 1];
  }

  /** A chain with as many hops as there are tuples goes round a loop. */
  lemma LongChainLoops(u: set<Atom>, rules: set<Rule>, hops: seq<Hop>)
    requires ClosedUnder(u, rules) && Chain(u, rules, hops) && |hops| >= |u| && hops != []
    ensures !Acyclic(u, rules)
  {
    hide ClosedUnder, IsHop, Hop.To;
    var stops := Stops(u, rules, hops);
    if forall i, j :: 0 <= i < j < |stops| ==> stops[i] != stops[j] {
      DistinctFew(stops, u);
    } else {
      var i, j :| 0 <= i < j < |stops| && stops[i] == stops[j];
      assert stops[j - 1 + 1] == hops[j - 1].To();
      CutLoop(u, rules, hops, i, j);
    }
  }

  /** Some chain of k hops ends at a. */
  ghost predicate EndsAt(u: set<Atom>, rules: set<Rule>, a: Atom, k: int) {
    exists hops: seq<Hop> :: Chain(u, rules, hops) && |hops| == k && (hops == [] || hops[k - 1].To() == a)
  }

  lemma EndsAtNone(u: set<Atom>, rules: set<Rule>, a: Atom)
    ensures EndsAt(u, rules, a, 0)
  {
    var hops: seq<Hop> := [];
    assert Chain(u, rules, hops) && |hops| == 0;
  }

  /** The longest chain that ends at a, among those of at most top hops. */
  ghost function Longest(u: set<Atom>, rules: set<Rule>, a: Atom, top: nat): (k: nat)
    ensures k <= top && EndsAt(u, rules, a, k)
    ensures forall j :: k < j <= top ==> !EndsAt(u, rules, a, j)
  {
    EndsAtNone(u, rules, a);
    if EndsAt(u, rules, a, top) then top else Longest(u, rules, a, top - 1)
  }

  lemma HopRises(u: set<Atom>, rules: set<Rule>, h: Hop)
    requires ClosedUnder(u, rules) && Acyclic(u, rules) && IsHop(u, rules, h)
    ensures Longest(u, rules, h.From(), |u|) < Longest(u, rules, h.To(), |u|)
  {
    hide HeadOf, Plug, Satisfied, ClosedUnder, Acyclic;
    var k := Longest(u, rules, h.From(), |u|);
    var hops: seq<Hop> :| Chain(u, rules, hops) && |hops| == k && (hops == [] || hops[k - 1].To() == h.From());
    var more := hops + [h];
    assert Chain(u, rules, more) && more[k].To() == h.To();
    if k + 1 > |u| {
      LongChainLoops(u, rules, more);
    }
    assert EndsAt(u, rules, h.To(), k + 1);
  }

  /** Within u, instances lead from tuples to tuples of higher rank. */
  ghost predicate Ranks(rank: Atom -> nat, u: set<Atom>, rules: set<Rule>) {
    forall h :: IsHop(u, rules, h) ==> rank(h.From()) < rank(h.To())
  }

  lemma {:induction false} ChainRises(rank: Atom -> nat, u: set<Atom>, rules: set<Rule>, hops: seq<Hop>, i: nat)
    requires Ranks(rank, u, rules) && Chain(u, rules, hops) && i < |hops|
    ensures rank(hops[0].From()) < rank(hops[i].To())
  {
    assert IsHop(u, rules, hops[i]);
    if i > 0 {
      ChainRises(rank, u, rules, hops, i - 1);
      assert hops[i - 1].To() == hops[i - 1 + 1].From();
    }
  }

  /** Tuples can be ranked iff none is among its own causes. */
  lemma AcyclicIffRanked(u: set<Atom>, rules: set<Rule>)
    requires ClosedUnder(u, rules)
    ensures Acyclic(u, rules) <==> exists rank :: Ranks(rank, u, rules)
  {
    if Acyclic(u, rules) {
      var rank: Atom -> nat := (a: Atom) => Longest(u, rules, a, |u|);
      forall h | IsHop(u, rules, h)
        ensures rank(h.From()) < rank(h.To())
      {
        HopRises(u, rules, h);
      }
      assert Ranks(rank, u, rules);
    }
    if rank :| Ranks(rank, u, rules) {
      forall hops: seq<Hop> | Loop(u, rules, hops)
        ensures false
      {
        ChainRises(rank, u, rules, hops, |hops| - 1);
      }
    }
  }

  // ----- termination: events weighted by the rank of their tuple

  /** Every table of a body ranks below the table of the head. */
  ghost predicate Ranked(sh: Shape, rules: set<Rule>) {
    forall r, i :: r in rules && 0 <= i < |r.body| ==> sh.rank(r.body[i].table) < sh.rank(r.head.table)
  }

  ghost function ByTable(sh: Shape): Atom -> nat {
    (a: Atom) => sh.rank(a.table)
  }

  /** Rules that are not recursive lead to no loop. */
  lemma RankedRanks(sh: Shape, u: set<Atom>, rules: set<Rule>)
    requires Ranked(sh, rules)
    ensures Ranks(ByTable(sh), u, rules)
  {
  }

  /** Everything stays within a finite universe u, under rules among given. */
  ghost predicate Bounded(rank: Atom -> nat, top: nat, u: set<Atom>, given: set<Rule>, s: State) {
    && ClosedUnder(u, given) && Ranks(rank, u, given)
    && (forall a :: a in u ==> rank(a) <= top)
    && s.rules <= given && s.data.Keys <= u
    && (forall e :: e in s.queue ==> if e.RuleEvent? then e.rule in given else e.atom in u)
  }

  ghost function Pairs(given: set<Rule>, u: set<Atom>): set<(Rule, Atom)> {
    set r, a | r in given && a in u :: (r, a)
  }

  ghost function EventWeight(rank: Atom -> nat, top: nat, base: nat, e: Event): nat
    requires base > 0
  {
    match e
    case RuleEvent(_) => Pow(base, top + 2)
    case FactEvent(a, _, _) => if rank(a) <= top then Pow(base, top + 1 - rank(a)) else 0
  }

  ghost function QueueWeight(rank: Atom -> nat, top: nat, base: nat, queue: seq<Event>): nat
    requires base > 0
  {
    if queue == [] then 0 else EventWeight(rank, top, base, queue[0]) + QueueWeight(rank, top, base, queue[1..])
  }

  lemma {:induction false} QueueWeightAppend(rank: Atom -> nat, top: nat, base: nat, queue: seq<Event>,
      more: seq<Event>)
    requires base > 0
    ensures QueueWeight(rank, top, base, queue + more) ==
      QueueWeight(rank, top, base, queue) + QueueWeight(rank, top, base, more)
    decreases |queue|
  {
    if queue == [] {
      assert queue + more == more;
    } else {
      assert (queue + more)[1..] == queue[1..] + more;
      QueueWeightAppend(rank, top, base, queue[1..], more);
    }
  }

  lemma {:induction false} QueueWeightAtMost(rank: Atom -> nat, top: nat, base: nat, queue: seq<Event>, w: nat)
    requires base > 0 && forall e :: e in queue ==> EventWeight(rank, top, base, e) <= w
    ensures QueueWeight(rank, top, base, queue) <= |queue| * w
    decreases |queue|
  {
    hide EventWeight;
    if queue != [] {
      assert queue[0] in queue;
      QueueWeightAtMost(rank, top, base, queue[1..], w);
      assert |queue| * w == w + |queue[1..]| * w;
    }
  }

  lemma {:induction false} DistinctFew<T>(xs: seq<T>, s: set<T>)
    requires forall i :: 0 <= i < |xs| ==> xs[i] in s
    requires forall i, j :: 0 <= i < j < |xs| ==> xs[i] != xs[j]
    ensures |xs| <= |s|
    decreases |xs|
  {
    if xs != [] {
      var last := |xs| - 1;
      DistinctFew(xs[..last], s - {xs[last]});
    }
  }

  /** The rule and tuple that an event of a batch is about. */
  ghost function KeyOf(e: Event): (Rule, Atom)
    requires e.FactEvent? && e.proofs != []
  {
    (e.proofs[0].rule, HeadOf(e.proofs[0]))
  }

  lemma BatchKey(cause: iset<Proof>, insert: bool, N: seq<Event>, k: nat)
    requires Batch(cause, insert, N) && k < |N|
    ensures N[k].FactEvent? && N[k].proofs != [] && N[k].proofs[0] in cause
    ensures forall j :: 0 <= j < k ==> N[j].FactEvent? && N[j].proofs != [] && KeyOf(N[j]) != KeyOf(N[k])
  {
    assert ReportsOn(cause, insert, N[k]);
    assert N[k].proofs[0] in N[k].Proofs();
    forall j | 0 <= j < k
      ensures N[j].FactEvent? && N[j].proofs != [] && KeyOf(N[j]) != KeyOf(N[k])
    {
      assert ReportsOn(cause, insert, N[j]);
      assert N[j].proofs[0] in N[j].Proofs();
    }
  }

  /** A batch has at most one event for each rule and tuple. */
  lemma BatchSize(cause: iset<Proof>, insert: bool, N: seq<Event>, given: set<Rule>, u: set<Atom>)
    requires Batch(cause, insert, N)
    requires forall pr :: pr in cause ==> pr.rule in given && HeadOf(pr) in u
    ensures |N| <= |Pairs(given, u)|
  {
    hide Batch, HeadOf;
    forall k | 0 <= k < |N|
      ensures N[k].FactEvent? && N[k].proofs != [] && KeyOf(N[k]) in Pairs(given, u)
    {
      BatchKey(cause, insert, N, k);
    }
    var keys := seq(|N|, k requires 0 <= k < |N| => KeyOf(N[k]));
    forall i, j | 0 <= i < j < |keys|
      ensures keys[i] != keys[j]
    {
      BatchKey(cause, insert, N, j);
    }
    DistinctFew(keys, Pairs(given, u));
  }

  ghost function Base(given: set<Rule>, u: set<Atom>): (b: nat)
    ensures b > 0
  {
    |Pairs(given, u)| + 1
  }

  /** What a batch adds to the queue weighs less than one event of the weight below which all
      its events are. */
  lemma BatchLight(rank: Atom -> nat, top: nat, given: set<Rule>, u: set<Atom>, cause: iset<Proof>, insert: bool,
      N: seq<Event>, e: nat)
    requires Batch(cause, insert, N)
    requires forall pr :: pr in cause ==> pr.rule in given && HeadOf(pr) in u
    requires forall pr :: pr in cause ==> rank(HeadOf(pr)) <= top && top + 1 - rank(HeadOf(pr)) <= e
    ensures QueueWeight(rank, top, Base(given, u), N) < Pow(Base(given, u), e + 1)
  {
    hide Batch;
    var b := Base(given, u);
    forall v | v in N
      ensures EventWeight(rank, top, b, v) <= Pow(b, e)
    {
      var k :| 0 <= k < |N| && N[k] == v;
      BatchMember(cause, insert, N, k);
      assert v.proofs[0] in v.Proofs();
      PowMonotone(b, top + 1 - rank(v.atom), e);
    }
    QueueWeightAtMost(rank, top, b, N, Pow(b, e));
    BatchSize(cause, insert, N, given, u);
    Scale(|N|, b, Pow(b, e));
  }

  lemma Scale(n: nat, b: nat, w: nat)
    requires n < b && w > 0
    ensures n * w < b * w
  {
  }

  lemma CausesBounded(rank: Atom -> nat, top: nat, u: set<Atom>, given: set<Rule>, rules: set<Rule>, d: set<Atom>,
      f: Atom)
    requires ClosedUnder(u, given) && Ranks(rank, u, given) && rules <= given && d <= u && f in u
    requires forall a :: a in u ==> rank(a) <= top
    ensures forall pr :: pr in Causes(d, rules, f) ==>
      pr.rule in given && HeadOf(pr) in u && rank(f) < rank(HeadOf(pr)) <= top
  {
    forall pr | pr in Causes(d, rules, f)
      ensures pr.rule in given && HeadOf(pr) in u && rank(f) < rank(HeadOf(pr)) <= top
    {
      var i: nat :| Uses(d, pr, i, f);
      assert IsHop(u, given, Hop(pr, i));
    }
  }

  lemma SatBounded(u: set<Atom>, given: set<Rule>, r: Rule, d: set<Atom>)
    requires ClosedUnder(u, given) && r in given && d <= u
    ensures forall pr :: pr in SatSet(d, {r}) ==> pr.rule in given && HeadOf(pr) in u
  {
    forall pr | pr in SatSet(d, {r})
      ensures pr.rule in given && HeadOf(pr) in u
    {
      assert Satisfied(u, pr);
    }
  }

  lemma BatchBounded(cause: iset<Proof>, insert: bool, N: seq<Event>, u: set<Atom>)
    requires Batch(cause, insert, N) && forall pr :: pr in cause ==> HeadOf(pr) in u
    ensures forall e :: e in N ==> e.FactEvent? && e.atom in u
  {
    forall e | e in N
      ensures e.FactEvent? && e.atom in u
    {
      var k :| 0 <= k < |N| && N[k] == e;
      BatchMember(cause, insert, N, k);
      assert e.proofs[0] in e.Proofs();
    }
  }

  lemma RuleMoreLight(rank: Atom -> nat, top: nat, u: set<Atom>, given: set<Rule>, s: State, r: Rule, more: seq<Event>)
    requires Bounded(rank, top, u, given, s) && r in given && Batch(SatSet(s.data.Keys, {r}), true, more)
    ensures forall e :: e in more ==> e.FactEvent? && e.atom in u
    ensures QueueWeight(rank, top, Base(given, u), more) < Pow(Base(given, u), top + 2)
  {
    hide Batch, SatSet, ClosedUnder, Ranks;
    var cause := SatSet(s.data.Keys, {r});
    SatBounded(u, given, r, s.data.Keys);
    BatchBounded(cause, true, more, u);
    BatchLight(rank, top, given, u, cause, true, more, top + 1);
  }

  lemma FactMoreLight(rank: Atom -> nat, top: nat, u: set<Atom>, given: set<Rule>, s: State, f: Atom,
      insert: bool, more: seq<Event>)
    requires Bounded(rank, top, u, given, s) && f in u && Batch(Causes(s.data.Keys, s.rules, f), insert, more)
    ensures forall e :: e in more ==> e.FactEvent? && e.atom in u
    ensures rank(f) <= top && QueueWeight(rank, top, Base(given, u), more) < Pow(Base(given, u), top + 1 - rank(f))
  {
    hide Batch, Causes, ClosedUnder, Ranks;
    var cause := Causes(s.data.Keys, s.rules, f);
    CausesBounded(rank, top, u, given, s.rules, s.data.Keys, f);
    BatchBounded(cause, insert, more, u);
    BatchLight(rank, top, given, u, cause, insert, more, top - rank(f));
  }

  lemma ModifiedWithin(data: Data, e: Event, u: set<Atom>)
    requires e.FactEvent? && e.atom in u && data.Keys <= u
    ensures Modified(data, e).Keys <= u
  {
  }

  /** Every round of the queue stays within the universe and makes the queue lighter. */
  lemma RoundLightens(rank: Atom -> nat, top: nat, u: set<Atom>, given: set<Rule>, s: State, s': State)
    requires Bounded(rank, top, u, given, s) && Round(s, s')
    ensures Bounded(rank, top, u, given, s')
    ensures QueueWeight(rank, top, Base(given, u), s'.queue) < QueueWeight(rank, top, Base(given, u), s.queue)
  {
    hide Batch, ClosedUnder, Ranks, SatSet, Causes, Base, Modified, Pow;
    var more :| Processed(s.rules, s.data, s.queue, more, s'.rules, s'.data, s'.queue);
    var e := s.queue[0];
    assert e in s.queue;
    QueueWeightAppend(rank, top, Base(given, u), s.queue[1..], more);
    match e
    case RuleEvent(r) =>
      if !Known(s.rules, r) {
        RuleMoreLight(rank, top, u, given, s, r, more);
      }
    case FactEvent(f, _, insert) =>
      FactMoreLight(rank, top, u, given, s, f, insert, more);
      ModifiedWithin(s.data, e, u);
  }

  // ----- inserting only

  function FactRuleOf(a: Atom): Rule {
    Rule(Literal(a.table, Objs(a.row), false), [])
  }

  /** The rules and base facts as one program. */
  function ProgramOf(rules: set<Rule>, facts: set<Atom>): Program {
    Program(rules + set a | a in facts :: FactRuleOf(a), map[])
  }

  /** The tuple is stored, or about to be. */
  ghost predicate Coming(s: State, a: Atom) {
    a in s.data || OnQueue(s.queue, a)
  }

  /** Some event on the queue is about the tuple a. */
  ghost predicate OnQueue(queue: seq<Event>, a: Atom) {
    exists e :: e in queue && e.FactEvent? && e.atom == a
  }

  /** Rules and facts given so far have been stored or are queued; what the stored data make the
      rules say has been stored or is queued; and nothing else is. */
  ghost predicate Growing(m: Interpretation, given: set<Rule>, base: set<Atom>, s: State) {
    && s.rules <= given
    && (forall e :: e in s.queue ==> if e.RuleEvent? then e.rule in given else e.insert && e.atom in m)
    && (forall a :: a in s.data ==> a in m)
    && (forall a :: a in base ==> Coming(s, a))
    && (forall r :: r in given ==> Arriving(s, r))
    && Saturating(s)
  }

  /** What the rules make of the stored tuples is stored or about to be. */
  ghost predicate Saturating(s: State) {
    forall pr :: pr in SatSet(s.data.Keys, s.rules) ==> Coming(s, HeadOf(pr))
  }

  /** The rule is stored, up to the order of its body, or about to be. */
  ghost predicate Arriving(s: State, r: Rule) {
    Known(s.rules, r) || RuleEvent(r) in s.queue
  }

  lemma RowOfObjs(v: Choice, row: seq<Const>)
    ensures Row(v, Objs(row)) == row
  {
  }

  /** A satisfied instance of a rule makes its head true in the model. */
  lemma SatisfiedTrue(given: set<Rule>, base: set<Atom>, sh: Shape, d: set<Atom>, pr: Proof)
    requires Fits(ProgramOf(given, base), sh) && pr.rule in given && Good(pr.rule)
    requires Satisfied(d, pr) && forall a :: a in d ==> a in Model(ProgramOf(given, base), sh)
    ensures HeadOf(pr) in Model(ProgramOf(given, base), sh)
  {
    var p := ProgramOf(given, base);
    var m := Model(p, sh);
    var v := Values(pr.binding);
    forall i | 0 <= i < |pr.rule.body|
      ensures Holds(map[], pr.rule.body[i], v, m)
    {
      assert Plug(pr.binding, pr.rule.body[i]) in d;
    }
    assert Yields(p, pr.rule, v, m, HeadOf(pr));
    ModelFixpoint(p, sh, HeadOf(pr));
  }

  lemma BatchTrue(cause: iset<Proof>, N: seq<Event>, m: Interpretation)
    requires Batch(cause, true, N) && forall pr :: pr in cause ==> HeadOf(pr) in m
    ensures forall e :: e in N ==> e.FactEvent? && e.insert && e.atom in m
  {
    forall e | e in N
      ensures e.FactEvent? && e.insert && e.atom in m
    {
      var k :| 0 <= k < |N| && N[k] == e;
      BatchMember(cause, true, N, k);
      assert e.proofs[0] in e.Proofs();
    }
  }

  lemma BatchQueues(cause: iset<Proof>, insert: bool, N: seq<Event>, pr: Proof)
    requires Batch(cause, insert, N) && pr in cause
    ensures OnQueue(N, HeadOf(pr))
  {
    var k :| 0 <= k < |N| && pr in N[k].Proofs();
    BatchMember(cause, insert, N, k);
    assert N[k] in N;
  }

  /** The queue of the next round: all but the first event, and what that caused. */
  lemma QueueNext(s: State, s': State, more: seq<Event>)
    requires s.queue != [] && s'.queue == s.queue[1..] + more
    ensures forall e :: e in s.queue ==> e == s.queue[0] || e in s'.queue
    ensures forall e :: e in s'.queue ==> e in s.queue || e in more
    ensures forall a :: OnQueue(more, a) ==> OnQueue(s'.queue, a)
    ensures forall a :: OnQueue(s.queue, a) ==> OnQueue(s'.queue, a) || (s.queue[0].FactEvent? && s.queue[0].atom == a)
  {
    assert s.queue[0] in s.queue;
    forall e
      ensures e in s.queue ==> e == s.queue[0] || e in s'.queue
      ensures e in s'.queue ==> e in s.queue || e in more
    {
      assert e in s.queue ==> e == s.queue[0] || e in s.queue[1..];
    }
  }

  lemma ArrivingRound(s: State, s': State, r: Rule)
    requires Arriving(s, r) && Round(s, s')
    ensures Arriving(s', r)
  {
    hide Batch;
    var more :| Processed(s.rules, s.data, s.queue, more, s'.rules, s'.data, s'.queue);
    if !Known(s.rules, r) {
      if s.queue[0] == RuleEvent(r) {
        assert r in s'.rules && SameRule(r, r);
      } else {
        assert RuleEvent(r) in s.queue[1..];
      }
    }
  }

  /** An instance that comes to be satisfied causes an event about its head. */
  lemma NewlySatisfied(s: State, s': State, more: seq<Event>, pr: Proof)
    requires Processed(s.rules, s.data, s.queue, more, s'.rules, s'.data, s'.queue) && Inserting(s)
    requires (forall r :: r in s.rules ==> Good(r)) && (forall e :: e in s.queue && e.RuleEvent? ==> Good(e.rule))
    requires pr in SatSet(s'.data.Keys, s'.rules) && pr !in SatSet(s.data.Keys, s.rules)
    ensures OnQueue(more, HeadOf(pr))
  {
    var e := s.queue[0];
    assert e in s.queue;
    match e
    case RuleEvent(r) =>
      BatchQueues(SatSet(s.data.Keys, {r}), true, more, pr);
    case FactEvent(f, _, _) =>
      assert s'.data.Keys == s.data.Keys + {f};
      SatInsert(s.data.Keys, s.rules, f);
      BatchQueues(Causes(s.data.Keys, s.rules, f), true, more, pr);
  }

  lemma SaturatingRound(s: State, s': State)
    requires Saturating(s) && Inserting(s) && Round(s, s')
    requires (forall r :: r in s.rules ==> Good(r)) && (forall e :: e in s.queue && e.RuleEvent? ==> Good(e.rule))
    ensures Saturating(s')
    ensures forall a :: Coming(s, a) ==> Coming(s', a)
  {
    var more :| Processed(s.rules, s.data, s.queue, more, s'.rules, s'.data, s'.queue);
    QueueNext(s, s', more);
    assert s.queue[0] in s.queue;
    forall a | Coming(s, a)
      ensures Coming(s', a)
    {
    }
    forall pr | pr in SatSet(s'.data.Keys, s'.rules)
      ensures Coming(s', HeadOf(pr))
    {
      if pr !in SatSet(s.data.Keys, s.rules) {
        NewlySatisfied(s, s', more, pr);
      }
    }
  }

  lemma GrowingRound(given: set<Rule>, base: set<Atom>, sh: Shape, s: State, s': State)
    requires Fits(ProgramOf(given, base), sh) && forall r :: r in given ==> Good(r)
    requires Growing(Model(ProgramOf(given, base), sh), given, base, s) && Round(s, s')
    ensures Growing(Model(ProgramOf(given, base), sh), given, base, s')
  {
    forall r | r in given
      ensures Arriving(s', r)
    {
      ArrivingRound(s, s', r);
    }
    SaturatingRound(s, s');
    var more :| Processed(s.rules, s.data, s.queue, more, s'.rules, s'.data, s'.queue);
    var m, e := Model(ProgramOf(given, base), sh), s.queue[0];
    hide Fits, Model, Arriving, Saturating, Good, Batch;
    QueueNext(s, s', more);
    assert e in s.queue;
    if e.FactEvent? || !Known(s.rules, e.rule) {
      MoreTrue(given, base, sh, s, more);
    }
  }

  /** What a round adds to the queue is true in the model. */
  lemma MoreTrue(given: set<Rule>, base: set<Atom>, sh: Shape, s: State, more: seq<Event>)
    requires Fits(ProgramOf(given, base), sh) && forall r :: r in given ==> Good(r)
    requires Growing(Model(ProgramOf(given, base), sh), given, base, s) && s.queue != []
    requires Batch(
      if s.queue[0].RuleEvent? then SatSet(s.data.Keys, {s.queue[0].rule})
      else Causes(s.data.Keys, s.rules, s.queue[0].atom), true, more)
    ensures forall e :: e in more ==> e.FactEvent? && e.insert && e.atom in Model(ProgramOf(given, base), sh)
  {
    var m, e := Model(ProgramOf(given, base), sh), s.queue[0];
    var cause := if e.RuleEvent? then SatSet(s.data.Keys, {e.rule}) else Causes(s.data.Keys, s.rules, e.atom);
    assert e in s.queue;
    if e.FactEvent? {
      SatInsert(s.data.Keys, s.rules, e.atom);
    }
    hide Fits, Model, Arriving, Saturating, Good, Batch;
    forall pr | pr in cause
      ensures HeadOf(pr) in m
    {
      if e.RuleEvent? {
        SatisfiedTrue(given, base, sh, s.data.Keys, pr);
      } else {
        assert pr in SatSet(s.data.Keys + {e.atom}, s.rules);
        SatisfiedTrue(given, base, sh, s.data.Keys + {e.atom}, pr);
      }
    }
    BatchTrue(cause, more, m);
  }

  /** With nothing left in the queue the stored tuples are exactly the model. */
  lemma GrownIsModel(given: set<Rule>, base: set<Atom>, sh: Shape, rules: set<Rule>, data: Data)
    requires Fits(ProgramOf(given, base), sh) && forall r :: r in given ==> Good(r)
    requires Growing(Model(ProgramOf(given, base), sh), given, base, State(rules, data, []))
    ensures forall a :: a in data <==> a in Model(ProgramOf(given, base), sh)
  {
    forall a | a in Model(ProgramOf(given, base), sh)
      ensures a in data
    {
      TrueIsStored(given, base, sh, rules, data, a);
    }
  }

  lemma {:induction false} TrueIsStored(given: set<Rule>, base: set<Atom>, sh: Shape, rules: set<Rule>,
      data: Data, a: Atom)
    requires Fits(ProgramOf(given, base), sh) && forall r :: r in given ==> Good(r)
    requires Growing(Model(ProgramOf(given, base), sh), given, base, State(rules, data, []))
    requires a in Model(ProgramOf(given, base), sh)
    ensures a in data
    decreases sh.rank(a.table)
  {
    var p := ProgramOf(given, base);
    var m := Model(p, sh);
    ModelFixpoint(p, sh, a);
    var r, v :| Yields(p, r, v, m, a);
    if r !in given {
      var b :| b in base && r == FactRuleOf(b);
      RowOfObjs(v, b.row);
      assert a == b;
      assert Coming(State(rules, data, []), a);
    } else {
      assert Known(rules, r);
      var r' :| r' in rules && SameRule(r, r');
      forall i | 0 <= i < |r.body|
        ensures Atom(r.body[i].table, Row(v, r.body[i].args)) in data
      {
        assert Holds(p.builtins, r.body[i], v, m);
        TrueIsStored(given, base, sh, rules, data, Atom(r.body[i].table, Row(v, r.body[i].args)));
      }
      var pr := InstanceOf(r', v);
      InstanceSatisfied(r, r', v, data.Keys);
      assert pr in SatSet(data.Keys, rules);
      assert Coming(State(rules, data, []), HeadOf(pr));
    }
  }

  function InstanceOf(r: Rule, v: Choice): Proof {
    Proof(map x | x in RuleVars(r) :: v(x), r)
  }

  lemma InstancePlug(r: Rule, v: Choice, lit: Literal)
    requires lit.Vars() <= RuleVars(r)
    ensures Plug(InstanceOf(r, v).binding, lit) == Atom(lit.table, Row(v, lit.args))
  {
    RowAgree(Values(InstanceOf(r, v).binding), v, lit.args);
  }

  lemma InstanceSatisfied(r: Rule, r': Rule, v: Choice, d: set<Atom>)
    requires SameRule(r, r')
    requires forall i :: 0 <= i < |r.body| ==> Atom(r.body[i].table, Row(v, r.body[i].args)) in d
    ensures Satisfied(d, InstanceOf(r', v))
    ensures HeadOf(InstanceOf(r', v)) == Atom(r.head.table, Row(v, r.head.args))
  {
    InstancePlug(r', v, r'.head);
    forall i | 0 <= i < |r'.body|
      ensures Plug(InstanceOf(r', v).binding, r'.body[i]) in d
    {
      var lit := r'.body[i];
      assert lit in multiset(r'.body);
      assert lit in multiset(r.body);
      var j :| 0 <= j < |r.body| && r.body[j] == lit;
      assert lit.Vars() <= BodyVars(r'.body);
      InstancePlug(r', v, lit);
    }
  }

  // ----- what a run of the queue starts from

  lemma {:induction false} TopExists(u: set<Atom>, rank: Atom -> nat) returns (top: nat)
    ensures forall a :: a in u ==> rank(a) <= top
  {
    if u == {} {
      top := 0;
    } else {
      var b :| b in u;
      top := TopExists(u - {b}, rank);
      top := top + rank(b);
    }
  }

  ghost function AtomsIn(data: Data, queue: seq<Event>): set<Atom> {
    data.Keys + set e | e in queue && e.FactEvent? :: e.atom
  }

  /** Within some closed set around the atoms no tuple is among its own causes. */
  ghost predicate Settled(given: set<Rule>, atoms: set<Atom>) {
    exists u: set<Atom> :: atoms <= u && ClosedUnder(u, given) && Acyclic(u, given)
  }

  /** Then there is a bound on the run. */
  lemma BoundedExists(given: set<Rule>, s: State, atoms: set<Atom>) returns (rank: Atom -> nat, u: set<Atom>, top: nat)
    requires s.rules <= given && AtomsIn(s.data, s.queue) <= atoms && Settled(given, atoms)
    requires forall e :: e in s.queue && e.RuleEvent? ==> e.rule in given
    ensures Bounded(rank, top, u, given, s)
  {
    hide Acyclic, ClosedUnder, Ranks;
    u :| atoms <= u && ClosedUnder(u, given) && Acyclic(u, given);
    AcyclicIffRanked(u, given);
    rank :| Ranks(rank, u, given);
    top := TopExists(u, rank);
  }

  // ----- the base tables

  ghost function BasePart(d: set<Atom>, vs: iset<Name>): set<Atom> {
    set a | a in d && a.table !in vs
  }

  ghost function BaseNext(d: set<Atom>, vs: iset<Name>, e: Event): set<Atom> {
    if e.RuleEvent? || e.atom.table in vs then d else if e.insert then d + {e.atom} else d - {e.atom}
  }

  /** The base tables once the queue is empty. */
  ghost function BaseAfter(d: set<Atom>, vs: iset<Name>, queue: seq<Event>): set<Atom>
    decreases |queue|
  {
    if queue == [] then d else BaseAfter(BaseNext(d, vs, queue[0]), vs, queue[1..])
  }

  lemma {:induction false} BaseAfterAppend(d: set<Atom>, vs: iset<Name>, queue: seq<Event>, more: seq<Event>)
    ensures BaseAfter(d, vs, queue + more) == BaseAfter(BaseAfter(d, vs, queue), vs, more)
    decreases |queue|
  {
    if queue == [] {
      assert queue + more == more;
    } else {
      assert (queue + more)[1..] == queue[1..] + more;
      BaseAfterAppend(BaseNext(d, vs, queue[0]), vs, queue[1..], more);
    }
  }

  lemma {:induction false} BaseAfterViews(d: set<Atom>, vs: iset<Name>, queue: seq<Event>)
    requires forall e :: e in queue ==> e.FactEvent? && e.atom.table in vs
    ensures BaseAfter(d, vs, queue) == d
    decreases |queue|
  {
    if queue != [] {
      assert queue[0] in queue;
      BaseAfterViews(d, vs, queue[1..]);
    }
  }

  /** A round does to the base tables what its event says, and queues nothing for them. */
  lemma BaseRound(vs: iset<Name>, s: State, s': State)
    requires Layered(vs, s) && Round(s, s')
    ensures BaseAfter(BasePart(s'.data.Keys, vs), vs, s'.queue) == BaseAfter(BasePart(s.data.Keys, vs), vs, s.queue)
  {
    var more :| Processed(s.rules, s.data, s.queue, more, s'.rules, s'.data, s'.queue);
    var e := s.queue[0];
    assert e in s.queue;
    assert BasePart(s'.data.Keys, vs) == BaseNext(BasePart(s.data.Keys, vs), vs, e) by {
      if e.FactEvent? && e.atom.table !in vs {
        assert e.Proofs() == {};
      }
    }
    if e.FactEvent? {
      BatchAtoms(vs, Causes(s.data.Keys, s.rules, e.atom), e.insert, more);
    } else if !Known(s.rules, e.rule) {
      BatchAtoms(vs, SatSet(s.data.Keys, {e.rule}), true, more);
    }
    BaseAfterAppend(BasePart(s'.data.Keys, vs), vs, s.queue[1..], more);
    BaseAfterViews(BaseAfter(BasePart(s'.data.Keys, vs), vs, s.queue[1..]), vs, more);
  }

  // ----- whole runs

  ghost function Last(states: seq<State>): State
    requires states != []
  {
    states[|states| - 1]
  }

  /** The run up to its last round but one. */
  lemma RunBack(states: seq<State>)
    requires Run(states) && |states| > 1
    ensures var init := states[..|states| - 1];
      Run(init) && init != [] && init[0] == states[0] && Last(init) == states[|states| - 2]
        && Round(Last(init), Last(states))
    ensures NeverLingers(states) <==> NeverLingers(states[..|states| - 1]) && !Lingers(states[|states| - 2])
  {
    hide Round, Lingers;
    var n := |states| - 1;
    assert Round(states[n - 1], states[n - 1 + 1]);
    assert NeverLingers(states) ==> !Lingers(states[n - 1]);
  }

  lemma {:induction false} ArrivingRun(states: seq<State>, r: Rule)
    requires Run(states) && states != [] && Arriving(states[0], r)
    ensures Arriving(Last(states), r)
    decreases |states|
  {
    hide Round, Lingers;
    if |states| > 1 {
      RunBack(states);
      ArrivingRun(states[..|states| - 1], r);
      ArrivingRound(states[|states| - 2], Last(states), r);
    }
  }

  // ----- deletes of which it can be told beforehand that no tuple will linger

  /** The tuples in hit are stored; so is whatever their deletion can reach; and a view tuple among
      them that instances of rules use has only one proof. */
  ghost predicate Thin(vs: iset<Name>, hit: set<Atom>, s: State) {
    && hit <= s.data.Keys
    && (forall f, pr :: f in hit && pr in Causes(s.data.Keys, s.rules, f) ==> HeadOf(pr) in hit)
    && (forall f :: f in hit && f.table in vs && Causes(s.data.Keys, s.rules, f) != iset{} ==> |s.data[f]| == 1)
  }

  /** Since s0 there have only been deletes of tuples in hit, for proofs that they had. */
  ghost predicate Thinning(vs: iset<Name>, hit: set<Atom>, s0: State, s: State) {
    && s.rules == s0.rules
    && (forall a :: a in s.data ==> a in s0.data && s.data[a] <= s0.data[a])
    && (forall a :: a in s.data && a.table in vs ==> s.data[a] != {})
    && (forall a :: a in s.data && a.table !in vs ==> s.data[a] == {})
    && (forall e :: e in s.queue ==> IsThinning(vs, hit, s0, e))
  }

  ghost predicate IsThinning(vs: iset<Name>, hit: set<Atom>, s0: State, e: Event) {
    && e.FactEvent? && !e.insert && e.atom in hit && e.atom in s0.data
    && e.Proofs() <= s0.data[e.atom] && (e.atom.table in vs <==> e.Proofs() != {})
  }

  lemma OneProof(proofs: set<Proof>, some: set<Proof>)
    requires |proofs| == 1 && some <= proofs && some != {}
    ensures some == proofs
  {
    var p :| p in some;
    assert |proofs - {p}| == 0;
  }

  lemma CausesShrink(d: set<Atom>, d0: set<Atom>, rules: set<Rule>, f: Atom, pr: Proof)
    requires d <= d0 && pr in Causes(d, rules, f)
    ensures pr in Causes(d0, rules, f) && (f in d0 ==> pr in SatSet(d0, rules))
  {
    var i: nat :| Uses(d, pr, i, f);
    assert Uses(d0, pr, i, f);
  }

  lemma ThinningStays(vs: iset<Name>, hit: set<Atom>, s0: State, s: State)
    requires Thin(vs, hit, s0) && Thinning(vs, hit, s0, s)
    ensures !Lingers(s)
  {
    if Lingers(s) {
      var e := s.queue[0];
      assert e in s.queue && IsThinning(vs, hit, s0, e);
      var pr :| pr in Causes(s.data.Keys, s.rules, e.atom);
      CausesShrink(s.data.Keys, s0.data.Keys, s.rules, e.atom, pr);
      if e.atom.table in vs {
        OneProof(s0.data[e.atom], e.Proofs());
        OneProof(s0.data[e.atom], s.data[e.atom]);
      }
    }
  }

  lemma MoreThinning(vs: iset<Name>, hit: set<Atom>, s0: State, s: State, f: Atom, more: seq<Event>)
    requires Thin(vs, hit, s0) && Thinning(vs, hit, s0, s) && f in hit
    requires Exact(s0.data, vs, SatSet(s0.data.Keys, s0.rules))
    requires forall pr :: pr in Causes(s.data.Keys, s.rules, f) ==> HeadOf(pr).table in vs
    requires Batch(Causes(s.data.Keys, s.rules, f), false, more)
    ensures forall v :: v in more ==> IsThinning(vs, hit, s0, v)
  {
    forall v | v in more
      ensures IsThinning(vs, hit, s0, v)
    {
      var k :| 0 <= k < |more| && more[k] == v;
      BatchMember(Causes(s.data.Keys, s.rules, f), false, more, k);
      assert v.proofs[0] in v.Proofs();
      forall pr | pr in v.Proofs()
        ensures HeadOf(pr) == v.atom && v.atom in hit && pr in At(s0.data, v.atom)
      {
        CausesShrink(s.data.Keys, s0.data.Keys, s.rules, f, pr);
        assert pr in At(s0.data, HeadOf(pr)) <==> pr in SatSet(s0.data.Keys, s0.rules);
      }
    }
  }

  lemma ThinningRound(vs: iset<Name>, hit: set<Atom>, s0: State, s: State, s': State)
    requires Thin(vs, hit, s0) && Thinning(vs, hit, s0, s) && Layered(vs, s) && Round(s, s')
    requires Exact(s0.data, vs, SatSet(s0.data.Keys, s0.rules))
    ensures Thinning(vs, hit, s0, s')
  {
    var more :| Processed(s.rules, s.data, s.queue, more, s'.rules, s'.data, s'.queue);
    var e := s.queue[0];
    assert e in s.queue && IsThinning(vs, hit, s0, e);
    MoreThinning(vs, hit, s0, s, e.atom, more);
    hide IsThinning, Batch, Causes, Exact, Thin;
    QueueNext(s, s', more);
  }

  lemma {:induction false} ThinningRun(vs: iset<Name>, hit: set<Atom>, states: seq<State>)
    requires Run(states) && states != [] && Layered(vs, states[0]) && Thin(vs, hit, states[0])
    requires Thinning(vs, hit, states[0], states[0])
    requires Exact(states[0].data, vs, SatSet(states[0].data.Keys, states[0].rules))
    ensures Thinning(vs, hit, states[0], Last(states)) && NeverLingers(states)
    decreases |states|
  {
    hide Round, Lingers, Layered, Thin, Thinning, Exact;
    if |states| > 1 {
      RunBack(states);
      var init := states[..|states| - 1];
      ThinningRun(vs, hit, init);
      LayeredRun(vs, init);
      ThinningStays(vs, hit, states[0], Last(init));
      ThinningRound(vs, hit, states[0], Last(init), Last(states));
    }
  }

  /** Deleting base facts from views that are right lets no tuple linger, if the tuples that the
      deletes reach, and that rules use, have one proof each. */
  lemma ThinDeletes(vs: iset<Name>, hit: set<Atom>, states: seq<State>)
    requires Run(states) && states != [] && Layered(vs, states[0]) && Thin(vs, hit, states[0])
    requires Exact(states[0].data, vs, SatSet(states[0].data.Keys, states[0].rules))
    requires forall e :: e in states[0].queue ==>
      e.FactEvent? && !e.insert && e.proofs == [] && e.atom in hit && e.atom.table !in vs
    ensures NeverLingers(states)
  {
    var s := states[0];
    forall e | e in s.queue
      ensures IsThinning(vs, hit, s, e)
    {
      assert e.Proofs() == {};
    }
    ThinningRun(vs, hit, states);
  }

  /** A run that stays within bounds has no more rounds than its queue has weight at the start. */
  lemma {:induction false} RunsEnd(rank: Atom -> nat, top: nat, u: set<Atom>, given: set<Rule>, states: seq<State>)
    requires Run(states) && states != [] && Bounded(rank, top, u, given, states[0])
    ensures Bounded(rank, top, u, given, Last(states))
    ensures |states| - 1 + QueueWeight(rank, top, Base(given, u), Last(states).queue) <=
      QueueWeight(rank, top, Base(given, u), states[0].queue)
    decreases |states|
  {
    hide Round, Lingers, Bounded, QueueWeight;
    if |states| > 1 {
      RunBack(states);
      RunsEnd(rank, top, u, given, states[..|states| - 1]);
      RoundLightens(rank, top, u, given, states[|states| - 2], Last(states));
    }
  }

  /** What is growing towards a model keeps growing. */
  lemma {:induction false} GrowingRun(given: set<Rule>, base: set<Atom>, sh: Shape, states: seq<State>)
    requires Run(states) && states != [] && Fits(ProgramOf(given, base), sh) && forall r :: r in given ==> Good(r)
    requires Growing(Model(ProgramOf(given, base), sh), given, base, states[0])
    ensures Growing(Model(ProgramOf(given, base), sh), given, base, Last(states))
    decreases |states|
  {
    hide Round, Lingers, Growing, Fits, Good;
    if |states| > 1 {
      RunBack(states);
      GrowingRun(given, base, sh, states[..|states| - 1]);
      GrowingRound(given, base, sh, states[|states| - 2], Last(states));
    }
  }

  /** The base tables end as the queue said at the start. */
  lemma {:induction false} LayeredRun(vs: iset<Name>, states: seq<State>)
    requires Run(states) && states != [] && Layered(vs, states[0])
    ensures Layered(vs, Last(states))
    ensures BaseAfter(BasePart(Last(states).data.Keys, vs), vs, Last(states).queue)
      == BaseAfter(BasePart(states[0].data.Keys, vs), vs, states[0].queue)
    decreases |states|
  {
    hide Round, Lingers, Layered, BaseAfter;
    if |states| > 1 {
      RunBack(states);
      LayeredRun(vs, states[..|states| - 1]);
      LayeredRound(vs, states[|states| - 2], Last(states));
      BaseRound(vs, states[|states| - 2], Last(states));
    }
  }

  /** Rules over base tables never let a tuple linger. */
  lemma {:induction false} FlatRun(vs: iset<Name>, states: seq<State>)
    requires Run(states) && states != [] && Layered(vs, states[0]) && Flat(vs, states[0])
    ensures Flat(vs, Last(states)) && NeverLingers(states)
    decreases |states|
  {
    hide Round, Lingers, Layered, Flat;
    if |states| > 1 {
      RunBack(states);
      FlatRun(vs, states[..|states| - 1]);
      LayeredRun(vs, states[..|states| - 1]);
      FlatRound(vs, states[|states| - 2], Last(states));
    }
  }

  /** Nor does inserting. */
  lemma {:induction false} InsertingRun(states: seq<State>)
    requires Run(states) && states != [] && Inserting(states[0])
    ensures Inserting(Last(states)) && NeverLingers(states)
    decreases |states|
  {
    hide Round, Lingers, Inserting;
    if |states| > 1 {
      RunBack(states);
      InsertingRun(states[..|states| - 1]);
      InsertingRound(states[|states| - 2], Last(states));
    }
  }

  // ----- what right views are

  /** What is stored with proofs, or as a base fact, a rule yields. */
  lemma StoredFires(vs: iset<Name>, given: set<Rule>, base: set<Atom>, rules: set<Rule>, data: Data,
      m: Interpretation, a: Atom)
    requires Layered(vs, State(rules, data, [])) && Right(vs, State(rules, data, []))
    requires rules <= given && BasePart(data.Keys, vs) == base && a in data && m == iset b: Atom | b in data
    ensures Fires(ProgramOf(given, base), m, a)
  {
    var p := ProgramOf(given, base);
    if a.table in vs {
      var pr :| pr in data[a];
      assert HeadOf(pr) == a && pr in At(data, HeadOf(pr));
      assert pr in SatSet(data.Keys, rules);
      var v := Values(pr.binding);
      forall i | 0 <= i < |pr.rule.body|
        ensures Holds(map[], pr.rule.body[i], v, m)
      {
        assert Plug(pr.binding, pr.rule.body[i]) in data;
      }
      assert Yields(p, pr.rule, v, m, a);
    } else {
      assert a in base;
      var v: Choice := x => Str("");
      RowOfObjs(v, a.row);
      assert Yields(p, FactRuleOf(a), v, m, a);
    }
  }

  /** What a rule yields is stored. */
  lemma FiredIsStored(vs: iset<Name>, given: set<Rule>, base: set<Atom>, rules: set<Rule>, data: Data,
      m: Interpretation, a: Atom)
    requires Right(vs, State(rules, data, []))
      && (forall r :: r in given ==> Good(r) && r.head.table in vs && Known(rules, r))
    requires BasePart(data.Keys, vs) == base && m == (iset b: Atom | b in data) && Fires(ProgramOf(given, base), m, a)
    ensures a in data
  {
    var p := ProgramOf(given, base);
    var r, v :| Yields(p, r, v, m, a);
    if r in given {
      var r' :| r' in rules && SameRule(r, r');
      forall i | 0 <= i < |r.body|
        ensures Atom(r.body[i].table, Row(v, r.body[i].args)) in data
      {
        assert Holds(p.builtins, r.body[i], v, m);
      }
      var pr := InstanceOf(r', v);
      InstanceSatisfied(r, r', v, data.Keys);
      assert pr in SatSet(data.Keys, rules) && HeadOf(pr) == a;
      assert pr in At(data, HeadOf(pr));
    } else {
      var b :| b in base && r == FactRuleOf(b);
      RowOfObjs(v, b.row);
      assert a == b;
    }
  }

  /** If the views are right, the stored tuples are exactly the model of rules and base facts. */
  lemma RightIsModel(vs: iset<Name>, given: set<Rule>, base: set<Atom>, sh: Shape, rules: set<Rule>, data: Data)
    requires Layered(vs, State(rules, data, [])) && Right(vs, State(rules, data, []))
    requires rules <= given && forall r :: r in given ==> Good(r) && r.head.table in vs && Known(rules, r)
    requires BasePart(data.Keys, vs) == base && Fits(ProgramOf(given, base), sh)
    ensures forall a :: a in data <==> a in Model(ProgramOf(given, base), sh)
  {
    var p, m := ProgramOf(given, base), iset b: Atom | b in data;
    forall a
      ensures a in m <==> Fires(p, m, a)
    {
      if a in data {
        StoredFires(vs, given, base, rules, data, m, a);
      }
      if Fires(p, m, a) {
        FiredIsStored(vs, given, base, rules, data, m, a);
      }
    }
    ModelUnique(p, sh, m);
  }

  // ----- growing from one rest to the next

  lemma FitsWithoutFacts(rules: set<Rule>, base: set<Atom>, base': set<Atom>, sh: Shape)
    requires Fits(ProgramOf(rules, base), sh)
    ensures Fits(ProgramOf(rules, base'), sh) && Ranked(sh, rules)
  {
  }

  /** More rules and facts make more true, as long as all rules are positive. */
  lemma {:induction false} ModelGrows(rules: set<Rule>, base: set<Atom>, rules': set<Rule>, base': set<Atom>,
      sh: Shape, a: Atom)
    requires rules <= rules' && base <= base' && forall r :: r in rules' ==> Good(r)
    requires Fits(ProgramOf(rules, base), sh) && Fits(ProgramOf(rules', base'), sh)
    requires a in Model(ProgramOf(rules, base), sh)
    ensures a in Model(ProgramOf(rules', base'), sh)
    decreases sh.rank(a.table)
  {
    var p, p' := ProgramOf(rules, base), ProgramOf(rules', base');
    ModelFixpoint(p, sh, a);
    var r, v :| Yields(p, r, v, Model(p, sh), a);
    forall i | 0 <= i < |r.body|
      ensures Holds(map[], r.body[i], v, Model(p', sh))
    {
      assert Holds(p.builtins, r.body[i], v, Model(p, sh));
      ModelGrows(rules, base, rules', base', sh, Atom(r.body[i].table, Row(v, r.body[i].args)));
    }
    assert Yields(p', r, v, Model(p', sh), a);
    ModelFixpoint(p', sh, a);
  }

  lemma FactTrue(rules: set<Rule>, base: set<Atom>, sh: Shape, a: Atom)
    requires Fits(ProgramOf(rules, base), sh) && a in base
    ensures a in Model(ProgramOf(rules, base), sh)
  {
    var p := ProgramOf(rules, base);
    var v: Choice := x => Str("");
    RowOfObjs(v, a.row);
    assert Yields(p, FactRuleOf(a), v, Model(p, sh), a);
    ModelFixpoint(p, sh, a);
  }

  /** The data are the model of the rules and facts given. */
  ghost predicate IsModel(data: Data, rules: set<Rule>, base: set<Atom>) {
    forall sh :: Fits(ProgramOf(rules, base), sh) ==> forall a :: a in data <==> a in Model(ProgramOf(rules, base), sh)
  }

  /** With new rules and facts queued on top of a model, the data are growing. */
  lemma GrowingStart(given: set<Rule>, base: set<Atom>, given': set<Rule>, base': set<Atom>, sh: Shape, s: State)
    requires IsModel(s.data, given, base) && Fits(ProgramOf(given', base'), sh)
    requires given <= given' && base <= base' && (forall r :: r in given' ==> Good(r)) && s.rules <= given
    requires forall e :: e in s.queue ==> if e.RuleEvent? then e.rule in given' else e.insert && e.atom in base'
    requires forall a :: a in base' ==> a in base || OnQueue(s.queue, a)
    requires forall r :: r in given' ==> Arriving(s, r)
    ensures Growing(Model(ProgramOf(given', base'), sh), given', base', s)
  {
    FitsWithoutFacts(given', base', base, sh);
    assert Fits(ProgramOf(given, base), sh);
    var m, m' := Model(ProgramOf(given, base), sh), Model(ProgramOf(given', base'), sh);
    forall a | a in s.data
      ensures a in m'
    {
      ModelGrows(given, base, given', base', sh, a);
    }
    forall a | a in base'
      ensures a in m' && Coming(s, a)
    {
      FactTrue(given', base', sh, a);
      if a in base {
        FactTrue(given, base, sh, a);
      }
    }
    forall pr | pr in SatSet(s.data.Keys, s.rules)
      ensures Coming(s, HeadOf(pr))
    {
      SatisfiedTrue(given, base, sh, s.data.Keys, pr);
    }
  }
}
