/** Where views are not what the rules say: propagation comes before the test whether an event
    changes anything (congress/datalog/materialized.py), so deletes go too deep, and loops among
    tuples never end. */
module ViewLimits {
  import opened Datalog
  import opened Semantics
  import opened RuleSet
  import opened Views
  import opened ViewRuns

  /** The rule head(x) :- body(x). */
  function StepRule(head: Name, body: Name, x: Name): Rule {
    Rule(Literal(head, [Var(x)], false), [Literal(body, [Var(x)], false)])
  }

  function Fact1(t: Name, c: Const): Atom {
    Atom(t, [c])
  }

  /** The one instance of such a rule for the value c. */
  function StepProof(head: Name, body: Name, x: Name, c: Const): Proof {
    Proof(map[x := c], StepRule(head, body, x))
  }

  lemma StepUses(d: set<Atom>, head: Name, body: Name, x: Name, pr: Proof, i: nat, f: Atom)
    requires pr.rule == StepRule(head, body, x)
    ensures Uses(d, pr, i, f) <==>
      i == 0 && |f.row| == 1 && f == Fact1(body, f.row[0]) && pr == StepProof(head, body, x, f.row[0])
    ensures HeadOf(StepProof(head, body, x, if |f.row| == 1 then f.row[0] else Str(""))).table == head
  {
    assert RuleVars(pr.rule) == {x} by {
      VarsOfStep(head, body, x);
    }
    if Uses(d, pr, i, f) {
      assert f == Plug(pr.binding, pr.rule.body[0]);
      assert f.row == [Values(pr.binding)(x)];
      assert pr.binding == map[x := pr.binding[x]];
    }
    if |f.row| == 1 && f == Fact1(body, f.row[0]) && pr == StepProof(head, body, x, f.row[0]) {
      assert Plug(pr.binding, pr.rule.body[0]).row == [f.row[0]];
    }
  }

  lemma VarsOfStep(head: Name, body: Name, x: Name)
    ensures RuleVars(StepRule(head, body, x)) == {x}
  {
    var lit := Literal(body, [Var(x)], false);
    assert lit in StepRule(head, body, x).body && x in lit.Vars();
  }

  lemma StepHead(head: Name, body: Name, x: Name, c: Const)
    ensures HeadOf(StepProof(head, body, x, c)) == Fact1(head, c)
  {
    assert Row(Values(map[x := c]), [Var(x)]) == [c];
  }

  /** A change that one instance uses causes one event. */
  lemma OneCause(d: set<Atom>, rules: set<Rule>, f: Atom, pr: Proof)
    requires Causes(d, rules, f) == iset{pr}
    ensures Batch(Causes(d, rules, f), false, [FactEvent(HeadOf(pr), [pr], false)])
  {
    var e := FactEvent(HeadOf(pr), [pr], false);
    assert e.Proofs() == {pr};
    assert [e][0] == e;
    assert ReportsOn(iset{pr}, false, e);
  }

  lemma CausesOfSteps(d: set<Atom>, q: Name, p: Name, s: Name, r: Name, x: Name, c: Const)
    requires p != s && p != q && s != q && r !in {p, q, s}
    ensures var rules := {StepRule(q, p, x), StepRule(q, s, x), StepRule(r, q, x)};
      && Causes(d, rules, Fact1(p, c)) == iset{StepProof(q, p, x, c)}
      && Causes(d, rules, Fact1(q, c)) == iset{StepProof(r, q, x, c)}
      && Causes(d, rules, Fact1(r, c)) == iset{}
  {
    var rules := {StepRule(q, p, x), StepRule(q, s, x), StepRule(r, q, x)};
    forall pr: Proof, i: nat, t: Name | pr.rule in rules
      ensures Uses(d, pr, i, Fact1(t, c)) <==>
        i == 0 && ((pr == StepProof(q, p, x, c) && t == p) || (pr == StepProof(q, s, x, c) && t == s)
          || (pr == StepProof(r, q, x, c) && t == q))
    {
      if pr.rule == StepRule(q, p, x) {
        StepUses(d, q, p, x, pr, i, Fact1(t, c));
      } else if pr.rule == StepRule(q, s, x) {
        StepUses(d, q, s, x, pr, i, Fact1(t, c));
      } else {
        StepUses(d, r, q, x, pr, i, Fact1(t, c));
      }
    }
    assert forall pr: Proof, t: Name :: pr.rule in rules ==>
      ((exists i: nat :: Uses(d, pr, i, Fact1(t, c))) <==> Uses(d, pr, 0, Fact1(t, c)));
  }

  lemma ModifiedSteps(fp: Atom, fs: Atom, fq: Atom, fr: Atom, a: Proof, b: Proof, d: Proof)
    requires fp != fs && fp != fq && fs != fq && fr !in {fp, fq, fs} && a != b
    ensures Modified(map[fp := {}, fs := {}, fq := {a, b}, fr := {d}], FactEvent(fp, [], false)) ==
      map[fs := {}, fq := {a, b}, fr := {d}]
    ensures Modified(map[fs := {}, fq := {a, b}, fr := {d}], FactEvent(fq, [a], false)) ==
      map[fs := {}, fq := {b}, fr := {d}]
    ensures Modified(map[fs := {}, fq := {b}, fr := {d}], FactEvent(fr, [d], false)) == map[fs := {}, fq := {b}]
  {
    assert FactEvent(fp, [], false).Proofs() == {} && FactEvent(fq, [a], false).Proofs() == {a}
      && FactEvent(fr, [d], false).Proofs() == {d};
    assert {a, b} - {a} == {b} && {d} - {d} == {};
    assert map[fs := {}, fq := {a, b}, fr := {d}][fq := {b}] == map[fs := {}, fq := {b}, fr := {d}];
  }

  /** Nothing but the three instances is satisfied when all four tuples are stored. */
  lemma SatOfSteps(q: Name, p: Name, s: Name, r: Name, x: Name, c: Const)
    requires p != s && p != q && s != q && r !in {p, q, s}
    ensures SatSet({Fact1(p, c), Fact1(s, c), Fact1(q, c), Fact1(r, c)},
      {StepRule(q, p, x), StepRule(q, s, x), StepRule(r, q, x)})
      == iset{StepProof(q, p, x, c), StepProof(q, s, x, c), StepProof(r, q, x, c)}
  {
    var d := {Fact1(p, c), Fact1(s, c), Fact1(q, c), Fact1(r, c)};
    SatOfStep(d, q, p, x, c);
    SatOfStep(d, q, s, x, c);
    SatOfStep(d, r, q, x, c);
  }

  lemma SatOfStep(d: set<Atom>, head: Name, body: Name, x: Name, c: Const)
    requires Fact1(body, c) in d && forall a :: a in d && a.table == body ==> a == Fact1(body, c)
    ensures forall pr: Proof :: pr.rule == StepRule(head, body, x) ==>
      (Satisfied(d, pr) <==> pr == StepProof(head, body, x, c))
  {
    StepSatisfied(d, head, body, x, c);
    forall pr: Proof | pr.rule == StepRule(head, body, x) && Satisfied(d, pr)
      ensures pr == StepProof(head, body, x, c)
    {
      StepUses(d, head, body, x, pr, 0, Plug(pr.binding, pr.rule.body[0]));
      assert Uses(d, pr, 0, Plug(pr.binding, pr.rule.body[0]));
    }
  }

  lemma StepGood(head: Name, body: Name, x: Name)
    requires body != TRUE && body != FALSE
    ensures Good(StepRule(head, body, x))
  {
    VarsOfStep(head, body, x);
    var r := StepRule(head, body, x);
    assert r.body[0] in r.body && x in r.body[0].Vars();
    forall y | y in r.head.Vars()
      ensures y == x
    {
    }
  }

  /** With views q(x) :- p(x), q(x) :- s(x) and r(x) :- q(x) that are right, deleting p(c) deletes
      r(c) too, though q(c) stays because of s(c): q(c) lingers. */
  lemma DeepDeleteBreaks(p: Name, s: Name, q: Name, r: Name, x: Name, c: Const)
      returns (states: seq<State>, vs: iset<Name>)
    requires p != s && p != q && s != q && r !in {p, q, s} && TRUE !in {p, q, s} && FALSE !in {p, q, s}
    ensures |states| == 4 && Run(states) && vs == iset{q, r}
    ensures states[0].rules == {StepRule(q, p, x), StepRule(q, s, x), StepRule(r, q, x)}
    ensures states[0].data.Keys == {Fact1(p, c), Fact1(s, c), Fact1(q, c), Fact1(r, c)}
    ensures states[0].queue == [FactEvent(Fact1(p, c), [], false)] && states[3].queue == []
    ensures Layered(vs, states[0]) && Right(vs, states[0]) && Right(vs, states[1]) && Lingers(states[1])
      && !Right(vs, states[2])
    ensures Fact1(q, c) in states[3].data && Fact1(r, c) !in states[3].data
  {
    hide Modified, Causes, Batch, HeadOf, Satisfied, Right, Layered, Exact;
    var a, b, d := StepProof(q, p, x, c), StepProof(q, s, x, c), StepProof(r, q, x, c);
    var fp, fs, fq, fr := Fact1(p, c), Fact1(s, c), Fact1(q, c), Fact1(r, c);
    var rules := {StepRule(q, p, x), StepRule(q, s, x), StepRule(r, q, x)};
    var d0: Data := map[fp := {}, fs := {}, fq := {a, b}, fr := {d}];
    var d1: Data := map[fs := {}, fq := {a, b}, fr := {d}];
    var d2: Data := map[fs := {}, fq := {b}, fr := {d}];
    var d3: Data := map[fs := {}, fq := {b}];
    var e0, e1, e2 := FactEvent(fp, [], false), FactEvent(fq, [a], false), FactEvent(fr, [d], false);
    states := [State(rules, d0, [e0]), State(rules, d1, [e1]), State(rules, d2, [e2]), State(rules, d3, [])];
    vs := iset{q, r};
    StepHead(q, p, x, c);
    StepHead(r, q, x, c);
    CausesOfSteps(d0.Keys, q, p, s, r, x, c);
    CausesOfSteps(d1.Keys, q, p, s, r, x, c);
    CausesOfSteps(d2.Keys, q, p, s, r, x, c);
    OneCause(d0.Keys, rules, fp, a);
    OneCause(d1.Keys, rules, fq, d);
    NoCause(d2.Keys, rules, fr);
    ModifiedSteps(fp, fs, fq, fr, a, b, d);
    IsRound(states[0], states[1], [e1]);
    IsRound(states[1], states[2], [e2]);
    IsRound(states[2], states[3], []);
    StepsLayered(p, s, q, r, x, c, states[0]);
    StartIsRight(p, s, q, r, x, c, states[0]);
    assert !Lingers(states[0]) && Lingers(states[1]);
    RoundExact(vs, states[0], states[1]);
    LayeredRound(vs, states[0], states[1]);
    RoundExact(vs, states[1], states[2]);
  }

  lemma IsRound(s: State, s': State, more: seq<Event>)
    requires |s.queue| == 1 && s'.queue == more && s.queue[0].FactEvent? && s'.rules == s.rules
    requires s'.data == Modified(s.data, s.queue[0])
    requires Batch(Causes(s.data.Keys, s.rules, s.queue[0].atom), s.queue[0].insert, more)
    ensures Round(s, s')
  {
    assert s.queue[1..] + more == more;
    assert Processed(s.rules, s.data, s.queue, more, s'.rules, s'.data, s'.queue);
  }

  lemma StepsLayered(p: Name, s: Name, q: Name, r: Name, x: Name, c: Const, st: State)
    requires p !in {q, r} && s !in {q, r} && TRUE !in {p, q, s} && FALSE !in {p, q, s}
    requires st.rules == {StepRule(q, p, x), StepRule(q, s, x), StepRule(r, q, x)}
    requires st.queue == [FactEvent(Fact1(p, c), [], false)]
    requires st.data.Keys == {Fact1(p, c), Fact1(s, c), Fact1(q, c), Fact1(r, c)}
    requires st.data[Fact1(p, c)] == {} && st.data[Fact1(s, c)] == {}
    ensures Layered(iset{q, r}, st)
  {
    StepGood(q, p, x);
    StepGood(q, s, x);
    StepGood(r, q, x);
    hide Good;
  }

  lemma StartIsRight(p: Name, s: Name, q: Name, r: Name, x: Name, c: Const, st: State)
    requires p != s && p != q && s != q && r !in {p, q, s} && TRUE !in {p, q, s} && FALSE !in {p, q, s}
    requires st.rules == {StepRule(q, p, x), StepRule(q, s, x), StepRule(r, q, x)}
    requires st.data == map[Fact1(p, c) := {}, Fact1(s, c) := {},
      Fact1(q, c) := {StepProof(q, p, x, c), StepProof(q, s, x, c)}, Fact1(r, c) := {StepProof(r, q, x, c)}]
    requires st.queue == [FactEvent(Fact1(p, c), [], false)]
    ensures Right(iset{q, r}, st)
  {
    var vs := iset{q, r};
    StepHead(q, p, x, c);
    StepHead(q, s, x, c);
    StepHead(r, q, x, c);
    hide Good, HeadOf, StepRule, StepProof, Satisfied, Exact;
    SatOfSteps(q, p, s, r, x, c);
    assert st.data.Keys == {Fact1(p, c), Fact1(s, c), Fact1(q, c), Fact1(r, c)};
    assert Fold(st.data, vs, st.queue) == Fold(st.data, vs, []) == st.data;
    StepsExact(vs, Fact1(p, c), Fact1(s, c), Fact1(q, c), Fact1(r, c),
      StepProof(q, p, x, c), StepProof(q, s, x, c), StepProof(r, q, x, c), st.data);
  }

  lemma StepsExact(vs: iset<Name>, fp: Atom, fs: Atom, fq: Atom, fr: Atom, a: Proof, b: Proof, d: Proof, data: Data)
    requires fp.table !in vs && fs.table !in vs && fq != fr && HeadOf(a) == fq && HeadOf(b) == fq && HeadOf(d) == fr
    requires data == map[fp := {}, fs := {}, fq := {a, b}, fr := {d}]
    ensures Exact(data, vs, iset{a, b, d})
  {
    hide HeadOf;
    assert data.Keys == {fp, fs, fq, fr};
  }

  lemma NoCause(d: set<Atom>, rules: set<Rule>, f: Atom)
    requires Causes(d, rules, f) == iset{}
    ensures Batch(Causes(d, rules, f), false, [])
  {
  }

  lemma StepSatisfied(d: set<Atom>, head: Name, body: Name, x: Name, c: Const)
    requires Fact1(body, c) in d
    ensures Satisfied(d, StepProof(head, body, x, c))
  {
    VarsOfStep(head, body, x);
    assert Plug(map[x := c], StepRule(head, body, x).body[0]).row == [c];
  }

  // ----- loops among tuples

  /** A loop of instances; all of their bodies but the tuples on the loop are in kept. */
  ghost predicate Turning(rules: set<Rule>, kept: set<Atom>, hops: seq<Hop>) {
    && hops != []
    && (forall i :: 0 <= i < |hops| ==> Turns(rules, kept, hops[i]))
    && (forall i :: 0 <= i < |hops| - 1 ==> hops[i].To() == hops[i + 1].From())
    && hops[|hops| - 1].To() == hops[0].From()
  }

  ghost predicate Turns(rules: set<Rule>, kept: set<Atom>, h: Hop) {
    && h.instance.rule in rules && h.at < |h.instance.rule.body|
    && h.instance.binding.Keys == RuleVars(h.instance.rule)
    && forall j :: 0 <= j < |h.instance.rule.body| && j != h.at ==>
      Plug(h.instance.binding, h.instance.rule.body[j]) in kept
  }

  /** The tuples in kept are stored and stay so: the deletes on the queue are of tuples in gone,
      and whatever those lead to is in gone. */
  ghost predicate Keeps(kept: set<Atom>, gone: iset<Atom>, given: set<Rule>, s: State) {
    && kept <= s.data.Keys && (forall a :: a in kept ==> a !in gone)
    && s.rules <= given
    && (forall e :: e in s.queue ==> if e.RuleEvent? then e.rule in given else e.insert || e.atom in gone)
    && (forall pr: Proof, i ::
      pr.rule in given && 0 <= i < |pr.rule.body| && Plug(pr.binding, pr.rule.body[i]) in gone ==> HeadOf(pr) in gone)
  }

  lemma KeepsBatch(kept: set<Atom>, gone: iset<Atom>, given: set<Rule>, s: State, f: Atom, insert: bool,
      more: seq<Event>)
    requires Keeps(kept, gone, given, s) && Batch(Causes(s.data.Keys, s.rules, f), insert, more)
      && (insert || f in gone)
    ensures forall e :: e in more ==> e.FactEvent? && (e.insert || e.atom in gone)
  {
    forall e: Event | e in more
      ensures e.FactEvent? && (e.insert || e.atom in gone)
    {
      var k :| 0 <= k < |more| && more[k] == e;
      BatchMember(Causes(s.data.Keys, s.rules, f), insert, more, k);
      assert e.proofs[0] in e.Proofs();
      var i: nat :| Uses(s.data.Keys, e.proofs[0], i, f);
    }
  }

  lemma KeepsRound(kept: set<Atom>, gone: iset<Atom>, given: set<Rule>, s: State, s': State)
    requires Keeps(kept, gone, given, s) && Round(s, s')
    ensures Keeps(kept, gone, given, s') && s.rules <= s'.rules
  {
    var more :| Processed(s.rules, s.data, s.queue, more, s'.rules, s'.data, s'.queue);
    var e := s.queue[0];
    QueueNext(s, s', more);
    assert e in s.queue;
    match e
    case RuleEvent(r) =>
      forall v: Event | v in more
        ensures v.FactEvent? && v.insert
      {
        var k :| 0 <= k < |more| && more[k] == v;
        BatchMember(SatSet(s.data.Keys, {r}), true, more, k);
      }
    case FactEvent(f, _, insert) =>
      KeepsBatch(kept, gone, given, s, f, insert, more);
  }

  /** An event about a tuple on the loop causes one about the next. */
  lemma TurnsRound(kept: set<Atom>, s: State, s': State, h: Hop)
    requires Turns(s.rules, kept, h) && kept <= s.data.Keys && Round(s, s') && OnQueue(s.queue, h.From())
    ensures OnQueue(s'.queue, h.From()) || OnQueue(s'.queue, h.To())
  {
    var more :| Processed(s.rules, s.data, s.queue, more, s'.rules, s'.data, s'.queue);
    QueueNext(s, s', more);
    if !OnQueue(s'.queue, h.From()) {
      var f, insert := h.From(), s.queue[0].insert;
      assert Uses(s.data.Keys, h.instance, h.at, f);
      BatchQueues(Causes(s.data.Keys, s.rules, f), insert, more, h.instance);
    }
  }

  /** Some event on the queue is about a tuple on the loop. */
  ghost predicate OnLoop(hops: seq<Hop>, rules: set<Rule>, kept: set<Atom>, queue: seq<Event>) {
    Turning(rules, kept, hops) && exists k :: 0 <= k < |hops| && OnQueue(queue, hops[k].From())
  }

  lemma LoopRound(kept: set<Atom>, gone: iset<Atom>, given: set<Rule>, hops: seq<Hop>, s: State, s': State)
    requires Keeps(kept, gone, given, s) && OnLoop(hops, s.rules, kept, s.queue) && Round(s, s')
    ensures OnLoop(hops, s'.rules, kept, s'.queue) && s'.queue != []
  {
    KeepsRound(kept, gone, given, s, s');
    var k :| 0 <= k < |hops| && OnQueue(s.queue, hops[k].From());
    TurnsRound(kept, s, s', hops[k]);
    if !OnQueue(s'.queue, hops[k].From()) {
      var next := if k == |hops| - 1 then 0 else k + 1;
      assert OnQueue(s'.queue, hops[next].From());
    }
    assert Turning(s'.rules, kept, hops);
  }

  /** If an event about a tuple on a loop is queued, and the other tuples that the loop needs are
      stored and will stay so, the queue never empties. */
  lemma {:induction false} LoopNeverEnds(kept: set<Atom>, gone: iset<Atom>, given: set<Rule>, hops: seq<Hop>,
      states: seq<State>)
    requires Run(states) && states != []
    requires Keeps(kept, gone, given, states[0]) && OnLoop(hops, states[0].rules, kept, states[0].queue)
    ensures Keeps(kept, gone, given, Last(states)) && OnLoop(hops, Last(states).rules, kept, Last(states).queue)
    ensures Last(states).queue != []
    decreases |states|
  {
    hide Round, Lingers, Keeps, Turning;
    if |states| > 1 {
      RunBack(states);
      LoopNeverEnds(kept, gone, given, hops, states[..|states| - 1]);
      KeepsRound(kept, gone, given, states[|states| - 2], Last(states));
      LoopRound(kept, gone, given, hops, states[|states| - 2], Last(states));
    }
  }

  // ----- exactly when inserting comes to an end

  /** Around each loop among stored tuples something is queued. */
  ghost predicate LoopsQueued(s: State) {
    forall hops: seq<Hop> :: Loop(s.data.Keys, s.rules, hops) ==> OnSome(hops, s.queue)
  }

  ghost predicate OnSome(hops: seq<Hop>, queue: seq<Event>) {
    exists k :: 0 <= k < |hops| && hops[k].at < |hops[k].instance.rule.body| && OnQueue(queue, hops[k].From())
  }

  lemma LoopTurning(d: set<Atom>, rules: set<Rule>, hops: seq<Hop>)
    requires Loop(d, rules, hops)
    ensures Turning(rules, d, hops)
  {
    forall i | 0 <= i < |hops|
      ensures Turns(rules, d, hops[i])
    {
      assert IsHop(d, rules, hops[i]);
    }
  }

  ghost function RulesIn(s: State): set<Rule> {
    s.rules + set e | e in s.queue && e.RuleEvent? :: e.rule
  }

  /** A loop that was there before the round still has something queued. */
  lemma OldLoopQueued(s: State, s': State, hops: seq<Hop>)
    requires Inserting(s) && Round(s, s') && Loop(s.data.Keys, s.rules, hops) && OnSome(hops, s.queue)
    ensures OnSome(hops, s'.queue)
  {
    LoopTurning(s.data.Keys, s.rules, hops);
    LoopRound(s.data.Keys, iset{}, RulesIn(s), hops, s, s');
    var k :| 0 <= k < |hops| && OnQueue(s'.queue, hops[k].From());
  }

  /** A loop that the round closes has something queued: the round queues the head of the
      instance that was missing. */
  lemma NewLoopQueued(s: State, s': State, hops: seq<Hop>)
    requires Inserting(s) && Round(s, s') && Loop(s'.data.Keys, s'.rules, hops) && !Loop(s.data.Keys, s.rules, hops)
    requires forall r :: r in RulesIn(s) ==> Good(r)
    ensures OnSome(hops, s'.queue)
  {
    hide Good;
    var more :| Processed(s.rules, s.data, s.queue, more, s'.rules, s'.data, s'.queue);
    var i :| 0 <= i < |hops| && !IsHop(s.data.Keys, s.rules, hops[i]);
    assert IsHop(s'.data.Keys, s'.rules, hops[i]);
    NewlySatisfied(s, s', more, hops[i].instance);
    QueueNext(s, s', more);
    var next := if i == |hops| - 1 then 0 else i + 1;
    assert OnQueue(s'.queue, hops[next].From());
  }

  lemma LoopsQueuedRound(s: State, s': State)
    requires LoopsQueued(s) && Inserting(s) && Round(s, s') && forall r :: r in RulesIn(s) ==> Good(r)
    ensures LoopsQueued(s')
  {
    hide Loop, Round, Inserting, OnSome;
    forall hops: seq<Hop> | Loop(s'.data.Keys, s'.rules, hops)
      ensures OnSome(hops, s'.queue)
    {
      if Loop(s.data.Keys, s.rules, hops) {
        OldLoopQueued(s, s', hops);
      } else {
        NewLoopQueued(s, s', hops);
      }
    }
  }

  /** What holds in a run that only inserts, from nothing. */
  ghost predicate Filling(given: set<Rule>, s: State) {
    && Inserting(s) && Saturating(s) && LoopsQueued(s)
    && RulesIn(s) <= given && (forall r :: r in given ==> Arriving(s, r))
  }

  lemma FillingRound(given: set<Rule>, s: State, s': State)
    requires Filling(given, s) && Round(s, s') && forall r :: r in given ==> Good(r)
    ensures Filling(given, s') && forall a :: Coming(s, a) ==> Coming(s', a)
  {
    hide LoopsQueued, Saturating, Inserting, Good, Arriving, Round;
    InsertingRound(s, s');
    forall r | r in RulesIn(s)
      ensures Good(r)
    {
    }
    SaturatingRound(s, s');
    LoopsQueuedRound(s, s');
    forall r | r in given
      ensures Arriving(s', r)
    {
      ArrivingRound(s, s', r);
    }
    RulesInRound(s, s');
  }

  lemma RulesInRound(s: State, s': State)
    requires Round(s, s')
    ensures RulesIn(s') <= RulesIn(s)
  {
    var more :| Processed(s.rules, s.data, s.queue, more, s'.rules, s'.data, s'.queue);
    QueueNext(s, s', more);
    assert s.queue[0] in s.queue;
    forall e: Event | e in more
      ensures e.FactEvent?
    {
      var k :| 0 <= k < |more| && more[k] == e;
      if s.queue[0].RuleEvent? {
        BatchMember(SatSet(s.data.Keys, {s.queue[0].rule}), true, more, k);
      } else {
        BatchMember(Causes(s.data.Keys, s.rules, s.queue[0].atom), s.queue[0].insert, more, k);
      }
    }
  }

  lemma {:induction false} FillingRun(given: set<Rule>, states: seq<State>)
    requires Run(states) && states != [] && Filling(given, states[0]) && forall r :: r in given ==> Good(r)
    ensures Filling(given, Last(states)) && forall a :: Coming(states[0], a) ==> Coming(Last(states), a)
    decreases |states|
  {
    hide Round, Lingers, Filling, Coming, Good;
    if |states| > 1 {
      RunBack(states);
      FillingRun(given, states[..|states| - 1]);
      FillingRound(given, states[|states| - 2], Last(states));
    }
  }

  /** An instance of a rule is one of the same rule with its body in another order. */
  lemma SameHop(u: set<Atom>, rules: set<Rule>, given: set<Rule>, h: Hop) returns (h': Hop)
    requires (forall r :: r in given ==> Known(rules, r)) && IsHop(u, given, h)
    ensures IsHop(u, rules, h') && h'.From() == h.From() && h'.To() == h.To()
  {
    var r := h.instance.rule;
    var r' :| r' in rules && SameRule(r, r');
    var lit := r.body[h.at];
    assert lit in multiset(r.body);
    var k :| 0 <= k < |r'.body| && r'.body[k] == lit;
    h' := Hop(Proof(h.instance.binding, r'), k);
    SameVars(r, r');
    forall i | 0 <= i < |r'.body|
      ensures Plug(h.instance.binding, r'.body[i]) in u
    {
      assert r'.body[i] in multiset(r'.body);
      assert r'.body[i] in multiset(r.body);
    }
  }

  lemma SameVars(r: Rule, r': Rule)
    requires SameRule(r, r')
    ensures RuleVars(r) == RuleVars(r')
  {
    forall lit
      ensures lit in r.body <==> lit in r'.body
    {
      assert lit in multiset(r.body) <==> lit in multiset(r'.body);
    }
  }

  lemma SameChain(u: set<Atom>, rules: set<Rule>, given: set<Rule>, hops: seq<Hop>) returns (hops': seq<Hop>)
    requires (forall r :: r in given ==> Known(rules, r)) && Chain(u, given, hops)
    ensures |hops'| == |hops| && forall i :: 0 <= i < |hops| ==>
      IsHop(u, given, hops[i]) && IsHop(u, rules, hops'[i]) && hops'[i].From() == hops[i].From()
        && hops'[i].To() == hops[i].To()
    decreases |hops|
  {
    hide IsHop, Known, Hop.From, Hop.To;
    if hops == [] {
      hops' := [];
    } else {
      var n := |hops| - 1;
      var init := SameChain(u, rules, given, hops[..n]);
      var h := SameHop(u, rules, given, hops[n]);
      hops' := init + [h];
    }
  }

  /** A run that only inserts, from nothing, comes to an end only if what it stores is closed and
      no tuple is among its own causes. */
  lemma EndedSettles(given: set<Rule>, states: seq<State>)
    requires Run(states) && states != [] && Last(states).queue == []
    requires states[0].rules == {} && states[0].data == map[] && Inserting(states[0])
    requires (forall r :: r in given <==> RuleEvent(r) in states[0].queue) && forall r :: r in given ==> Good(r)
    ensures Settled(given, AtomsIn(map[], states[0].queue))
  {
    var s, t := states[0], Last(states);
    assert SatSet(s.data.Keys, s.rules) == iset{};
    assert LoopsQueued(s);
    assert Filling(given, s);
    FillingRun(given, states);
    var u := t.data.Keys;
    forall a | a in AtomsIn(map[], s.queue)
      ensures a in u
    {
      assert Coming(s, a);
    }
    EndIsClosed(given, t);
    EndIsAcyclic(given, t);
  }

  lemma EndIsClosed(given: set<Rule>, t: State)
    requires Filling(given, t) && t.queue == []
    ensures ClosedUnder(t.data.Keys, given)
  {
    forall pr: Proof | pr.rule in given && Satisfied(t.data.Keys, pr)
      ensures HeadOf(pr) in t.data
    {
      assert Arriving(t, pr.rule);
      var r' :| r' in t.rules && SameRule(pr.rule, r');
      var pr' := Proof(pr.binding, r');
      SameVars(pr.rule, r');
      forall i | 0 <= i < |r'.body|
        ensures Plug(pr.binding, r'.body[i]) in t.data
      {
        assert r'.body[i] in multiset(r'.body);
        assert r'.body[i] in multiset(pr.rule.body);
      }
      assert pr' in SatSet(t.data.Keys, t.rules);
      assert Coming(t, HeadOf(pr'));
    }
  }

  lemma SameLoop(u: set<Atom>, rules: set<Rule>, given: set<Rule>, hops: seq<Hop>) returns (hops': seq<Hop>)
    requires (forall r :: r in given ==> Known(rules, r)) && Loop(u, given, hops)
    ensures Loop(u, rules, hops')
  {
    hide IsHop, Hop.From, Hop.To, Known;
    hops' := SameChain(u, rules, given, hops);
  }

  lemma NoLoopAtRest(t: State, hops: seq<Hop>)
    requires LoopsQueued(t) && t.queue == []
    ensures !Loop(t.data.Keys, t.rules, hops)
  {
  }

  lemma EndIsAcyclic(given: set<Rule>, t: State)
    requires Filling(given, t) && t.queue == []
    ensures Acyclic(t.data.Keys, given)
  {
    hide Loop;
    forall r | r in given
      ensures Known(t.rules, r)
    {
      assert Arriving(t, r);
    }
    forall hops: seq<Hop> | Loop(t.data.Keys, given, hops)
      ensures false
    {
      var hops' := SameLoop(t.data.Keys, t.rules, given, hops);
      NoLoopAtRest(t, hops');
    }
  }

  /** And if the facts lead to no tuple that is among its own causes, there is a bound on all
      runs. */
  lemma SettledEnds(given: set<Rule>, s: State) returns (n: nat)
    requires s.rules <= given && (forall e :: e in s.queue && e.RuleEvent? ==> e.rule in given)
    requires Settled(given, AtomsIn(s.data, s.queue))
    ensures forall states :: Run(states) && states != [] && states[0] == s ==> |states| <= n
  {
    var rank, u, top := BoundedExists(given, s, AtomsIn(s.data, s.queue));
    n := 1 + QueueWeight(rank, top, Base(given, u), s.queue);
    hide Bounded, Run;
    forall states | Run(states) && states != [] && states[0] == s
      ensures |states| <= n
    {
      RunsEnd(rank, top, u, given, states);
    }
  }
}
