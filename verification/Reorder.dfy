/** reorder_for_safety and rule_head_safety of congress/datalog/compile.py: which rules are
    admitted, and why the search can evaluate them. */
module Reorder {
  import opened Options
  import opened Datalog
  import opened Env
  import opened Semantics
  import opened Search
  import opened Safety
  import opened SearchTheorem
  import opened SearchAnswers

  function AllVars(body: seq<Literal>): set<Name> {
    set lit, x | lit in body && x in lit.Vars() :: x
  }

  /** The variables that reordering wants bound before the literal. */
  function Targets(bs: Registry, lit: Literal): set<Name> {
    if lit.negated then lit.Vars()
    else if lit.IsBuiltin(bs) then
      VarNames(if bs[lit.table].numInputs <= |lit.args| then lit.args[..bs[lit.table].numInputs] else lit.args)
    else {}
  }

  /** Every literal finds its target variables in earlier literals. */
  ghost predicate InOrder(bs: Registry, body: seq<Literal>) {
    forall i :: 0 <= i < |body| ==> Targets(bs, body[i]) <= AllVars(body[..i])
  }

  /** The literal cannot be evaluated before x is bound: it is negated, or x is among the inputs of
      a builtin that has the right number of arguments. */
  ghost predicate Wants(bs: Registry, lit: Literal, x: Name) {
    if lit.negated then Var(x) in lit.args
    else
      && lit.table in bs && |lit.args| == bs[lit.table].numInputs + bs[lit.table].numOutputs
      && exists k :: 0 <= k < bs[lit.table].numInputs && lit.args[k] == Var(x)
  }

  /** Whatever a literal waits for is in an earlier literal. */
  ghost predicate Ordered(bs: Registry, body: seq<Literal>) {
    forall i, x :: 0 <= i < |body| && Wants(bs, body[i], x) ==> InEarlier(body, i, x)
  }

  ghost predicate InEarlier(body: seq<Literal>, i: nat, x: Name)
    requires i <= |body|
  {
    exists j :: 0 <= j < i && Var(x) in body[j].args
  }

  lemma WantsTargets(bs: Registry, lit: Literal, x: Name)
    ensures Wants(bs, lit, x) <==> x in Targets(bs, lit)
  {
  }

  lemma OrderedInOrder(bs: Registry, body: seq<Literal>)
    ensures Ordered(bs, body) <==> InOrder(bs, body)
  {
    hide Wants, Targets, InEarlier;
    if InOrder(bs, body) {
      forall i, x | 0 <= i < |body| && Wants(bs, body[i], x)
        ensures InEarlier(body, i, x)
      {
        WantsTargets(bs, body[i], x);
        EarlierVars(body, i, x);
      }
    }
    if Ordered(bs, body) {
      forall i | 0 <= i < |body|
        ensures Targets(bs, body[i]) <= AllVars(body[..i])
      {
        forall x | x in Targets(bs, body[i])
          ensures x in AllVars(body[..i])
        {
          WantsTargets(bs, body[i], x);
          assert Wants(bs, body[i], x);
          EarlierVars(body, i, x);
        }
      }
    }
  }

  lemma EarlierVars(body: seq<Literal>, i: nat, x: Name)
    requires i <= |body|
    ensures x in AllVars(body[..i]) <==> InEarlier(body, i, x)
  {
    if x in AllVars(body[..i]) {
      var lit :| lit in body[..i] && x in lit.Vars();
      var j :| 0 <= j < i && body[j] == lit;
    }
    if j :| 0 <= j < i && Var(x) in body[j].args {
      assert body[..i][j] == body[j] && body[j] in body[..i] && x in body[j].Vars();
    }
  }

  lemma AllVarsAppend(body: seq<Literal>, lit: Literal)
    ensures AllVars(body + [lit]) == AllVars(body) + lit.Vars()
  {
  }

  lemma InOrderAppend(bs: Registry, body: seq<Literal>, lit: Literal)
    ensures InOrder(bs, body + [lit]) <==> InOrder(bs, body) && Targets(bs, lit) <= AllVars(body)
  {
    var b := body + [lit];
    assert b[..|body|] == body;
    if InOrder(bs, b) {
      assert b[|body|] == lit;
      forall i | 0 <= i < |body|
        ensures Targets(bs, body[i]) <= AllVars(body[..i])
      {
        assert b[i] == body[i] && b[..i] == body[..i];
      }
    }
    if InOrder(bs, body) && Targets(bs, lit) <= AllVars(body) {
      forall i | 0 <= i < |b|
        ensures Targets(bs, b[i]) <= AllVars(b[..i])
      {
        if i < |body| {
          assert b[i] == body[i] && b[..i] == body[..i];
        }
      }
    }
  }

  lemma {:induction false} FirstOf(left: seq<Literal>, other: seq<Literal>, i: nat) returns (k: nat)
    requires i < |other| && other[i] in left
    ensures k <= i && other[k] in left && forall j :: 0 <= j < k ==> other[j] !in left
  {
    k := i;
    if j :| 0 <= j < i && other[j] in left {
      k := FirstOf(left, other, j);
    }
  }

  /** If literals are left over whose targets the chosen ones do not supply, no order will do. */
  lemma NoOrder(bs: Registry, body: seq<Literal>, chosen: seq<Literal>, left: seq<Literal>, other: seq<Literal>)
    requires multiset(chosen) + multiset(left) == multiset(body) == multiset(other)
    requires left != [] && forall lit :: lit in left ==> !(Targets(bs, lit) <= AllVars(chosen))
    ensures !InOrder(bs, other)
  {
    assert left[0] in multiset(other);
    var i :| 0 <= i < |other| && other[i] == left[0];
    var k := FirstOf(left, other, i);
    assert AllVars(other[..k]) <= AllVars(chosen) by {
      forall lit | lit in other[..k]
        ensures lit in chosen
      {
        assert lit in multiset(other);
        assert lit !in multiset(left);
      }
    }
    assert !(Targets(bs, other[k]) <= AllVars(other[..k]));
  }

  lemma DifferenceEmpty(s: set<Name>, t: set<Name>)
    ensures s - t == {} <==> s <= t
  {
    forall x | x in s && s - t == {}
      ensures x in t
    {
      assert x !in s - t;
    }
  }

  /** The variables of reorder_for_safety. */
  class Reordering {
    const builtins: Registry
    var safeVars: set<Name>
    var unsafeLiterals: seq<Literal>
    var unsafeVariables: map<Literal, set<Name>>
    var newBody: seq<Literal>

    constructor (builtins: Registry)
      ensures this.builtins == builtins && newBody == [] && unsafeLiterals == []
      ensures Valid() && Stuck() && Bag() == multiset{}
    {
      this.builtins := builtins;
      safeVars := {};
      unsafeLiterals := [];
      unsafeVariables := map[];
      newBody := [];
    }

    /** What was recorded for a waiting literal is all that it still waited for at that time. */
    ghost predicate Valid()
      reads this
    {
      && safeVars == AllVars(newBody)
      && InOrder(builtins, newBody)
      && forall lit :: lit in unsafeLiterals ==>
        && lit in unsafeVariables
        && unsafeVariables[lit] <= Targets(builtins, lit) <= unsafeVariables[lit] + safeVars
    }

    /** No waiting literal can be placed yet. */
    ghost predicate Stuck()
      reads this
    {
      forall lit :: lit in unsafeLiterals ==> !(Targets(builtins, lit) <= safeVars)
    }

    ghost function Bag(): multiset<Literal>
      reads this
    {
      multiset(newBody) + multiset(unsafeLiterals)
    }

    /** With nothing waiting the new body is in order; with something waiting no order will do. */
    lemma Ends(body: seq<Literal>)
      requires Valid() && Stuck() && Bag() == multiset(body)
      ensures unsafeLiterals == [] ==> multiset(newBody) == multiset(body) && InOrder(builtins, newBody)
      ensures unsafeLiterals != [] ==> forall b :: multiset(b) == multiset(body) ==> !InOrder(builtins, b)
    {
      if unsafeLiterals != [] {
        forall b | multiset(b) == multiset(body)
          ensures !InOrder(builtins, b)
        {
          NoOrder(builtins, body, newBody, unsafeLiterals, b);
        }
      }
    }

    method MakeSafe(lit: Literal)
      requires Valid() && Targets(builtins, lit) <= safeVars
      modifies this`safeVars, this`newBody
      ensures Valid() && newBody == old(newBody) + [lit] && safeVars == old(safeVars) + lit.Vars()
    {
      AllVarsAppend(newBody, lit);
      InOrderAppend(builtins, newBody, lit);
      safeVars := safeVars + lit.Vars();
      newBody := newBody + [lit];
    }

    /** Places a literal, and then every waiting literal that has become safe. */
    method MakeSafePlus(lit: Literal)
      requires Valid() && Targets(builtins, lit) <= safeVars
      modifies this`safeVars, this`newBody, this`unsafeLiterals
      ensures Valid() && Stuck()
      ensures Bag() == old(Bag()) + multiset{lit}
      ensures old(unsafeLiterals) == [] ==> unsafeLiterals == [] && newBody == old(newBody) + [lit]
    {
      MakeSafe(lit);
      hide Valid, Stuck;
      var foundSafe := true;
      while foundSafe
        invariant Valid() && Bag() == old(Bag()) + multiset{lit}
        invariant !foundSafe ==> Stuck()
        invariant old(unsafeLiterals) == [] ==> unsafeLiterals == [] && newBody == old(newBody) + [lit]
        decreases |unsafeLiterals|, foundSafe
      {
        foundSafe := PlaceFirst();
      }
    }

    /** Places the first waiting literal that is safe by now.  False iff there is none. */
    method PlaceFirst() returns (foundSafe: bool)
      requires Valid()
      modifies this`safeVars, this`newBody, this`unsafeLiterals
      ensures Valid() && Bag() == old(Bag())
      ensures if foundSafe then |unsafeLiterals| == |old(unsafeLiterals)| - 1
        else Stuck() && unsafeLiterals == old(unsafeLiterals) && newBody == old(newBody)
    {
      for i := 0 to |unsafeLiterals|
        invariant forall j :: 0 <= j < i ==> !(Targets(builtins, unsafeLiterals[j]) <= safeVars)
      {
        var lit := unsafeLiterals[i];
        if unsafeVariables[lit] <= safeVars {
          RemoveAt(unsafeLiterals, i);
          unsafeLiterals := unsafeLiterals[..i] + unsafeLiterals[i + 1..];
          MakeSafe(lit);
          return true;
        }
      }
      return false;
    }

    /** One literal of the body, in its turn. */
    method Take(lit: Literal)
      requires Valid() && Stuck()
      modifies this
      ensures Valid() && Stuck()
      ensures Bag() == old(Bag()) + multiset{lit}
      ensures old(unsafeLiterals) == [] && Targets(builtins, lit) <= AllVars(old(newBody)) ==>
        unsafeLiterals == [] && newBody == old(newBody) + [lit]
    {
      var targetVars := Targets(builtins, lit);
      var newUnsafeVars := targetVars - safeVars;
      if newUnsafeVars != {} {
        unsafeLiterals := unsafeLiterals + [lit];
        unsafeVariables := unsafeVariables[lit := newUnsafeVars];
      } else {
        DifferenceEmpty(targetVars, safeVars);
        MakeSafePlus(lit);
      }
    }
  }

  lemma RemoveAt(s: seq<Literal>, i: nat)
    requires i < |s|
    ensures multiset(s) == multiset(s[..i] + s[i + 1..]) + multiset{s[i]}
    ensures forall lit :: lit in s[..i] + s[i + 1..] ==> lit in s
  {
    assert s == s[..i] + [s[i]] + s[i + 1..];
  }

  lemma InOrderPart(bs: Registry, body: seq<Literal>, i: nat)
    requires i < |body|
    ensures InOrder(bs, body) ==> Targets(bs, body[i]) <= AllVars(body[..i])
  {
  }

  /** A safe order of the body, or None if there is none.  A body in order is left alone. */
  method ReorderForSafety(rule: Rule, bs: Registry) returns (r: Option<Rule>)
    ensures r.Some? ==>
      r.value.head == rule.head && multiset(r.value.body) == multiset(rule.body) && InOrder(bs, r.value.body)
    ensures r.None? <==> forall b :: multiset(b) == multiset(rule.body) ==> !InOrder(bs, b)
    ensures InOrder(bs, rule.body) ==> r == Some(rule)
    ensures r.Some? ==> Ordered(bs, r.value.body)
    ensures r.Some? <==> exists b :: multiset(b) == multiset(rule.body) && Ordered(bs, b)
    ensures Ordered(bs, rule.body) ==> r == Some(rule)
  {
    hide *;
    var state := new Reordering(bs);
    for i := 0 to |rule.body|
      invariant state.builtins == bs && state.Valid() && state.Stuck()
      invariant state.Bag() == multiset(rule.body[..i])
      invariant InOrder(bs, rule.body) ==> state.unsafeLiterals == [] && state.newBody == rule.body[..i]
    {
      assert rule.body[..i + 1] == rule.body[..i] + [rule.body[i]];
      InOrderPart(bs, rule.body, i);
      state.Take(rule.body[i]);
    }
    assert rule.body[..|rule.body|] == rule.body;
    state.Ends(rule.body);
    forall b
      ensures Ordered(bs, b) <==> InOrder(bs, b)
    {
      OrderedInOrder(bs, b);
    }
    if |state.unsafeLiterals| > 0 {
      return None;
    }
    return Some(Rule(rule.head, state.newBody));
  }

  /** The variables of the head that the body does not mention: one error for each. */
  function RuleHeadSafety(rule: Rule): (errors: set<Name>)
    ensures errors == {} <==> rule.head.Vars() <= AllVars(rule.body)
    ensures forall x :: x in errors <==> Var(x) in rule.head.args && !InEarlier(rule.body, |rule.body|, x)
  {
    DifferenceEmpty(rule.head.Vars(), AllVars(rule.body));
    assert forall x :: x in AllVars(rule.body) <==> InEarlier(rule.body, |rule.body|, x) by {
      assert rule.body[..|rule.body|] == rule.body;
      forall x {
        EarlierVars(rule.body, |rule.body|, x);
      }
    }
    rule.head.Vars() - AllVars(rule.body)
  }

  // ----- what this means for the search

  /** The variables that the literals bind. */
  function BoundBy(body: seq<Literal>): set<Name> {
    set lit, x | lit in body && x in Binds(lit) :: x
  }

  lemma BoundBeforeIs(body: seq<Literal>, i: nat, x: Name)
    requires i <= |body|
    ensures BoundBefore(body, i, x) <==> x in BoundBy(body[..i])
  {
    if x in BoundBy(body[..i]) {
      var lit :| lit in body[..i] && x in Binds(lit);
      var j :| 0 <= j < i && body[..i][j] == lit;
      assert body[j] == lit;
    }
    forall j | 0 <= j < i && x in Binds(body[j])
      ensures x in BoundBy(body[..i])
    {
      assert body[..i][j] == body[j];
    }
  }

  /** The i-th literal of a body comes up with the bindings e: the search, from no bindings, has
      proved the literals before it. */
  ghost predicate ComesUp(p: Program, sh: Shape, body: seq<Literal>, i: nat, e: Env)
    requires Fits(p, sh) && i <= |body|
  {
    AcyclicEmpty();
    Acyclic(e) && Reaches(p, sh, Goals(body[..i], 0), map[], 1, e)
  }

  ghost predicate IsBound(e: Env, x: Name)
    requires Acyclic(e)
  {
    Resolve(e, Ref(VarId(0, x))).Bound?
  }

  ghost predicate NeedsMet(bs: Registry, lit: Literal, e: Env)
    requires Acyclic(e)
  {
    forall x :: x in Needs(bs, lit) ==> IsBound(e, x)
  }

  // A variable is free if any solution stays one when the variable is given another value.

  ghost function Changed(s: Valuation, k: VarId, c: Const): Valuation {
    (k': VarId) => if k' == k then c else s(k')
  }

  ghost predicate Free(env: Env, k: VarId) {
    forall s, c :: Sat(env, s) ==> Sat(env, Changed(s, k, c))
  }

  lemma FreeIsUnbound(env: Env, k: VarId)
    requires Acyclic(env) && Free(env, k)
    ensures !Resolve(env, Ref(k)).Bound?
  {
    var base: Valuation := (k': VarId) => Num(0);
    var s := Solution(env, base);
    SolutionSat(env, base);
    var s' := Changed(s, k, if s(k) == Num(0) then Num(1) else Num(0));
    assert Sat(env, s');
    SatResolve(env, s, Ref(k));
    SatResolve(env, s', Ref(k));
  }

  lemma SameValues(ts: seq<Term>, u: nat, s: Valuation, k: VarId, c: Const)
    requires u == k.unifier ==> Var(k.name) !in ts
    ensures forall i :: 0 <= i < |ts| ==> Value(Changed(s, k, c), At(ts[i], u)) == Value(s, At(ts[i], u))
  {
    forall i | 0 <= i < |ts|
      ensures Value(Changed(s, k, c), At(ts[i], u)) == Value(s, At(ts[i], u))
    {
      assert ts[i] in ts;
    }
  }

  lemma UnifyKeepsFree(env: Env, ts1: seq<Term>, u1: nat, ts2: seq<Term>, u2: nat, k: VarId)
    requires Acyclic(env) && Free(env, k)
    requires (u1 == k.unifier ==> Var(k.name) !in ts1) && (u2 == k.unifier ==> Var(k.name) !in ts2)
    ensures var r := UnifyLists(env, ts1, u1, ts2, u2); r.Some? ==> Free(r.value, k)
  {
    var r := UnifyLists(env, ts1, u1, ts2, u2);
    if r.Some? {
      forall s, c | Sat(r.value, s)
        ensures Sat(r.value, Changed(s, k, c))
      {
        UnifyListsExact(env, ts1, u1, ts2, u2, s);
        UnifyListsExact(env, ts1, u1, ts2, u2, Changed(s, k, c));
        SameValues(ts1, u1, s, k, c);
        SameValues(ts2, u2, s, k, c);
        assert Equates(Changed(s, k, c), ts1, u1, ts2, u2);
      }
    }
  }

  /** No goal binds k. */
  ghost predicate Spare(gs: seq<Goal>, k: VarId) {
    forall i :: 0 <= i < |gs| && gs[i].u == k.unifier ==> k.name !in Binds(gs[i].lit)
  }

  lemma CallKeepsFree(b: Builtin, env: Env, lit: Literal, u: nat, n: nat, k: VarId)
    requires Acyclic(env) && Free(env, k) && k.unifier < n && (u == k.unifier ==> k.name !in lit.Vars())
    ensures var c := CallResult(b, env, lit, u, n); c.Some? ==> Free(c.value, k)
  {
    if CallResult(b, env, lit, u, n).Some? && b.numOutputs > 0 {
      var out := b.code(BoundRow(env, lit.args[..b.numInputs], u));
      assert u == k.unifier ==> Var(k.name) !in lit.args;
      UnifyKeepsFree(env, Objs(out.values), n, lit.args[b.numInputs..], u, k);
    }
  }

  lemma HeadKeepsFree(env: Env, r: Rule, n: nat, g: Goal, k: VarId)
    requires Acyclic(env) && Free(env, k) && k.unifier < n && (g.u == k.unifier ==> k.name !in g.lit.Vars())
    ensures var h := HeadResult(env, r, n, g); h.Some? ==> Free(h.value, k)
  {
    assert g.u == k.unifier ==> Var(k.name) !in g.lit.args;
    UnifyKeepsFree(env, r.head.args, n, g.lit.args, g.u, k);
  }

  lemma SpareNext(bs: Registry, gs: seq<Goal>, k: VarId)
    requires gs != [] && Spare(gs, k)
    ensures Spare(gs[1..], k)
    ensures KindOf(bs, gs[0].lit).Call? || KindOf(bs, gs[0].lit).Lookup? ==>
      (gs[0].u == k.unifier ==> k.name !in gs[0].lit.Vars())
    ensures forall body, n :: n > k.unifier ==> Spare(Goals(body, n) + gs[1..], k)
  {
  }

  /** What no goal binds is never bound. */
  lemma {:induction false} StaysFree(p: Program, sh: Shape, gs: seq<Goal>, env: Env, n: nat, e: Env, k: VarId)
    requires Fits(p, sh) && Acyclic(env) && Reaches(p, sh, gs, env, n, e)
    requires Free(env, k) && Spare(gs, k) && k.unifier < n
    ensures Acyclic(e) && Free(e, k)
    decreases GoalsWeight(sh, gs)
  {
    hide Free, Spare, HeadResult, CallResult, Fits;
    if gs != [] {
      var g := gs[0];
      SpareNext(p.builtins, gs, k);
      match KindOf(p.builtins, g.lit)
      case Negation => StaysFree(p, sh, gs[1..], env, n, e, k);
      case Truth => StaysFree(p, sh, gs[1..], env, n, e, k);
      case Falsity =>
      case Call =>
        var b := p.builtins[g.lit.table];
        CallKeepsFree(b, env, g.lit, g.u, n, k);
        StaysFree(p, sh, gs[1..], CallResult(b, env, g.lit, g.u, n).value, n + Created(b), e, k);
      case Lookup =>
        var r :| ReachesBy(p, sh, r, gs, env, n, e);
        HeadKeepsFree(env, r, n, g, k);
        RuleLighter(p, sh, r, gs, n);
        StaysFree(p, sh, Goals(r.body, n) + gs[1..], HeadResult(env, r, n, g).value, n + 1, e, k);
    }
  }

  lemma BoundByEarlier(body: seq<Literal>, i: nat, x: Name)
    requires i <= |body|
    ensures x in BoundBy(body[..i]) <==> exists j ::
      0 <= j < i && Var(x) in body[j].args && (body[j].negated || body[j].table != Name("true"))
  {
    BoundBeforeIs(body, i, x);
    assert forall lit: Literal :: x in lit.Vars() <==> Var(x) in lit.args;
  }

  /** What the search needs bound is what reordering waits for, but for the tables true and false. */
  lemma NeedsAreWants(bs: Registry, lit: Literal, x: Name)
    requires WellUsed(bs, lit)
    ensures x in Needs(bs, lit) <==>
      (lit.negated || (lit.table != Name("true") && lit.table != Name("false"))) && Wants(bs, lit, x)
  {
  }

  /** Whenever a literal comes up, the variables bound are exactly those that the literals before
      it bind: all of theirs, but for those of a positive true. */
  lemma BoundExactly(p: Program, sh: Shape, body: seq<Literal>, i: nat, e: Env, x: Name)
    requires Fits(p, sh) && SafeProgram(p) && i <= |body| && SafeBody(p.builtins, body[..i])
      && ComesUp(p, sh, body, i, e)
    ensures IsBound(e, x) <==> x in BoundBy(body[..i])
    ensures IsBound(e, x) <==> exists j ::
      0 <= j < i && Var(x) in body[j].args && (body[j].negated || body[j].table != Name("true"))
  {
    BoundByEarlier(body, i, x);
    hide SafeProgram, SafeBody, Fits;
    var gs := Goals(body[..i], 0);
    AcyclicEmpty();
    if x in BoundBy(body[..i]) {
      assert body[..i][..i] == body[..i];
      BoundBeforeIs(body[..i], i, x);
      QueryReady(p, sh, body[..i], [x]);
      SupportedModel(p, sh);
      Sound(p, sh, Model(p, sh), gs, map[], 1, e);
      assert Supplied(gs, |gs|, map[], VarId(0, x));
    } else {
      var k := VarId(0, x);
      forall j | 0 <= j < |gs|
        ensures x !in Binds(gs[j].lit)
      {
        assert gs[j].lit in body[..i];
      }
      StaysFree(p, sh, gs, map[], 1, e, k);
      FreeIsUnbound(e, k);
    }
  }

  /** Of the literals before the i-th, only a positive true has the variable x. */
  ghost predicate OnlyTrueHas(body: seq<Literal>, i: nat, x: Name)
    requires i <= |body|
  {
    x in AllVars(body[..i]) && x !in BoundBy(body[..i])
  }

  /** A body in order is safe, unless a literal needs a variable that only a true has before it. */
  lemma OrderedIsSafe(bs: Registry, body: seq<Literal>)
    requires InOrder(bs, body) && forall i :: 0 <= i < |body| ==> WellUsed(bs, body[i])
    ensures SafeBody(bs, body) <==>
      forall i, x :: 0 <= i < |body| && x in Needs(bs, body[i]) ==> !OnlyTrueHas(body, i, x)
  {
    forall i, x | 0 <= i < |body| && x in Needs(bs, body[i])
      ensures BoundBefore(body, i, x) <==> !OnlyTrueHas(body, i, x)
    {
      BoundBeforeIs(body, i, x);
      assert x in Targets(bs, body[i]);
    }
  }

  lemma SafePrefix(bs: Registry, body: seq<Literal>, i: nat)
    requires i <= |body| && (forall j :: 0 <= j < i ==> WellUsed(bs, body[j]))
    requires forall j, x :: 0 <= j < i && x in Needs(bs, body[j]) ==> BoundBefore(body, j, x)
    ensures SafeBody(bs, body[..i])
  {
    forall j, x | 0 <= j < i && x in Needs(bs, body[..i][j])
      ensures BoundBefore(body[..i], j, x)
    {
      assert BoundBefore(body, j, x);
      var l :| 0 <= l < j && x in Binds(body[l]);
      assert body[..i][l] == body[l];
    }
  }

  /** If a body in order is safe, every literal that comes up has what it needs. */
  lemma SafeNeedsMet(p: Program, sh: Shape, body: seq<Literal>, i: nat, e: Env)
    requires Fits(p, sh) && SafeProgram(p) && i < |body| && SafeBody(p.builtins, body) && ComesUp(p, sh, body, i, e)
    ensures NeedsMet(p.builtins, body[i], e)
  {
    hide SafeProgram, Fits;
    SafePrefix(p.builtins, body, i);
    forall x | x in Needs(p.builtins, body[i])
      ensures IsBound(e, x)
    {
      BoundBeforeIs(body, i, x);
      BoundExactly(p, sh, body, i, e, x);
    }
  }

  lemma {:induction false} FirstUnsafe(bs: Registry, body: seq<Literal>, i: nat, x: Name) returns (k: nat, y: Name)
    requires (forall j :: 0 <= j < |body| ==> WellUsed(bs, body[j]))
    requires i < |body| && x in Needs(bs, body[i]) && !BoundBefore(body, i, x)
    ensures k < |body| && y in Needs(bs, body[k]) && !BoundBefore(body, k, y) && SafeBody(bs, body[..k])
    decreases i
  {
    if j, z :| 0 <= j < i && z in Needs(bs, body[j]) && !BoundBefore(body, j, z) {
      k, y := FirstUnsafe(bs, body, j, z);
    } else {
      k, y := i, x;
      SafePrefix(bs, body, i);
    }
  }

  /** If it is not, there is a literal that never has what it needs when it comes up. */
  lemma UnsafeNeverMet(p: Program, sh: Shape, body: seq<Literal>) returns (i: nat)
    requires Fits(p, sh) && SafeProgram(p) && !SafeBody(p.builtins, body)
    requires forall j :: 0 <= j < |body| ==> WellUsed(p.builtins, body[j])
    ensures i < |body| && SafeBody(p.builtins, body[..i])
    ensures forall e :: ComesUp(p, sh, body, i, e) ==> !NeedsMet(p.builtins, body[i], e)
  {
    var j, x :| 0 <= j < |body| && x in Needs(p.builtins, body[j]) && !BoundBefore(body, j, x);
    var y;
    i, y := FirstUnsafe(p.builtins, body, j, x);
    hide SafeProgram, ComesUp, Fits, SafeBody;
    BoundBeforeIs(body, i, y);
    forall e | ComesUp(p, sh, body, i, e)
      ensures !IsBound(e, y)
    {
      BoundExactly(p, sh, body, i, e, y);
    }
  }

  /** The body "true(x), not q(x)" is in order, but in every program the negated literal comes up
      with its variable unbound. */
  lemma TrueBindsNothing(p: Program, sh: Shape, body: seq<Literal>, x: Name, q: Name)
    requires Fits(p, sh) && body == [Literal(TRUE, [Var(x)], false), Literal(q, [Var(x)], true)]
    requires TRUE !in p.builtins
    ensures InOrder(p.builtins, body) && OnlyTrueHas(body, 1, x) && !SafeBody(p.builtins, body)
    ensures ComesUp(p, sh, body, 1, map[]) && !NeedsMet(p.builtins, body[1], map[])
  {
    AcyclicEmpty();
    assert Var(x) in body[0].args && x in body[0].Vars() && x in body[1].Vars();
    assert body[..1] == [body[0]] && body[..0] == [];
    assert Targets(p.builtins, body[1]) == {x} && AllVars(body[..1]) == {x} && BoundBy(body[..1]) == {};
    BoundBeforeIs(body, 1, x);
    var gs := Goals(body[..1], 0);
    assert gs[1..] == [];
    assert Reaches(p, sh, gs[1..], map[], 1, map[]);
    assert x in Needs(p.builtins, body[1]);
  }

  /** A rule in order, with a safe head, can be evaluated unless only a true has a variable that
      is needed, in the body or in the head. */
  ghost predicate Evaluable(bs: Registry, rule: Rule) {
    && (forall i :: 0 <= i < |rule.body| ==> WellUsed(bs, rule.body[i]))
    && (forall i, x :: 0 <= i < |rule.body| && x in Needs(bs, rule.body[i]) ==> !OnlyTrueHas(rule.body, i, x))
    && forall x :: x in rule.head.Vars() ==> !OnlyTrueHas(rule.body, |rule.body|, x)
  }

  lemma AdmittedIsSafe(bs: Registry, rule: Rule)
    requires InOrder(bs, rule.body) && RuleHeadSafety(rule) == {}
    ensures SafeRule(bs, rule) <==> Evaluable(bs, rule)
  {
    if forall i :: 0 <= i < |rule.body| ==> WellUsed(bs, rule.body[i]) {
      OrderedIsSafe(bs, rule.body);
      assert rule.body[..|rule.body|] == rule.body;
      forall x | x in rule.head.Vars()
        ensures BoundBefore(rule.body, |rule.body|, x) <==> !OnlyTrueHas(rule.body, |rule.body|, x)
      {
        BoundBeforeIs(rule.body, |rule.body|, x);
      }
    }
  }

  /** In whatever order its body is put, if no true has a variable that the rest needs. */
  ghost predicate Admissible(bs: Registry, r: Rule) {
    && RuleHeadSafety(r) == {}
    && (forall lit :: lit in r.body ==> WellUsed(bs, lit))
    && forall t, x :: t in r.body && KindOf(bs, t).Truth? && x in t.Vars() ==>
      && (x in r.head.Vars() ==> x in BoundBy(r.body))
      && forall lit :: lit in r.body ==> x !in Needs(bs, lit)
  }

  lemma TrueHasIt(bs: Registry, body: seq<Literal>, i: nat, x: Name) returns (t: Literal)
    requires i <= |body| && OnlyTrueHas(body, i, x)
    ensures t in body && KindOf(bs, t).Truth? && x in t.Vars()
  {
    t :| t in body[..i] && x in t.Vars();
    assert x !in Binds(t);
  }

  /** However its body has been put in order, such a rule can be evaluated. */
  lemma ReorderedIsSafe(bs: Registry, r: Rule, r': Rule)
    requires Admissible(bs, r) && r'.head == r.head && multiset(r'.body) == multiset(r.body) && InOrder(bs, r'.body)
    ensures SafeRule(bs, r')
  {
    forall lit
      ensures lit in r.body <==> lit in r'.body
    {
      assert lit in multiset(r.body) <==> lit in multiset(r'.body);
    }
    assert AllVars(r.body) == AllVars(r'.body) && BoundBy(r.body) == BoundBy(r'.body);
    assert r'.body[..|r'.body|] == r'.body;
    hide WellUsed, Needs, Binds, InOrder, AllVars, SafeRule;
    forall i, x | 0 <= i < |r'.body| && x in Needs(bs, r'.body[i])
      ensures !OnlyTrueHas(r'.body, i, x)
    {
      var lit := r'.body[i];
      assert lit in r.body;
      if OnlyTrueHas(r'.body, i, x) {
        var t := TrueHasIt(bs, r'.body, i, x);
      }
    }
    forall x | x in r'.head.Vars()
      ensures !OnlyTrueHas(r'.body, |r'.body|, x)
    {
      if OnlyTrueHas(r'.body, |r'.body|, x) {
        var t := TrueHasIt(bs, r'.body, |r'.body|, x);
      }
    }
    AdmittedIsSafe(bs, r');
  }

  /** Reordering a body does not change what it means. */
  lemma SameMeaning(bs: Registry, b: seq<Literal>, b': seq<Literal>, v: Choice, m: Interpretation)
    requires multiset(b) == multiset(b')
    ensures BodyHolds(bs, b, v, m) <==> BodyHolds(bs, b', v, m)
  {
    forall lit
      ensures lit in b <==> lit in b'
    {
      assert lit in multiset(b) <==> lit in multiset(b');
    }
    assert BodyHolds(bs, b, v, m) <==> forall lit :: lit in b ==> Holds(bs, lit, v, m);
    assert BodyHolds(bs, b', v, m) <==> forall lit :: lit in b' ==> Holds(bs, lit, v, m);
  }
}
