/** The search finds exactly what is true in the model. */
module SearchTheorem {
  import opened Options
  import opened Datalog
  import opened Env
  import opened Semantics
  import opened Search
  import opened Safety

  ghost function Slice(s: Valuation, u: nat): Choice {
    (x: Name) => s(VarId(u, x))
  }

  ghost predicate GoalHolds(bs: Registry, g: Goal, s: Valuation, m: Interpretation) {
    Holds(bs, g.lit, Slice(s, g.u), m)
  }

  ghost predicate GoalsHold(bs: Registry, gs: seq<Goal>, s: Valuation, m: Interpretation) {
    forall i :: 0 <= i < |gs| ==> GoalHolds(bs, gs[i], s, m)
  }

  ghost predicate GoalsBelow(gs: seq<Goal>, n: nat) {
    forall i :: 0 <= i < |gs| ==> gs[i].u < n
  }

  /** s and s' give the same values to the variables of the unifiers below n. */
  ghost predicate SameBelow(s: Valuation, s': Valuation, n: nat) {
    forall k: VarId :: k.unifier < n ==> s(k) == s'(k)
  }

  lemma SameRow(s: Valuation, s': Valuation, u: nat, n: nat, ts: seq<Term>)
    requires SameBelow(s, s', n) && u < n
    ensures Row(Slice(s, u), ts) == Row(Slice(s', u), ts)
  {
    RowAgree(Slice(s, u), Slice(s', u), ts);
  }

  lemma SameGoals(bs: Registry, gs: seq<Goal>, s: Valuation, s': Valuation, n: nat, m: Interpretation)
    requires SameBelow(s, s', n) && GoalsBelow(gs, n)
    requires GoalsHold(bs, gs, s, m)
    ensures GoalsHold(bs, gs, s', m)
  {
    forall i | 0 <= i < |gs|
      ensures GoalHolds(bs, gs[i], s', m)
    {
      assert GoalHolds(bs, gs[i], s, m);
      SameRow(s, s', gs[i].u, n, gs[i].lit.args);
    }
  }

  /** Bound arguments have the same values in every solution. */
  lemma BoundRowHolds(env: Env, s: Valuation, ts: seq<Term>, u: nat)
    requires Acyclic(env) && AllBound(env, ts, u) && Sat(env, s)
    ensures Row(Slice(s, u), ts) == BoundRow(env, ts, u)
  {
    forall i | 0 <= i < |ts|
      ensures Row(Slice(s, u), ts)[i] == BoundRow(env, ts, u)[i]
    {
      SatResolve(env, s, At(ts[i], u));
    }
  }

  lemma EquatesRows(s: Valuation, ts1: seq<Term>, u1: nat, ts2: seq<Term>, u2: nat)
    ensures Equates(s, ts1, u1, ts2, u2) <==> Row(Slice(s, u1), ts1) == Row(Slice(s, u2), ts2)
  {
    if Row(Slice(s, u1), ts1) == Row(Slice(s, u2), ts2) {
      forall i | 0 <= i < |ts1|
        ensures Value(s, At(ts1[i], u1)) == Value(s, At(ts2[i], u2))
      {
        assert Row(Slice(s, u1), ts1)[i] == Row(Slice(s, u2), ts2)[i];
      }
    }
  }

  /** A call keeps exactly the solutions in which the builtin relates its arguments. */
  lemma CallExact(b: Builtin, env: Env, lit: Literal, u: nat, n: nat, s: Valuation)
    requires Acyclic(env)
    requires b.numInputs <= |lit.args| && AllBound(env, lit.args[..b.numInputs], u)
    ensures var c := CallResult(b, env, lit, u, n);
      (Sat(env, s) && CallHolds(b, Row(Slice(s, u), lit.args))) <==> (c.Some? && Sat(c.value, s))
  {
    var k := b.numInputs;
    var out := b.code(BoundRow(env, lit.args[..k], u));
    var row := Row(Slice(s, u), lit.args);
    assert row[..k] == Row(Slice(s, u), lit.args[..k]) && row[k..] == Row(Slice(s, u), lit.args[k..]);
    if Sat(env, s) {
      BoundRowHolds(env, s, lit.args[..k], u);
    }
    if out.Returned? && b.numOutputs > 0 {
      UnifyListsExact(env, Objs(out.values), n, lit.args[k..], u, s);
      EquatesRows(s, Objs(out.values), n, lit.args[k..], u);
      assert Row(Slice(s, n), Objs(out.values)) == out.values;
      if CallResult(b, env, lit, u, n).Some? && Sat(CallResult(b, env, lit, u, n).value, s) {
        BoundRowHolds(env, s, lit.args[..k], u);
      }
    }
  }

  lemma CallBelow(b: Builtin, env: Env, lit: Literal, u: nat, n: nat)
    requires Acyclic(env) && Below(env, n) && u < n
    ensures var c := CallResult(b, env, lit, u, n); c.Some? ==> Below(c.value, n + Created(b))
  {
    if b.numInputs <= |lit.args| && AllBound(env, lit.args[..b.numInputs], u) {
      var out := b.code(BoundRow(env, lit.args[..b.numInputs], u));
      if out.Returned? && b.numOutputs > 0 {
        UnifyListsBelow(env, Objs(out.values), n, lit.args[b.numInputs..], u, n + 1);
      }
    }
  }

  /** What one search may assume. */
  ghost predicate Ready(p: Program, sh: Shape, gs: seq<Goal>, env: Env, n: nat) {
    && Fits(p, sh) && SafeProgram(p)
    && Acyclic(env) && Below(env, n) && GoalsBelow(gs, n) && SafeGoals(p.builtins, gs, env)
  }

  lemma ReadyPop(p: Program, sh: Shape, gs: seq<Goal>, env: Env, n: nat)
    requires Ready(p, sh, gs, env, n) && gs != []
    requires KindOf(p.builtins, gs[0].lit).Negation? || KindOf(p.builtins, gs[0].lit).Truth?
    ensures Ready(p, sh, gs[1..], env, n)
    ensures forall k :: Supplied(gs, |gs|, env, k) ==> Supplied(gs[1..], |gs[1..]|, env, k)
  {
    if KindOf(p.builtins, gs[0].lit).Negation? {
      NegationGround(p.builtins, gs, env);
    }
    ExtendsRefl(env);
    SafePop(p.builtins, gs, env, env);
  }

  lemma ReadyNegation(p: Program, sh: Shape, gs: seq<Goal>, env: Env, n: nat)
    requires Ready(p, sh, gs, env, n) && gs != [] && gs[0].lit.negated
    ensures Ready(p, sh, [Goal(gs[0].lit.Complement(), gs[0].u)], env, n)
  {
    NegationGround(p.builtins, gs, env);
    var g := Goal(gs[0].lit.Complement(), gs[0].u);
    assert WellUsed(p.builtins, gs[0].lit);
    forall x | x in Needs(p.builtins, g.lit)
      ensures Resolve(env, Ref(VarId(g.u, x))).Bound?
    {
      var k := if KindOf(p.builtins, g.lit).Call? then p.builtins[g.lit.table].numInputs else 0;
      assert Var(x) in g.lit.args by {
        if KindOf(p.builtins, g.lit).Call? {
          assert Var(x) in g.lit.args[..k];
        }
      }
      assert x in gs[0].lit.Vars();
    }
  }

  lemma ReadyCall(p: Program, sh: Shape, gs: seq<Goal>, env: Env, n: nat)
    requires Ready(p, sh, gs, env, n) && gs != [] && KindOf(p.builtins, gs[0].lit).Call?
    ensures var c := CallResult(p.builtins[gs[0].lit.table], env, gs[0].lit, gs[0].u, n);
      c.Some? ==>
        && Ready(p, sh, gs[1..], c.value, n + Created(p.builtins[gs[0].lit.table]))
        && forall k :: Supplied(gs, |gs|, env, k) ==> Supplied(gs[1..], |gs[1..]|, c.value, k)
  {
    var b := p.builtins[gs[0].lit.table];
    CallBinds(b, env, gs[0].lit, gs[0].u, n);
    CallBelow(b, env, gs[0].lit, gs[0].u, n);
    var c := CallResult(b, env, gs[0].lit, gs[0].u, n);
    if c.Some? {
      SafePop(p.builtins, gs, env, c.value);
    }
  }

  lemma ReadyLookup(p: Program, sh: Shape, gs: seq<Goal>, env: Env, n: nat, r: Rule)
    requires Ready(p, sh, gs, env, n) && gs != [] && r in p.rules
    requires HeadResult(env, r, n, gs[0]).Some?
    ensures var e := HeadResult(env, r, n, gs[0]).value;
      var hs := Goals(r.body, n) + gs[1..];
      && Ready(p, sh, hs, e, n + 1)
      && forall k :: Supplied(gs, |gs|, env, k) ==> Supplied(hs, |hs|, e, k)
  {
    SafePush(p, r, gs, env, n);
    UnifyListsBelow(env, r.head.args, n, gs[0].lit.args, gs[0].u, n + 1);
  }

  // ----- soundness

  /** Every solution of the bindings reached solves the goals, and whatever the goals supply is
      bound at the end. */
  lemma {:induction false} Sound(p: Program, sh: Shape, m: Interpretation, gs: seq<Goal>, env: Env, n: nat, e: Env)
    requires Supported(p, m)
    requires Ready(p, sh, gs, env, n) && Reaches(p, sh, gs, env, n, e)
    ensures Acyclic(e)
    ensures forall s :: Sat(e, s) ==> Sat(env, s) && GoalsHold(p.builtins, gs, s, m)
    ensures forall k :: Supplied(gs, |gs|, env, k) ==> Resolve(e, Ref(k)).Bound?
    decreases GoalsWeight(sh, gs), 1
  {
    if gs != [] {
      var g := gs[0];
      match KindOf(p.builtins, g.lit)
      case Negation =>
        ReadyPop(p, sh, gs, env, n);
        Sound(p, sh, m, gs[1..], env, n, e);
        forall s | Sat(e, s)
          ensures GoalsHold(p.builtins, gs, s, m)
        {
          NegationSound(p, sh, m, gs, env, n, s);
          GoalsSplit(p.builtins, gs, s, m);
        }
      case Truth =>
        ReadyPop(p, sh, gs, env, n);
        Sound(p, sh, m, gs[1..], env, n, e);
        forall s | Sat(e, s)
          ensures GoalsHold(p.builtins, gs, s, m)
        {
          GoalsSplit(p.builtins, gs, s, m);
        }
      case Falsity =>
      case Call =>
        CallSound(p, sh, m, gs, env, n, e);
      case Lookup =>
        var r :| ReachesBy(p, sh, r, gs, env, n, e);
        LookupSound(p, sh, m, gs, env, n, e, r);
    }
  }

  lemma GoalsSplit(bs: Registry, gs: seq<Goal>, s: Valuation, m: Interpretation)
    requires gs != []
    ensures GoalsHold(bs, gs, s, m) <==> GoalHolds(bs, gs[0], s, m) && GoalsHold(bs, gs[1..], s, m)
  {
    if GoalHolds(bs, gs[0], s, m) && GoalsHold(bs, gs[1..], s, m) {
      forall i | 0 <= i < |gs|
        ensures GoalHolds(bs, gs[i], s, m)
      {
        assert i > 0 ==> gs[i] == gs[1..][i - 1];
      }
    }
  }

  lemma GoalsAppend(bs: Registry, gs: seq<Goal>, hs: seq<Goal>, s: Valuation, m: Interpretation)
    ensures GoalsHold(bs, gs + hs, s, m) <==> GoalsHold(bs, gs, s, m) && GoalsHold(bs, hs, s, m)
  {
    if GoalsHold(bs, gs + hs, s, m) {
      forall i | 0 <= i < |gs|
        ensures GoalHolds(bs, gs[i], s, m)
      {
        assert gs[i] == (gs + hs)[i];
      }
      forall i | 0 <= i < |hs|
        ensures GoalHolds(bs, hs[i], s, m)
      {
        assert hs[i] == (gs + hs)[|gs| + i];
      }
    }
  }

  lemma NegationSound(p: Program, sh: Shape, m: Interpretation, gs: seq<Goal>, env: Env, n: nat, s: Valuation)
    requires Supported(p, m)
    requires Ready(p, sh, gs, env, n) && gs != [] && gs[0].lit.negated && Sat(env, s)
    requires !Succeeds(p, sh, [Goal(gs[0].lit.Complement(), gs[0].u)], env, n)
    ensures GoalHolds(p.builtins, gs[0], s, m)
    decreases GoalsWeight(sh, gs), 0
  {
    var pos := Goal(gs[0].lit.Complement(), gs[0].u);
    if GoalHolds(p.builtins, pos, s, m) {
      ReadyNegation(p, sh, gs, env, n);
      NegationLighter(sh, gs);
      var e, s' := Complete(p, sh, m, [pos], env, n, s);
    }
  }

  lemma CallSound(p: Program, sh: Shape, m: Interpretation, gs: seq<Goal>, env: Env, n: nat, e: Env)
    requires Supported(p, m)
    requires Ready(p, sh, gs, env, n) && Reaches(p, sh, gs, env, n, e)
    requires gs != [] && KindOf(p.builtins, gs[0].lit).Call?
    ensures Acyclic(e)
    ensures forall s :: Sat(e, s) ==> Sat(env, s) && GoalsHold(p.builtins, gs, s, m)
    ensures forall k :: Supplied(gs, |gs|, env, k) ==> Resolve(e, Ref(k)).Bound?
    decreases GoalsWeight(sh, gs), 0
  {
    var g, b := gs[0], p.builtins[gs[0].lit.table];
    var c := CallResult(b, env, g.lit, g.u, n).value;
    ReadyCall(p, sh, gs, env, n);
    Sound(p, sh, m, gs[1..], c, n + Created(b), e);
    InputsGround(p.builtins, gs, env);
    forall s | Sat(e, s)
      ensures Sat(env, s) && GoalsHold(p.builtins, gs, s, m)
    {
      CallExact(b, env, g.lit, g.u, n, s);
      GoalsSplit(p.builtins, gs, s, m);
    }
  }

  lemma LookupSound(p: Program, sh: Shape, m: Interpretation, gs: seq<Goal>, env: Env, n: nat, e: Env, r: Rule)
    requires Supported(p, m)
    requires Ready(p, sh, gs, env, n) && gs != [] && ReachesBy(p, sh, r, gs, env, n, e)
    requires KindOf(p.builtins, gs[0].lit).Lookup?
    ensures Acyclic(e)
    ensures forall s :: Sat(e, s) ==> Sat(env, s) && GoalsHold(p.builtins, gs, s, m)
    ensures forall k :: Supplied(gs, |gs|, env, k) ==> Resolve(e, Ref(k)).Bound?
    decreases GoalsWeight(sh, gs), 0
  {
    var g := gs[0];
    var h := HeadResult(env, r, n, g).value;
    var hs := Goals(r.body, n) + gs[1..];
    RuleLighter(p, sh, r, gs, n);
    ReadyLookup(p, sh, gs, env, n, r);
    Sound(p, sh, m, hs, h, n + 1, e);
    forall s | Sat(e, s)
      ensures Sat(env, s) && GoalsHold(p.builtins, gs, s, m)
    {
      UnifyListsExact(env, r.head.args, n, g.lit.args, g.u, s);
      EquatesRows(s, r.head.args, n, g.lit.args, g.u);
      GoalsAppend(p.builtins, Goals(r.body, n), gs[1..], s, m);
      var a := Atom(g.lit.table, Row(Slice(s, g.u), g.lit.args));
      RuleYields(p, r, s, n, m, a);
      GoalsSplit(p.builtins, gs, s, m);
    }
  }

  lemma RuleYields(p: Program, r: Rule, s: Valuation, n: nat, m: Interpretation, a: Atom)
    requires Supported(p, m) && r in p.rules && r.head.table == a.table
    requires Row(Slice(s, n), r.head.args) == a.row
    requires GoalsHold(p.builtins, Goals(r.body, n), s, m)
    ensures a in m
  {
    forall i | 0 <= i < |r.body|
      ensures Holds(p.builtins, r.body[i], Slice(s, n), m)
    {
      assert GoalHolds(p.builtins, Goals(r.body, n)[i], s, m);
    }
    assert Yields(p, r, Slice(s, n), m, a);
  }

  // ----- completeness

  /** Every solution of the goals, extended to the new variables, is a solution of some bindings
      that the search reaches. */
  lemma {:induction false} Complete(p: Program, sh: Shape, m: Interpretation, gs: seq<Goal>, env: Env, n: nat,
      s: Valuation)
      returns (e: Env, s': Valuation)
    requires Supported(p, m)
    requires Ready(p, sh, gs, env, n)
    requires Sat(env, s) && GoalsHold(p.builtins, gs, s, m)
    ensures Reaches(p, sh, gs, env, n, e) && Acyclic(e) && Sat(e, s') && SameBelow(s, s', n)
    decreases GoalsWeight(sh, gs), 1
  {
    if gs == [] {
      e, s' := env, s;
    } else {
      var g := gs[0];
      GoalsSplit(p.builtins, gs, s, m);
      match KindOf(p.builtins, g.lit)
      case Negation =>
        NegationComplete(p, sh, m, gs, env, n, s);
        ReadyPop(p, sh, gs, env, n);
        e, s' := Complete(p, sh, m, gs[1..], env, n, s);
      case Truth =>
        ReadyPop(p, sh, gs, env, n);
        e, s' := Complete(p, sh, m, gs[1..], env, n, s);
      case Call =>
        InputsGround(p.builtins, gs, env);
        CallExact(p.builtins[g.lit.table], env, g.lit, g.u, n, s);
        ReadyCall(p, sh, gs, env, n);
        var c := CallResult(p.builtins[g.lit.table], env, g.lit, g.u, n);
        e, s' := Complete(p, sh, m, gs[1..], c.value, n + Created(p.builtins[g.lit.table]), s);
      case Lookup =>
        e, s' := LookupComplete(p, sh, m, gs, env, n, s);
    }
  }

  lemma NegationComplete(p: Program, sh: Shape, m: Interpretation, gs: seq<Goal>, env: Env, n: nat, s: Valuation)
    requires Supported(p, m)
    requires Ready(p, sh, gs, env, n) && gs != [] && gs[0].lit.negated
    requires Sat(env, s) && GoalHolds(p.builtins, gs[0], s, m)
    ensures !Succeeds(p, sh, [Goal(gs[0].lit.Complement(), gs[0].u)], env, n)
    decreases GoalsWeight(sh, gs), 0
  {
    var g := gs[0];
    var pos := Goal(g.lit.Complement(), g.u);
    ReadyNegation(p, sh, gs, env, n);
    NegationLighter(sh, gs);
    forall e | Reaches(p, sh, [pos], env, n, e)
      ensures false
    {
      Sound(p, sh, m, [pos], env, n, e);
      SolutionSat(e, s);
      var w := Solution(e, s);
      assert GoalHolds(p.builtins, [pos][0], w, m);
      NegationGround(p.builtins, gs, env);
      BoundRowHolds(env, s, g.lit.args, g.u);
      BoundRowHolds(env, w, g.lit.args, g.u);
    }
  }

  lemma LookupComplete(p: Program, sh: Shape, m: Interpretation, gs: seq<Goal>, env: Env, n: nat, s: Valuation)
      returns (e: Env, s': Valuation)
    requires Supported(p, m)
    requires Ready(p, sh, gs, env, n) && gs != [] && KindOf(p.builtins, gs[0].lit).Lookup?
    requires Sat(env, s) && GoalsHold(p.builtins, gs, s, m)
    ensures Reaches(p, sh, gs, env, n, e) && Acyclic(e) && Sat(e, s') && SameBelow(s, s', n)
    decreases GoalsWeight(sh, gs), 0
  {
    var g := gs[0];
    GoalsSplit(p.builtins, gs, s, m);
    var a := Atom(g.lit.table, Row(Slice(s, g.u), g.lit.args));
    assert a in m;
    var r, v :| Yields(p, r, v, m, a);
    var t: Valuation := (k: VarId) => if k.unifier == n then v(k.name) else s(k);
    SatBelow(env, s, t, n);
    SameRow(s, t, g.u, n, g.lit.args);
    RowAgree(v, Slice(t, n), r.head.args);
    EquatesRows(t, r.head.args, n, g.lit.args, g.u);
    UnifyListsExact(env, r.head.args, n, g.lit.args, g.u, t);
    var h := HeadResult(env, r, n, g).value;
    var hs := Goals(r.body, n) + gs[1..];
    forall i | 0 <= i < |r.body|
      ensures GoalHolds(p.builtins, Goals(r.body, n)[i], t, m)
    {
      assert Holds(p.builtins, r.body[i], v, m);
      RowAgree(v, Slice(t, n), r.body[i].args);
    }
    SameGoals(p.builtins, gs[1..], s, t, n, m);
    GoalsAppend(p.builtins, Goals(r.body, n), gs[1..], t, m);
    RuleLighter(p, sh, r, gs, n);
    ReadyLookup(p, sh, gs, env, n, r);
    e, s' := Complete(p, sh, m, hs, h, n + 1, t);
    assert ReachesBy(p, sh, r, gs, env, n, e);
  }

  lemma SatBelow(env: Env, s: Valuation, t: Valuation, n: nat)
    requires Below(env, n) && SameBelow(s, t, n) && Sat(env, s)
    ensures Sat(env, t)
  {
  }
}
