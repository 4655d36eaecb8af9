/** Why the search never meets a literal it cannot evaluate: whatever a goal needs bound is
    bound already or will be bound by an earlier goal. */
module Safety {
  import opened Options
  import opened Datalog
  import opened Env
  import opened Semantics
  import opened Search

  /** The variables that must be bound by the time a literal is evaluated. */
  function Needs(bs: Registry, lit: Literal): set<Name> {
    match KindOf(bs, lit)
    case Negation => lit.Vars()
    case Call => if bs[lit.table].numInputs <= |lit.args| then VarNames(lit.args[..bs[lit.table].numInputs]) else {}
    case _ => {}
  }

  /** The variables that are bound once a literal has been evaluated: the table true binds none. */
  function Binds(lit: Literal): set<Name> {
    if lit.table == TRUE && !lit.negated then {} else lit.Vars()
  }

  /** A literal without arguments counts as a call of any builtin, even one with inputs. */
  predicate WellUsed(bs: Registry, lit: Literal) {
    lit.table != TRUE && lit.table != FALSE && lit.IsBuiltin(bs) ==> bs[lit.table].numInputs <= |lit.args|
  }

  ghost predicate BoundBefore(body: seq<Literal>, i: nat, x: Name)
    requires i <= |body|
  {
    exists j :: 0 <= j < i && x in Binds(body[j])
  }

  ghost predicate SafeBody(bs: Registry, body: seq<Literal>) {
    && (forall i :: 0 <= i < |body| ==> WellUsed(bs, body[i]))
    && forall i, x :: 0 <= i < |body| && x in Needs(bs, body[i]) ==> BoundBefore(body, i, x)
  }

  ghost predicate SafeRule(bs: Registry, r: Rule) {
    SafeBody(bs, r.body) && forall x :: x in r.head.Vars() ==> BoundBefore(r.body, |r.body|, x)
  }

  ghost predicate SafeProgram(p: Program) {
    forall r :: r in p.rules ==> SafeRule(p.builtins, r)
  }

  /** k is bound, or ends in the same place as a variable of one of the first i goals. */
  ghost predicate Supplied(gs: seq<Goal>, i: nat, env: Env, k: VarId)
    requires Acyclic(env) && i <= |gs|
  {
    || Resolve(env, Ref(k)).Bound?
    || exists j, y :: 0 <= j < i && Meets(gs[j], y, env, k)
  }

  ghost predicate Meets(g: Goal, y: Name, env: Env, k: VarId)
    requires Acyclic(env)
  {
    y in Binds(g.lit) && Resolve(env, Ref(VarId(g.u, y))) == Resolve(env, Ref(k))
  }

  ghost predicate SafeGoals(bs: Registry, gs: seq<Goal>, env: Env)
    requires Acyclic(env)
  {
    && (forall i :: 0 <= i < |gs| ==> WellUsed(bs, gs[i].lit))
    && forall i, x :: 0 <= i < |gs| && x in Needs(bs, gs[i].lit) ==> Supplied(gs, i, env, VarId(gs[i].u, x))
  }

  /** All variables that g binds are bound. */
  ghost predicate GoalBound(g: Goal, env: Env)
    requires Acyclic(env)
  {
    forall x :: x in Binds(g.lit) ==> Resolve(env, Ref(VarId(g.u, x))).Bound?
  }

  lemma AllBoundVars(env: Env, ts: seq<Term>, u: nat)
    requires Acyclic(env)
    ensures AllBound(env, ts, u) <==> forall x :: x in VarNames(ts) ==> Resolve(env, Ref(VarId(u, x))).Bound?
  {
    if AllBound(env, ts, u) {
      forall x | x in VarNames(ts)
        ensures Resolve(env, Ref(VarId(u, x))).Bound?
      {
        var i :| 0 <= i < |ts| && ts[i] == Var(x);
        assert Resolve(env, At(ts[i], u)).Bound?;
      }
    }
    if forall x :: x in VarNames(ts) ==> Resolve(env, Ref(VarId(u, x))).Bound? {
      forall i | 0 <= i < |ts|
        ensures Resolve(env, At(ts[i], u)).Bound?
      {
        if ts[i].Var? {
          assert Var(ts[i].name) in ts;
        }
      }
    }
  }

  /** The assertions of the search cannot fail: a negated literal is ground when its turn comes. */
  lemma NegationGround(bs: Registry, gs: seq<Goal>, env: Env)
    requires Acyclic(env) && SafeGoals(bs, gs, env) && gs != []
    requires KindOf(bs, gs[0].lit).Negation?
    ensures GoalBound(gs[0], env) && AllBound(env, gs[0].lit.args, gs[0].u)
  {
    forall x | x in gs[0].lit.Vars()
      ensures Resolve(env, Ref(VarId(gs[0].u, x))).Bound?
    {
      assert x in Needs(bs, gs[0].lit);
      assert Supplied(gs, 0, env, VarId(gs[0].u, x));
    }
    AllBoundVars(env, gs[0].lit.args, gs[0].u);
  }

  /** ... and so are the inputs of a builtin. */
  lemma InputsGround(bs: Registry, gs: seq<Goal>, env: Env)
    requires Acyclic(env) && SafeGoals(bs, gs, env) && gs != [] && KindOf(bs, gs[0].lit).Call?
    ensures var k := bs[gs[0].lit.table].numInputs;
      k <= |gs[0].lit.args| && AllBound(env, gs[0].lit.args[..k], gs[0].u)
  {
    var k := bs[gs[0].lit.table].numInputs;
    assert WellUsed(bs, gs[0].lit);
    forall x | x in VarNames(gs[0].lit.args[..k])
      ensures Resolve(env, Ref(VarId(gs[0].u, x))).Bound?
    {
      assert x in Needs(bs, gs[0].lit);
      assert Supplied(gs, 0, env, VarId(gs[0].u, x));
    }
    AllBoundVars(env, gs[0].lit.args[..k], gs[0].u);
  }

  lemma SuppliedExtend(gs: seq<Goal>, i: nat, env: Env, e: Env, k: VarId)
    requires Acyclic(env) && Acyclic(e) && Extends(env, e) && i <= |gs|
    requires Supplied(gs, i, env, k)
    ensures Supplied(gs, i, e, k)
  {
    if !Resolve(env, Ref(k)).Bound? {
      var j, y :| 0 <= j < i && Meets(gs[j], y, env, k);
      assert Meets(gs[j], y, e, k);
    }
  }

  lemma SuppliedPop(gs: seq<Goal>, i: nat, env: Env, k: VarId)
    requires Acyclic(env) && 0 < i <= |gs| && GoalBound(gs[0], env)
    requires Supplied(gs, i, env, k)
    ensures Supplied(gs[1..], i - 1, env, k)
  {
    if !Resolve(env, Ref(k)).Bound? {
      var j, y :| 0 <= j < i && Meets(gs[j], y, env, k);
      assert Meets(gs[1..][j - 1], y, env, k);
    }
  }

  /** Once the first goal is bound, it is no longer needed. */
  lemma SafePop(bs: Registry, gs: seq<Goal>, env: Env, e: Env)
    requires Acyclic(env) && Acyclic(e) && Extends(env, e)
    requires gs != [] && SafeGoals(bs, gs, env) && GoalBound(gs[0], e)
    ensures SafeGoals(bs, gs[1..], e)
    ensures forall k :: Supplied(gs, |gs|, env, k) ==> Supplied(gs[1..], |gs[1..]|, e, k)
  {
    forall i, x | 0 <= i < |gs[1..]| && x in Needs(bs, gs[1..][i].lit)
      ensures Supplied(gs[1..], i, e, VarId(gs[1..][i].u, x))
    {
      var k := VarId(gs[i + 1].u, x);
      assert Supplied(gs, i + 1, env, k);
      SuppliedExtend(gs, i + 1, env, e, k);
      SuppliedPop(gs, i + 1, e, k);
    }
    forall k | Supplied(gs, |gs|, env, k)
      ensures Supplied(gs[1..], |gs[1..]|, e, k)
    {
      SuppliedExtend(gs, |gs|, env, e, k);
      SuppliedPop(gs, |gs|, e, k);
    }
  }

  lemma ExtendsRefl(env: Env)
    requires Acyclic(env)
    ensures Extends(env, env)
  {
  }

  /** A builtin that succeeded has bound all of its arguments. */
  lemma CallBinds(b: Builtin, env: Env, lit: Literal, u: nat, n: nat)
    requires Acyclic(env) && (|lit.args| == 0 || |lit.args| == b.numInputs + b.numOutputs)
    ensures var c := CallResult(b, env, lit, u, n);
      c.Some? ==> Extends(env, c.value) && GoalBound(Goal(lit, u), c.value)
  {
    var c := CallResult(b, env, lit, u, n);
    if c.Some? {
      var k := b.numInputs;
      var out := b.code(BoundRow(env, lit.args[..k], u));
      if b.numOutputs > 0 {
        UnifyListsExtends(env, Objs(out.values), n, lit.args[k..], u);
      } else {
        ExtendsRefl(env);
      }
      forall i | 0 <= i < |lit.args|
        ensures Resolve(c.value, At(lit.args[i], u)).Bound?
      {
        if i < k {
          assert Resolve(env, At(lit.args[..k][i], u)).Bound?;
        } else {
          assert lit.args[i] == lit.args[k..][i - k];
          assert Resolve(c.value, At(Objs(out.values)[i - k], n)) == Resolve(c.value, At(lit.args[k..][i - k], u));
        }
      }
      AllBoundVars(c.value, lit.args, u);
    }
  }

  /** A variable of a goal that met the head of a safe rule is supplied by the rule's body. */
  lemma HeadSupplies(bs: Registry, r: Rule, gs: seq<Goal>, env: Env, n: nat, y: Name, k: VarId)
    requires Acyclic(env) && SafeRule(bs, r) && gs != []
    requires var h := HeadResult(env, r, n, gs[0]); h.Some? && Meets(gs[0], y, h.value, k)
    ensures var e := HeadResult(env, r, n, gs[0]).value;
      var hs := Goals(r.body, n) + gs[1..];
      forall i :: |r.body| <= i <= |hs| ==> Supplied(hs, i, e, k)
  {
    var g := gs[0];
    var e := HeadResult(env, r, n, g).value;
    var hs := Goals(r.body, n) + gs[1..];
    UnifyListsExtends(env, r.head.args, n, g.lit.args, g.u);
    var i :| 0 <= i < |g.lit.args| && g.lit.args[i] == Var(y);
    var t := r.head.args[i];
    assert Resolve(e, At(t, n)) == Resolve(e, At(g.lit.args[i], g.u)) == Resolve(e, Ref(k));
    if t.Var? {
      assert Var(t.name) in r.head.args;
      assert t.name in r.head.Vars();
      assert BoundBefore(r.body, |r.body|, t.name);
      var j :| 0 <= j < |r.body| && t.name in Binds(r.body[j]);
      assert hs[j] == Goal(r.body[j], n);
      assert Meets(hs[j], t.name, e, k);
    }
  }

  lemma SuppliedBody(bs: Registry, r: Rule, gs: seq<Goal>, env: Env, n: nat, i: nat, k: VarId)
    requires Acyclic(env) && SafeRule(bs, r) && 0 < i <= |gs|
    requires HeadResult(env, r, n, gs[0]).Some?
    requires Supplied(gs, i, env, k)
    ensures Supplied(Goals(r.body, n) + gs[1..], |r.body| + i - 1, HeadResult(env, r, n, gs[0]).value, k)
  {
    var g := gs[0];
    var e := HeadResult(env, r, n, g).value;
    var hs := Goals(r.body, n) + gs[1..];
    UnifyListsExtends(env, r.head.args, n, g.lit.args, g.u);
    SuppliedExtend(gs, i, env, e, k);
    if !Resolve(e, Ref(k)).Bound? {
      var j, y :| 0 <= j < i && Meets(gs[j], y, e, k);
      if j == 0 {
        HeadSupplies(bs, r, gs, env, n, y, k);
      } else {
        assert hs[|r.body| + j - 1] == gs[j];
        assert Meets(hs[|r.body| + j - 1], y, e, k);
      }
    }
  }

  /** Replacing a goal by the body of a safe rule keeps the goals safe. */
  lemma SafePush(p: Program, r: Rule, gs: seq<Goal>, env: Env, n: nat)
    requires SafeProgram(p) && r in p.rules
    requires Acyclic(env) && gs != [] && SafeGoals(p.builtins, gs, env)
    requires HeadResult(env, r, n, gs[0]).Some?
    ensures var e := HeadResult(env, r, n, gs[0]).value;
      var hs := Goals(r.body, n) + gs[1..];
      && Extends(env, e)
      && SafeGoals(p.builtins, hs, e)
      && forall k :: Supplied(gs, |gs|, env, k) ==> Supplied(hs, |hs|, e, k)
  {
    var bs := p.builtins;
    var e := HeadResult(env, r, n, gs[0]).value;
    var hs := Goals(r.body, n) + gs[1..];
    UnifyListsExtends(env, r.head.args, n, gs[0].lit.args, gs[0].u);
    assert SafeRule(bs, r);
    forall i | 0 <= i < |hs|
      ensures WellUsed(bs, hs[i].lit)
    {
      assert hs[i].lit == if i < |r.body| then r.body[i] else gs[i - |r.body| + 1].lit;
    }
    forall i, x | 0 <= i < |hs| && x in Needs(bs, hs[i].lit)
      ensures Supplied(hs, i, e, VarId(hs[i].u, x))
    {
      if i < |r.body| {
        assert BoundBefore(r.body, i, x);
        var j :| 0 <= j < i && x in Binds(r.body[j]);
        assert hs[j] == Goal(r.body[j], n) && hs[i] == Goal(r.body[i], n);
        assert Meets(hs[j], x, e, VarId(n, x));
      } else {
        var i' := i - |r.body| + 1;
        assert hs[i] == gs[i'];
        SuppliedBody(bs, r, gs, env, n, i', VarId(gs[i'].u, x));
      }
    }
    forall k | Supplied(gs, |gs|, env, k)
      ensures Supplied(hs, |hs|, e, k)
    {
      SuppliedBody(bs, r, gs, env, n, |gs|, k);
    }
  }
}
