/** The top-down search of congress/datalog/topdown.py over bindings instead of heap
    objects, and the proof that it computes the model. */
module Search {
  import opened Options
  import opened Datalog
  import opened Env
  import opened Semantics

  /** A literal still to be proved, read in the unifier numbered u. */
  datatype Goal = Goal(lit: Literal, u: nat)

  function Goals(body: seq<Literal>, u: nat): (gs: seq<Goal>)
    ensures |gs| == |body| && forall i :: 0 <= i < |gs| ==> gs[i] == Goal(body[i], u)
  {
    seq(|body|, i requires 0 <= i < |body| => Goal(body[i], u))
  }

  function Objs(values: seq<Const>): (ts: seq<Term>)
    ensures |ts| == |values| && forall i :: 0 <= i < |ts| ==> ts[i] == Obj(values[i])
  {
    seq(|values|, i requires 0 <= i < |values| => Obj(values[i]))
  }

  // ----- termination

  function Pow(b: nat, e: nat): (r: nat)
    requires b > 0
    ensures r > 0
  {
    if e == 0 then 1 else b * Pow(b, e - 1)
  }

  lemma {:induction false} PowMonotone(b: nat, e: nat, e': nat)
    requires b > 0 && e <= e'
    ensures Pow(b, e) <= Pow(b, e')
  {
    if e < e' {
      PowMonotone(b, e, e' - 1);
      assert Pow(b, e') == b * Pow(b, e' - 1);
      assert Pow(b, e' - 1) <= b * Pow(b, e' - 1);
    }
  }

  function Weight(sh: Shape, lit: Literal): nat {
    (if lit.negated then 1 else 0) + Pow(2 * sh.width + 1, sh.rank(lit.table) + 1)
  }

  /** Pending goals weighted by table rank and maximum body length. */
  function GoalsWeight(sh: Shape, gs: seq<Goal>): nat {
    if gs == [] then 0 else Weight(sh, gs[0].lit) + GoalsWeight(sh, gs[1..])
  }

  lemma {:induction false} GoalsWeightAppend(sh: Shape, gs: seq<Goal>, hs: seq<Goal>)
    ensures GoalsWeight(sh, gs + hs) == GoalsWeight(sh, gs) + GoalsWeight(sh, hs)
    decreases |gs|
  {
    if gs == [] {
      assert gs + hs == hs;
    } else {
      assert (gs + hs)[1..] == gs[1..] + hs;
      GoalsWeightAppend(sh, gs[1..], hs);
    }
  }

  lemma LiteralWeight(sh: Shape, lit: Literal, k: nat)
    requires sh.rank(lit.table) < k
    ensures Weight(sh, lit) <= 1 + Pow(2 * sh.width + 1, k)
  {
    PowMonotone(2 * sh.width + 1, sh.rank(lit.table) + 1, k);
  }

  lemma OneMore(n: nat, x: nat)
    ensures (n + 1) * x == x + n * x
  {
  }

  lemma {:induction false} BodyWeight(sh: Shape, body: seq<Literal>, u: nat, k: nat, x: nat)
    requires forall i :: 0 <= i < |body| ==> sh.rank(body[i].table) < k
    requires x == 1 + Pow(2 * sh.width + 1, k)
    ensures GoalsWeight(sh, Goals(body, u)) <= |body| * x
    decreases |body|
  {
    if body != [] {
      assert Goals(body, u)[1..] == Goals(body[1..], u);
      BodyWeight(sh, body[1..], u, k, x);
      LiteralWeight(sh, body[0], k);
      OneMore(|body| - 1, x);
    }
  }

  lemma WidthBound(n: nat, w: nat, x: nat)
    requires n <= w && x > 0
    ensures n * (1 + x) < (2 * w + 1) * x
  {
    assert n * (1 + x) <= w * (1 + x) by {
      assert (w - n) * (1 + x) >= 0;
    }
    assert w <= w * x by {
      assert w * (x - 1) >= 0;
    }
  }

  /** Replacing a goal by the body of a rule for its table makes the pending goals lighter. */
  lemma RuleLighter(p: Program, sh: Shape, r: Rule, gs: seq<Goal>, u: nat)
    requires Fits(p, sh) && r in p.rules
    requires gs != [] && gs[0].lit.table == r.head.table
    ensures GoalsWeight(sh, Goals(r.body, u) + gs[1..]) < GoalsWeight(sh, gs)
  {
    var b, k := 2 * sh.width + 1, sh.rank(r.head.table);
    GoalsWeightAppend(sh, Goals(r.body, u), gs[1..]);
    BodyWeight(sh, r.body, u, k, 1 + Pow(b, k));
    WidthBound(|r.body|, sh.width, Pow(b, k));
    assert Pow(b, k + 1) == b * Pow(b, k);
  }

  lemma PopLighter(sh: Shape, gs: seq<Goal>)
    requires gs != []
    ensures GoalsWeight(sh, gs[1..]) < GoalsWeight(sh, gs)
  {
  }

  lemma NegationLighter(sh: Shape, gs: seq<Goal>)
    requires gs != [] && gs[0].lit.negated
    ensures GoalsWeight(sh, [Goal(gs[0].lit.Complement(), gs[0].u)]) < GoalsWeight(sh, gs)
  {
    assert GoalsWeight(sh, [Goal(gs[0].lit.Complement(), gs[0].u)]) == Weight(sh, gs[0].lit.Complement());
  }

  // ----- the search

  /** The values of some terms under env, if all of them are bound. */
  ghost predicate AllBound(env: Env, ts: seq<Term>, u: nat)
    requires Acyclic(env)
  {
    forall i :: 0 <= i < |ts| ==> Resolve(env, At(ts[i], u)).Bound?
  }

  ghost function BoundRow(env: Env, ts: seq<Term>, u: nat): (row: seq<Const>)
    requires Acyclic(env) && AllBound(env, ts, u)
    ensures |row| == |ts| && forall i :: 0 <= i < |row| ==> Resolve(env, At(ts[i], u)) == Bound(row[i])
  {
    seq(|ts|, i requires 0 <= i < |ts| => Resolve(env, At(ts[i], u)).value)
  }

  /** The bindings after a builtin has been called, or None if it fails.  n is the unifier of
      the results. */
  ghost function CallResult(b: Builtin, env: Env, lit: Literal, u: nat, n: nat): (r: Option<Env>)
    requires Acyclic(env)
    ensures r.Some? ==> Acyclic(r.value)
  {
    if b.numInputs > |lit.args| || !AllBound(env, lit.args[..b.numInputs], u) then None
    else
      var out := b.code(BoundRow(env, lit.args[..b.numInputs], u));
      if out.Raised? then None
      else if b.numOutputs > 0 then UnifyLists(env, Objs(out.values), n, lit.args[b.numInputs..], u)
      else if out.truthy then Some(env)
      else None
  }

  /** How many unifiers a call creates: one for its results, if it has any. */
  function Created(b: Builtin): nat {
    if b.numOutputs > 0 then 1 else 0
  }

  /** The bindings after the head of r, in the new unifier n, has met the goal g. */
  ghost function HeadResult(env: Env, r: Rule, n: nat, g: Goal): (e: Option<Env>)
    requires Acyclic(env)
    ensures e.Some? ==> Acyclic(e.value)
  {
    UnifyLists(env, r.head.args, n, g.lit.args, g.u)
  }

  /** The search for gs from the bindings env, in which the unifiers below n are in use, can
      arrive with no goals left and the bindings e. */
  ghost predicate Reaches(p: Program, sh: Shape, gs: seq<Goal>, env: Env, n: nat, e: Env)
    requires Fits(p, sh) && Acyclic(env)
    decreases GoalsWeight(sh, gs), 1
  {
    if gs == [] then e == env
    else
      var g := gs[0];
      match KindOf(p.builtins, g.lit)
      case Negation =>
        && (NegationLighter(sh, gs); !Succeeds(p, sh, [Goal(g.lit.Complement(), g.u)], env, n))
        && Reaches(p, sh, gs[1..], env, n, e)
      case Truth => Reaches(p, sh, gs[1..], env, n, e)
      case Falsity => false
      case Call =>
        var c := CallResult(p.builtins[g.lit.table], env, g.lit, g.u, n);
        c.Some? && Reaches(p, sh, gs[1..], c.value, n + Created(p.builtins[g.lit.table]), e)
      case Lookup =>
        exists r :: ReachesBy(p, sh, r, gs, env, n, e)
  }

  ghost predicate ReachesBy(p: Program, sh: Shape, r: Rule, gs: seq<Goal>, env: Env, n: nat, e: Env)
    requires Fits(p, sh) && Acyclic(env) && gs != []
    decreases GoalsWeight(sh, gs), 0
  {
    && r in p.rules
    && r.head.table == gs[0].lit.table
    && var h := HeadResult(env, r, n, gs[0]);
    && h.Some?
    && (RuleLighter(p, sh, r, gs, n); Reaches(p, sh, Goals(r.body, n) + gs[1..], h.value, n + 1, e))
  }

  ghost predicate Succeeds(p: Program, sh: Shape, gs: seq<Goal>, env: Env, n: nat)
    requires Fits(p, sh) && Acyclic(env)
    decreases GoalsWeight(sh, gs), 2
  {
    exists e :: Reaches(p, sh, gs, env, n, e)
  }
}
