/** Lowering of constraints to linear programs: LpLang of congress/datalog/arithmetic_solvers.py. */
module LpLang {
  import opened Options
  import opened Datalog

  /** A variable of the problem, or one made up on the way. */
  datatype Symbol = Named(name: Name) | Internal(number: nat)

  datatype ArithOp = Plus | Times | Minus | Div | Lt | LtEq | Gt | GtEq | Equal

  datatype Operator = Eq | NotEq | And | Or | Arith(op: ArithOp)

  datatype Exp = Constant(value: real) | Variable(symbol: Symbol) | Node(operator: Operator, args: seq<Exp>)

  type Env = Symbol -> real

  // ----- meaning, with 1 for true and 0 for false

  function Truth(b: bool): real {
    if b then 1.0 else 0.0
  }

  function Sum(vs: seq<real>): real {
    if vs == [] then 0.0 else vs[0] + Sum(vs[1..])
  }

  function Product(vs: seq<real>): real {
    if vs == [] then 1.0 else vs[0] * Product(vs[1..])
  }

  predicate Compare(op: ArithOp, a: real, b: real) {
    match op
    case Lt => a < b
    case LtEq => a <= b
    case Gt => a > b
    case GtEq => a >= b
    case _ => a == b
  }

  predicate IsComparison(op: ArithOp) {
    op.Lt? || op.LtEq? || op.Gt? || op.GtEq? || op.Equal?
  }

  /** An and or an or of one thing is that thing. */
  function Meaning(operator: Operator, vs: seq<real>): real {
    match operator
    case Eq => Truth(|vs| == 2 && vs[0] == vs[1])
    case NotEq => Truth(|vs| == 2 && vs[0] != vs[1])
    case And => if |vs| == 1 then vs[0] else Truth(forall i :: 0 <= i < |vs| ==> vs[i] != 0.0)
    case Or => if |vs| == 1 then vs[0] else Truth(exists i :: 0 <= i < |vs| && vs[i] != 0.0)
    case Arith(op) =>
      match op
      case Plus => Sum(vs)
      case Times => Product(vs)
      case Minus => if |vs| == 2 then vs[0] - vs[1] else 0.0
      case Div => if |vs| == 2 && vs[1] != 0.0 then vs[0] / vs[1] else 0.0
      case _ => Truth(|vs| == 2 && Compare(op, vs[0], vs[1]))
  }

  function Value(e: Exp, env: Env): real {
    match e
    case Constant(v) => v
    case Variable(s) => env(s)
    case Node(operator, args) => Meaning(operator, Values(args, env))
  }

  function Values(es: seq<Exp>, env: Env): (vs: seq<real>)
    ensures |vs| == |es| && forall i :: 0 <= i < |es| ==> vs[i] == Value(es[i], env)
  {
    if es == [] then [] else [Value(es[0], env)] + Values(es[1..], env)
  }

  /** All numbers of made-up variables in an expression are below k. */
  predicate Below(e: Exp, k: nat) {
    match e
    case Constant(_) => true
    case Variable(s) => s.Internal? ==> s.number < k
    case Node(_, args) => forall i :: 0 <= i < |args| ==> Below(args[i], k)
  }

  /** Equal on all variables but those numbered from lo to hi. */
  ghost predicate SameBut(env: Env, env': Env, lo: nat, hi: nat) {
    forall s: Symbol :: (s.Internal? ==> s.number < lo || s.number >= hi) ==> env(s) == env'(s)
  }

  lemma {:induction false} ValueLocal(e: Exp, k: nat, env: Env, env': Env, hi: nat)
    requires Below(e, k) && SameBut(env, env', k, hi)
    ensures Value(e, env) == Value(e, env')
  {
    match e
    case Constant(_) =>
    case Variable(_) =>
    case Node(_, args) =>
      forall i | 0 <= i < |args|
        ensures Value(args[i], env) == Value(args[i], env')
      {
        ValueLocal(args[i], k, env, env', hi);
      }
      assert Values(args, env) == Values(args, env');
  }

  lemma {:induction false} BelowMore(e: Exp, k: nat, l: nat)
    requires Below(e, k) && k <= l
    ensures Below(e, l)
  {
    if e.Node? {
      forall i | 0 <= i < |e.args|
        ensures Below(e.args[i], l)
      {
        BelowMore(e.args[i], k, l);
      }
    }
  }

  // ----- flattening as a function

  /** What building an expression anew gives: an and or an or of one thing is not built. */
  function Rebuild(operator: Operator, args: seq<Exp>): Exp {
    if (operator.And? || operator.Or?) && |args| == 1 then args[0] else Node(operator, args)
  }

  datatype Flat = Flat(exp: Exp, support: seq<Exp>, counter: nat)

  datatype Flats = Flats(exps: seq<Exp>, support: seq<Exp>, counter: nat)

  function Define(k: nat, e: Exp): Exp {
    Node(Eq, [Variable(Internal(k)), e])
  }

  function FlattenExp(e: Exp, indicator: bool, k: nat): Flat {
    match e
    case Node(operator, args) =>
      var fs := FlattenArgs(args, !(operator.Eq? || operator.NotEq?), k);
      var built := Rebuild(operator, fs.exps);
      if indicator then Flat(Variable(Internal(fs.counter)), [Define(fs.counter, built)] + fs.support, fs.counter + 1)
      else Flat(built, fs.support, fs.counter)
    case _ => Flat(e, [], k)
  }

  function FlattenArgs(args: seq<Exp>, indicator: bool, k: nat): (fs: Flats)
    ensures |fs.exps| == |args|
  {
    if args == [] then Flats([], [], k)
    else
      var f := FlattenExp(args[0], indicator, k);
      var rest := FlattenArgs(args[1..], indicator, f.counter);
      Flats([f.exp] + rest.exps, f.support + rest.support, rest.counter)
  }

  /** The equations all hold. */
  ghost predicate Satisfies(env: Env, equations: seq<Exp>) {
    forall i :: 0 <= i < |equations| ==> Value(equations[i], env) != 0.0
  }

  lemma SatisfiesParts(env: Env, a: seq<Exp>, b: seq<Exp>)
    ensures Satisfies(env, a + b) <==> Satisfies(env, a) && Satisfies(env, b)
  {
    if Satisfies(env, a + b) {
      forall i | 0 <= i < |a|
        ensures Value(a[i], env) != 0.0
      {
        assert a[i] == (a + b)[i];
      }
      forall i | 0 <= i < |b|
        ensures Value(b[i], env) != 0.0
      {
        assert b[i] == (a + b)[|a| + i];
      }
    }
  }

  lemma DefineHolds(env: Env, k: nat, e: Exp)
    ensures Satisfies(env, [Define(k, e)]) <==> env(Internal(k)) == Value(e, env)
  {
    var d := Define(k, e);
    assert Values(d.args, env) == [env(Internal(k)), Value(e, env)];
    assert [d][0] == d;
  }

  lemma RebuildMeans(operator: Operator, args: seq<Exp>, env: Env)
    ensures Value(Rebuild(operator, args), env) == Meaning(operator, Values(args, env))
  {
  }

  /** Under the support equations the new expression has the value of the old. */
  lemma {:induction false} FlattenMeans(e: Exp, indicator: bool, k: nat, env: Env)
    requires Satisfies(env, FlattenExp(e, indicator, k).support)
    ensures Value(FlattenExp(e, indicator, k).exp, env) == Value(e, env)
    decreases e, 0
  {
    if e.Node? {
      var fs := FlattenArgs(e.args, !(e.operator.Eq? || e.operator.NotEq?), k);
      var built := Rebuild(e.operator, fs.exps);
      if indicator {
        SatisfiesParts(env, [Define(fs.counter, built)], fs.support);
        DefineHolds(env, fs.counter, built);
      }
      FlattenArgsMean(e.args, !(e.operator.Eq? || e.operator.NotEq?), k, env);
      RebuildMeans(e.operator, fs.exps, env);
    }
  }

  lemma {:induction false} FlattenArgsMean(args: seq<Exp>, indicator: bool, k: nat, env: Env)
    requires Satisfies(env, FlattenArgs(args, indicator, k).support)
    ensures Values(FlattenArgs(args, indicator, k).exps, env) == Values(args, env)
    decreases args, 1
  {
    if args != [] {
      var f := FlattenExp(args[0], indicator, k);
      var rest := FlattenArgs(args[1..], indicator, f.counter);
      SatisfiesParts(env, f.support, rest.support);
      FlattenMeans(args[0], indicator, k, env);
      FlattenArgsMean(args[1..], indicator, f.counter, env);
      assert FlattenArgs(args, indicator, k).exps[1..] == rest.exps;
    }
  }

  // ----- the made-up variables

  /** The equations define the variables numbered from lo to hi, each once and by an expression
      in which only lower numbers occur. */
  ghost predicate Definitions(equations: seq<Exp>, lo: nat, hi: nat) {
    && lo <= hi && |equations| == hi - lo
    && (forall i :: 0 <= i < |equations| ==> IsDefinition(equations[i], lo, hi))
    && (forall i, j :: 0 <= i < j < |equations| ==> equations[i].args[0] != equations[j].args[0])
    && (forall k :: lo <= k < hi ==> Defines(equations, k))
  }

  ghost predicate Defines(equations: seq<Exp>, k: nat) {
    exists i :: 0 <= i < |equations| && equations[i].Node? && equations[i].args != []
      && equations[i].args[0] == Variable(Internal(k))
  }

  lemma DefinesPart(a: seq<Exp>, b: seq<Exp>, k: nat)
    requires Defines(a, k) || Defines(b, k)
    ensures Defines(a + b, k)
  {
    if Defines(a, k) {
      var i :| 0 <= i < |a| && a[i].Node? && a[i].args != [] && a[i].args[0] == Variable(Internal(k));
      assert (a + b)[i] == a[i];
    } else {
      var i :| 0 <= i < |b| && b[i].Node? && b[i].args != [] && b[i].args[0] == Variable(Internal(k));
      assert (a + b)[|a| + i] == b[i];
    }
  }

  ghost predicate IsDefinition(d: Exp, lo: nat, hi: nat) {
    && d.Node? && d.operator.Eq? && |d.args| == 2
    && d.args[0].Variable? && d.args[0].symbol.Internal? && lo <= d.args[0].symbol.number < hi
    && Below(d.args[1], d.args[0].symbol.number)
  }

  lemma DefinitionsJoin(a: seq<Exp>, b: seq<Exp>, lo: nat, mid: nat, hi: nat)
    requires Definitions(a, lo, mid) && Definitions(b, mid, hi)
    ensures Definitions(a + b, lo, hi)
  {
    forall i | 0 <= i < |a + b|
      ensures IsDefinition((a + b)[i], lo, hi)
    {
      if i < |a| {
        assert IsDefinition(a[i], lo, mid);
      } else {
        assert IsDefinition(b[i - |a|], mid, hi);
      }
    }
    forall i, j | 0 <= i < j < |a + b|
      ensures (a + b)[i].args[0] != (a + b)[j].args[0]
    {
      if i < |a| && j >= |a| {
        assert IsDefinition(a[i], lo, mid) && IsDefinition(b[j - |a|], mid, hi);
      }
    }
    forall k | lo <= k < hi
      ensures Defines(a + b, k)
    {
      assert if k < mid then Defines(a, k) else Defines(b, k);
      DefinesPart(a, b, k);
    }
  }

  lemma {:induction false} FlattenDefines(e: Exp, indicator: bool, k: nat)
    requires Below(e, k)
    ensures var f := FlattenExp(e, indicator, k);
      Definitions(f.support, k, f.counter) && Below(f.exp, f.counter)
    decreases e, 0
  {
    if e.Node? {
      var fs := FlattenArgs(e.args, !(e.operator.Eq? || e.operator.NotEq?), k);
      FlattenArgsDefine(e.args, !(e.operator.Eq? || e.operator.NotEq?), k);
      if indicator {
        var d := Define(fs.counter, Rebuild(e.operator, fs.exps));
        assert [d][0] == d && Defines([d], fs.counter);
        assert Definitions([d], fs.counter, fs.counter + 1);
        DefinitionsFirst(d, fs.support, k, fs.counter);
      }
    }
  }

  lemma DefinitionsFirst(d: Exp, a: seq<Exp>, lo: nat, mid: nat)
    requires Definitions(a, lo, mid) && Definitions([d], mid, mid + 1)
    ensures Definitions([d] + a, lo, mid + 1)
  {
    assert IsDefinition([d][0], mid, mid + 1);
    forall i | 0 <= i < |[d] + a|
      ensures IsDefinition(([d] + a)[i], lo, mid + 1)
    {
      if i > 0 {
        assert IsDefinition(a[i - 1], lo, mid);
      }
    }
    forall i, j | 0 <= i < j < |[d] + a|
      ensures ([d] + a)[i].args[0] != ([d] + a)[j].args[0]
    {
      assert IsDefinition(a[j - 1], lo, mid);
    }
    forall k | lo <= k < mid + 1
      ensures Defines([d] + a, k)
    {
      assert if k < mid then Defines(a, k) else Defines([d], k);
      DefinesPart([d], a, k);
    }
  }

  lemma {:induction false} FlattenArgsDefine(args: seq<Exp>, indicator: bool, k: nat)
    requires forall i :: 0 <= i < |args| ==> Below(args[i], k)
    ensures var fs := FlattenArgs(args, indicator, k);
      Definitions(fs.support, k, fs.counter) && forall i :: 0 <= i < |fs.exps| ==> Below(fs.exps[i], fs.counter)
    decreases args, 1
  {
    if args != [] {
      var f := FlattenExp(args[0], indicator, k);
      FlattenDefines(args[0], indicator, k);
      forall i | 0 <= i < |args[1..]|
        ensures Below(args[1..][i], f.counter)
      {
        BelowMore(args[i + 1], k, f.counter);
      }
      var rest := FlattenArgs(args[1..], indicator, f.counter);
      FlattenArgsDefine(args[1..], indicator, f.counter);
      DefinitionsJoin(f.support, rest.support, k, f.counter, rest.counter);
      BelowMore(f.exp, f.counter, rest.counter);
    }
  }

  function Assign(env: Env, k: nat, v: real): Env {
    s => if s == Internal(k) then v else env(s)
  }

  ghost function DefinitionOf(equations: seq<Exp>, k: nat): (e: Exp)
    requires Defines(equations, k)
    ensures e in equations && e.Node? && e.args != [] && e.args[0] == Variable(Internal(k))
  {
    var i :| 0 <= i < |equations| && equations[i].Node? && equations[i].args != []
      && equations[i].args[0] == Variable(Internal(k));
    equations[i]
  }

  /** The variables numbered from lo to k have the values that their definitions give them. */
  ghost predicate SolvedUpTo(env: Env, equations: seq<Exp>, k: nat) {
    forall d ::
      d in equations && d.Node? && |d.args| == 2
      && d.args[0].Variable? && d.args[0].symbol.Internal? && d.args[0].symbol.number < k ==>
      env(d.args[0].symbol) == Value(d.args[1], env)
  }

  lemma {:induction false} Solvable(equations: seq<Exp>, lo: nat, hi: nat, env: Env, k: nat) returns (env': Env)
    requires Definitions(equations, lo, hi) && lo <= k <= hi
    ensures SameBut(env, env', lo, k) && SolvedUpTo(env', equations, k)
    decreases k
  {
    if k == lo {
      env' := env;
      forall d | d in equations
        ensures IsDefinition(d, lo, hi)
      {
      }
    } else {
      var before := Solvable(equations, lo, hi, env, k - 1);
      var e := DefinitionOf(equations, k - 1);
      assert IsDefinition(e, lo, hi);
      env' := Assign(before, k - 1, Value(e.args[1], before));
      SolvedNext(equations, lo, hi, before, k - 1, e, env');
    }
  }

  lemma SolvedNext(equations: seq<Exp>, lo: nat, hi: nat, before: Env, k: nat, e: Exp, env': Env)
    requires Definitions(equations, lo, hi) && lo <= k < hi && SolvedUpTo(before, equations, k)
    requires e in equations && IsDefinition(e, lo, hi) && e.args[0] == Variable(Internal(k))
    requires env' == Assign(before, k, Value(e.args[1], before))
    ensures SolvedUpTo(env', equations, k + 1)
  {
    assert SameBut(before, env', k, k + 1);
    forall d | d in equations && d.Node? && |d.args| == 2 && d.args[0].Variable? && d.args[0].symbol.Internal?
      && d.args[0].symbol.number < k + 1
      ensures env'(d.args[0].symbol) == Value(d.args[1], env')
    {
      assert IsDefinition(d, lo, hi);
      if d.args[0].symbol.number == k {
        var i :| 0 <= i < |equations| && equations[i] == d;
        var j :| 0 <= j < |equations| && equations[j] == e;
        assert i == j;
        ValueLocal(d.args[1], k, before, env', k + 1);
      } else {
        BelowMore(d.args[1], d.args[0].symbol.number, k);
        ValueLocal(d.args[1], k, before, env', k + 1);
      }
    }
  }

  lemma SolvedMeansSatisfied(equations: seq<Exp>, lo: nat, hi: nat, env: Env)
    requires Definitions(equations, lo, hi)
    ensures SolvedUpTo(env, equations, hi) <==> Satisfies(env, equations)
  {
    forall i | 0 <= i < |equations|
      ensures Value(equations[i], env) != 0.0 <==> env(equations[i].args[0].symbol) == Value(equations[i].args[1], env)
    {
      var d := equations[i];
      assert IsDefinition(d, lo, hi);
      assert Values(d.args, env) == [env(d.args[0].symbol), Value(d.args[1], env)];
    }
    if SolvedUpTo(env, equations, hi) {
      forall i | 0 <= i < |equations|
        ensures Value(equations[i], env) != 0.0
      {
        assert IsDefinition(equations[i], lo, hi) && equations[i] in equations;
      }
    }
    if Satisfies(env, equations) {
      forall d | d in equations
        ensures IsDefinition(d, lo, hi) && env(d.args[0].symbol) == Value(d.args[1], env)
      {
      }
    }
  }

  /** Two solutions that agree on the other variables agree on the made-up ones. */
  lemma {:induction false} SolutionUnique(equations: seq<Exp>, lo: nat, hi: nat, env: Env, env': Env, k: nat)
    requires Definitions(equations, lo, hi) && SameBut(env, env', lo, hi) && lo <= k <= hi
    requires SolvedUpTo(env, equations, hi) && SolvedUpTo(env', equations, hi)
    ensures SameBut(env, env', k, hi)
    decreases k
  {
    if k > lo {
      SolutionUnique(equations, lo, hi, env, env', k - 1);
      var e := DefinitionOf(equations, k - 1);
      assert IsDefinition(e, lo, hi);
      ValueLocal(e.args[1], k - 1, env, env', hi);
      forall s: Symbol | s.Internal? ==> s.number < k || s.number >= hi
        ensures env(s) == env'(s)
      {
        if s == Internal(k - 1) {
          assert env(s) == Value(e.args[1], env) && env'(s) == Value(e.args[1], env');
        }
      }
    }
  }

  /** Flattening extends a problem conservatively: for every assignment there are values for the
      made-up variables, and only one choice of them, that satisfy all support equations; and
      with them the new expression has the value of the old. */
  lemma FlatteningConservative(e: Exp, indicator: bool, k: nat, env: Env) returns (env': Env)
    requires Below(e, k)
    ensures var f := FlattenExp(e, indicator, k);
      && SameBut(env, env', k, f.counter) && Satisfies(env', f.support)
      && Value(f.exp, env') == Value(e, env)
      && forall other :: SameBut(env, other, k, f.counter) && Satisfies(other, f.support) ==> SameBut(env', other, 0, 0)
  {
    var f := FlattenExp(e, indicator, k);
    FlattenDefines(e, indicator, k);
    env' := Solvable(f.support, k, f.counter, env, f.counter);
    SolvedMeansSatisfied(f.support, k, f.counter, env');
    FlattenMeans(e, indicator, k, env');
    ValueLocal(e, k, env, env', f.counter);
    forall other | SameBut(env, other, k, f.counter) && Satisfies(other, f.support)
      ensures SameBut(env', other, 0, 0)
    {
      SolvedMeansSatisfied(f.support, k, f.counter, other);
      SolutionUnique(f.support, k, f.counter, env', other, f.counter);
    }
  }

  // ----- flattening as the program does it

  lemma {:induction false} FlattenArgsMore(args: seq<Exp>, e: Exp, indicator: bool, k: nat)
    ensures var fs := FlattenArgs(args, indicator, k);
      var f := FlattenExp(e, indicator, fs.counter);
      FlattenArgs(args + [e], indicator, k) == Flats(fs.exps + [f.exp], fs.support + f.support, f.counter)
    decreases |args|
  {
    var fs := FlattenArgs(args, indicator, k);
    var f := FlattenExp(e, indicator, fs.counter);
    hide FlattenExp;
    if args == [] {
      assert [] + [e] == [e] && [e][1..] == [];
      assert f.support + [] == f.support && [] + f.support == f.support && [f.exp] + [] == [f.exp];
    } else {
      assert (args + [e])[1..] == args[1..] + [e] && (args + [e])[0] == args[0];
      var first := FlattenExp(args[0], indicator, k);
      FlattenArgsMore(args[1..], e, indicator, first.counter);
      var rest := FlattenArgs(args[1..], indicator, first.counter);
      assert first.support + rest.support + f.support == first.support + (rest.support + f.support);
      assert [first.exp] + rest.exps + [f.exp] == [first.exp] + (rest.exps + [f.exp]);
    }
  }

  class LpLang {
    var freshVarCounter: nat

    constructor ()
      ensures freshVarCounter == 0
    {
      freshVarCounter := 0;
    }

    method FreshVar() returns (v: Exp)
      modifies this
      ensures v == Variable(Internal(old(freshVarCounter))) && freshVarCounter == old(freshVarCounter) + 1
    {
      v := Variable(Internal(freshVarCounter));
      freshVarCounter := freshVarCounter + 1;
    }

    /** A new variable, and the equation that defines it. */
    method CreateIntermediate(e: Exp) returns (v: Exp, support: seq<Exp>)
      modifies this
      ensures v == Variable(Internal(old(freshVarCounter))) && support == [Define(old(freshVarCounter), e)]
      ensures freshVarCounter == old(freshVarCounter) + 1
    {
      v := FreshVar();
      support := [Node(Eq, [v, e])];
    }

    /** Replace embedded operators by new variables, and return the equations that define them. */
    method Flatten(e: Exp, indicator: bool) returns (flat: Exp, support: seq<Exp>)
      modifies this
      ensures FlattenExp(e, indicator, old(freshVarCounter)) == Flat(flat, support, freshVarCounter)
      decreases e
    {
      if !e.Node? {
        return e, [];
      }
      ghost var k := freshVarCounter;
      var newArgs: seq<Exp>, extras: seq<Exp> := [], [];
      var newIndicator := !(e.operator.Eq? || e.operator.NotEq?);
      for i := 0 to |e.args|
        invariant FlattenArgs(e.args[..i], newIndicator, k) == Flats(newArgs, extras, freshVarCounter)
      {
        FlattenArgsMore(e.args[..i], e.args[i], newIndicator, k);
        assert e.args[..i + 1] == e.args[..i] + [e.args[i]];
        var newE, extra := Flatten(e.args[i], newIndicator);
        newArgs := newArgs + [newE];
        extras := extras + extra;
      }
      assert e.args[..|e.args|] == e.args;
      var newExp := Rebuild(e.operator, newArgs);
      if indicator {
        var indic, extra := CreateIntermediate(newExp);
        return indic, extra + extras;
      }
      return newExp, extras;
    }

    /** Flatten, and lower each flat expression to linear constraints. */
    method PureLp(e: Exp, bounds: map<Symbol, real>) returns (r: Option<seq<Exp>>)
      modifies this
      ensures var f := FlattenExp(e, false, old(freshVarCounter));
        r == LowerAll(f.support + [f.exp], bounds) && freshVarCounter == f.counter
      ensures r.Some? ==> Rewrites(r.value, e, bounds) && forall c :: c in r.value ==> Pure(c)
    {
      var flat, support := Flatten(e, false);
      var flats := support + [flat];
      var result: seq<Exp> := [];
      for i := 0 to |flats|
        invariant LowerAll(flats[..i], bounds) == Some(result)
      {
        assert flats[..i + 1][..i] == flats[..i];
        var pure := IndicatorToPureLp(RemoveAndOr(flats[i]), bounds);
        if pure.None? {
          LowerAllFails(flats, bounds, i);
          return None;
        }
        result := result + pure.value;
      }
      assert flats[..|flats|] == flats;
      LoweringRewrites(e, old(freshVarCounter), bounds);
      return Some(result);
    }
  }

  // ----- and and or as arithmetic

  /** The outermost ands become products and the outermost ors sums. */
  function RemoveAndOr(e: Exp): Exp {
    match e
    case Node(operator, args) =>
      if operator.And? then Node(Arith(Times), args)
      else if operator.Or? then Node(Arith(Plus), args)
      else Node(operator, RemoveAndOrs(args))
    case _ => e
  }

  function RemoveAndOrs(es: seq<Exp>): (rs: seq<Exp>)
    ensures |rs| == |es| && forall i :: 0 <= i < |es| ==> rs[i] == RemoveAndOr(es[i])
  {
    if es == [] then [] else [RemoveAndOr(es[0])] + RemoveAndOrs(es[1..])
  }

  predicate Binaries(vs: seq<real>) {
    forall i :: 0 <= i < |vs| ==> vs[i] == 0.0 || vs[i] == 1.0
  }

  function Ones(vs: seq<real>): nat {
    if vs == [] then 0 else (if vs[0] != 0.0 then 1 else 0) + Ones(vs[1..])
  }

  lemma {:induction false} OnesCount(vs: seq<real>)
    requires Binaries(vs)
    ensures Sum(vs) == Ones(vs) as real && Product(vs) == Truth(Ones(vs) == |vs|) && Ones(vs) <= |vs|
    ensures Ones(vs) == |vs| <==> forall i :: 0 <= i < |vs| ==> vs[i] != 0.0
    ensures Ones(vs) > 0 <==> exists i :: 0 <= i < |vs| && vs[i] != 0.0
    decreases |vs|
  {
    if vs != [] {
      OnesCount(vs[1..]);
      assert forall i :: 0 < i < |vs| ==> vs[i] == vs[1..][i - 1];
      if Ones(vs) > 0 && vs[0] == 0.0 {
        var i :| 0 <= i < |vs[1..]| && vs[1..][i] != 0.0;
        assert vs[i + 1] != 0.0;
      }
    }
  }

  /** Over 0/1 values a product is an and; a sum is an or iff at most one of the values is 1. */
  lemma AndOrAsArithmetic(vs: seq<real>)
    requires Binaries(vs)
    ensures Meaning(And, vs) == Meaning(Arith(Times), vs)
    ensures Meaning(Or, vs) == Meaning(Arith(Plus), vs) <==> Ones(vs) <= 1
    ensures Meaning(Or, vs) != 0.0 <==> Meaning(Arith(Plus), vs) != 0.0
  {
    OnesCount(vs);
    if |vs| == 1 {
      assert vs == [vs[0]] && vs[1..] == [];
    }
  }

  /** The outermost ands and ors have 0/1 arguments, an or no two of them 1. */
  ghost predicate Exclusive(e: Exp, env: Env) {
    match e
    case Node(operator, args) =>
      if operator.And? || operator.Or? then
        Binaries(Values(args, env)) && (operator.Or? ==> Ones(Values(args, env)) <= 1)
      else forall i :: 0 <= i < |args| ==> Exclusive(args[i], env)
    case _ => true
  }

  lemma {:induction false} RemoveAndOrMeans(e: Exp, env: Env)
    requires Exclusive(e, env)
    ensures Value(RemoveAndOr(e), env) == Value(e, env)
    decreases e
  {
    if e.Node? {
      if e.operator.And? || e.operator.Or? {
        AndOrAsArithmetic(Values(e.args, env));
      } else {
        forall i | 0 <= i < |e.args|
          ensures Value(RemoveAndOr(e.args[i]), env) == Value(e.args[i], env)
        {
          RemoveAndOrMeans(e.args[i], env);
        }
        assert Values(RemoveAndOrs(e.args), env) == Values(e.args, env);
      }
    }
  }

  // ----- indicator variables

  const MIN_THRESHOLD := 0.00001

  /** The Python code raises an exception where this has no value. */
  function Binary(op: ArithOp, a: Exp, b: Exp): Exp {
    Node(Arith(op), [a, b])
  }

  /** A comparison as one of the form x < 0: here, the x. */
  function ToLtZero(op: ArithOp, lhs: Exp, rhs: Exp): Option<Exp> {
    match op
    case Lt => Some(Binary(Minus, lhs, rhs))
    case LtEq => Some(Binary(Minus, Binary(Minus, lhs, rhs), Constant(MIN_THRESHOLD)))
    case Gt => Some(Binary(Minus, rhs, lhs))
    case GtEq => Some(Binary(Minus, Binary(Minus, rhs, lhs), Constant(MIN_THRESHOLD)))
    case _ => None
  }

  function UpperBound(e: Exp, bounds: map<Symbol, real>): Option<real> {
    match e
    case Constant(v) => Some(v)
    case Variable(s) => if s in bounds then Some(bounds[s]) else None
    case Node(operator, args) =>
      if !operator.Arith? then None
      else
        match operator.op
        case Times =>
          var us := UpperBounds(args, bounds);
          if us.Some? then Some(Product(us.value)) else None
        case Plus =>
          var us := UpperBounds(args, bounds);
          if us.Some? then Some(Sum(us.value)) else None
        case Minus => if args == [] then None else UpperBound(args[0], bounds)
        case _ => None
  }

  function UpperBounds(es: seq<Exp>, bounds: map<Symbol, real>): (us: Option<seq<real>>)
    ensures us.Some? ==>
      |us.value| == |es| && forall i :: 0 <= i < |es| ==> UpperBound(es[i], bounds) == Some(us.value[i])
  {
    if es == [] then Some([])
    else
      var u := UpperBound(es[0], bounds);
      var us := UpperBounds(es[1..], bounds);
      if u.Some? && us.Some? then Some([u.value] + us.value) else None
  }

  predicate IsBoolArith(e: Exp) {
    e.Node? && e.operator.Arith? && IsComparison(e.operator.op) && |e.args| == 2
  }

  predicate IsArith(e: Exp) {
    e.Node? && e.operator.Arith?
  }

  /** The variable and the comparison of an equation that defines an indicator, if it is one. */
  function Indicator(e: Exp): Option<(Exp, Exp)> {
    if !(e.Node? && e.operator.Eq? && |e.args| == 2) then None
    else
      var lhs, rhs := e.args[0], e.args[1];
      var pair := if lhs.Variable? && IsArith(rhs) then Some((lhs, rhs))
        else if rhs.Variable? && IsArith(lhs) then Some((rhs, lhs)) else None;
      if pair.Some? && IsBoolArith(pair.value.1) then pair else None
  }

  /** The two constraints for y = (x < 0), where u is above x. */
  function Constraints(y: Exp, x: Exp, u: real): seq<Exp> {
    [Binary(LtEq, Binary(Times, Constant(-1.0), x), Binary(Times, y, Constant(u))),
     Binary(Lt, x, Binary(Times, Binary(Minus, Constant(1.0), y), Constant(u)))]
  }

  function IndicatorToPureLp(e: Exp, bounds: map<Symbol, real>): Option<seq<Exp>> {
    var indicator := Indicator(e);
    if indicator.None? then Some([e])
    else
      var (y, arith) := indicator.value;
      var x := ToLtZero(arith.operator.op, arith.args[0], arith.args[1]);
      if x.None? then None
      else
        var u := UpperBound(x.value, bounds);
        if u.None? then None else Some(Constraints(y, x.value, u.value + 1.0))
  }

  function Mul(a: real, b: real): real {
    a * b
  }

  lemma ConstraintsMean(y: Exp, x: Exp, u: real, env: Env)
    ensures Satisfies(env, Constraints(y, x, u)) <==>
      Mul(-1.0, Value(x, env)) <= Mul(Value(y, env), u) && Value(x, env) < Mul(1.0 - Value(y, env), u)
  {
    hide *;
    var less, room := Binary(Times, Constant(-1.0), x), Binary(Times, y, Constant(u));
    var rest := Binary(Minus, Constant(1.0), y);
    var space := Binary(Times, rest, Constant(u));
    BinaryMeans(Times, Constant(-1.0), x, env);
    BinaryMeans(Times, y, Constant(u), env);
    BinaryMeans(Minus, Constant(1.0), y, env);
    BinaryMeans(Times, rest, Constant(u), env);
    BinaryMeans(LtEq, less, room, env);
    BinaryMeans(Lt, x, space, env);
    ConstantMeans(-1.0, env);
    ConstantMeans(1.0, env);
    ConstantMeans(u, env);
    TwoSatisfied(env, Binary(LtEq, less, room), Binary(Lt, x, space));
    assert Constraints(y, x, u) == [Binary(LtEq, less, room), Binary(Lt, x, space)] by {
      ConstraintsAre(y, x, u);
    }
  }

  lemma ConstraintsAre(y: Exp, x: Exp, u: real)
    ensures Constraints(y, x, u) ==
      [Binary(LtEq, Binary(Times, Constant(-1.0), x), Binary(Times, y, Constant(u))),
       Binary(Lt, x, Binary(Times, Binary(Minus, Constant(1.0), y), Constant(u)))]
  {
  }

  lemma ConstantMeans(v: real, env: Env)
    ensures Value(Constant(v), env) == v
  {
  }

  lemma TwoSatisfied(env: Env, c1: Exp, c2: Exp)
    ensures Satisfies(env, [c1, c2]) <==> Value(c1, env) != 0.0 && Value(c2, env) != 0.0
  {
    assert [c1, c2][0] == c1 && [c1, c2][1] == c2;
  }

  lemma BinaryMeans(op: ArithOp, a: Exp, b: Exp, env: Env)
    ensures op.Times? ==> Value(Binary(op, a, b), env) == Mul(Value(a, env), Value(b, env))
    ensures op.Minus? ==> Value(Binary(op, a, b), env) == Value(a, env) - Value(b, env)
    ensures op.Lt? ==> (Value(Binary(op, a, b), env) != 0.0 <==> Value(a, env) < Value(b, env))
    ensures op.LtEq? ==> (Value(Binary(op, a, b), env) != 0.0 <==> Value(a, env) <= Value(b, env))
  {
    assert Values([a, b], env) == [Value(a, env), Value(b, env)];
    assert [Value(a, env), Value(b, env)][1..] == [Value(b, env)];
    assert Product([Value(b, env)]) == Value(b, env);
  }

  /** Whatever the bound, the constraints force a 0/1 variable to say whether x is below 0. */
  lemma ConstraintsForce(y: Exp, x: Exp, u: real, env: Env)
    requires Value(y, env) == 0.0 || Value(y, env) == 1.0
    requires Satisfies(env, Constraints(y, x, u))
    ensures Value(y, env) == 1.0 <==> Value(x, env) < 0.0
  {
    hide *;
    ConstraintsMean(y, x, u, env);
    Products(Value(x, env), u);
  }

  /** The right value satisfies the constraints iff the bound holds on the side that matters. */
  lemma ConstraintsAllow(y: Exp, x: Exp, u: real, env: Env)
    requires Value(y, env) == Truth(Value(x, env) < 0.0)
    ensures Satisfies(env, Constraints(y, x, u)) <==>
      if Value(x, env) < 0.0 then -Value(x, env) <= u else Value(x, env) < u
  {
    hide *;
    ConstraintsMean(y, x, u, env);
    TruthIs(Value(x, env) < 0.0);
    Products(Value(x, env), u);
  }

  lemma TruthIs(b: bool)
    ensures Truth(b) == if b then 1.0 else 0.0
  {
  }

  lemma Products(v: real, u: real)
    ensures Mul(-1.0, v) == -v && Mul(0.0, u) == 0.0 && Mul(1.0, u) == u && Mul(1.0 - 1.0, u) == 0.0
      && Mul(1.0 - 0.0, u) == u
  {
  }

  /** How far the left side of a comparison is above the right, the way it points. */
  function Excess(op: ArithOp, l: real, r: real): real {
    if op.Gt? || op.GtEq? then r - l else l - r
  }

  /** x < 0 says what the comparison says, except where a comparison that allows equality is
      missed by less than the threshold. */
  lemma LtZeroExactly(op: ArithOp, lhs: Exp, rhs: Exp, env: Env)
    requires ToLtZero(op, lhs, rhs).Some?
    ensures var d := Excess(op, Value(lhs, env), Value(rhs, env));
      (Value(ToLtZero(op, lhs, rhs).value, env) < 0.0 <==> Compare(op, Value(lhs, env), Value(rhs, env)))
      <==> !((op.LtEq? || op.GtEq?) && 0.0 < d < MIN_THRESHOLD)
  {
    BinaryMeans(Minus, lhs, rhs, env);
    BinaryMeans(Minus, rhs, lhs, env);
    BinaryMeans(Minus, Binary(Minus, lhs, rhs), Constant(MIN_THRESHOLD), env);
    BinaryMeans(Minus, Binary(Minus, rhs, lhs), Constant(MIN_THRESHOLD), env);
  }

  ghost predicate IsInteger(v: real) {
    v == v.Floor as real
  }

  lemma WholeGap(v: real, w: real)
    requires IsInteger(v) && IsInteger(w)
    ensures !(0.0 < v - w < MIN_THRESHOLD)
  {
    assert v - w == (v.Floor - w.Floor) as real;
  }

  /** Between whole numbers nothing is missed. */
  lemma LtZeroInteger(op: ArithOp, lhs: Exp, rhs: Exp, env: Env)
    requires ToLtZero(op, lhs, rhs).Some? && IsInteger(Value(lhs, env)) && IsInteger(Value(rhs, env))
    ensures Value(ToLtZero(op, lhs, rhs).value, env) < 0.0 <==> Compare(op, Value(lhs, env), Value(rhs, env))
  {
    hide Value, IsInteger, ToLtZero, Compare;
    LtZeroExactly(op, lhs, rhs, env);
    WholeGap(Value(lhs, env), Value(rhs, env));
    WholeGap(Value(rhs, env), Value(lhs, env));
  }

  // ----- the bound

  /** Sums of products of variables and constants that are not negative and keep their bounds. */
  predicate SumOfProducts(e: Exp, env: Env, bounds: map<Symbol, real>) {
    match e
    case Constant(v) => v >= 0.0
    case Variable(s) => s in bounds && 0.0 <= env(s) <= bounds[s]
    case Node(operator, args) =>
      && operator.Arith? && (operator.op.Plus? || operator.op.Times?)
      && forall i :: 0 <= i < |args| ==> SumOfProducts(args[i], env, bounds)
  }

  lemma {:induction false} SumMonotone(vs: seq<real>, us: seq<real>)
    requires |vs| == |us| && forall i :: 0 <= i < |vs| ==> 0.0 <= vs[i] <= us[i]
    ensures 0.0 <= Sum(vs) <= Sum(us)
    decreases |vs|
  {
    if vs != [] {
      SumMonotone(vs[1..], us[1..]);
    }
  }

  lemma ProductStep(a: real, b: real, p: real, q: real)
    requires 0.0 <= a <= b && 0.0 <= p <= q
    ensures 0.0 <= a * p <= b * q
  {
    assert a * p <= a * q by {
      assert a * (q - p) >= 0.0;
    }
    assert (b - a) * q >= 0.0;
  }

  lemma {:induction false} ProductMonotone(vs: seq<real>, us: seq<real>)
    requires |vs| == |us| && forall i :: 0 <= i < |vs| ==> 0.0 <= vs[i] <= us[i]
    ensures 0.0 <= Product(vs) <= Product(us)
    decreases |vs|
  {
    if vs != [] {
      ProductMonotone(vs[1..], us[1..]);
      ProductStep(vs[0], us[0], Product(vs[1..]), Product(us[1..]));
    }
  }

  lemma {:induction false} BoundsExist(es: seq<Exp>, bounds: map<Symbol, real>)
    requires forall i :: 0 <= i < |es| ==> UpperBound(es[i], bounds).Some?
    ensures UpperBounds(es, bounds).Some?
    decreases |es|
  {
    if es != [] {
      assert UpperBound(es[0], bounds).Some?;
      BoundsExist(es[1..], bounds);
    }
  }

  /** The bound computed is a bound. */
  lemma {:induction false} UpperBoundHolds(e: Exp, env: Env, bounds: map<Symbol, real>)
    requires SumOfProducts(e, env, bounds)
    ensures UpperBound(e, bounds).Some? && 0.0 <= Value(e, env) <= UpperBound(e, bounds).value
    decreases e
  {
    if e.Node? {
      var vs := Values(e.args, env);
      forall i | 0 <= i < |e.args|
        ensures UpperBound(e.args[i], bounds).Some? && 0.0 <= vs[i] <= UpperBound(e.args[i], bounds).value
      {
        UpperBoundHolds(e.args[i], env, bounds);
      }
      BoundsExist(e.args, bounds);
      var us := UpperBounds(e.args, bounds).value;
      SumMonotone(vs, us);
      ProductMonotone(vs, us);
    }
  }

  /** For sides that are sums of products the x of a comparison stays below the bound used. */
  lemma BoundAboveX(op: ArithOp, lhs: Exp, rhs: Exp, env: Env, bounds: map<Symbol, real>)
    requires ToLtZero(op, lhs, rhs).Some? && SumOfProducts(lhs, env, bounds) && SumOfProducts(rhs, env, bounds)
    ensures var x := ToLtZero(op, lhs, rhs).value;
      UpperBound(x, bounds).Some? && Value(x, env) < UpperBound(x, bounds).value + 1.0
  {
    UpperBoundHolds(lhs, env, bounds);
    UpperBoundHolds(rhs, env, bounds);
    BinaryMeans(Minus, lhs, rhs, env);
    BinaryMeans(Minus, rhs, lhs, env);
    BinaryMeans(Minus, Binary(Minus, lhs, rhs), Constant(MIN_THRESHOLD), env);
    BinaryMeans(Minus, Binary(Minus, rhs, lhs), Constant(MIN_THRESHOLD), env);
  }

  // ----- the lowering of an indicator

  /** Assignments to the variables of the lowered constraints make the indicator say what the
      comparison says, if the sides are whole numbers or equality is not allowed. */
  lemma IndicatorForced(e: Exp, bounds: map<Symbol, real>, env: Env)
    requires Indicator(e).Some? && IndicatorToPureLp(e, bounds).Some?
    requires var (y, arith) := Indicator(e).value;
      && (Value(y, env) == 0.0 || Value(y, env) == 1.0)
      && (arith.operator.op.Lt? || arith.operator.op.Gt?
        || (IsInteger(Value(arith.args[0], env)) && IsInteger(Value(arith.args[1], env))))
    requires Satisfies(env, IndicatorToPureLp(e, bounds).value)
    ensures Value(e, env) != 0.0
  {
    hide Value, UpperBound, Satisfies, Constraints, IsInteger, ToLtZero;
    var (y, arith) := Indicator(e).value;
    var op, lhs, rhs := arith.operator.op, arith.args[0], arith.args[1];
    var x := ToLtZero(op, lhs, rhs).value;
    ConstraintsForce(y, x, UpperBound(x, bounds).value + 1.0, env);
    if op.Lt? || op.Gt? {
      LtZeroExactly(op, lhs, rhs, env);
    } else {
      LtZeroInteger(op, lhs, rhs, env);
    }
    IndicatorMeans(e, env);
  }

  /** The equation says that the variable is 1 if the comparison holds and 0 if not. */
  lemma IndicatorMeans(e: Exp, env: Env)
    requires Indicator(e).Some?
    ensures var (y, arith) := Indicator(e).value;
      Value(e, env) != 0.0 <==>
      Value(y, env) == Truth(Compare(arith.operator.op, Value(arith.args[0], env), Value(arith.args[1], env)))
  {
    var (y, arith) := Indicator(e).value;
    assert Values(e.args, env) == [Value(e.args[0], env), Value(e.args[1], env)];
    assert Values(arith.args, env) == [Value(arith.args[0], env), Value(arith.args[1], env)];
  }

  /** The other way: for whole sums of products within their bounds, an assignment that satisfies
      the equation satisfies the constraints iff minus x is at most the bound where the comparison
      holds. */
  lemma IndicatorAllowed(e: Exp, bounds: map<Symbol, real>, env: Env)
    requires Indicator(e).Some? && IndicatorToPureLp(e, bounds).Some? && Value(e, env) != 0.0
    requires var (_, arith) := Indicator(e).value;
      && SumOfProducts(arith.args[0], env, bounds) && SumOfProducts(arith.args[1], env, bounds)
      && (arith.operator.op.Lt? || arith.operator.op.Gt?
        || (IsInteger(Value(arith.args[0], env)) && IsInteger(Value(arith.args[1], env))))
    ensures var (_, arith) := Indicator(e).value;
      var x := ToLtZero(arith.operator.op, arith.args[0], arith.args[1]).value;
      Satisfies(env, IndicatorToPureLp(e, bounds).value) <==>
      (Value(x, env) < 0.0 ==> -Value(x, env) <= UpperBound(x, bounds).value + 1.0)
  {
    hide Value, UpperBound, Satisfies, Constraints, IsInteger, ToLtZero, SumOfProducts;
    var (y, arith) := Indicator(e).value;
    var op, lhs, rhs := arith.operator.op, arith.args[0], arith.args[1];
    var x := ToLtZero(op, lhs, rhs).value;
    IndicatorMeans(e, env);
    if op.Lt? || op.Gt? {
      LtZeroExactly(op, lhs, rhs, env);
    } else {
      LtZeroInteger(op, lhs, rhs, env);
    }
    BoundAboveX(op, lhs, rhs, env, bounds);
    ConstraintsAllow(y, x, UpperBound(x, bounds).value + 1.0, env);
  }

  // ----- when the bounds are good enough

  /** The side of a comparison that is to be below the other. */
  function Lower(op: ArithOp, lhs: Exp, rhs: Exp): Exp {
    if op.Gt? || op.GtEq? then rhs else lhs
  }

  function Upper(op: ArithOp, lhs: Exp, rhs: Exp): Exp {
    if op.Gt? || op.GtEq? then lhs else rhs
  }

  function Slack(op: ArithOp): real {
    if op.LtEq? || op.GtEq? then MIN_THRESHOLD else 0.0
  }

  lemma LtZeroValue(op: ArithOp, lhs: Exp, rhs: Exp, env: Env, bounds: map<Symbol, real>)
    requires ToLtZero(op, lhs, rhs).Some?
    ensures var x := ToLtZero(op, lhs, rhs).value;
      && Value(x, env) == Value(Lower(op, lhs, rhs), env) - Value(Upper(op, lhs, rhs), env) - Slack(op)
      && UpperBound(x, bounds) == UpperBound(Lower(op, lhs, rhs), bounds)
  {
    BinaryMeans(Minus, lhs, rhs, env);
    BinaryMeans(Minus, rhs, lhs, env);
    BinaryMeans(Minus, Binary(Minus, lhs, rhs), Constant(MIN_THRESHOLD), env);
    BinaryMeans(Minus, Binary(Minus, rhs, lhs), Constant(MIN_THRESHOLD), env);
  }

  predicate Mentions(e: Exp, s: Symbol) {
    match e
    case Constant(_) => false
    case Variable(t) => s == t
    case Node(_, args) => exists i :: 0 <= i < |args| && Mentions(args[i], s)
  }

  /** A sum of products, none of whose constants and bounds are negative. */
  predicate Bounded(e: Exp, bounds: map<Symbol, real>) {
    match e
    case Constant(v) => v >= 0.0
    case Variable(s) => s in bounds && bounds[s] >= 0.0
    case Node(operator, args) =>
      && operator.Arith? && (operator.op.Plus? || operator.op.Times?)
      && forall i :: 0 <= i < |args| ==> Bounded(args[i], bounds)
  }

  /** All variables at 0. */
  function Zeros(): Env {
    s => 0.0
  }

  lemma {:induction false} KeepsBounds(e: Exp, env: Env, bounds: map<Symbol, real>)
    requires Bounded(e, bounds) && forall s :: Mentions(e, s) && s in bounds ==> 0.0 <= env(s) <= bounds[s]
    ensures SumOfProducts(e, env, bounds)
    decreases e
  {
    if e.Node? {
      forall i | 0 <= i < |e.args|
        ensures SumOfProducts(e.args[i], env, bounds)
      {
        forall s | Mentions(e.args[i], s)
          ensures Mentions(e, s)
        {
        }
        KeepsBounds(e.args[i], env, bounds);
      }
    }
  }

  lemma {:induction false} SameMentioned(e: Exp, env: Env, env': Env)
    requires forall s :: Mentions(e, s) ==> env(s) == env'(s)
    ensures Value(e, env) == Value(e, env')
    decreases e
  {
    if e.Node? {
      forall i | 0 <= i < |e.args|
        ensures Value(e.args[i], env) == Value(e.args[i], env')
      {
        forall s | Mentions(e.args[i], s)
          ensures Mentions(e, s)
        {
        }
        SameMentioned(e.args[i], env, env');
      }
      assert Values(e.args, env) == Values(e.args, env');
    }
  }

  /** With all variables at their bounds the bound computed is the value. */
  lemma {:induction false} BoundIsMet(e: Exp, env: Env, bounds: map<Symbol, real>)
    requires Bounded(e, bounds) && forall s :: Mentions(e, s) && s in bounds ==> env(s) == bounds[s]
    ensures UpperBound(e, bounds) == Some(Value(e, env))
    decreases e
  {
    if e.Node? {
      forall i | 0 <= i < |e.args|
        ensures UpperBound(e.args[i], bounds) == Some(Value(e.args[i], env))
      {
        forall s | Mentions(e.args[i], s)
          ensures Mentions(e, s)
        {
        }
        BoundIsMet(e.args[i], env, bounds);
      }
      BoundsExist(e.args, bounds);
      assert UpperBounds(e.args, bounds).value == Values(e.args, env);
    }
  }

  /** No variable can be lower than 0, so no sum of products is lower than there. */
  lemma {:induction false} LeastAtZeros(e: Exp, env: Env, bounds: map<Symbol, real>)
    requires SumOfProducts(e, env, bounds)
    ensures 0.0 <= Value(e, Zeros()) <= Value(e, env)
    decreases e
  {
    if e.Node? {
      var vs, us := Values(e.args, Zeros()), Values(e.args, env);
      forall i | 0 <= i < |e.args|
        ensures 0.0 <= vs[i] <= us[i]
      {
        LeastAtZeros(e.args[i], env, bounds);
      }
      SumMonotone(vs, us);
      ProductMonotone(vs, us);
    }
  }

  /** Whole constants and bounds. */
  predicate Whole(e: Exp, bounds: map<Symbol, real>) {
    match e
    case Constant(v) => v == v.Floor as real
    case Variable(s) => s in bounds && bounds[s] == bounds[s].Floor as real
    case Node(_, args) => forall i :: 0 <= i < |args| ==> Whole(args[i], bounds)
  }

  lemma IntegerProduct(a: real, b: real, p: real)
    requires IsInteger(a) && IsInteger(b) && p == a * b
    ensures IsInteger(p)
  {
    var i, j := a.Floor, b.Floor;
    assert a * b == i as real * j as real == (i * j) as real;
  }

  lemma {:induction false} IntegerTotals(vs: seq<real>)
    requires forall i :: 0 <= i < |vs| ==> IsInteger(vs[i])
    ensures IsInteger(Sum(vs)) && IsInteger(Product(vs))
    decreases |vs|
  {
    if vs != [] {
      IntegerTotals(vs[1..]);
      assert Sum(vs) == (vs[0].Floor + Sum(vs[1..]).Floor) as real;
      IntegerProduct(vs[0], Product(vs[1..]), Product(vs));
    }
  }

  lemma {:induction false} WholeValue(e: Exp, env: Env, bounds: map<Symbol, real>)
    requires Bounded(e, bounds) && Whole(e, bounds) && forall s :: Mentions(e, s) ==> IsInteger(env(s))
    ensures IsInteger(Value(e, env))
    decreases e
  {
    if e.Node? {
      forall i | 0 <= i < |e.args|
        ensures IsInteger(Value(e.args[i], env))
      {
        forall s | Mentions(e.args[i], s)
          ensures Mentions(e, s)
        {
        }
        WholeValue(e.args[i], env, bounds);
      }
      IntegerTotals(Values(e.args, env));
    }
  }

  /** The sides of a comparison can be told apart by their variables, and are whole where that
      matters. */
  ghost predicate Apart(y: Symbol, op: ArithOp, lhs: Exp, rhs: Exp, bounds: map<Symbol, real>) {
    && Bounded(lhs, bounds) && Bounded(rhs, bounds) && !Mentions(lhs, y) && !Mentions(rhs, y)
    && (forall s :: !(Mentions(lhs, s) && Mentions(rhs, s)))
    && (op.LtEq? || op.GtEq? ==> Whole(lhs, bounds) && Whole(rhs, bounds))
  }

  /** Both sides keep their bounds, and are whole where that matters. */
  ghost predicate Within(op: ArithOp, lhs: Exp, rhs: Exp, env: Env, bounds: map<Symbol, real>) {
    && SumOfProducts(lhs, env, bounds) && SumOfProducts(rhs, env, bounds)
    && (op.LtEq? || op.GtEq? ==> IsInteger(Value(lhs, env)) && IsInteger(Value(rhs, env)))
  }

  /** What can be checked before anything is assigned: the furthest that one side can be below the
      other is within the bound used. */
  ghost predicate BoundSuffices(op: ArithOp, lhs: Exp, rhs: Exp, bounds: map<Symbol, real>) {
    var lo, up := UpperBound(Lower(op, lhs, rhs), bounds), UpperBound(Upper(op, lhs, rhs), bounds);
    lo.Some? && up.Some? && up.value - Value(Lower(op, lhs, rhs), Zeros()) + Slack(op) <= lo.value + 1.0
  }

  /** Then no right assignment is ruled out. */
  lemma SufficientBoundAllows(e: Exp, bounds: map<Symbol, real>, env: Env)
    requires Indicator(e).Some? && IndicatorToPureLp(e, bounds).Some? && Value(e, env) != 0.0
    requires var (_, arith) := Indicator(e).value;
      Within(arith.operator.op, arith.args[0], arith.args[1], env, bounds)
        && BoundSuffices(arith.operator.op, arith.args[0], arith.args[1], bounds)
    ensures Satisfies(env, IndicatorToPureLp(e, bounds).value)
  {
    var (y, arith) := Indicator(e).value;
    var op, lhs, rhs := arith.operator.op, arith.args[0], arith.args[1];
    hide Value, UpperBound, Satisfies, Constraints, IsInteger, ToLtZero, SumOfProducts;
    IndicatorAllowed(e, bounds, env);
    LtZeroValue(op, lhs, rhs, env, bounds);
    LeastAtZeros(Lower(op, lhs, rhs), env, bounds);
    UpperBoundHolds(Upper(op, lhs, rhs), env, bounds);
  }

  /** The variables of one side at their bounds, those of the other at 0, and y as it should be. */
  function Furthest(y: Symbol, op: ArithOp, lhs: Exp, rhs: Exp, bounds: map<Symbol, real>, v: real): Env {
    s => if s == y then v else if Mentions(Upper(op, lhs, rhs), s) && s in bounds then bounds[s] else 0.0
  }

  lemma {:induction false} WholeBounds(e: Exp, bounds: map<Symbol, real>, s: Symbol)
    requires Whole(e, bounds) && Mentions(e, s)
    ensures s in bounds && IsInteger(bounds[s])
    decreases e
  {
    if e.Node? {
      var i :| 0 <= i < |e.args| && Mentions(e.args[i], s);
      WholeBounds(e.args[i], bounds, s);
    }
  }

  lemma {:induction false} BoundedBounds(e: Exp, bounds: map<Symbol, real>, s: Symbol)
    requires Bounded(e, bounds) && Mentions(e, s)
    ensures s in bounds && bounds[s] >= 0.0
    decreases e
  {
    if e.Node? {
      var i :| 0 <= i < |e.args| && Mentions(e.args[i], s);
      BoundedBounds(e.args[i], bounds, s);
    }
  }

  lemma FurthestWithin(y: Symbol, op: ArithOp, lhs: Exp, rhs: Exp, bounds: map<Symbol, real>, v: real)
    requires Apart(y, op, lhs, rhs, bounds)
    ensures var env := Furthest(y, op, lhs, rhs, bounds, v);
      && Within(op, lhs, rhs, env, bounds)
      && UpperBound(Upper(op, lhs, rhs), bounds) == Some(Value(Upper(op, lhs, rhs), env))
      && Value(Lower(op, lhs, rhs), env) == Value(Lower(op, lhs, rhs), Zeros())
  {
    var env := Furthest(y, op, lhs, rhs, bounds, v);
    var lo, up := Lower(op, lhs, rhs), Upper(op, lhs, rhs);
    hide Bounded, Whole, Mentions, SumOfProducts, UpperBound, IsInteger;
    forall s | Mentions(up, s)
      ensures s in bounds && bounds[s] >= 0.0 && env(s) == bounds[s]
    {
      BoundedBounds(up, bounds, s);
    }
    forall s | Mentions(lo, s)
      ensures s in bounds && bounds[s] >= 0.0 && env(s) == 0.0
    {
      BoundedBounds(lo, bounds, s);
    }
    KeepsBounds(up, env, bounds);
    KeepsBounds(lo, env, bounds);
    BoundIsMet(up, env, bounds);
    SameMentioned(lo, env, Zeros());
    if op.LtEq? || op.GtEq? {
      forall s | Mentions(up, s)
        ensures IsInteger(env(s))
      {
        WholeBounds(up, bounds, s);
      }
      ZeroIsInteger();
      WholeValue(up, env, bounds);
      WholeValue(lo, env, bounds);
    }
  }

  lemma ZeroIsInteger()
    ensures IsInteger(0.0)
  {
  }

  /** No right assignment is ruled out iff the bound suffices. */
  lemma BoundsDecide(e: Exp, bounds: map<Symbol, real>)
    requires Indicator(e).Some? && IndicatorToPureLp(e, bounds).Some?
    requires var (y, arith) := Indicator(e).value;
      Apart(y.symbol, arith.operator.op, arith.args[0], arith.args[1], bounds)
    ensures var (_, arith) := Indicator(e).value;
      (forall env :: Within(arith.operator.op, arith.args[0], arith.args[1], env, bounds) && Value(e, env) != 0.0
        ==> Satisfies(env, IndicatorToPureLp(e, bounds).value))
      <==> BoundSuffices(arith.operator.op, arith.args[0], arith.args[1], bounds)
  {
    var (y, arith) := Indicator(e).value;
    var op, lhs, rhs := arith.operator.op, arith.args[0], arith.args[1];
    if BoundSuffices(op, lhs, rhs, bounds) {
      forall env | Within(op, lhs, rhs, env, bounds) && Value(e, env) != 0.0
        ensures Satisfies(env, IndicatorToPureLp(e, bounds).value)
      {
        SufficientBoundAllows(e, bounds, env);
      }
    } else {
      var env := TooFar(e, bounds);
    }
  }

  /** If it does not, the assignment that takes the sides furthest apart is ruled out. */
  lemma TooFar(e: Exp, bounds: map<Symbol, real>) returns (env: Env)
    requires Indicator(e).Some? && IndicatorToPureLp(e, bounds).Some?
    requires var (y, arith) := Indicator(e).value;
      Apart(y.symbol, arith.operator.op, arith.args[0], arith.args[1], bounds)
      && !BoundSuffices(arith.operator.op, arith.args[0], arith.args[1], bounds)
    ensures var (_, arith) := Indicator(e).value;
      Within(arith.operator.op, arith.args[0], arith.args[1], env, bounds)
    ensures Value(e, env) != 0.0 && !Satisfies(env, IndicatorToPureLp(e, bounds).value)
  {
    var (y, arith) := Indicator(e).value;
    var op, lhs, rhs := arith.operator.op, arith.args[0], arith.args[1];
    hide Value, UpperBound, Satisfies, Constraints, IsInteger, ToLtZero, SumOfProducts, Mentions, Bounded, Whole;
    env := Furthest(y.symbol, op, lhs, rhs, bounds, 1.0);
    FurthestWithin(y.symbol, op, lhs, rhs, bounds, 1.0);
    UpperBoundHolds(Lower(op, lhs, rhs), env, bounds);
    LtZeroValue(op, lhs, rhs, env, bounds);
    IndicatorMeans(e, env);
    VariableMeans(y, env);
    if op.Lt? || op.Gt? {
      LtZeroExactly(op, lhs, rhs, env);
    } else {
      LtZeroInteger(op, lhs, rhs, env);
    }
    IndicatorAllowed(e, bounds, env);
  }

  lemma VariableMeans(y: Exp, env: Env)
    requires y.Variable?
    ensures Value(y, env) == env(y.symbol)
  {
  }

  /** The bound can fail to suffice: with p at most 0 and q at most 5 the constraints for y = (p < q)
      rule out q = 5, though then y = 1 is right. */
  lemma BoundTooSmall(p: Name, q: Name, y: Name) returns (e: Exp, bounds: map<Symbol, real>, env: Env)
    requires p != q && p != y && q != y
    ensures Indicator(e).Some? && IndicatorToPureLp(e, bounds).Some?
    ensures Value(e, env) == 1.0 && bounds == map[Named(p) := 0.0, Named(q) := 5.0] && env(Named(p)) == 0.0
      && env(Named(q)) == 5.0
    ensures !Satisfies(env, IndicatorToPureLp(e, bounds).value)
  {
    var vp, vq, vy := Variable(Named(p)), Variable(Named(q)), Variable(Named(y));
    var less := Binary(Lt, vp, vq);
    e := Node(Eq, [vy, less]);
    bounds := map[Named(p) := 0.0, Named(q) := 5.0];
    env := s => if s == Named(q) then 5.0 else if s == Named(y) then 1.0 else 0.0;
    IndicatorMeans(e, env);
    assert Value(e, env) == 1.0;
    var x := Binary(Minus, vp, vq);
    BinaryMeans(Minus, vp, vq, env);
    assert UpperBound(x, bounds) == Some(0.0);
    ConstraintsAllow(vy, x, 1.0, env);
  }

  // ----- the whole lowering

  /** One flat expression. */
  function LowerFlat(flat: Exp, bounds: map<Symbol, real>): Option<seq<Exp>> {
    IndicatorToPureLp(RemoveAndOr(flat), bounds)
  }

  /** All of them, or None if one raises an exception. */
  function LowerAll(flats: seq<Exp>, bounds: map<Symbol, real>): Option<seq<Exp>> {
    if flats == [] then Some([])
    else
      var n := |flats| - 1;
      var init, last := LowerAll(flats[..n], bounds), LowerFlat(flats[n], bounds);
      if init.Some? && last.Some? then Some(init.value + last.value) else None
  }

  lemma {:induction false} LowerAllFails(flats: seq<Exp>, bounds: map<Symbol, real>, i: nat)
    requires i < |flats| && LowerFlat(flats[i], bounds).None?
    ensures LowerAll(flats, bounds).None?
    decreases |flats|
  {
    var n := |flats| - 1;
    if i < n {
      LowerAllFails(flats[..n], bounds, i);
    }
  }

  // ----- when an exception is raised

  /** A comparison that cannot be lowered: an equality, or one whose lower side is compound or a
      variable without a bound. */
  predicate Unbounded(e: Exp, bounds: map<Symbol, real>) {
    && IsBoolArith(e)
    && (e.operator.op.Equal?
      || var lower := Lower(e.operator.op, e.args[0], e.args[1]);
        lower.Node? || (lower.Variable? && lower.symbol !in bounds))
  }

  /** There is one below e, or e is one, at a place where a made-up variable stands for it. */
  predicate UnboundedWithin(e: Exp, indicator: bool, bounds: map<Symbol, real>) {
    e.Node? &&
      ((indicator && Unbounded(e, bounds))
      || exists i :: 0 <= i < |e.args| && UnboundedWithin(e.args[i], !(e.operator.Eq? || e.operator.NotEq?), bounds))
  }

  /** A variable, or what flattening turns into one. */
  predicate BecomesVariable(e: Exp) {
    e.Variable? || (e.Node? && (e.operator.And? || e.operator.Or?) && |e.args| == 1 && !e.args[0].Constant?)
  }

  /** The expression equates a variable with one. */
  predicate EquatesUnbounded(e: Exp, bounds: map<Symbol, real>) {
    && e.Node? && e.operator.Eq? && |e.args| == 2
    && ((BecomesVariable(e.args[0]) && Unbounded(e.args[1], bounds))
      || (BecomesVariable(e.args[1]) && Unbounded(e.args[0], bounds)))
  }

  predicate AnyFails(flats: seq<Exp>, bounds: map<Symbol, real>) {
    exists i :: 0 <= i < |flats| && LowerFlat(flats[i], bounds).None?
  }

  lemma {:induction false} LowerAllExactly(flats: seq<Exp>, bounds: map<Symbol, real>)
    ensures LowerAll(flats, bounds).None? <==> AnyFails(flats, bounds)
    decreases |flats|
  {
    hide LowerFlat;
    if flats != [] {
      var n := |flats| - 1;
      LowerAllExactly(flats[..n], bounds);
      if AnyFails(flats, bounds) {
        var i :| 0 <= i < |flats| && LowerFlat(flats[i], bounds).None?;
        LowerAllFails(flats, bounds, i);
      }
    }
  }

  lemma FailsParts(a: seq<Exp>, b: seq<Exp>, bounds: map<Symbol, real>)
    ensures AnyFails(a + b, bounds) <==> AnyFails(a, bounds) || AnyFails(b, bounds)
  {
    hide LowerFlat;
    if AnyFails(a, bounds) {
      var i :| 0 <= i < |a| && LowerFlat(a[i], bounds).None?;
      assert (a + b)[i] == a[i];
    }
    if AnyFails(b, bounds) {
      var i :| 0 <= i < |b| && LowerFlat(b[i], bounds).None?;
      assert (a + b)[|a| + i] == b[i];
    }
  }

  lemma FailsOne(flat: Exp, bounds: map<Symbol, real>)
    ensures AnyFails([flat], bounds) <==> LowerFlat(flat, bounds).None?
  {
    assert [flat][0] == flat;
  }

  /** What an argument becomes where a made-up variable has to stand for a compound one. */
  predicate Leaf(e: Exp, flat: Exp, k: nat) {
    if e.Node? then flat.Variable? && flat.symbol.Internal? && flat.symbol.number >= k else flat == e
  }

  lemma {:induction false} CounterRises(e: Exp, indicator: bool, k: nat)
    ensures FlattenExp(e, indicator, k).counter >= k
    decreases e, 0
  {
    if e.Node? {
      ArgsCounterRises(e.args, !(e.operator.Eq? || e.operator.NotEq?), k);
    }
  }

  lemma {:induction false} ArgsCounterRises(args: seq<Exp>, indicator: bool, k: nat)
    ensures FlattenArgs(args, indicator, k).counter >= k
    decreases args, 1
  {
    if args != [] {
      CounterRises(args[0], indicator, k);
      ArgsCounterRises(args[1..], indicator, FlattenExp(args[0], indicator, k).counter);
    }
  }

  lemma {:induction false} ArgsAreLeaves(args: seq<Exp>, k: nat)
    ensures var fs := FlattenArgs(args, true, k); forall i :: 0 <= i < |args| ==> Leaf(args[i], fs.exps[i], k)
    decreases |args|
  {
    if args != [] {
      var f := FlattenExp(args[0], true, k);
      CounterRises(args[0], true, k);
      assert Leaf(args[0], f.exp, k) by {
        if args[0].Node? {
          ArgsCounterRises(args[0].args, !(args[0].operator.Eq? || args[0].operator.NotEq?), k);
        }
      }
      ArgsAreLeaves(args[1..], f.counter);
      var rest := FlattenArgs(args[1..], true, f.counter);
      forall i | 0 < i < |args|
        ensures Leaf(args[i], rest.exps[i - 1], k)
      {
        assert Leaf(args[1..][i - 1], rest.exps[i - 1], f.counter);
      }
    }
  }

  /** The bounds say nothing of variables not made up yet. */
  predicate BoundsBelow(bounds: map<Symbol, real>, k: nat) {
    forall s :: s in bounds && s.Internal? ==> s.number < k
  }

  /** What a compound expression becomes when it is built anew. */
  function Built(e: Exp, k: nat): Exp
    requires e.Node?
  {
    Rebuild(e.operator, FlattenArgs(e.args, !(e.operator.Eq? || e.operator.NotEq?), k).exps)
  }

  function Equation(v: Exp, e: Exp, flipped: bool): Exp {
    Node(Eq, if flipped then [e, v] else [v, e])
  }

  lemma EquationStays(v: Exp, e: Exp, flipped: bool)
    requires v.Variable?
    ensures RemoveAndOr(Equation(v, e, flipped)) == Equation(v, RemoveAndOr(e), flipped)
  {
    var eq := Equation(v, e, flipped);
    assert RemoveAndOrs(eq.args) == Equation(v, RemoveAndOr(e), flipped).args;
  }

  lemma LeavesStay(es: seq<Exp>)
    requires forall i :: 0 <= i < |es| ==> !es[i].Node?
    ensures RemoveAndOrs(es) == es
  {
  }

  lemma EquationIndicates(v: Exp, e: Exp, flipped: bool)
    requires v.Variable?
    ensures Indicator(Equation(v, e, flipped)) == if IsBoolArith(e) then Some((v, e)) else None
  {
  }

  /** An equation of a variable with a comparison of leaves. */
  lemma ComparisonFails(v: Exp, e: Exp, k: nat, bounds: map<Symbol, real>, flipped: bool)
    requires v.Variable? && IsBoolArith(e) && BoundsBelow(bounds, k)
    ensures LowerFlat(Equation(v, Built(e, k), flipped), bounds).None? <==> Unbounded(e, bounds)
  {
    var op := e.operator.op;
    var fs := FlattenArgs(e.args, true, k).exps;
    hide Equation, RemoveAndOrs, Indicator, FlattenArgs, ToLtZero;
    ArgsAreLeaves(e.args, k);
    assert Leaf(e.args[0], fs[0], k) && Leaf(e.args[1], fs[1], k);
    LeavesStay(fs);
    EquationStays(v, Built(e, k), flipped);
    EquationIndicates(v, Built(e, k), flipped);
    LessThanExists(op, fs[0], fs[1]);
    if !op.Equal? {
      LtZeroValue(op, fs[0], fs[1], Zeros(), bounds);
    }
  }

  lemma LessThanExists(op: ArithOp, lhs: Exp, rhs: Exp)
    requires IsComparison(op)
    ensures ToLtZero(op, lhs, rhs).Some? <==> !op.Equal?
  {
  }

  /** Built anew, and without ands and ors, only a comparison is one. */
  lemma ComparisonStays(e: Exp, k: nat)
    requires e.Node?
    ensures IsBoolArith(RemoveAndOr(Built(e, k))) <==> IsBoolArith(e)
  {
    hide FlattenArgs, RemoveAndOrs;
    if (e.operator.And? || e.operator.Or?) && |e.args| == 1 {
      ArgsAreLeaves(e.args, k);
      assert Leaf(e.args[0], Built(e, k), k);
    }
  }

  /** Whatever else is equated with a variable is left alone. */
  lemma OthersPass(v: Exp, e: Exp, k: nat, bounds: map<Symbol, real>, flipped: bool)
    requires v.Variable? && e.Node? && !IsBoolArith(e)
    ensures LowerFlat(Equation(v, Built(e, k), flipped), bounds).Some?
  {
    hide Equation, Indicator, Built, IsBoolArith;
    ComparisonStays(e, k);
    EquationStays(v, Built(e, k), flipped);
    EquationIndicates(v, RemoveAndOr(Built(e, k)), flipped);
  }

  lemma {:induction false} SupportFails(e: Exp, indicator: bool, k: nat, bounds: map<Symbol, real>)
    requires BoundsBelow(bounds, k)
    ensures AnyFails(FlattenExp(e, indicator, k).support, bounds) <==> UnboundedWithin(e, indicator, bounds)
    decreases e, 0
  {
    hide LowerFlat, AnyFails, Unbounded;
    if e.Node? {
      var below := !(e.operator.Eq? || e.operator.NotEq?);
      var fs := FlattenArgs(e.args, below, k);
      ArgsSupportFails(e.args, below, k, bounds);
      if indicator {
        var d := Define(fs.counter, Built(e, k));
        assert d == Equation(Variable(Internal(fs.counter)), Built(e, k), false);
        FailsParts([d], fs.support, bounds);
        FailsOne(d, bounds);
        if IsBoolArith(e) {
          ComparisonFails(Variable(Internal(fs.counter)), e, k, bounds, false);
        } else {
          OthersPass(Variable(Internal(fs.counter)), e, k, bounds, false);
          NotComparison(e, bounds);
        }
      }
    } else {
      NoneFail(bounds);
    }
  }

  lemma NotComparison(e: Exp, bounds: map<Symbol, real>)
    requires !IsBoolArith(e)
    ensures !Unbounded(e, bounds)
  {
  }

  lemma NoneFail(bounds: map<Symbol, real>)
    ensures !AnyFails([], bounds)
  {
  }

  lemma {:induction false} ArgsSupportFails(args: seq<Exp>, indicator: bool, k: nat, bounds: map<Symbol, real>)
    requires BoundsBelow(bounds, k)
    ensures AnyFails(FlattenArgs(args, indicator, k).support, bounds)
      <==> exists i :: 0 <= i < |args| && UnboundedWithin(args[i], indicator, bounds)
    decreases args, 1
  {
    hide AnyFails, UnboundedWithin;
    if args != [] {
      var f := FlattenExp(args[0], indicator, k);
      var rest := FlattenArgs(args[1..], indicator, f.counter);
      CounterRises(args[0], indicator, k);
      SupportFails(args[0], indicator, k, bounds);
      ArgsSupportFails(args[1..], indicator, f.counter, bounds);
      FailsParts(f.support, rest.support, bounds);
      assert forall i :: 0 < i < |args| ==> args[i] == args[1..][i - 1];
    } else {
      NoneFail(bounds);
    }
  }

  /** What one side of an equation becomes. */
  lemma SideBecomes(e: Exp, k: nat)
    ensures var flat := FlattenExp(e, false, k).exp;
      && (flat.Variable? <==> BecomesVariable(e)) && (RemoveAndOr(flat).Variable? <==> flat.Variable?)
      && (IsBoolArith(RemoveAndOr(flat)) <==> IsBoolArith(e))
      && (e.Node? ==> flat == Built(e, k))
  {
    if e.Node? {
      ComparisonStays(e, k);
      if (e.operator.And? || e.operator.Or?) && |e.args| == 1 {
        ArgsAreLeaves(e.args, k);
        assert Leaf(e.args[0], Built(e, k), k);
      }
    }
  }

  lemma NoIndicator(e: Exp, bounds: map<Symbol, real>)
    requires e.Node? && e.operator.Eq? && |e.args| == 2
    requires var (l, r) := (RemoveAndOr(e.args[0]), RemoveAndOr(e.args[1]));
      !(l.Variable? && IsBoolArith(r)) && !(r.Variable? && IsBoolArith(l))
    ensures LowerFlat(e, bounds).Some?
  {
  }

  lemma FlattenTwo(args: seq<Exp>, indicator: bool, k: nat)
    requires |args| == 2
    ensures var f := FlattenExp(args[0], indicator, k);
      FlattenArgs(args, indicator, k).exps == [f.exp, FlattenExp(args[1], indicator, f.counter).exp]
  {
    hide FlattenExp;
    var rest := args[1..];
    assert rest[0] == args[1] && rest[1..] == [];
  }

  /** An equation as a whole. */
  lemma EquationFails(e: Exp, k: nat, bounds: map<Symbol, real>)
    requires e.Node? && e.operator.Eq? && |e.args| == 2 && BoundsBelow(bounds, k)
    ensures LowerFlat(Built(e, k), bounds).None? <==> EquatesUnbounded(e, bounds)
  {
    var l, r := e.args[0], e.args[1];
    var f := FlattenExp(l, false, k);
    var g := FlattenExp(r, false, f.counter);
    FlattenTwo(e.args, false, k);
    assert Built(e, k) == Node(Eq, [f.exp, g.exp]);
    hide Built, FlattenExp, LowerFlat, RemoveAndOr, IsBoolArith, BecomesVariable;
    SideBecomes(l, k);
    SideBecomes(r, f.counter);
    CounterRises(l, false, k);
    if f.exp.Variable? && IsBoolArith(r) {
      assert Built(e, k) == Equation(f.exp, Built(r, f.counter), false);
      ComparisonFails(f.exp, r, f.counter, bounds, false);
    } else if g.exp.Variable? && IsBoolArith(l) {
      assert Built(e, k) == Equation(g.exp, Built(l, k), true);
      ComparisonFails(g.exp, l, k, bounds, true);
    } else {
      NoIndicator(Built(e, k), bounds);
    }
  }

  lemma TopFails(e: Exp, k: nat, bounds: map<Symbol, real>)
    requires BoundsBelow(bounds, k)
    ensures LowerFlat(FlattenExp(e, false, k).exp, bounds).None? <==> EquatesUnbounded(e, bounds)
  {
    if e.Node? && e.operator.Eq? && |e.args| == 2 {
      EquationFails(e, k, bounds);
    } else if e.Node? && (e.operator.And? || e.operator.Or?) && |e.args| == 1 {
      ArgsAreLeaves(e.args, k);
      assert Leaf(e.args[0], Built(e, k), k);
    }
  }

  /** Lowering raises an exception iff the expression equates a variable with a comparison that
      cannot be lowered, or holds one further down at a place where a made-up variable stands for
      it: on the left of equations as on the right, and below sums, products, ands and ors. */
  lemma PureLpRaises(e: Exp, k: nat, bounds: map<Symbol, real>)
    requires BoundsBelow(bounds, k)
    ensures var f := FlattenExp(e, false, k);
      LowerAll(f.support + [f.exp], bounds).None? <==> EquatesUnbounded(e, bounds) || UnboundedWithin(e, false, bounds)
  {
    hide LowerFlat, AnyFails, EquatesUnbounded, UnboundedWithin;
    var f := FlattenExp(e, false, k);
    LowerAllExactly(f.support + [f.exp], bounds);
    FailsParts(f.support, [f.exp], bounds);
    FailsOne(f.exp, bounds);
    SupportFails(e, false, k, bounds);
    TopFails(e, k, bounds);
  }

  // ----- what is left

  /** No and and no or is left, at any depth. */
  predicate NoAndOr(e: Exp) {
    e.Node? ==> !e.operator.And? && !e.operator.Or? && forall i :: 0 <= i < |e.args| ==> NoAndOr(e.args[i])
  }

  /** Two things compared. */
  predicate Compares(e: Exp) {
    && e.Node? && |e.args| == 2
    && (e.operator == Arith(Lt) || e.operator == Arith(LtEq) || e.operator == Arith(Gt) || e.operator == Arith(GtEq)
      || e.operator == Arith(Equal))
  }

  /** No and or or is left, and no variable equated with a comparison. */
  predicate Pure(e: Exp) {
    && NoAndOr(e)
    && (e.Node? && e.operator.Eq? && |e.args| == 2 ==>
        !(e.args[0].Variable? && Compares(e.args[1])) && !(e.args[1].Variable? && Compares(e.args[0])))
  }

  /** Ands and ors have no operators below them. */
  predicate Tidy(e: Exp) {
    e.Node? ==>
      forall i :: 0 <= i < |e.args| ==>
        Tidy(e.args[i]) && (e.operator.And? || e.operator.Or? ==> !e.args[i].Node?)
  }

  lemma {:induction false} TidyIsRid(e: Exp)
    requires Tidy(e)
    ensures NoAndOr(RemoveAndOr(e))
    decreases e
  {
    if e.Node? && !e.operator.And? && !e.operator.Or? {
      forall i | 0 <= i < |e.args|
        ensures NoAndOr(RemoveAndOrs(e.args)[i])
      {
        TidyIsRid(e.args[i]);
      }
    }
  }

  /** All in order, and leaves if that is asked for. */
  predicate AllTidy(es: seq<Exp>, leaves: bool) {
    forall i :: 0 <= i < |es| ==> Tidy(es[i]) && (leaves ==> !es[i].Node?)
  }

  lemma TidyMore(a: seq<Exp>, b: seq<Exp>, leaves: bool)
    requires AllTidy(a, leaves) && AllTidy(b, leaves)
    ensures AllTidy(a + b, leaves)
  {
  }

  lemma TidyOne(e: Exp, leaves: bool)
    requires Tidy(e) && (leaves ==> !e.Node?)
    ensures AllTidy([e], leaves)
  {
  }

  lemma TidyRebuilt(operator: Operator, args: seq<Exp>)
    requires AllTidy(args, !(operator.Eq? || operator.NotEq?))
    ensures Tidy(Rebuild(operator, args))
  {
  }

  lemma TidyDefinition(k: nat, e: Exp)
    requires Tidy(e)
    ensures Tidy(Define(k, e))
  {
  }

  lemma {:induction false} FlatIsTidy(e: Exp, indicator: bool, k: nat)
    ensures var f := FlattenExp(e, indicator, k);
      Tidy(f.exp) && (indicator ==> !f.exp.Node?) && AllTidy(f.support, false)
    decreases e, 0
  {
    if e.Node? {
      var below := !(e.operator.Eq? || e.operator.NotEq?);
      var fs := FlattenArgs(e.args, below, k);
      FlatArgsAreTidy(e.args, below, k);
      TidyRebuilt(e.operator, fs.exps);
      if indicator {
        var d := Define(fs.counter, Rebuild(e.operator, fs.exps));
        TidyDefinition(fs.counter, Rebuild(e.operator, fs.exps));
        TidyOne(d, false);
        TidyMore([d], fs.support, false);
      }
    }
  }

  lemma {:induction false} FlatArgsAreTidy(args: seq<Exp>, indicator: bool, k: nat)
    ensures var fs := FlattenArgs(args, indicator, k); AllTidy(fs.exps, indicator) && AllTidy(fs.support, false)
    decreases args, 1
  {
    hide AllTidy, Tidy;
    if args == [] {
      NoneTidy();
    } else {
      var f := FlattenExp(args[0], indicator, k);
      var rest := FlattenArgs(args[1..], indicator, f.counter);
      FlatIsTidy(args[0], indicator, k);
      FlatArgsAreTidy(args[1..], indicator, f.counter);
      TidyOne(f.exp, indicator);
      TidyMore([f.exp], rest.exps, indicator);
      TidyMore(f.support, rest.support, false);
    }
  }

  lemma NoneTidy()
    ensures forall leaves :: AllTidy([], leaves)
  {
  }

  /** Lowering an equation that is in order leaves only pure ones. */
  lemma LoweredIsPure(flat: Exp, bounds: map<Symbol, real>)
    requires Tidy(flat) && LowerFlat(flat, bounds).Some?
    ensures forall c :: c in LowerFlat(flat, bounds).value ==> Pure(c)
  {
    var e := RemoveAndOr(flat);
    TidyIsRid(flat);
    if Indicator(e).Some? {
      var (y, arith) := Indicator(e).value;
      var x := ToLtZero(arith.operator.op, arith.args[0], arith.args[1]).value;
      assert NoAndOr(y) && NoAndOr(arith) && NoAndOr(arith.args[0]) && NoAndOr(arith.args[1]);
      LtZeroRid(arith.operator.op, arith.args[0], arith.args[1]);
      ConstraintsPure(y, x, UpperBound(x, bounds).value + 1.0);
    }
  }

  lemma LtZeroRid(op: ArithOp, lhs: Exp, rhs: Exp)
    requires NoAndOr(lhs) && NoAndOr(rhs) && ToLtZero(op, lhs, rhs).Some?
    ensures NoAndOr(ToLtZero(op, lhs, rhs).value)
  {
    assert NoAndOr(Binary(Minus, lhs, rhs)) && NoAndOr(Binary(Minus, rhs, lhs));
  }

  lemma ConstraintsPure(y: Exp, x: Exp, u: real)
    requires NoAndOr(x) && NoAndOr(y)
    ensures forall c :: c in Constraints(y, x, u) ==> Pure(c)
  {
    var cs := Constraints(y, x, u);
    assert forall op, a, b :: NoAndOr(a) && NoAndOr(b) ==> NoAndOr(Binary(op, a, b));
    assert Pure(cs[0]) && Pure(cs[1]);
  }

  lemma {:induction false} LoweredArePure(flats: seq<Exp>, bounds: map<Symbol, real>)
    requires LowerAll(flats, bounds).Some? && forall i :: 0 <= i < |flats| ==> Tidy(flats[i])
    ensures forall c :: c in LowerAll(flats, bounds).value ==> Pure(c)
    decreases |flats|
  {
    hide LowerFlat, Pure, Tidy;
    if flats != [] {
      LoweredArePure(flats[..|flats| - 1], bounds);
      LoweredIsPure(flats[|flats| - 1], bounds);
    }
  }

  lemma {:induction false} LowerAllHas(flats: seq<Exp>, bounds: map<Symbol, real>, i: nat)
    requires i < |flats| && LowerAll(flats, bounds).Some?
    ensures LowerFlat(flats[i], bounds).Some?
    ensures forall c :: c in LowerFlat(flats[i], bounds).value ==> c in LowerAll(flats, bounds).value
    decreases |flats|
  {
    hide LowerFlat;
    var n := |flats| - 1;
    if i < n {
      LowerAllHas(flats[..n], bounds, i);
    }
  }

  /** sub stands somewhere in e where a made-up variable is put in its place, or is e itself and
      indicator says that one is. */
  predicate Stands(e: Exp, sub: Exp, indicator: bool) {
    e.Node? &&
      ((indicator && e == sub)
      || exists i :: 0 <= i < |e.args| && Stands(e.args[i], sub, !(e.operator.Eq? || e.operator.NotEq?)))
  }

  /** An equation defines a made-up variable to be what sub becomes. */
  ghost predicate DefinesSub(equations: seq<Exp>, sub: Exp)
    requires sub.Node?
  {
    exists m, k :: Define(m, Built(sub, k)) in equations
  }

  lemma DefinesMore(a: seq<Exp>, b: seq<Exp>, sub: Exp)
    requires sub.Node? && (DefinesSub(a, sub) || DefinesSub(b, sub))
    ensures DefinesSub(a + b, sub)
  {
    var m, k :| Define(m, Built(sub, k)) in a || Define(m, Built(sub, k)) in b;
    assert Define(m, Built(sub, k)) in a + b;
  }

  lemma {:induction false} SupportDefines(e: Exp, sub: Exp, indicator: bool, k: nat)
    requires sub.Node? && Stands(e, sub, indicator)
    ensures DefinesSub(FlattenExp(e, indicator, k).support, sub)
    decreases e, 0
  {
    var below := !(e.operator.Eq? || e.operator.NotEq?);
    var fs := FlattenArgs(e.args, below, k);
    var d := Define(fs.counter, Built(e, k));
    if indicator && e == sub {
      assert d in [d] && DefinesSub([d], sub);
      DefinesMore([d], fs.support, sub);
    } else {
      var i :| 0 <= i < |e.args| && Stands(e.args[i], sub, below);
      ArgsSupportDefines(e.args, sub, below, k, i);
      DefinesMore([d], fs.support, sub);
    }
  }

  lemma {:induction false} ArgsSupportDefines(args: seq<Exp>, sub: Exp, indicator: bool, k: nat, i: nat)
    requires i < |args| && sub.Node? && Stands(args[i], sub, indicator)
    ensures DefinesSub(FlattenArgs(args, indicator, k).support, sub)
    decreases args, 1
  {
    hide Stands, DefinesSub;
    var f := FlattenExp(args[0], indicator, k);
    var rest := FlattenArgs(args[1..], indicator, f.counter);
    if i == 0 {
      SupportDefines(args[0], sub, indicator, k);
    } else {
      ArgsSupportDefines(args[1..], sub, indicator, f.counter, i - 1);
    }
    DefinesMore(f.support, rest.support, sub);
  }

  /** Made-up variables stand for what is compound. */
  predicate IsReplaced(args: seq<Exp>, vs: seq<Exp>) {
    && |vs| == |args|
    && forall i :: 0 <= i < |args| ==>
      if args[i].Node? then vs[i].Variable? && vs[i].symbol.Internal? else vs[i] == args[i]
  }

  /** What an expression becomes that no made-up variable stands for: an and is a product, an or a
      sum, an arithmetic operation is itself, all of variables and constants; an equation is one of
      what its sides become. */
  predicate Becomes(e: Exp, c: Exp) {
    match e
    case Node(operator, args) =>
      if (operator.And? || operator.Or?) && |args| == 1 then IsReplaced(args, [c])
      else if operator.Eq? || operator.NotEq? then
        && c.Node? && c.operator == operator && |c.args| == |args|
        && forall i :: 0 <= i < |args| ==> Becomes(args[i], c.args[i])
      else
        && c.Node? && IsReplaced(args, c.args)
        && c.operator == if operator.And? then Arith(Times) else if operator.Or? then Arith(Plus) else operator
    case _ => c == e
  }

  lemma LeavesReplaced(args: seq<Exp>, k: nat)
    ensures var vs := FlattenArgs(args, true, k).exps;
      IsReplaced(args, vs) && forall i :: 0 <= i < |vs| ==> !vs[i].Node?
  {
    var vs := FlattenArgs(args, true, k).exps;
    ArgsAreLeaves(args, k);
    forall i | 0 <= i < |args|
      ensures !vs[i].Node? && if args[i].Node? then vs[i].Variable? && vs[i].symbol.Internal? else vs[i] == args[i]
    {
      assert Leaf(args[i], vs[i], k);
    }
  }

  lemma {:induction false} BuiltBecomes(e: Exp, k: nat)
    requires e.Node?
    ensures Becomes(e, RemoveAndOr(Built(e, k)))
    decreases e, 1
  {
    var sides := e.operator.Eq? || e.operator.NotEq?;
    var vs := FlattenArgs(e.args, !sides, k).exps;
    hide FlattenArgs;
    if sides {
      ArgsBecome(e.args, k);
    } else {
      LeavesReplaced(e.args, k);
      LeavesStay(vs);
    }
  }

  lemma {:induction false} FlatBecomes(e: Exp, k: nat)
    ensures Becomes(e, RemoveAndOr(FlattenExp(e, false, k).exp))
    decreases e, 2
  {
    if e.Node? {
      BuiltBecomes(e, k);
    }
  }

  lemma {:induction false} ArgsBecome(args: seq<Exp>, k: nat)
    ensures var vs := FlattenArgs(args, false, k).exps;
      forall i :: 0 <= i < |args| ==> Becomes(args[i], RemoveAndOr(vs[i]))
    decreases args, 0
  {
    hide Becomes, RemoveAndOr;
    if args != [] {
      FlatBecomes(args[0], k);
      var f := FlattenExp(args[0], false, k);
      ArgsBecome(args[1..], f.counter);
      var rest := FlattenArgs(args[1..], false, f.counter).exps;
      forall i | 0 < i < |args|
        ensures Becomes(args[i], RemoveAndOr(rest[i - 1]))
      {
        assert args[i] == args[1..][i - 1];
      }
    }
  }

  /** The two constraints that make v say whether a comparison of two things holds. */
  ghost predicate Decides(constraints: seq<Exp>, v: Exp, comparison: Exp, l: Exp, r: Exp, bounds: map<Symbol, real>)
    requires Compares(comparison)
  {
    var op := comparison.operator.op;
    var (lower, upper) := if op.Gt? || op.GtEq? then (r, l) else (l, r);
    var difference := Node(Arith(Minus), [lower, upper]);
    var x := if op.Lt? || op.Gt? then difference else Node(Arith(Minus), [difference, Constant(0.00001)]);
    && (lower.Constant? || (lower.Variable? && lower.symbol in bounds))
    && var u := Constant(1.0 + if lower.Constant? then lower.value else bounds[lower.symbol]);
    && Node(Arith(LtEq), [Node(Arith(Times), [Constant(-1.0), x]), Node(Arith(Times), [v, u])]) in constraints
    && Node(Arith(Lt), [x, Node(Arith(Times), [Node(Arith(Minus), [Constant(1.0), v]), u])]) in constraints
  }

  /** The constraints say of a variable that it is what an expression becomes. */
  ghost predicate Says(constraints: seq<Exp>, v: Exp, e: Exp, bounds: map<Symbol, real>) {
    if Compares(e) then
      exists l, r :: IsReplaced(e.args, [l, r]) && Decides(constraints, v, e, l, r, bounds)
    else
      exists c :: Becomes(e, c) && (Node(Eq, [v, c]) in constraints || Node(Eq, [c, v]) in constraints)
  }

  lemma SaysMore(some: seq<Exp>, all: seq<Exp>, v: Exp, e: Exp, bounds: map<Symbol, real>)
    requires Says(some, v, e, bounds) && forall c :: c in some ==> c in all
    ensures Says(all, v, e, bounds)
  {
  }

  lemma EquationIs(v: Exp, e: Exp, flipped: bool)
    ensures Equation(v, e, flipped) == if flipped then Node(Eq, [e, v]) else Node(Eq, [v, e])
  {
  }

  lemma LoweredSays(v: Exp, e: Exp, k: nat, bounds: map<Symbol, real>, flipped: bool)
    requires v.Variable? && e.Node?
    requires LowerFlat(Equation(v, Built(e, k), flipped), bounds).Some?
    ensures Says(LowerFlat(Equation(v, Built(e, k), flipped), bounds).value, v, e, bounds)
  {
    if Compares(e) {
      ComparisonSays(v, e, k, bounds, flipped);
    } else {
      hide Equation, Indicator, Built, Becomes;
      ComparisonStays(e, k);
      EquationStays(v, Built(e, k), flipped);
      EquationIndicates(v, RemoveAndOr(Built(e, k)), flipped);
      BuiltBecomes(e, k);
      EquationIs(v, RemoveAndOr(Built(e, k)), flipped);
    }
  }

  lemma ComparisonSays(v: Exp, e: Exp, k: nat, bounds: map<Symbol, real>, flipped: bool)
    requires v.Variable? && Compares(e)
    requires LowerFlat(Equation(v, Built(e, k), flipped), bounds).Some?
    ensures Says(LowerFlat(Equation(v, Built(e, k), flipped), bounds).value, v, e, bounds)
  {
    var op := e.operator.op;
    var fs := FlattenArgs(e.args, true, k).exps;
    hide Equation, RemoveAndOrs, Indicator, FlattenArgs;
    LeavesReplaced(e.args, k);
    LeavesStay(fs);
    EquationStays(v, Built(e, k), flipped);
    EquationIndicates(v, Built(e, k), flipped);
    LessThanExists(op, fs[0], fs[1]);
    LtZeroValue(op, fs[0], fs[1], Zeros(), bounds);
    assert fs == [fs[0], fs[1]];
    assert Decides(LowerFlat(Equation(v, Built(e, k), flipped), bounds).value, v, e, fs[0], fs[1], bounds);
  }

  /** What stands for a part of an expression is made to be what that part becomes. */
  lemma PartsSaid(e: Exp, sub: Exp, k: nat, bounds: map<Symbol, real>)
    requires Stands(e, sub, false) && sub.Node?
    requires var f := FlattenExp(e, false, k); LowerAll(f.support + [f.exp], bounds).Some?
    ensures var f := FlattenExp(e, false, k);
      exists m :: Says(LowerAll(f.support + [f.exp], bounds).value, Variable(Internal(m)), sub, bounds)
  {
    hide Stands, Says, FlattenExp, Built, LowerFlat;
    var f := FlattenExp(e, false, k);
    var flats := f.support + [f.exp];
    SupportDefines(e, sub, false, k);
    var m, k' :| Define(m, Built(sub, k')) in f.support;
    var i :| 0 <= i < |f.support| && f.support[i] == Define(m, Built(sub, k'));
    assert flats[i] == f.support[i] == Equation(Variable(Internal(m)), Built(sub, k'), false);
    LowerAllHas(flats, bounds, i);
    LoweredSays(Variable(Internal(m)), sub, k', bounds, false);
    SaysMore(LowerFlat(flats[i], bounds).value, LowerAll(flats, bounds).value, Variable(Internal(m)), sub, bounds);
  }

  /** What the constraints say of an expression as a whole, and of whatever in it a made-up
      variable stands for. */
  ghost predicate Rewrites(constraints: seq<Exp>, e: Exp, bounds: map<Symbol, real>) {
    && SaysWhole(constraints, e, bounds)
    && forall sub: Exp :: sub.Node? && Stands(e, sub, false) ==>
      exists m :: Says(constraints, Variable(Internal(m)), sub, bounds)
  }

  ghost predicate SaysWhole(constraints: seq<Exp>, e: Exp, bounds: map<Symbol, real>) {
    if IsEquation(e) && BecomesVariable(e.args[0]) && Compares(e.args[1]) then
      exists v :: Becomes(e.args[0], v) && Says(constraints, v, e.args[1], bounds)
    else if IsEquation(e) && BecomesVariable(e.args[1]) && Compares(e.args[0]) then
      exists v :: Becomes(e.args[1], v) && Says(constraints, v, e.args[0], bounds)
    else
      exists c :: Becomes(e, c) && c in constraints
  }

  predicate IsEquation(e: Exp) {
    e.Node? && e.operator.Eq? && |e.args| == 2
  }

  lemma VariableBecomes(e: Exp, k: nat)
    requires BecomesVariable(e)
    ensures var v := FlattenExp(e, false, k).exp; v.Variable? && Becomes(e, v)
  {
    SideBecomes(e, k);
    FlatBecomes(e, k);
  }

  lemma EquationBuilt(e: Exp, k: nat)
    requires IsEquation(e)
    ensures var f := FlattenExp(e.args[0], false, k);
      Built(e, k) == Node(Eq, [f.exp, FlattenExp(e.args[1], false, f.counter).exp])
  {
    FlattenTwo(e.args, false, k);
  }

  lemma ComparisonBuilt(e: Exp, k: nat)
    requires Compares(e)
    ensures FlattenExp(e, false, k).exp == Built(e, k)
  {
  }

  /** The whole expression. */
  lemma WholeSaid(e: Exp, k: nat, bounds: map<Symbol, real>)
    requires LowerFlat(FlattenExp(e, false, k).exp, bounds).Some?
    ensures SaysWhole(LowerFlat(FlattenExp(e, false, k).exp, bounds).value, e, bounds)
  {
    var flat := FlattenExp(e, false, k).exp;
    if IsEquation(e) && BecomesVariable(e.args[0]) && Compares(e.args[1]) {
      var f := FlattenExp(e.args[0], false, k);
      EquationBuilt(e, k);
      VariableBecomes(e.args[0], k);
      ComparisonBuilt(e.args[1], f.counter);
      assert flat == Equation(f.exp, Built(e.args[1], f.counter), false);
      LoweredSays(f.exp, e.args[1], f.counter, bounds, false);
    } else if IsEquation(e) && BecomesVariable(e.args[1]) && Compares(e.args[0]) {
      var f := FlattenExp(e.args[0], false, k);
      var g := FlattenExp(e.args[1], false, f.counter);
      EquationBuilt(e, k);
      VariableBecomes(e.args[1], f.counter);
      ComparisonBuilt(e.args[0], k);
      assert flat == Equation(g.exp, Built(e.args[0], k), true);
      LoweredSays(g.exp, e.args[0], k, bounds, true);
    } else {
      FlatBecomes(e, k);
      NotLowered(e, k, bounds);
    }
  }

  lemma NotLowered(e: Exp, k: nat, bounds: map<Symbol, real>)
    requires IsEquation(e) ==>
      !(BecomesVariable(e.args[0]) && Compares(e.args[1])) && !(BecomesVariable(e.args[1]) && Compares(e.args[0]))
    ensures var flat := FlattenExp(e, false, k).exp; LowerFlat(flat, bounds) == Some([RemoveAndOr(flat)])
  {
    var flat := FlattenExp(e, false, k).exp;
    if IsEquation(e) {
      var f := FlattenExp(e.args[0], false, k);
      EquationBuilt(e, k);
      SideBecomes(e.args[0], k);
      SideBecomes(e.args[1], f.counter);
    } else if e.Node? && (e.operator.And? || e.operator.Or?) && |e.args| == 1 {
      ArgsAreLeaves(e.args, k);
      assert Leaf(e.args[0], flat, k);
    }
  }

  lemma SaysWholeMore(some: seq<Exp>, all: seq<Exp>, e: Exp, bounds: map<Symbol, real>)
    requires SaysWhole(some, e, bounds) && forall c :: c in some ==> c in all
    ensures SaysWhole(all, e, bounds)
  {
    hide Becomes, BecomesVariable, Says;
    forall v, sub | Says(some, v, sub, bounds)
      ensures Says(all, v, sub, bounds)
    {
      SaysMore(some, all, v, sub, bounds);
    }
  }

  /** What lowering is for. */
  lemma LoweringRewrites(e: Exp, k: nat, bounds: map<Symbol, real>)
    requires var f := FlattenExp(e, false, k); LowerAll(f.support + [f.exp], bounds).Some?
    ensures var f := FlattenExp(e, false, k);
      var constraints := LowerAll(f.support + [f.exp], bounds).value;
      Rewrites(constraints, e, bounds) && forall c :: c in constraints ==> Pure(c)
  {
    hide Stands, Says, SaysWhole, FlattenExp, LowerFlat, Pure, Tidy;
    var f := FlattenExp(e, false, k);
    var flats := f.support + [f.exp];
    FlatIsTidy(e, false, k);
    LoweredArePure(flats, bounds);
    assert flats[|f.support|] == f.exp;
    LowerAllHas(flats, bounds, |f.support|);
    WholeSaid(e, k, bounds);
    SaysWholeMore(LowerFlat(f.exp, bounds).value, LowerAll(flats, bounds).value, e, bounds);
    forall sub: Exp | sub.Node? && Stands(e, sub, false)
      ensures exists m :: Says(LowerAll(flats, bounds).value, Variable(Internal(m)), sub, bounds)
    {
      PartsSaid(e, sub, k, bounds);
    }
  }

  /** What the steps ask of an assignment: no or has two true arguments; an indicator is 0 or 1,
      and what it compares is whole if equality is allowed. */
  ghost predicate Fair(flat: Exp, env: Env) {
    && Exclusive(flat, env)
    && var i := Indicator(RemoveAndOr(flat));
      i.Some? ==>
        var (y, arith) := i.value;
        && (Value(y, env) == 0.0 || Value(y, env) == 1.0)
        && (arith.operator.op.Lt? || arith.operator.op.Gt?
          || (IsInteger(Value(arith.args[0], env)) && IsInteger(Value(arith.args[1], env))))
  }

  lemma LoweredForces(flat: Exp, bounds: map<Symbol, real>, env: Env)
    requires LowerFlat(flat, bounds).Some? && Fair(flat, env) && Satisfies(env, LowerFlat(flat, bounds).value)
    ensures Value(flat, env) != 0.0
  {
    var plain := RemoveAndOr(flat);
    RemoveAndOrMeans(flat, env);
    if Indicator(plain).Some? {
      IndicatorForced(plain, bounds, env);
    } else {
      assert LowerFlat(flat, bounds).value[0] == plain;
    }
  }

  lemma {:induction false} AllLoweredForce(flats: seq<Exp>, bounds: map<Symbol, real>, env: Env)
    requires LowerAll(flats, bounds).Some? && (forall i :: 0 <= i < |flats| ==> Fair(flats[i], env))
    requires Satisfies(env, LowerAll(flats, bounds).value)
    ensures Satisfies(env, flats)
    decreases |flats|
  {
    hide Fair, Value, LowerFlat;
    if flats != [] {
      var n := |flats| - 1;
      SatisfiesParts(env, LowerAll(flats[..n], bounds).value, LowerFlat(flats[n], bounds).value);
      AllLoweredForce(flats[..n], bounds, env);
      LoweredForces(flats[n], bounds, env);
    }
  }

  /** Whatever satisfies the linear constraints satisfies what they were made from. */
  lemma PureLpForces(e: Exp, k: nat, bounds: map<Symbol, real>, env: Env)
    requires var f := FlattenExp(e, false, k);
      && LowerAll(f.support + [f.exp], bounds).Some?
      && (forall i :: 0 <= i < |f.support + [f.exp]| ==> Fair((f.support + [f.exp])[i], env))
      && Satisfies(env, LowerAll(f.support + [f.exp], bounds).value)
    ensures Value(e, env) != 0.0
  {
    var f := FlattenExp(e, false, k);
    AllLoweredForce(f.support + [f.exp], bounds, env);
    SatisfiesParts(env, f.support, [f.exp]);
    FlattenMeans(e, false, k, env);
    assert [f.exp][0] == f.exp;
  }

  /** And what can be checked of the bounds: what an indicator compares keeps them, and they
      suffice. */
  ghost predicate Roomy(flat: Exp, bounds: map<Symbol, real>, env: Env) {
    var i := Indicator(RemoveAndOr(flat));
    i.Some? ==>
      var (_, arith) := i.value;
      && Within(arith.operator.op, arith.args[0], arith.args[1], env, bounds)
      && BoundSuffices(arith.operator.op, arith.args[0], arith.args[1], bounds)
  }

  lemma LoweredAllows(flat: Exp, bounds: map<Symbol, real>, env: Env)
    requires LowerFlat(flat, bounds).Some? && Exclusive(flat, env) && Roomy(flat, bounds, env)
      && Value(flat, env) != 0.0
    ensures Satisfies(env, LowerFlat(flat, bounds).value)
  {
    var plain := RemoveAndOr(flat);
    RemoveAndOrMeans(flat, env);
    if Indicator(plain).Some? {
      SufficientBoundAllows(plain, bounds, env);
    }
  }

  lemma {:induction false} AllLoweredAllow(flats: seq<Exp>, bounds: map<Symbol, real>, env: Env)
    requires LowerAll(flats, bounds).Some?
      && (forall i :: 0 <= i < |flats| ==> Exclusive(flats[i], env) && Roomy(flats[i], bounds, env))
    requires Satisfies(env, flats)
    ensures Satisfies(env, LowerAll(flats, bounds).value)
    decreases |flats|
  {
    hide Exclusive, Roomy, Value, LowerFlat;
    if flats != [] {
      var n := |flats| - 1;
      assert flats == flats[..n] + [flats[n]];
      SatisfiesParts(env, LowerAll(flats[..n], bounds).value, LowerFlat(flats[n], bounds).value);
      AllLoweredAllow(flats[..n], bounds, env);
      LoweredAllows(flats[n], bounds, env);
    }
  }

  /** Whatever satisfies an expression extends, in one way only, to the made-up variables; that
      extension satisfies the linear constraints, if the bounds leave room. */
  lemma PureLpAllows(e: Exp, k: nat, bounds: map<Symbol, real>, env: Env, env': Env)
    requires Below(e, k) && Value(e, env) != 0.0
    requires var f := FlattenExp(e, false, k);
      && SameBut(env, env', k, f.counter) && Satisfies(env', f.support)
      && LowerAll(f.support + [f.exp], bounds).Some?
      && forall i :: 0 <= i < |f.support + [f.exp]| ==>
        Exclusive((f.support + [f.exp])[i], env') && Roomy((f.support + [f.exp])[i], bounds, env')
    ensures var f := FlattenExp(e, false, k);
      Satisfies(env', LowerAll(f.support + [f.exp], bounds).value)
  {
    var f := FlattenExp(e, false, k);
    FlattenMeans(e, false, k, env');
    ValueLocal(e, k, env, env', f.counter);
    SatisfiesParts(env', f.support, [f.exp]);
    AllLoweredAllow(f.support + [f.exp], bounds, env');
  }
}
