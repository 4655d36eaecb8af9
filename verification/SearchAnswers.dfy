/** The answers of a search, as a set, and what they are in terms of the model. */
module SearchAnswers {
  import opened Options
  import opened Datalog
  import opened Env
  import opened Semantics
  import opened Search
  import opened Safety
  import opened SearchTheorem

  /** What a search reports: a term for each variable asked for. */
  type Answer = map<Name, Term>

  ghost function AnswerAt(e: Env, vars: seq<Name>, u: nat): Answer
    requires Acyclic(e)
  {
    map x | x in vars :: TermOf(Resolve(e, Ref(VarId(u, x))))
  }

  ghost function Answers(p: Program, sh: Shape, gs: seq<Goal>, env: Env, n: nat, vars: seq<Name>, u: nat): iset<Answer>
    requires Fits(p, sh) && Acyclic(env)
  {
    iset e | Reaches(p, sh, gs, env, n, e) && Acyclic(e) :: AnswerAt(e, vars, u)
  }

  /** The answers found by trying one rule on the first goal. */
  ghost function RuleAnswers(p: Program, sh: Shape, r: Rule, gs: seq<Goal>, env: Env, n: nat, vars: seq<Name>,
      u: nat): iset<Answer>
    requires Fits(p, sh) && Acyclic(env) && gs != []
  {
    iset e | ReachesBy(p, sh, r, gs, env, n, e) && Acyclic(e) :: AnswerAt(e, vars, u)
  }

  // ----- one step of the search, as a step between sets of answers

  lemma AnswersDone(p: Program, sh: Shape, env: Env, n: nat, vars: seq<Name>, u: nat)
    requires Fits(p, sh) && Acyclic(env)
    ensures Answers(p, sh, [], env, n, vars, u) == iset{AnswerAt(env, vars, u)}
  {
    assert Reaches(p, sh, [], env, n, env);
  }

  lemma AnswersTruth(p: Program, sh: Shape, gs: seq<Goal>, env: Env, n: nat, vars: seq<Name>, u: nat)
    requires Fits(p, sh) && Acyclic(env) && gs != []
    ensures KindOf(p.builtins, gs[0].lit).Truth? ==>
      Answers(p, sh, gs, env, n, vars, u) == Answers(p, sh, gs[1..], env, n, vars, u)
    ensures KindOf(p.builtins, gs[0].lit).Falsity? ==> Answers(p, sh, gs, env, n, vars, u) == iset{}
  {
    if KindOf(p.builtins, gs[0].lit).Truth? {
      forall e
        ensures Reaches(p, sh, gs, env, n, e) <==> Reaches(p, sh, gs[1..], env, n, e)
      {
      }
    }
  }

  /** vars' and u' may be any: they only say what is reported when the negation is searched. */
  lemma AnswersNegation(p: Program, sh: Shape, gs: seq<Goal>, env: Env, n: nat, vars: seq<Name>, u: nat)
    requires Fits(p, sh) && gs != [] && KindOf(p.builtins, gs[0].lit).Negation?
    requires Ready(p, sh, gs, env, n)
    ensures Answers(p, sh, gs, env, n, vars, u) ==
      if Answers(p, sh, [Goal(gs[0].lit.Complement(), gs[0].u)], env, n, vars, u) == iset{}
      then Answers(p, sh, gs[1..], env, n, vars, u) else iset{}
  {
    var pos := [Goal(gs[0].lit.Complement(), gs[0].u)];
    ReadyNegation(p, sh, gs, env, n);
    SucceedsAnswers(p, sh, pos, env, n, vars, u);
    forall e
      ensures Reaches(p, sh, gs, env, n, e) <==> !Succeeds(p, sh, pos, env, n) && Reaches(p, sh, gs[1..], env, n, e)
    {
    }
  }

  lemma SucceedsAnswers(p: Program, sh: Shape, gs: seq<Goal>, env: Env, n: nat, vars: seq<Name>, u: nat)
    requires Ready(p, sh, gs, env, n)
    ensures Succeeds(p, sh, gs, env, n) <==> Answers(p, sh, gs, env, n, vars, u) != iset{}
  {
    forall e | Reaches(p, sh, gs, env, n, e)
      ensures Acyclic(e) && AnswerAt(e, vars, u) in Answers(p, sh, gs, env, n, vars, u)
    {
      SupportedModel(p, sh);
      Sound(p, sh, Model(p, sh), gs, env, n, e);
    }
  }

  lemma SupportedModel(p: Program, sh: Shape)
    requires Fits(p, sh)
    ensures Supported(p, Model(p, sh))
  {
    ModelUnique(p, sh, Model(p, sh));
  }

  lemma AnswersCall(p: Program, sh: Shape, gs: seq<Goal>, env: Env, n: nat, vars: seq<Name>, u: nat)
    requires Fits(p, sh) && Acyclic(env) && gs != [] && KindOf(p.builtins, gs[0].lit).Call?
    ensures var c := CallResult(p.builtins[gs[0].lit.table], env, gs[0].lit, gs[0].u, n);
      Answers(p, sh, gs, env, n, vars, u) ==
        if c.Some? then Answers(p, sh, gs[1..], c.value, n + Created(p.builtins[gs[0].lit.table]), vars, u) else iset{}
  {
    var c := CallResult(p.builtins[gs[0].lit.table], env, gs[0].lit, gs[0].u, n);
    forall e
      ensures Reaches(p, sh, gs, env, n, e) <==>
        c.Some? && Reaches(p, sh, gs[1..], c.value, n + Created(p.builtins[gs[0].lit.table]), e)
    {
    }
  }

  lemma AnswersLookup(p: Program, sh: Shape, gs: seq<Goal>, env: Env, n: nat, vars: seq<Name>, u: nat)
    requires Fits(p, sh) && Acyclic(env) && gs != [] && KindOf(p.builtins, gs[0].lit).Lookup?
    ensures forall a :: a in Answers(p, sh, gs, env, n, vars, u) <==>
      exists r :: r in p.rules && r.head.table == gs[0].lit.table && a in RuleAnswers(p, sh, r, gs, env, n, vars, u)
  {
    forall a, r | r in p.rules && a in RuleAnswers(p, sh, r, gs, env, n, vars, u)
      ensures a in Answers(p, sh, gs, env, n, vars, u)
    {
      var e :| ReachesBy(p, sh, r, gs, env, n, e) && Acyclic(e) && a == AnswerAt(e, vars, u);
      assert Reaches(p, sh, gs, env, n, e);
    }
    forall a | a in Answers(p, sh, gs, env, n, vars, u)
      ensures exists r ::
        r in p.rules && r.head.table == gs[0].lit.table && a in RuleAnswers(p, sh, r, gs, env, n, vars, u)
    {
      var e :| Reaches(p, sh, gs, env, n, e) && Acyclic(e) && a == AnswerAt(e, vars, u);
      var r := ByRule(p, sh, gs, env, n, e);
      assert a in RuleAnswers(p, sh, r, gs, env, n, vars, u);
    }
  }

  lemma ByRule(p: Program, sh: Shape, gs: seq<Goal>, env: Env, n: nat, e: Env) returns (r: Rule)
    requires Fits(p, sh) && Acyclic(env) && gs != [] && KindOf(p.builtins, gs[0].lit).Lookup?
    requires Reaches(p, sh, gs, env, n, e)
    ensures ReachesBy(p, sh, r, gs, env, n, e)
  {
    r :| ReachesBy(p, sh, r, gs, env, n, e);
  }

  lemma AnswersRule(p: Program, sh: Shape, r: Rule, gs: seq<Goal>, env: Env, n: nat, vars: seq<Name>, u: nat)
    requires Fits(p, sh) && Acyclic(env) && gs != [] && r in p.rules && r.head.table == gs[0].lit.table
    ensures var h := HeadResult(env, r, n, gs[0]);
      RuleAnswers(p, sh, r, gs, env, n, vars, u) ==
        if h.Some? then Answers(p, sh, Goals(r.body, n) + gs[1..], h.value, n + 1, vars, u) else iset{}
  {
    RuleLighter(p, sh, r, gs, n);
    var h := HeadResult(env, r, n, gs[0]);
    forall e
      ensures ReachesBy(p, sh, r, gs, env, n, e) <==>
        h.Some? && Reaches(p, sh, Goals(r.body, n) + gs[1..], h.value, n + 1, e)
    {
    }
  }

  // ----- the theorem

  ghost function GroundAnswer(s: Valuation, vars: seq<Name>, u: nat): Answer {
    map x | x in vars :: Obj(s(VarId(u, x)))
  }

  /** Every variable asked for will have been bound when no goals are left. */
  ghost predicate Asked(gs: seq<Goal>, env: Env, vars: seq<Name>, u: nat)
    requires Acyclic(env)
  {
    forall x :: x in vars ==> Supplied(gs, |gs|, env, VarId(u, x))
  }

  /** s solves the goals in the model, and a is what it says about the variables asked for. */
  ghost predicate Solves(bs: Registry, gs: seq<Goal>, env: Env, m: Interpretation, vars: seq<Name>, u: nat,
      a: Answer, s: Valuation) {
    Sat(env, s) && GoalsHold(bs, gs, s, m) && a == GroundAnswer(s, vars, u)
  }

  lemma AnswerSound(p: Program, sh: Shape, gs: seq<Goal>, env: Env, n: nat, vars: seq<Name>, u: nat, e: Env)
      returns (s: Valuation)
    requires Ready(p, sh, gs, env, n) && u < n && Asked(gs, env, vars, u)
    requires Reaches(p, sh, gs, env, n, e) && Acyclic(e)
    ensures Solves(p.builtins, gs, env, Model(p, sh), vars, u, AnswerAt(e, vars, u), s)
  {
    var base: Valuation := (k: VarId) => Num(0);
    s := Solution(e, base);
    SupportedModel(p, sh);
    Sound(p, sh, Model(p, sh), gs, env, n, e);
    SolutionSat(e, base);
    BoundAnswer(gs, env, e, s, vars, u);
  }

  lemma AnswerComplete(p: Program, sh: Shape, gs: seq<Goal>, env: Env, n: nat, vars: seq<Name>, u: nat, a: Answer,
      s: Valuation)
    requires Ready(p, sh, gs, env, n) && u < n && Asked(gs, env, vars, u)
    requires Solves(p.builtins, gs, env, Model(p, sh), vars, u, a, s)
    ensures a in Answers(p, sh, gs, env, n, vars, u)
  {
    hide *;
    ReadyParts(p, sh, gs, env, n);
    SolvesParts(p.builtins, gs, env, Model(p, sh), vars, u, a, s);
    SupportedModel(p, sh);
    var e, s' := Complete(p, sh, Model(p, sh), gs, env, n, s);
    Sound(p, sh, Model(p, sh), gs, env, n, e);
    SameAnswer(gs, env, e, s, s', vars, u, n);
    ReachedAnswer(p, sh, gs, env, n, vars, u, e);
  }

  lemma ReadyParts(p: Program, sh: Shape, gs: seq<Goal>, env: Env, n: nat)
    requires Ready(p, sh, gs, env, n)
    ensures Fits(p, sh) && Acyclic(env)
  {
  }

  lemma SolvesParts(bs: Registry, gs: seq<Goal>, env: Env, m: Interpretation, vars: seq<Name>, u: nat, a: Answer,
      s: Valuation)
    requires Solves(bs, gs, env, m, vars, u, a, s)
    ensures Sat(env, s) && GoalsHold(bs, gs, s, m) && a == GroundAnswer(s, vars, u)
  {
  }

  lemma SameAnswer(gs: seq<Goal>, env: Env, e: Env, s: Valuation, s': Valuation, vars: seq<Name>, u: nat, n: nat)
    requires Acyclic(env) && Asked(gs, env, vars, u) && u < n && SameBelow(s, s', n)
    requires Acyclic(e) && Sat(e, s') && forall k :: Supplied(gs, |gs|, env, k) ==> Resolve(e, Ref(k)).Bound?
    ensures AnswerAt(e, vars, u) == GroundAnswer(s, vars, u)
  {
    hide Supplied;
    BoundAnswer(gs, env, e, s', vars, u);
    assert GroundAnswer(s, vars, u) == GroundAnswer(s', vars, u);
  }

  lemma ReachedAnswer(p: Program, sh: Shape, gs: seq<Goal>, env: Env, n: nat, vars: seq<Name>, u: nat, e: Env)
    requires Fits(p, sh) && Acyclic(env) && Reaches(p, sh, gs, env, n, e) && Acyclic(e)
    ensures AnswerAt(e, vars, u) in Answers(p, sh, gs, env, n, vars, u)
  {
  }

  /** The answers are exactly the restrictions of the solutions of the goals in the model. */
  lemma AnswersExact(p: Program, sh: Shape, gs: seq<Goal>, env: Env, n: nat, vars: seq<Name>, u: nat, a: Answer)
    requires Ready(p, sh, gs, env, n) && u < n && Asked(gs, env, vars, u)
    ensures a in Answers(p, sh, gs, env, n, vars, u) <==>
      exists s :: Solves(p.builtins, gs, env, Model(p, sh), vars, u, a, s)
  {
    if a in Answers(p, sh, gs, env, n, vars, u) {
      var e :| Reaches(p, sh, gs, env, n, e) && Acyclic(e) && a == AnswerAt(e, vars, u);
      var s := AnswerSound(p, sh, gs, env, n, vars, u, e);
    }
    hide Solves, Answers;
    forall s | Solves(p.builtins, gs, env, Model(p, sh), vars, u, a, s)
      ensures a in Answers(p, sh, gs, env, n, vars, u)
    {
      AnswerComplete(p, sh, gs, env, n, vars, u, a, s);
    }
  }

  lemma BoundAnswer(gs: seq<Goal>, env: Env, e: Env, s: Valuation, vars: seq<Name>, u: nat)
    requires Acyclic(env) && Acyclic(e) && Asked(gs, env, vars, u) && Sat(e, s)
    requires forall k :: Supplied(gs, |gs|, env, k) ==> Resolve(e, Ref(k)).Bound?
    ensures AnswerAt(e, vars, u) == GroundAnswer(s, vars, u)
  {
    forall x | x in vars
      ensures TermOf(Resolve(e, Ref(VarId(u, x)))) == Obj(s(VarId(u, x)))
    {
      assert Supplied(gs, |gs|, env, VarId(u, x));
      SatResolve(e, s, Ref(VarId(u, x)));
    }
  }

  /** A query that binds everything it needs and everything it asks for. */
  ghost predicate SafeQuery(bs: Registry, body: seq<Literal>, vars: seq<Name>) {
    && SafeBody(bs, body)
    && forall x :: x in vars ==> BoundBefore(body, |body|, x)
  }

  lemma QueryReady(p: Program, sh: Shape, body: seq<Literal>, vars: seq<Name>)
    requires Fits(p, sh) && SafeProgram(p) && SafeQuery(p.builtins, body, vars)
    ensures Acyclic(map[]) && Ready(p, sh, Goals(body, 0), map[], 1) && Asked(Goals(body, 0), map[], vars, 0)
  {
    AcyclicEmpty();
    var gs := Goals(body, 0);
    forall i, x | 0 <= i < |gs| && x in Needs(p.builtins, gs[i].lit)
      ensures Supplied(gs, i, map[], VarId(gs[i].u, x))
    {
      assert BoundBefore(body, i, x);
      var j :| 0 <= j < i && x in Binds(body[j]);
      assert Meets(gs[j], x, map[], VarId(0, x));
    }
    forall x | x in vars
      ensures Supplied(gs, |gs|, map[], VarId(0, x))
    {
      assert BoundBefore(body, |body|, x);
      var j :| 0 <= j < |body| && x in Binds(body[j]);
      assert Meets(gs[j], x, map[], VarId(0, x));
    }
  }

  ghost function ChosenAnswer(v: Choice, vars: seq<Name>): Answer {
    map x | x in vars :: Obj(v(x))
  }

  lemma SliceHolds(bs: Registry, body: seq<Literal>, s: Valuation, m: Interpretation)
    ensures GoalsHold(bs, Goals(body, 0), s, m) <==> BodyHolds(bs, body, Slice(s, 0), m)
  {
    if GoalsHold(bs, Goals(body, 0), s, m) {
      forall i | 0 <= i < |body|
        ensures Holds(bs, body[i], Slice(s, 0), m)
      {
        assert GoalHolds(bs, Goals(body, 0)[i], s, m);
      }
    }
    if BodyHolds(bs, body, Slice(s, 0), m) {
      forall i | 0 <= i < |body|
        ensures GoalHolds(bs, Goals(body, 0)[i], s, m)
      {
        assert Holds(bs, body[i], Slice(s, 0), m);
      }
    }
  }

  /** A choice of values as a valuation. */
  ghost function Spread(v: Choice): (s: Valuation) {
    (k: VarId) => v(k.name)
  }

  lemma SpreadHolds(bs: Registry, body: seq<Literal>, v: Choice, m: Interpretation)
    requires BodyHolds(bs, body, v, m)
    ensures BodyHolds(bs, body, Slice(Spread(v), 0), m)
  {
    forall i | 0 <= i < |body|
      ensures Holds(bs, body[i], Slice(Spread(v), 0), m)
    {
      assert Holds(bs, body[i], v, m);
      RowAgree(v, Slice(Spread(v), 0), body[i].args);
    }
  }

  /** v makes the body true, and a is what it says about the variables asked for. */
  ghost predicate Satisfies(bs: Registry, body: seq<Literal>, m: Interpretation, vars: seq<Name>, a: Answer,
      v: Choice) {
    BodyHolds(bs, body, v, m) && a == ChosenAnswer(v, vars)
  }

  lemma SolutionIsChoice(bs: Registry, body: seq<Literal>, m: Interpretation, vars: seq<Name>, a: Answer, s: Valuation)
    requires Solves(bs, Goals(body, 0), map[], m, vars, 0, a, s)
    ensures Satisfies(bs, body, m, vars, a, Slice(s, 0))
  {
    SliceHolds(bs, body, s, m);
  }

  lemma ChoiceIsSolution(bs: Registry, body: seq<Literal>, m: Interpretation, vars: seq<Name>, a: Answer, v: Choice)
    requires Satisfies(bs, body, m, vars, a, v)
    ensures Solves(bs, Goals(body, 0), map[], m, vars, 0, a, Spread(v))
  {
    SpreadHolds(bs, body, v, m);
    SliceHolds(bs, body, Spread(v), m);
  }

  /** From no bindings: the answers to a query are the choices of values that make it true. */
  lemma QueryExact(p: Program, sh: Shape, body: seq<Literal>, vars: seq<Name>, a: Answer)
    requires Fits(p, sh) && SafeProgram(p) && SafeQuery(p.builtins, body, vars)
    ensures Acyclic(map[])
    ensures a in Answers(p, sh, Goals(body, 0), map[], 1, vars, 0) <==>
      exists v :: Satisfies(p.builtins, body, Model(p, sh), vars, a, v)
  {
    var gs, m := Goals(body, 0), Model(p, sh);
    QueryReady(p, sh, body, vars);
    AnswersExact(p, sh, gs, map[], 1, vars, 0, a);
    hide Satisfies, Solves, Answers;
    forall s | Solves(p.builtins, gs, map[], m, vars, 0, a, s)
      ensures Satisfies(p.builtins, body, m, vars, a, Slice(s, 0))
    {
      SolutionIsChoice(p.builtins, body, m, vars, a, s);
    }
    forall v | Satisfies(p.builtins, body, m, vars, a, v)
      ensures Solves(p.builtins, gs, map[], m, vars, 0, a, Spread(v))
    {
      ChoiceIsSolution(p.builtins, body, m, vars, a, v);
    }
  }
}
