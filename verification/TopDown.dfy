/** congress/datalog/topdown.py: the search as it runs, over shared unifiers that are bound and
    undone and contexts whose index is bumped and restored. */
module TopDown {
  import opened Options
  import opened Datalog
  import opened Env
  import opened Unify
  import opened Semantics
  import opened Search
  import opened Safety
  import opened SearchTheorem
  import opened SearchAnswers
  import opened RuleSet

  /** A list of literals of which those from literalIndex on are still to be proved, and the
      context to return to once they are. */
  class Context {
    const literals: seq<Literal>
    var literalIndex: nat
    const binding: BiUnifier
    const previous: Context?
    /** The contexts to return to, innermost first. */
    ghost const chain: seq<Context>

    constructor (literals: seq<Literal>, binding: BiUnifier, previous: Context?)
      ensures this.literals == literals && literalIndex == 0
      ensures this.binding == binding && this.previous == previous
      ensures chain == if previous == null then [] else [previous] + previous.chain
    {
      this.literals := literals;
      this.literalIndex := 0;
      this.binding := binding;
      this.previous := previous;
      this.chain := if previous == null then [] else [previous] + previous.chain;
    }

    ghost predicate Valid(us: seq<BiUnifier>)
      reads this, chain
      decreases |chain|
    {
      && literalIndex < |literals|
      && IsAt(binding, us)
      && if previous == null then chain == []
         else |chain| > 0 && chain[0] == previous && chain[1..] == previous.chain && previous.Valid(us)
    }

    /** What is left to prove when the current literal has been proved. */
    ghost function After(us: seq<BiUnifier>): seq<Goal>
      requires Valid(us)
      reads this, chain
      decreases |chain|
    {
      var here := Goals(literals[literalIndex + 1..], binding.id);
      if previous == null then here else here + previous.After(us)
    }

    ghost function Current(): Goal
      requires literalIndex < |literals|
      reads this
    {
      Goal(literals[literalIndex], binding.id)
    }

    /** What is left to prove. */
    ghost function Pending(us: seq<BiUnifier>): (gs: seq<Goal>)
      requires Valid(us)
      reads this, chain
    {
      [Current()] + After(us)
    }

    lemma PendingSplits(us: seq<BiUnifier>)
      requires Valid(us)
      ensures literalIndex < |literals| && IsAt(binding, us)
      ensures Pending(us) != [] && Pending(us)[0] == Goal(literals[literalIndex], binding.id)
      ensures Pending(us)[1..] == After(us)
      ensures forall c :: c in Contexts(this) <==> c == this || c in chain
    {
    }

    /** A context for the body of a rule that is to prove the current literal of the previous one. */
    lemma Nested(us: seq<BiUnifier>)
      requires previous != null && previous.Valid(us) && chain == [previous] + previous.chain
      requires literals != [] && literalIndex == 0 && IsAt(binding, us)
      ensures Valid(us) && Pending(us) == Goals(literals, binding.id) + previous.After(us)
      ensures forall c :: c in Contexts(this) <==> c == this || c in Contexts(previous)
      ensures previous in chain && forall c :: c in previous.chain ==> c in chain
    {
      assert chain[1..] == previous.chain;
      assert literals[0..] == literals && After(us) == Goals(literals[1..], binding.id) + previous.After(us);
      hide After, Valid;
      GoalsNext(literals, 0, binding.id);
      Regroup([Goal(literals[0], binding.id)], Goals(literals[1..], binding.id), previous.After(us));
    }

    lemma Outermost(us: seq<BiUnifier>)
      requires literals != [] && literalIndex == 0 && previous == null && chain == [] && IsAt(binding, us)
      ensures Valid(us) && Pending(us) == Goals(literals, binding.id) && Contexts(this) == {this}
    {
      GoalsNext(literals, 0, binding.id);
      assert literals[0..] == literals;
    }

    lemma AfterLast(us: seq<BiUnifier>)
      requires Valid(us) && literalIndex == |literals| - 1
      ensures if previous == null then After(us) == [] else previous.Valid(us) && After(us) == previous.After(us)
      ensures Contexts(previous) <= Contexts(this) && this !in Contexts(previous)
      ensures previous == null ==> chain == []
      ensures previous != null ==>
        |previous.chain| < |chain| && forall c :: c in chain ==> c == previous || c in previous.chain
    {
      NotInChain(us);
      assert literals[literalIndex + 1..] == [];
    }

    /** Turns to the next literal. */
    method Advance(ghost us: seq<BiUnifier>)
      requires Valid(us) && literalIndex < |literals| - 1
      modifies this`literalIndex
      ensures literalIndex == old(literalIndex) + 1
      ensures Valid(us) && Pending(us) == old(After(us))
    {
      hide *;
      NotInChain(us);
      Parts(us);
      ghost var rest := if previous == null then [] else previous.After(us);
      AfterIs(us, rest);
      literalIndex := literalIndex + 1;
      Whole(us);
      PendingIs(us, rest);
    }

    lemma Parts(us: seq<BiUnifier>)
      requires Valid(us)
      ensures literalIndex < |literals| && IsAt(binding, us)
      ensures if previous == null then chain == []
        else |chain| > 0 && chain[0] == previous && chain[1..] == previous.chain && previous.Valid(us)
      ensures previous != null ==> previous in chain && forall c :: c in previous.chain ==> c in chain
    {
    }

    lemma Whole(us: seq<BiUnifier>)
      requires literalIndex < |literals| && IsAt(binding, us)
      requires if previous == null then chain == []
        else |chain| > 0 && chain[0] == previous && chain[1..] == previous.chain && previous.Valid(us)
      ensures Valid(us)
    {
    }

    lemma AfterIs(us: seq<BiUnifier>, rest: seq<Goal>)
      requires Valid(us) && rest == if previous == null then [] else previous.After(us)
      ensures After(us) == Goals(literals[literalIndex + 1..], binding.id) + rest
    {
    }

    lemma PendingIs(us: seq<BiUnifier>, rest: seq<Goal>)
      requires Valid(us) && rest == if previous == null then [] else previous.After(us)
      ensures Pending(us) == Goals(literals[literalIndex..], binding.id) + rest
    {
      GoalsNext(literals, literalIndex, binding.id);
      AfterIs(us, rest);
      hide After, Valid;
      Regroup([Current()], Goals(literals[literalIndex + 1..], binding.id), rest);
    }

    lemma NotInChain(us: seq<BiUnifier>)
      requires Valid(us)
      ensures this !in chain && forall c :: c in chain ==> |c.chain| < |chain|
      decreases |chain|
    {
      if previous != null {
        previous.NotInChain(us);
      }
    }

    /** Unifiers that come into use later make no difference. */
    lemma MoreUnifiers(us: seq<BiUnifier>, us': seq<BiUnifier>)
      requires Valid(us) && us <= us'
      ensures Valid(us') && After(us') == After(us)
      decreases |chain|
    {
      if previous != null {
        previous.MoreUnifiers(us, us');
      }
    }
  }

  lemma Regroup(a: seq<Goal>, b: seq<Goal>, c: seq<Goal>)
    ensures a + (b + c) == (a + b) + c
  {
  }

  lemma GoalsNext(body: seq<Literal>, i: nat, u: nat)
    requires i < |body|
    ensures Goals(body[i..], u) == [Goal(body[i], u)] + Goals(body[i + 1..], u)
  {
  }

  /** Who asked: the variables wanted, and the answers found so far. */
  class Caller {
    const variables: seq<Name>
    const binding: BiUnifier
    const findAll: bool
    var results: seq<Answer>

    constructor (variables: seq<Name>, binding: BiUnifier, findAll: bool)
      ensures this.variables == variables && this.binding == binding && this.findAll == findAll
      ensures results == []
    {
      this.variables := variables;
      this.binding := binding;
      this.findAll := findAll;
      this.results := [];
    }
  }

  /** The answers found by a search that ends with this verdict, compared with all there are. */
  ghost predicate Found(findAll: bool, finished: bool, news: seq<Answer>, all: iset<Answer>) {
    && (forall a :: a in news ==> a in all)
    && (findAll ==> forall a :: a in all ==> a in news)
    && (!findAll ==> |news| <= 1 && finished == (news != []) && (news == [] ==> all == iset{}))
  }

  ghost predicate Grown(before: seq<Answer>, after: seq<Answer>, findAll: bool, finished: bool, all: iset<Answer>) {
    before <= after && Found(findAll, finished, after[|before|..], all)
  }

  lemma HeadResultIs(env: Env, r: Rule, n: nat, g: Goal)
    requires Acyclic(env)
    ensures HeadResult(env, r, n, g) == UnifyLists(env, r.head.args, n, g.lit.args, g.u)
  {
  }

  // ----- trying rules one after the other

  /** The answers due to some of the rules. */
  ghost function Tried(p: Program, sh: Shape, rs: seq<Rule>, gs: seq<Goal>, env: Env, n: nat, vars: seq<Name>,
      u: nat): iset<Answer>
    requires Fits(p, sh) && Acyclic(env) && gs != []
  {
    iset i, a | 0 <= i < |rs| && a in RuleAnswers(p, sh, rs[i], gs, env, n, vars, u) :: a
  }

  lemma NoCandidates(p: Program, sh: Shape, gs: seq<Goal>, env: Env, n: nat, vars: seq<Name>, u: nat)
    requires Fits(p, sh) && Acyclic(env) && gs != []
    ensures Tried(p, sh, [], gs, env, n, vars, u) == iset{}
  {
  }

  lemma TriedNext(p: Program, sh: Shape, rs: seq<Rule>, i: nat, gs: seq<Goal>, env: Env, n: nat, vars: seq<Name>,
      u: nat)
    requires Fits(p, sh) && Acyclic(env) && gs != [] && i < |rs|
    ensures Tried(p, sh, rs[..i + 1], gs, env, n, vars, u) ==
      Tried(p, sh, rs[..i], gs, env, n, vars, u) + RuleAnswers(p, sh, rs[i], gs, env, n, vars, u)
  {
    assert rs[..i + 1] == rs[..i] + [rs[i]];
    hide RuleAnswers;
    forall a | a in Tried(p, sh, rs[..i], gs, env, n, vars, u) + RuleAnswers(p, sh, rs[i], gs, env, n, vars, u)
      ensures a in Tried(p, sh, rs[..i + 1], gs, env, n, vars, u)
    {
      if a in RuleAnswers(p, sh, rs[i], gs, env, n, vars, u) {
        assert rs[..i + 1][i] == rs[i];
      } else {
        var j :| 0 <= j < i && a in RuleAnswers(p, sh, rs[..i][j], gs, env, n, vars, u);
        assert rs[..i + 1][j] == rs[..i][j];
      }
    }
  }

  lemma TriedWithin(p: Program, sh: Shape, rs: seq<Rule>, i: nat, gs: seq<Goal>, env: Env, n: nat,
      vars: seq<Name>, u: nat)
    requires Fits(p, sh) && Acyclic(env) && gs != [] && KindOf(p.builtins, gs[0].lit).Lookup? && i <= |rs|
    requires forall r :: r in rs ==> r in p.rules && r.head.table == gs[0].lit.table
    ensures Tried(p, sh, rs[..i], gs, env, n, vars, u) <= Answers(p, sh, gs, env, n, vars, u)
  {
    AnswersLookup(p, sh, gs, env, n, vars, u);
    hide Answers, RuleAnswers;
    forall a | a in Tried(p, sh, rs[..i], gs, env, n, vars, u)
      ensures a in Answers(p, sh, gs, env, n, vars, u)
    {
      var j :| 0 <= j < i && a in RuleAnswers(p, sh, rs[..i][j], gs, env, n, vars, u);
      assert rs[..i][j] in rs;
    }
  }

  /** A rule whose head clashes with the literal, as far as that is bound, has no answers. */
  lemma ClashFails(env: Env, r: Rule, n: nat, g: Goal)
    requires Acyclic(env) && Clashes(r, PlugEnv(env, g.lit, g.u))
    ensures HeadResult(env, r, n, g).None?
  {
    var lit := PlugEnv(env, g.lit, g.u);
    var i :| 0 <= i < |lit.args| && i < |r.head.args|
      && lit.args[i].Obj? && r.head.args[i].Obj? && lit.args[i] != r.head.args[i];
    UnifyListsComplete(env, r.head.args, n, g.lit.args, g.u);
    forall s | Sat(env, s)
      ensures !Equates(s, r.head.args, n, g.lit.args, g.u)
    {
      SatResolve(env, s, At(g.lit.args[i], g.u));
      assert Value(s, At(r.head.args[i], n)) != Value(s, At(g.lit.args[i], g.u));
    }
  }

  /** The rules that the index leaves out have no answers. */
  lemma CandidatesSuffice(p: Program, sh: Shape, rs: seq<Rule>, gs: seq<Goal>, env: Env, n: nat, vars: seq<Name>,
      u: nat)
    requires Fits(p, sh) && Acyclic(env) && gs != [] && KindOf(p.builtins, gs[0].lit).Lookup?
    requires forall r :: r in rs ==> r in p.rules && r.head.table == gs[0].lit.table
    requires forall r :: r in p.rules && r.head.table == gs[0].lit.table ==>
      r in rs || Clashes(r, PlugEnv(env, gs[0].lit, gs[0].u))
    ensures Tried(p, sh, rs, gs, env, n, vars, u) == Answers(p, sh, gs, env, n, vars, u)
  {
    AnswersLookup(p, sh, gs, env, n, vars, u);
    assert rs[..|rs|] == rs;
    TriedWithin(p, sh, rs, |rs|, gs, env, n, vars, u);
    hide Answers, RuleAnswers;
    forall a | a in Answers(p, sh, gs, env, n, vars, u)
      ensures a in Tried(p, sh, rs, gs, env, n, vars, u)
    {
      var r :| r in p.rules && r.head.table == gs[0].lit.table && a in RuleAnswers(p, sh, r, gs, env, n, vars, u);
      if r !in rs {
        ClashFails(env, r, n, gs[0]);
        AnswersRule(p, sh, r, gs, env, n, vars, u);
      }
      var i :| 0 <= i < |rs| && rs[i] == r;
    }
  }

  lemma GrownJoin(before: seq<Answer>, middle: seq<Answer>, after: seq<Answer>, findAll: bool, finished: bool,
      s: iset<Answer>, t: iset<Answer>)
    requires Grown(before, middle, findAll, false, s) && Grown(middle, after, findAll, finished, t)
    ensures Grown(before, after, findAll, finished, s + t)
  {
    assert after[|before|..] == middle[|before|..] + after[|middle|..];
  }

  lemma GrownEnough(before: seq<Answer>, after: seq<Answer>, some: iset<Answer>, all: iset<Answer>)
    requires Grown(before, after, false, true, some) && some <= all
    ensures Grown(before, after, false, true, all)
  {
  }

  lemma GrownGoOn(before: seq<Answer>, after: seq<Answer>, findAll: bool, finished: bool, all: iset<Answer>)
    requires Grown(before, after, findAll, finished, all) && (findAll || !finished)
    ensures Grown(before, after, findAll, false, all)
  {
  }

  // ----- queries

  /** The variables among some terms, as a list. */
  function VarList(ts: seq<Term>): (xs: seq<Name>)
    ensures forall x :: x in xs <==> x in VarNames(ts)
  {
    if ts == [] then []
    else (if ts[0].Var? then [ts[0].name] else []) + VarList(ts[1..])
  }

  /** plug, with the bindings in a dictionary. */
  function PlugAnswer(lit: Literal, a: Answer): Literal {
    Literal(lit.table,
      seq(|lit.args|, i requires 0 <= i < |lit.args| =>
        if lit.args[i].Var? && lit.args[i].name in a then a[lit.args[i].name] else lit.args[i]),
      lit.negated)
  }

  /** The literal with the values chosen in place of its arguments. */
  function Instance(lit: Literal, v: Choice): Literal {
    Literal(lit.table, Objs(Row(v, lit.args)), lit.negated)
  }

  function Instances(body: seq<Literal>, v: Choice): (lits: seq<Literal>)
    ensures |lits| == |body| && forall i :: 0 <= i < |lits| ==> lits[i] == Instance(body[i], v)
  {
    seq(|body|, i requires 0 <= i < |body| => Instance(body[i], v))
  }

  /** Plugging in what a choice says about the variables gives the instance for that choice. */
  lemma PlugIsInstance(lit: Literal, v: Choice, vars: seq<Name>)
    requires forall x :: x in lit.Vars() ==> x in vars
    ensures PlugAnswer(lit, ChosenAnswer(v, vars)) == Instance(lit, v)
  {
    forall i | 0 <= i < |lit.args|
      ensures PlugAnswer(lit, ChosenAnswer(v, vars)).args[i] == Obj(Row(v, lit.args)[i])
    {
      if lit.args[i].Var? {
        assert lit.args[i].name in lit.Vars();
      }
    }
  }

  /** The variables of some literals. */
  function BodyList(body: seq<Literal>): (xs: seq<Name>)
    ensures forall i, x :: 0 <= i < |body| && x in body[i].Vars() ==> x in xs
  {
    if body == [] then []
    else
      var xs := VarList(body[0].args) + BodyList(body[1..]);
      assert forall i, x :: 0 <= i < |body| && x in body[i].Vars() ==> x in xs by {
        forall i, x | 0 <= i < |body| && x in body[i].Vars()
          ensures x in xs
        {
          if i > 0 {
            assert body[i] == body[1..][i - 1];
          }
        }
      }
      xs
  }

  function PlugBody(body: seq<Literal>, a: Answer): (lits: seq<Literal>)
    ensures |lits| == |body| && forall i :: 0 <= i < |lits| ==> lits[i] == PlugAnswer(body[i], a)
  {
    seq(|body|, i requires 0 <= i < |body| => PlugAnswer(body[i], a))
  }

  lemma PlugsAreInstances(body: seq<Literal>, v: Choice, vars: seq<Name>)
    requires forall i, x :: 0 <= i < |body| && x in body[i].Vars() ==> x in vars
    ensures PlugBody(body, ChosenAnswer(v, vars)) == Instances(body, v)
  {
    forall i | 0 <= i < |body|
      ensures PlugBody(body, ChosenAnswer(v, vars))[i] == Instance(body[i], v)
    {
      PlugIsInstance(body[i], v, vars);
    }
  }

  /** lit is the query with a value for each variable. */
  ghost predicate Grounds(query: Literal, lit: Literal) {
    && lit.table == query.table && lit.negated == query.negated && |lit.args| == |query.args|
    && (forall i :: 0 <= i < |lit.args| ==> lit.args[i].Obj? && (query.args[i].Obj? ==> lit.args[i] == query.args[i]))
    && forall i, j :: 0 <= i < j < |lit.args| && query.args[i] == query.args[j] ==> lit.args[i] == lit.args[j]
  }

  /** The values of an instance. */
  function ValuesOf(lit: Literal): (row: seq<Const>)
    requires forall i :: 0 <= i < |lit.args| ==> lit.args[i].Obj?
    ensures |row| == |lit.args| && forall i :: 0 <= i < |row| ==> lit.args[i] == Obj(row[i])
  {
    seq(|lit.args|, i requires 0 <= i < |lit.args| => lit.args[i].value)
  }

  lemma InstanceGrounds(query: Literal, v: Choice)
    ensures Grounds(query, Instance(query, v)) && HasValues(query.args, v, ValuesOf(Instance(query, v)))
  {
  }

  /** What gives each variable of the query its value in an instance. */
  lemma ChoiceFor(query: Literal, lit: Literal) returns (v: Choice)
    requires Grounds(query, lit)
    ensures Instance(query, v) == lit
  {
    var row := ValuesOf(lit);
    v := x => if Var(x) in query.args then
        var i :| 0 <= i < |query.args| && query.args[i] == Var(x);
        row[i]
      else Num(0);
    forall i | 0 <= i < |query.args|
      ensures Eval(v, query.args[i]) == row[i]
    {
      if query.args[i].Var? {
        assert query.args[i] in query.args;
      }
    }
    assert Row(v, query.args) == row;
    assert Objs(row) == lit.args;
  }

  /** lit is the query answered by a call: the code returns on its first arguments, and what it
      returns is the others, or true if there are none. */
  ghost predicate CallAnswers(b: Builtin, query: Literal, lit: Literal) {
    && Grounds(query, lit) && b.numInputs <= |lit.args|
    && var r := b.code(ValuesOf(lit)[..b.numInputs]);
    r.Returned? && if b.numOutputs > 0 then r.values == ValuesOf(lit)[b.numInputs..] else r.truthy
  }

  /** A true instance of a literal: one that the code answers, for a table of a builtin that has the
      right number of arguments or none, and one in the model for any other. */
  ghost predicate TrueInstance(bs: Registry, query: Literal, m: Interpretation, lit: Literal) {
    if query.table in bs && (query.args == [] || |query.args| == bs[query.table].numInputs + bs[query.table].numOutputs)
    then CallAnswers(bs[query.table], query, lit)
    else Grounds(query, lit) && Atom(query.table, ValuesOf(lit)) in m
  }

  lemma TrueInstances(bs: Registry, query: Literal, m: Interpretation, lit: Literal)
    requires !query.negated && query.table != Name("true") && query.table != Name("false")
    ensures TrueInstance(bs, query, m, lit) <==> exists v :: Holds(bs, query, v, m) && lit == Instance(query, v)
  {
    hide Holds, Instance, HasValues;
    forall v | lit == Instance(query, v)
      ensures Grounds(query, lit) && HasValues(query.args, v, ValuesOf(lit))
    {
      InstanceGrounds(query, v);
    }
    if Grounds(query, lit) {
      var w := ChoiceFor(query, lit);
    }
    forall v | lit == Instance(query, v)
      ensures Holds(bs, query, v, m) <==> TrueInstance(bs, query, m, lit)
    {
      if query.table in bs
        && (query.args == [] || |query.args| == bs[query.table].numInputs + bs[query.table].numOutputs) {
        CallTruth(bs, query, v, m, ValuesOf(lit));
      } else {
        LookupTruth(bs, query, v, m, ValuesOf(lit));
      }
    }
  }

  lemma SelectedAre(p: Program, query: Literal, m: Interpretation, results: seq<Literal>)
    requires !query.negated && query.table != Name("true") && query.table != Name("false")
    requires forall lit :: lit in results ==> exists v :: Holds(p.builtins, query, v, m) && lit == Instance(query, v)
    requires forall v :: Holds(p.builtins, query, v, m) ==> Instance(query, v) in results
    ensures forall lit :: lit in results <==> TrueInstance(p.builtins, query, m, lit)
  {
    hide Holds, Instance, TrueInstance;
    forall lit
      ensures lit in results <==> exists v :: Holds(p.builtins, query, v, m) && lit == Instance(query, v)
    {
    }
    forall lit {
      TrueInstances(p.builtins, query, m, lit);
    }
  }

  /** Any atom may be asked for. */
  lemma AtomQuery(bs: Registry, query: Literal)
    requires KindOf(bs, query).Lookup?
    ensures SafeQuery(bs, [query], VarList(query.args))
  {
    forall x | x in VarList(query.args)
      ensures BoundBefore([query], 1, x)
    {
      assert x in Binds([query][0]);
    }
  }

  lemma OneLiteral(bs: Registry, query: Literal, v: Choice, m: Interpretation)
    ensures BodyHolds(bs, [query], v, m) <==> Holds(bs, query, v, m)
  {
    assert [query][0] == query;
  }

  lemma NoContext()
    ensures Contexts(null) == {}
  {
  }

  lemma QuerySized(widths: map<Name, nat>, body: seq<Literal>)
    requires SizedLiterals(widths, body)
    ensures SizedGoals(widths, Goals(body, 0))
  {
  }

  lemma QueryAnswered(p: Program, sh: Shape, literals: seq<Literal>, vars: seq<Name>, findAll: bool,
      finished: bool, results: seq<Answer>)
    requires Fits(p, sh) && SafeProgram(p) && SafeQuery(p.builtins, literals, vars) && Acyclic(map[])
    requires Grown([], results, findAll, finished, Answers(p, sh, Goals(literals, 0), map[], 1, vars, 0))
    ensures forall a :: a in results ==> exists v :: Satisfies(p.builtins, literals, Model(p, sh), vars, a, v)
    ensures findAll ==> forall a, v :: Satisfies(p.builtins, literals, Model(p, sh), vars, a, v) ==> a in results
    ensures !findAll ==> |results| <= 1
    ensures results == [] ==> forall v :: !BodyHolds(p.builtins, literals, v, Model(p, sh))
  {
    var all := Answers(p, sh, Goals(literals, 0), map[], 1, vars, 0);
    assert results[0..] == results;
    assert Found(findAll, finished, results, all);
    forall a
      ensures a in all <==> exists v :: Satisfies(p.builtins, literals, Model(p, sh), vars, a, v)
    {
      QueryExact(p, sh, literals, vars, a);
    }
    forall v | BodyHolds(p.builtins, literals, v, Model(p, sh))
      ensures results != []
    {
      var a := ChosenAnswer(v, vars);
      assert Satisfies(p.builtins, literals, Model(p, sh), vars, a, v);
      assert a in all;
    }
  }

  /** The heap at one moment. */
  datatype Snapshot = Snapshot(env: Env, unifiers: seq<BiUnifier>, store: Store)

  /** Since then one unifier has come into use, and these changes lead back. */
  ghost predicate Opened(now: Snapshot, changes: seq<Undo>, was: Snapshot) {
    && |now.unifiers| == |was.unifiers| + 1 && now.unifiers[..|was.unifiers|] == was.unifiers
    && |was.store| == |was.unifiers| && Below(was.env, |was.unifiers|)
    && Coupled(was.env, was.store + [map[]], now.unifiers)
    && Within(was.store + [map[]], now.store)
    && Leads(now.unifiers, now.env, changes, was.env)
  }

  /** Unifies a list, read in a new unifier, with another one.  The new unifier is returned with
      the changes, unless the lists do not unify and everything is as before. */
  method OpenUnifier(terms: seq<Term>, args: seq<Term>, binding: BiUnifier, ghost h: Heap)
      returns (r: Option<(BiUnifier, seq<Undo>)>)
    requires h.Valid() && IsAt(binding, h.unifiers)
    modifies h, h.unifiers
    ensures h.Valid()
    ensures var e := UnifyLists(old(h.env), terms, |old(h.unifiers)|, args, binding.id);
      r.Some? == e.Some? && h.env == if e.Some? then e.value else old(h.env)
    ensures r.None? ==> h.unifiers == old(h.unifiers) && h.Contents() == old(h.Contents())
    ensures r.Some? ==>
      && fresh(r.value.0) && r.value.0.id == |old(h.unifiers)|
      && h.unifiers == old(h.unifiers) + [r.value.0]
      && old(h.unifiers) <= h.unifiers
      && Opened(Snapshot(h.env, h.unifiers, h.Contents()), r.value.1,
        Snapshot(old(h.env), old(h.unifiers), old(h.Contents())))
    ensures r.Some? ==> forall b :: b == r.value.0 || IsAt(b, old(h.unifiers)) ==> IsAt(b, h.unifiers)
  {
    hide Heap.Valid, Heap.Contents, Coupled, Within, Leads, Below, UnifyLists;
    h.ValidEnv();
    ghost var us0 := h.unifiers;
    var unifier := new BiUnifier(|h.unifiers|);
    h.Enlist(unifier);
    h.ValidEnv();
    StillAt(us0, unifier);
    ghost var store1 := h.Contents();
    var undo := BiUnifyLists(terms, unifier, args, binding, h);
    if undo.None? {
      h.Drop();
      assert store1[..|us0|] == old(h.Contents());
      return None;
    }
    return Some((unifier, undo.value));
  }

  method CloseUnifier(changes: seq<Undo>, ghost was: Snapshot, ghost h: Heap)
    requires h.Valid() && Opened(Snapshot(h.env, h.unifiers, h.Contents()), changes, was)
    modifies h, h.unifiers
    ensures h.Valid()
    ensures h.env == was.env && h.unifiers == was.unifiers && h.Contents() == was.store
  {
    hide Heap.Valid, Heap.Contents, Coupled, Within, Leads, Below;
    Rewind(Some(changes), h, was.env, was.store + [map[]]);
    h.Drop();
    assert (was.store + [map[]])[..|was.store|] == was.store;
  }

  /** A unifier that comes into use does not move the others. */
  lemma StillAt(us: seq<BiUnifier>, u: BiUnifier)
    requires u.id == |us|
    ensures us <= us + [u] && (us + [u])[..|us|] == us && IsAt(u, us + [u])
    ensures forall b :: IsAt(b, us) ==> IsAt(b, us + [u])
  {
  }

  /** What a call gives, once its inputs are known to be bound. */
  lemma ResultOf(b: Builtin, env: Env, lit: Literal, u: nat, n: nat)
    requires Acyclic(env) && b.numInputs <= |lit.args| && AllBound(env, lit.args[..b.numInputs], u)
    ensures var out := b.code(BoundRow(env, lit.args[..b.numInputs], u));
      CallResult(b, env, lit, u, n) ==
        if out.Raised? then None
        else if b.numOutputs > 0 then UnifyLists(env, Objs(out.values), n, lit.args[b.numInputs..], u)
        else if out.truthy then Some(env)
        else None
    ensures Created(b) == if b.numOutputs > 0 then 1 else 0
  {
  }

  lemma KindSays(bs: Registry, lit: Literal)
    ensures KindOf(bs, lit).Negation? <==> lit.negated
    ensures KindOf(bs, lit).Call? ==> lit.table in bs
  {
  }

  lemma PluggedGround(env: Env, lit: Literal, u: nat)
    requires Acyclic(env) && AllBound(env, lit.args, u)
    ensures PlugEnv(env, lit, u).IsGround()
  {
  }

  lemma GrownFromNone(results: seq<Answer>, finished: bool, all: iset<Answer>)
    requires Grown([], results, false, finished, all)
    ensures results == [] <==> all == iset{}
  {
    assert results[0..] == results;
    if results != [] {
      assert results[0] in results;
    }
  }

  lemma GrownByOne(results: seq<Answer>, a: Answer, findAll: bool)
    ensures Grown(results, results + [a], findAll, true, iset{a})
  {
    assert (results + [a])[|results|..] == [a];
  }

  lemma GrownNothing(results: seq<Answer>, findAll: bool)
    ensures Grown(results, results, findAll, false, iset{})
  {
    assert results[|results|..] == [];
  }

  /** The literals may be looked up: facts are as wide as the literals that ask for them. */
  ghost predicate SizedLiterals(widths: map<Name, nat>, body: seq<Literal>) {
    forall i :: 0 <= i < |body| ==> Sized(widths, body[i].table, |body[i].args|)
  }

  ghost predicate SizedGoals(widths: map<Name, nat>, gs: seq<Goal>) {
    forall i :: 0 <= i < |gs| ==> Sized(widths, gs[i].lit.table, |gs[i].lit.args|)
  }

  class TopDownTheory {
    const rules: RuleSet
    const builtins: Registry

    constructor (rules: RuleSet, builtins: Registry)
      ensures this.rules == rules && this.builtins == builtins
    {
      this.rules := rules;
      this.builtins := builtins;
    }

    /** The theory holds the program p, and its facts are as wide as the rules think. */
    ghost predicate Means(p: Program)
      reads rules, rules.repr
    {
      && rules.Valid()
      && p == Program(rules.Content(), builtins)
      && forall r :: r in p.rules ==> SizedLiterals(rules.widths, r.body)
    }

    /** The heap, the goals and the caller are fit for a search. */
    ghost predicate Searchable(p: Program, sh: Shape, gs: seq<Goal>, caller: Caller, h: Heap)
      reads rules, rules.repr, h, h.unifiers
    {
      && Means(p)
      && h.Valid()
      && h.Live(caller.binding)
      && Ready(p, sh, gs, h.env, |h.unifiers|)
      && SizedGoals(rules.widths, gs)
    }

    /** The state of one search is fit for another one. */
    lemma Refocus(p: Program, sh: Shape, gs: seq<Goal>, gs': seq<Goal>, caller: Caller, caller': Caller, h: Heap)
      requires Searchable(p, sh, gs, caller, h)
      requires Ready(p, sh, gs', h.env, |h.unifiers|) && SizedGoals(rules.widths, gs') && h.Live(caller'.binding)
      ensures Searchable(p, sh, gs', caller', h)
    {
    }

    lemma Pack(p: Program, sh: Shape, gs: seq<Goal>, caller: Caller, h: Heap)
      requires Means(p) && h.Valid() && IsAt(caller.binding, h.unifiers)
      requires Ready(p, sh, gs, h.env, |h.unifiers|) && SizedGoals(rules.widths, gs)
      ensures Searchable(p, sh, gs, caller, h)
    {
    }

    lemma Unpack(p: Program, sh: Shape, gs: seq<Goal>, caller: Caller, h: Heap)
      requires Searchable(p, sh, gs, caller, h)
      ensures Means(p) && h.Valid() && h.Live(caller.binding) && p.builtins == builtins
      ensures IsAt(caller.binding, h.unifiers)
      ensures forall b :: IsAt(b, h.unifiers) ==> h.Live(b)
      ensures Ready(p, sh, gs, h.env, |h.unifiers|) && SizedGoals(rules.widths, gs)
      ensures Fits(p, sh) && Acyclic(h.env) && SafeGoals(p.builtins, gs, h.env) && Below(h.env, |h.unifiers|)
      ensures gs != [] ==> SizedGoals(rules.widths, gs[1..]) && Sized(rules.widths, gs[0].lit.table, |gs[0].lit.args|)
      ensures gs != [] ==> SizedGoals(rules.widths, [Goal(gs[0].lit.Complement(), gs[0].u)])
    {
    }

    /** Called once a proof is complete: goes on with what is left, or stores an answer. */
    method TopDownFinish(context: Context?, caller: Caller, ghost p: Program, ghost sh: Shape,
        ghost gs: seq<Goal>, ghost h: Heap)
        returns (finished: bool)
      requires if context == null then gs == [] else context.Valid(h.unifiers) && gs == context.After(h.unifiers)
      requires Searchable(p, sh, gs, caller, h)
      modifies Contexts(context), caller`results, h, h.unifiers, rules.repr
      ensures Searchable(p, sh, gs, caller, h)
      ensures h.env == old(h.env) && h.unifiers == old(h.unifiers) && h.Contents() == old(h.Contents())
      ensures context != null ==> unchanged(context, context.chain)
      ensures Grown(old(caller.results), caller.results, caller.findAll, finished,
        Answers(p, sh, gs, h.env, |h.unifiers|, caller.variables, caller.binding.id))
      decreases GoalsWeight(sh, gs), 4, if context == null then 0 else 1 + |context.chain|
    {
      hide *;
      Unpack(p, sh, gs, caller, h);
      if context == null {
        var answer := Flatten(caller, h);
        AnswersDone(p, sh, h.env, |h.unifiers|, caller.variables, caller.binding.id);
        GrownByOne(caller.results, answer, caller.findAll);
        caller.results := caller.results + [answer];
        return true;
      }
      context.PendingSplits(h.unifiers);
      if context.literalIndex < |context.literals| - 1 {
        context.Advance(h.unifiers);
        finished := TopDownEval(context, caller, p, sh, gs, h);
        context.literalIndex := context.literalIndex - 1;
      } else {
        context.AfterLast(h.unifiers);
        finished := TopDownFinish(context.previous, caller, p, sh, gs, h);
      }
    }

    /** Proves the current literal of the context and then what is left after it. */
    method TopDownEval(context: Context, caller: Caller, ghost p: Program, ghost sh: Shape, ghost gs: seq<Goal>,
        ghost h: Heap)
        returns (finished: bool)
      requires context.Valid(h.unifiers) && gs == context.Pending(h.unifiers)
      requires Searchable(p, sh, gs, caller, h)
      modifies Contexts(context), caller`results, h, h.unifiers, rules.repr
      ensures Searchable(p, sh, gs, caller, h)
      ensures h.env == old(h.env) && h.unifiers == old(h.unifiers) && h.Contents() == old(h.Contents())
      ensures unchanged(context, context.chain)
      ensures Grown(old(caller.results), caller.results, caller.findAll, finished,
        Answers(p, sh, gs, h.env, |h.unifiers|, caller.variables, caller.binding.id))
      decreases GoalsWeight(sh, gs), 3, 0
    {
      hide *;
      context.PendingSplits(h.unifiers);
      Unpack(p, sh, gs, caller, h);
      PopLighter(sh, gs);
      var lit := context.literals[context.literalIndex];
      match KindOf(builtins, lit) {
        case Negation =>
          finished := TopDownNegation(context, caller, p, sh, gs, h);
        case Truth =>
          AnswersTruth(p, sh, gs, h.env, |h.unifiers|, caller.variables, caller.binding.id);
          ReadyPop(p, sh, gs, h.env, |h.unifiers|);
          Refocus(p, sh, gs, gs[1..], caller, caller, h);
          finished := TopDownFinish(context, caller, p, sh, gs[1..], h);
          Refocus(p, sh, gs[1..], gs, caller, caller, h);
        case Falsity =>
          AnswersTruth(p, sh, gs, h.env, |h.unifiers|, caller.variables, caller.binding.id);
          GrownNothing(caller.results, caller.findAll);
          finished := false;
        case Call =>
          finished := TopDownBuiltin(context, caller, p, sh, gs, h);
        case Lookup =>
          finished := TopDownTh(context, caller, p, sh, gs, h);
      }
    }

    /** Negation by failure: the literal is ground, so one answer to its complement refutes it. */
    method TopDownNegation(context: Context, caller: Caller, ghost p: Program, ghost sh: Shape,
        ghost gs: seq<Goal>, ghost h: Heap)
        returns (finished: bool)
      requires context.Valid(h.unifiers) && gs == context.Pending(h.unifiers)
      requires KindOf(p.builtins, gs[0].lit).Negation?
      requires Searchable(p, sh, gs, caller, h)
      modifies Contexts(context), caller`results, h, h.unifiers, rules.repr
      ensures Searchable(p, sh, gs, caller, h)
      ensures h.env == old(h.env) && h.unifiers == old(h.unifiers) && h.Contents() == old(h.Contents())
      ensures unchanged(context, context.chain)
      ensures Grown(old(caller.results), caller.results, caller.findAll, finished,
        Answers(p, sh, gs, h.env, |h.unifiers|, caller.variables, caller.binding.id))
      decreases GoalsWeight(sh, gs), 2, 0
    {
      hide *;
      context.PendingSplits(h.unifiers);
      Unpack(p, sh, gs, caller, h);
      PopLighter(sh, gs);
      ReadyPop(p, sh, gs, h.env, |h.unifiers|);
      AnswersNegation(p, sh, gs, h.env, |h.unifiers|, caller.variables, caller.binding.id);
      var refuted := Refutes(context, caller, p, sh, gs, h);
      if refuted {
        GrownNothing(caller.results, caller.findAll);
        return false;
      }
      Refocus(p, sh, gs, gs[1..], caller, caller, h);
      finished := TopDownFinish(context, caller, p, sh, gs[1..], h);
      Refocus(p, sh, gs[1..], gs, caller, caller, h);
    }

    /** Whether the complement of the current literal has an answer. */
    method Refutes(context: Context, caller: Caller, ghost p: Program, ghost sh: Shape, ghost gs: seq<Goal>,
        ghost h: Heap)
        returns (refuted: bool)
      requires context.Valid(h.unifiers) && gs == context.Pending(h.unifiers)
      requires KindOf(p.builtins, gs[0].lit).Negation?
      requires Searchable(p, sh, gs, caller, h)
      modifies h, h.unifiers, rules.repr
      ensures Searchable(p, sh, gs, caller, h)
      ensures h.env == old(h.env) && h.unifiers == old(h.unifiers) && h.Contents() == old(h.Contents())
      ensures refuted <==> Answers(p, sh, [Goal(gs[0].lit.Complement(), gs[0].u)], h.env, |h.unifiers|,
        caller.variables, caller.binding.id) != iset{}
      decreases GoalsWeight(sh, gs), 1, 0
    {
      hide *;
      context.PendingSplits(h.unifiers);
      Unpack(p, sh, gs, caller, h);
      var lit := context.literals[context.literalIndex];
      ghost var pos := [Goal(lit.Complement(), context.binding.id)];
      KindSays(p.builtins, lit);
      NegationGround(p.builtins, gs, h.env);
      var plugged := context.binding.Plug(lit, h);
      PluggedGround(h.env, lit, context.binding.id);
      assert plugged.IsGround();
      var newContext := new Context([lit.Complement()], context.binding, null);
      var newCaller := new Caller(caller.variables, caller.binding, false);
      newContext.Outermost(h.unifiers);
      assert Goals(newContext.literals, context.binding.id) == pos;
      ReadyNegation(p, sh, gs, h.env, |h.unifiers|);
      NegationLighter(sh, gs);
      Refocus(p, sh, gs, pos, caller, newCaller, h);
      var finished := TopDownEval(newContext, newCaller, p, sh, pos, h);
      GrownFromNone(newCaller.results, finished,
        Answers(p, sh, pos, h.env, |h.unifiers|, caller.variables, caller.binding.id));
      Refocus(p, sh, pos, gs, newCaller, caller, h);
      return |newCaller.results| > 0;
    }

    /** A builtin: its inputs are bound; its results must unify with the remaining arguments. */
    method TopDownBuiltin(context: Context, caller: Caller, ghost p: Program, ghost sh: Shape,
        ghost gs: seq<Goal>, ghost h: Heap)
        returns (finished: bool)
      requires context.Valid(h.unifiers) && gs == context.Pending(h.unifiers)
      requires KindOf(p.builtins, gs[0].lit).Call?
      requires Searchable(p, sh, gs, caller, h)
      modifies Contexts(context), caller`results, h, h.unifiers, rules.repr
      ensures Searchable(p, sh, gs, caller, h)
      ensures h.env == old(h.env) && h.unifiers == old(h.unifiers) && h.Contents() == old(h.Contents())
      ensures unchanged(context, context.chain)
      ensures Grown(old(caller.results), caller.results, caller.findAll, finished,
        Answers(p, sh, gs, h.env, |h.unifiers|, caller.variables, caller.binding.id))
      decreases GoalsWeight(sh, gs), 2, 0
    {
      hide *;
      context.PendingSplits(h.unifiers);
      Unpack(p, sh, gs, caller, h);
      PopLighter(sh, gs);
      var lit := context.literals[context.literalIndex];
      KindSays(p.builtins, lit);
      var built := builtins[lit.table];
      InputsGround(p.builtins, gs, h.env);
      AnswersCall(p, sh, gs, h.env, |h.unifiers|, caller.variables, caller.binding.id);
      var args := Inputs(context.binding, lit, built.numInputs, h);
      var result := built.code(args);
      ResultOf(built, h.env, lit, context.binding.id, |h.unifiers|);
      if result.Raised? || (built.numOutputs == 0 && !result.truthy) {
        GrownNothing(caller.results, caller.findAll);
        return false;
      }
      ReadyCall(p, sh, gs, h.env, |h.unifiers|);
      if built.numOutputs == 0 {
        Refocus(p, sh, gs, gs[1..], caller, caller, h);
        finished := TopDownFinish(context, caller, p, sh, gs[1..], h);
        Refocus(p, sh, gs[1..], gs, caller, caller, h);
      } else {
        finished := ContinueWith(context, caller, result.values, lit.args[built.numInputs..], p, sh, gs, h);
      }
    }

    /** Binds the results of a builtin, goes on, and undoes the bindings. */
    method ContinueWith(context: Context, caller: Caller, values: seq<Const>, rest: seq<Term>, ghost p: Program,
        ghost sh: Shape, ghost gs: seq<Goal>, ghost h: Heap)
        returns (finished: bool)
      requires context.Valid(h.unifiers) && gs != [] && gs[1..] == context.After(h.unifiers)
      requires Searchable(p, sh, gs, caller, h)
      requires var e := UnifyLists(h.env, Objs(values), |h.unifiers|, rest, context.binding.id);
        e.Some? ==> Ready(p, sh, gs[1..], e.value, |h.unifiers| + 1)
      modifies Contexts(context), caller`results, h, h.unifiers, rules.repr
      ensures Searchable(p, sh, gs, caller, h)
      ensures h.env == old(h.env) && h.unifiers == old(h.unifiers) && h.Contents() == old(h.Contents())
      ensures unchanged(context, context.chain)
      ensures var e := UnifyLists(h.env, Objs(values), |h.unifiers|, rest, context.binding.id);
        Grown(old(caller.results), caller.results, caller.findAll, finished,
          if e.Some? then Answers(p, sh, gs[1..], e.value, |h.unifiers| + 1, caller.variables, caller.binding.id)
            else iset{})
      decreases GoalsWeight(sh, gs), 1, 0
    {
      hide *;
      Unpack(p, sh, gs, caller, h);
      PopLighter(sh, gs);
      context.PendingSplits(h.unifiers);
      ghost var was := Snapshot(h.env, h.unifiers, h.Contents());
      var undo := OpenUnifier(Objs(values), rest, context.binding, h);
      if undo.Some? {
        context.MoreUnifiers(was.unifiers, h.unifiers);
        Pack(p, sh, gs[1..], caller, h);
        finished := TopDownFinish(context, caller, p, sh, gs[1..], h);
        Unpack(p, sh, gs[1..], caller, h);
        CloseUnifier(undo.value.1, was, h);
      } else {
        GrownNothing(caller.results, caller.findAll);
        finished := false;
      }
      Pack(p, sh, gs, caller, h);
    }

    /** The values of a builtin's inputs. */
    method Inputs(binding: BiUnifier, lit: Literal, k: nat, ghost h: Heap) returns (args: seq<Const>)
      requires h.Valid() && h.Live(binding) && k <= |lit.args|
      requires AllBound(h.env, lit.args[..k], binding.id)
      ensures args == BoundRow(h.env, lit.args[..k], binding.id)
    {
      var plugged := binding.Plug(lit, h);
      args := [];
      for i := 0 to k
        invariant |args| == i
        invariant forall j :: 0 <= j < i ==> Resolve(h.env, At(lit.args[j], binding.id)) == Bound(args[j])
      {
        assert Resolve(h.env, At(lit.args[..k][i], binding.id)).Bound?;
        assert plugged.args[i].Obj?;
        args := args + [plugged.args[i].value];
      }
    }
    /** Tries the rules for the current literal one after the other. */
    method TopDownTh(context: Context, caller: Caller, ghost p: Program, ghost sh: Shape, ghost gs: seq<Goal>,
        ghost h: Heap)
        returns (finished: bool)
      requires context.Valid(h.unifiers) && gs == context.Pending(h.unifiers)
      requires KindOf(p.builtins, gs[0].lit).Lookup?
      requires Searchable(p, sh, gs, caller, h)
      modifies Contexts(context), caller`results, h, h.unifiers, rules.repr
      ensures Searchable(p, sh, gs, caller, h)
      ensures h.env == old(h.env) && h.unifiers == old(h.unifiers) && h.Contents() == old(h.Contents())
      ensures unchanged(context, context.chain)
      ensures Grown(old(caller.results), caller.results, caller.findAll, finished,
        Answers(p, sh, gs, h.env, |h.unifiers|, caller.variables, caller.binding.id))
      decreases GoalsWeight(sh, gs), 2, 0
    {
      hide *;
      context.PendingSplits(h.unifiers);
      Unpack(p, sh, gs, caller, h);
      ghost var env, n, vars, u, before := h.env, |h.unifiers|, caller.variables, caller.binding.id, caller.results;
      var lit := context.literals[context.literalIndex];
      var plugged := context.binding.Plug(lit, h);
      var candidates := HeadIndex(lit.table, plugged, p);
      CandidatesSuffice(p, sh, candidates, gs, env, n, vars, u);
      NoCandidates(p, sh, gs, env, n, vars, u);
      GrownNothing(before, caller.findAll);
      Pack(p, sh, gs, caller, h);
      for i := 0 to |candidates|
        invariant Searchable(p, sh, gs, caller, h)
        invariant h.env == env && h.unifiers == old(h.unifiers) && h.Contents() == old(h.Contents())
        invariant unchanged(context, context.chain)
        invariant Grown(before, caller.results, caller.findAll, false,
          Tried(p, sh, candidates[..i], gs, env, n, vars, u))
      {
        ghost var middle := caller.results;
        var done := TryRule(context, caller, candidates[i], p, sh, gs, h);
        TriedNext(p, sh, candidates, i, gs, env, n, vars, u);
        GrownJoin(before, middle, caller.results, caller.findAll, done,
          Tried(p, sh, candidates[..i], gs, env, n, vars, u), RuleAnswers(p, sh, candidates[i], gs, env, n, vars, u));
        if done && !caller.findAll {
          TriedWithin(p, sh, candidates, i + 1, gs, env, n, vars, u);
          GrownEnough(before, caller.results, Tried(p, sh, candidates[..i + 1], gs, env, n, vars, u),
            Answers(p, sh, gs, env, n, vars, u));
          return true;
        }
        GrownGoOn(before, caller.results, caller.findAll, done, Tried(p, sh, candidates[..i + 1], gs, env, n, vars, u));
      }
      assert candidates[..|candidates|] == candidates;
      return false;
    }

    /** Unifies the head of a rule with the current literal, proves the body and what is left, and
        undoes the bindings. */
    method TryRule(context: Context, caller: Caller, r: Rule, ghost p: Program, ghost sh: Shape,
        ghost gs: seq<Goal>, ghost h: Heap)
        returns (finished: bool)
      requires context.Valid(h.unifiers) && gs == context.Pending(h.unifiers)
      requires r in p.rules && r.head.table == gs[0].lit.table
      requires Searchable(p, sh, gs, caller, h)
      modifies Contexts(context), caller`results, h, h.unifiers, rules.repr
      ensures Searchable(p, sh, gs, caller, h)
      ensures h.env == old(h.env) && h.unifiers == old(h.unifiers) && h.Contents() == old(h.Contents())
      ensures unchanged(context, context.chain)
      ensures Grown(old(caller.results), caller.results, caller.findAll, finished,
        RuleAnswers(p, sh, r, gs, h.env, |h.unifiers|, caller.variables, caller.binding.id))
      decreases GoalsWeight(sh, gs), 1, 1
    {
      hide *;
      context.PendingSplits(h.unifiers);
      Unpack(p, sh, gs, caller, h);
      AnswersRule(p, sh, r, gs, h.env, |h.unifiers|, caller.variables, caller.binding.id);
      HeadResultIs(h.env, r, |h.unifiers|, gs[0]);
      var lit := context.literals[context.literalIndex];
      ghost var was := Snapshot(h.env, h.unifiers, h.Contents());
      var undo := OpenUnifier(r.head.args, lit.args, context.binding, h);
      if undo.None? {
        GrownNothing(caller.results, caller.findAll);
        Pack(p, sh, gs, caller, h);
        return false;
      }
      finished := TryUnified(context, caller, r, undo.value.0, undo.value.1, was, p, sh, gs, h);
    }

    /** The same once the head has been unified. */
    method TryUnified(context: Context, caller: Caller, r: Rule, unifier: BiUnifier, changes: seq<Undo>,
        ghost was: Snapshot, ghost p: Program, ghost sh: Shape, ghost gs: seq<Goal>, ghost h: Heap)
        returns (finished: bool)
      requires context.Valid(was.unifiers) && gs == context.Pending(was.unifiers) && was.unifiers <= h.unifiers
      requires Means(p) && h.Valid() && Ready(p, sh, gs, was.env, |was.unifiers|) && SizedGoals(rules.widths, gs)
      requires r in p.rules && r.head.table == gs[0].lit.table && Acyclic(was.env)
      requires HeadResult(was.env, r, |was.unifiers|, gs[0]).Some?
        && h.env == HeadResult(was.env, r, |was.unifiers|, gs[0]).value
      requires IsAt(unifier, h.unifiers) && unifier.id == |was.unifiers|
      requires IsAt(caller.binding, was.unifiers) && IsAt(caller.binding, h.unifiers)
      requires Opened(Snapshot(h.env, h.unifiers, h.Contents()), changes, was)
      modifies Contexts(context), caller`results, h, h.unifiers, rules.repr
      ensures Searchable(p, sh, gs, caller, h)
      ensures h.env == was.env && h.unifiers == was.unifiers && h.Contents() == was.store
      ensures unchanged(context, context.chain)
      ensures Fits(p, sh) && Acyclic(old(h.env))
      ensures Grown(old(caller.results), caller.results, caller.findAll, finished,
        Answers(p, sh, Goals(r.body, |was.unifiers|) + gs[1..], old(h.env), |was.unifiers| + 1,
          caller.variables, caller.binding.id))
      decreases GoalsWeight(sh, gs), 1, 0
    {
      hide *;
      context.PendingSplits(was.unifiers);
      ReadyParts(p, sh, gs, was.env, |was.unifiers|);
      RuleLighter(p, sh, r, gs, |was.unifiers|);
      SizedRest(rules.widths, gs);
      BodySized(p, r, gs, |was.unifiers|);
      ghost var hs := Goals(r.body, |was.unifiers|) + gs[1..];
      ReadyLookup(p, sh, gs, was.env, |was.unifiers|, r);
      OpenedOne(Snapshot(h.env, h.unifiers, h.Contents()), changes, was);
      context.MoreUnifiers(was.unifiers, h.unifiers);
      Pack(p, sh, hs, caller, h);
      Unpack(p, sh, hs, caller, h);
      finished := TopDownBody(context, caller, r.body, unifier, p, sh, hs, h);
      Unpack(p, sh, hs, caller, h);
      CloseUnifier(changes, was, h);
      Pack(p, sh, gs, caller, h);
    }

    lemma SizedRest(widths: map<Name, nat>, gs: seq<Goal>)
      requires SizedGoals(widths, gs) && gs != []
      ensures SizedGoals(widths, gs[1..])
    {
    }

    lemma OpenedOne(now: Snapshot, changes: seq<Undo>, was: Snapshot)
      requires Opened(now, changes, was)
      ensures |now.unifiers| == |was.unifiers| + 1
    {
    }

    /** Proves the body of a rule, if it has one, and what is left after the current literal. */
    method TopDownBody(context: Context, caller: Caller, body: seq<Literal>, unifier: BiUnifier, ghost p: Program,
        ghost sh: Shape, ghost hs: seq<Goal>, ghost h: Heap)
        returns (finished: bool)
      requires context.Valid(h.unifiers) && IsAt(unifier, h.unifiers)
      requires hs == Goals(body, unifier.id) + context.After(h.unifiers)
      requires Searchable(p, sh, hs, caller, h)
      modifies Contexts(context), caller`results, h, h.unifiers, rules.repr
      ensures Searchable(p, sh, hs, caller, h)
      ensures h.env == old(h.env) && h.unifiers == old(h.unifiers) && h.Contents() == old(h.Contents())
      ensures unchanged(context, context.chain)
      ensures Grown(old(caller.results), caller.results, caller.findAll, finished,
        Answers(p, sh, hs, h.env, |h.unifiers|, caller.variables, caller.binding.id))
      decreases GoalsWeight(sh, hs), 5, 0
    {
      hide *;
      Unpack(p, sh, hs, caller, h);
      if |body| == 0 {
        assert hs == context.After(h.unifiers);
        finished := TopDownFinish(context, caller, p, sh, hs, h);
      } else {
        var newContext := new Context(body, unifier, context);
        newContext.Nested(h.unifiers);
        assert newContext.chain[0] == context && newContext.chain[1..] == context.chain;
        finished := TopDownEval(newContext, caller, p, sh, hs, h);
      }
    }

    /** The rules that may be used for a literal. */
    method HeadIndex(table: Name, matchLiteral: Literal, ghost p: Program) returns (found: seq<Rule>)
      requires Means(p) && Sized(rules.widths, table, |matchLiteral.args|)
      modifies rules.repr
      ensures Means(p)
      ensures forall r :: r in found ==> r in p.rules && r.head.table == table
      ensures forall r :: r in p.rules && r.head.table == table ==> r in found || Clashes(r, matchLiteral)
    {
      if rules.Contains(table) {
        found := rules.GetRules(table, Some(matchLiteral));
      } else {
        forall r | r in p.rules && r.head.table == table
          ensures false
        {
          InContent(rules.tables, rules.rules, r);
        }
        found := [];
      }
    }

    lemma BodySized(p: Program, r: Rule, gs: seq<Goal>, n: nat)
      requires Means(p) && r in p.rules && gs != [] && SizedGoals(rules.widths, gs[1..])
      ensures SizedGoals(rules.widths, Goals(r.body, n) + gs[1..])
    {
    }

    /** All choices of values for the variables that make the literals true in the model, or just
        one if findAll is off. */
    method TopDownEvaluation(variables: seq<Name>, literals: seq<Literal>, findAll: bool, ghost p: Program,
        ghost sh: Shape)
        returns (results: seq<Answer>)
      requires Means(p) && Fits(p, sh) && SafeProgram(p)
      requires SafeQuery(p.builtins, literals, variables) && SizedLiterals(rules.widths, literals)
      modifies rules.repr
      ensures Means(p)
      ensures forall a :: a in results ==> exists v :: Satisfies(p.builtins, literals, Model(p, sh), variables, a, v)
      ensures findAll ==> forall a, v :: Satisfies(p.builtins, literals, Model(p, sh), variables, a, v) ==> a in results
      ensures !findAll ==> |results| <= 1
      ensures results == [] ==> forall v :: !BodyHolds(p.builtins, literals, v, Model(p, sh))
    {
      hide *;
      ghost var h := new Heap();
      var binding := new BiUnifier(0);
      h.Enlist(binding);
      StillAt([], binding);
      var caller := new Caller(variables, binding, findAll);
      ghost var gs := Goals(literals, 0);
      QueryReady(p, sh, literals, variables);
      QuerySized(rules.widths, literals);
      Pack(p, sh, gs, caller, h);
      var finished;
      if |literals| == 0 {
        NoContext();
        finished := TopDownFinish(null, caller, p, sh, gs, h);
      } else {
        var context := new Context(literals, binding, null);
        context.Outermost(h.unifiers);
        finished := TopDownEval(context, caller, p, sh, gs, h);
      }
      Unpack(p, sh, gs, caller, h);
      results := caller.results;
      QueryAnswered(p, sh, literals, variables, findAll, finished, results);
    }

    /** The instances of a literal that are true. */
    method Select(query: Literal, findAll: bool, ghost p: Program, ghost sh: Shape) returns (results: seq<Literal>)
      requires Means(p) && Fits(p, sh) && SafeProgram(p)
      requires SafeQuery(p.builtins, [query], VarList(query.args)) && Sized(rules.widths, query.table, |query.args|)
      modifies rules.repr
      ensures Means(p)
      ensures forall lit :: lit in results ==>
        exists v :: Holds(p.builtins, query, v, Model(p, sh)) && lit == Instance(query, v)
      ensures findAll ==> forall v :: Holds(p.builtins, query, v, Model(p, sh)) ==> Instance(query, v) in results
      ensures !findAll ==> |results| <= 1
      ensures results == [] ==> forall v :: !Holds(p.builtins, query, v, Model(p, sh))
      ensures findAll && !query.negated && query.table != Name("true") && query.table != Name("false") ==>
        forall lit :: lit in results <==> TrueInstance(p.builtins, query, Model(p, sh), lit)
    {
      var variables := VarList(query.args);
      var bindings := TopDownEvaluation(variables, [query], findAll, p, sh);
      results := seq(|bindings|, i requires 0 <= i < |bindings| => PlugAnswer(query, bindings[i]));
      hide Means, Fits, SafeProgram, SafeQuery, PlugAnswer, Holds, BodyHolds, Instance;
      forall i | 0 <= i < |results|
        ensures exists v :: Holds(p.builtins, query, v, Model(p, sh)) && results[i] == Instance(query, v)
      {
        assert bindings[i] in bindings;
        var v :| Satisfies(p.builtins, [query], Model(p, sh), variables, bindings[i], v);
        OneLiteral(p.builtins, query, v, Model(p, sh));
        PlugIsInstance(query, v, variables);
      }
      forall v | Holds(p.builtins, query, v, Model(p, sh))
        ensures results != [] && (findAll ==> Instance(query, v) in results)
      {
        OneLiteral(p.builtins, query, v, Model(p, sh));
        PlugIsInstance(query, v, variables);
        if findAll {
          assert Satisfies(p.builtins, [query], Model(p, sh), variables, ChosenAnswer(v, variables), v);
          var i :| 0 <= i < |bindings| && bindings[i] == ChosenAnswer(v, variables);
          assert results[i] == Instance(query, v);
        }
      }
      if findAll && !query.negated && query.table != Name("true") && query.table != Name("false") {
        SelectedAre(p, query, Model(p, sh), results);
      }
    }

    /** The instances of a rule of which the body is true. */
    method SelectRule(query: Rule, findAll: bool, ghost p: Program, ghost sh: Shape) returns (results: seq<Rule>)
      requires Means(p) && Fits(p, sh) && SafeProgram(p)
      requires SafeQuery(p.builtins, query.body, BodyList([query.head] + query.body))
        && SizedLiterals(rules.widths, query.body)
      modifies rules.repr
      ensures Means(p)
      ensures forall r :: r in results ==>
        exists v ::
          BodyHolds(p.builtins, query.body, v, Model(p, sh))
          && r == Rule(Instance(query.head, v), Instances(query.body, v))
      ensures findAll ==> forall v :: BodyHolds(p.builtins, query.body, v, Model(p, sh)) ==>
        Rule(Instance(query.head, v), Instances(query.body, v)) in results
      ensures !findAll ==> |results| <= 1
      ensures results == [] ==> forall v :: !BodyHolds(p.builtins, query.body, v, Model(p, sh))
    {
      var variables := BodyList([query.head] + query.body);
      RuleListed(query, variables);
      var bindings := TopDownEvaluation(variables, query.body, findAll, p, sh);
      results := seq(|bindings|, i requires 0 <= i < |bindings| =>
        Rule(PlugAnswer(query.head, bindings[i]), PlugBody(query.body, bindings[i])));
      hide Means, Fits, SafeProgram, SafeQuery, PlugAnswer, PlugBody, BodyHolds, Instance, Instances;
      forall i | 0 <= i < |results|
        ensures exists v ::
          BodyHolds(p.builtins, query.body, v, Model(p, sh))
          && results[i] == Rule(Instance(query.head, v), Instances(query.body, v))
      {
        assert bindings[i] in bindings;
        var v :| Satisfies(p.builtins, query.body, Model(p, sh), variables, bindings[i], v);
        PlugIsInstance(query.head, v, variables);
        PlugsAreInstances(query.body, v, variables);
      }
      forall v | BodyHolds(p.builtins, query.body, v, Model(p, sh))
        ensures results != [] && (findAll ==> Rule(Instance(query.head, v), Instances(query.body, v)) in results)
      {
        PlugIsInstance(query.head, v, variables);
        PlugsAreInstances(query.body, v, variables);
        if findAll {
          assert Satisfies(p.builtins, query.body, Model(p, sh), variables, ChosenAnswer(v, variables), v);
          var i :| 0 <= i < |bindings| && bindings[i] == ChosenAnswer(v, variables);
          assert results[i] == Rule(Instance(query.head, v), Instances(query.body, v));
        }
      }
    }

    lemma RuleListed(query: Rule, variables: seq<Name>)
      requires variables == BodyList([query.head] + query.body)
      ensures forall x :: x in query.head.Vars() ==> x in variables
      ensures forall i, x :: 0 <= i < |query.body| && x in query.body[i].Vars() ==> x in variables
    {
      var all := [query.head] + query.body;
      assert all[0] == query.head && forall i :: 0 <= i < |query.body| ==> all[i + 1] == query.body[i];
    }

    /** The bindings of the caller's variables, copied before they are undone. */
    method Flatten(caller: Caller, ghost h: Heap) returns (answer: Answer)
      requires h.Valid() && h.Live(caller.binding)
      ensures answer == AnswerAt(h.env, caller.variables, caller.binding.id)
    {
      answer := map[];
      for i := 0 to |caller.variables|
        invariant answer == AnswerAt(h.env, caller.variables[..i], caller.binding.id)
      {
        var x := caller.variables[i];
        answer := answer[x := caller.binding.Apply(Var(x), h)];
      }
      assert caller.variables[..|caller.variables|] == caller.variables;
    }
  }

  ghost function Contexts(context: Context?): set<Context> {
    if context == null then {} else {context} + set c | c in context.chain
  }
}
