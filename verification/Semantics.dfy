/** What a set of rules means: its model, built stratum by stratum from below. */
module Semantics {
  import opened Datalog

  datatype Atom = Atom(table: Name, row: seq<Const>)

  /** A choice of values for the variables of a rule. */
  type Choice = Name -> Const

  type Interpretation = iset<Atom>

  datatype Program = Program(rules: set<Rule>, builtins: Registry)

  function Eval(v: Choice, t: Term): Const {
    match t
    case Var(x) => v(x)
    case Obj(c) => c
  }

  function Row(v: Choice, ts: seq<Term>): (row: seq<Const>)
    ensures |row| == |ts| && forall i :: 0 <= i < |ts| ==> row[i] == Eval(v, ts[i])
  {
    seq(|ts|, i requires 0 <= i < |ts| => Eval(v, ts[i]))
  }

  lemma RowAgree(v: Choice, w: Choice, ts: seq<Term>)
    requires forall x :: x in VarNames(ts) ==> v(x) == w(x)
    ensures Row(v, ts) == Row(w, ts)
  {
    forall i | 0 <= i < |ts|
      ensures Eval(v, ts[i]) == Eval(w, ts[i])
    {
      if ts[i].Var? {
        assert Var(ts[i].name) in ts;
      }
    }
  }

  /** A builtin relates its inputs to its outputs; one without outputs tests its inputs; one
      that raises relates nothing. */
  predicate CallHolds(b: Builtin, row: seq<Const>) {
    && b.numInputs <= |row|
    && var r := b.code(row[..b.numInputs]);
    && r.Returned?
    && if b.numOutputs > 0 then r.values == row[b.numInputs..] else r.truthy
  }

  /** Truth of a literal whose arguments have the values row. */
  ghost predicate RowHolds(bs: Registry, lit: Literal, row: seq<Const>, m: Interpretation)
    decreases lit.negated
  {
    match KindOf(bs, lit)
    case Negation => !RowHolds(bs, lit.Complement(), row, m)
    case Truth => true
    case Falsity => false
    case Call => CallHolds(bs[lit.table], row)
    case Lookup => Atom(lit.table, row) in m
  }

  ghost predicate Holds(bs: Registry, lit: Literal, v: Choice, m: Interpretation) {
    RowHolds(bs, lit, Row(v, lit.args), m)
  }

  // ----- what the truth of a literal comes to

  /** The values of some terms, written out. */
  ghost predicate HasValues(ts: seq<Term>, v: Choice, row: seq<Const>) {
    && |row| == |ts|
    && forall i :: 0 <= i < |ts| ==> row[i] == match ts[i] { case Var(x) => v(x) case Obj(c) => c }
  }

  /** A table without a builtin, or with one that has another number of arguments, is looked up. */
  lemma LookupTruth(bs: Registry, lit: Literal, v: Choice, m: Interpretation, row: seq<Const>)
    requires !lit.negated && lit.table != Name("true") && lit.table != Name("false") && HasValues(lit.args, v, row)
    requires lit.table !in bs
      || (lit.args != [] && |lit.args| != bs[lit.table].numInputs + bs[lit.table].numOutputs)
    ensures Holds(bs, lit, v, m) <==> Atom(lit.table, row) in m
  {
    assert Row(v, lit.args) == row;
  }

  /** A builtin with as many arguments as it has inputs and outputs is called: the code returns on
      the inputs, and what it returns is the outputs, or true if there are none.  Without arguments
      it is called too, which has no meaning if it has inputs. */
  lemma CallTruth(bs: Registry, lit: Literal, v: Choice, m: Interpretation, row: seq<Const>)
    requires !lit.negated && lit.table != Name("true") && lit.table != Name("false") && HasValues(lit.args, v, row)
    requires lit.table in bs && (lit.args == [] || |lit.args| == bs[lit.table].numInputs + bs[lit.table].numOutputs)
    ensures Holds(bs, lit, v, m) <==>
      && bs[lit.table].numInputs <= |row|
      && var r := bs[lit.table].code(row[..bs[lit.table].numInputs]);
      r.Returned? && if bs[lit.table].numOutputs > 0 then r.values == row[bs[lit.table].numInputs..] else r.truthy
  {
    assert Row(v, lit.args) == row;
  }

  /** The tables true and false mean what they say, and a negated literal the opposite. */
  lemma OtherTruth(bs: Registry, lit: Literal, v: Choice, m: Interpretation)
    ensures lit.table == Name("true") && !lit.negated ==> Holds(bs, lit, v, m)
    ensures lit.table == Name("false") && !lit.negated ==> !Holds(bs, lit, v, m)
    ensures lit.negated ==> (Holds(bs, lit, v, m) <==> !Holds(bs, Literal(lit.table, lit.args, false), v, m))
  {
  }

  ghost predicate BodyHolds(bs: Registry, body: seq<Literal>, v: Choice, m: Interpretation) {
    forall i :: 0 <= i < |body| ==> Holds(bs, body[i], v, m)
  }

  /** The rule r, instantiated by v, yields a when m is what is known. */
  ghost predicate Yields(p: Program, r: Rule, v: Choice, m: Interpretation, a: Atom) {
    && r in p.rules
    && r.head.table == a.table
    && Row(v, r.head.args) == a.row
    && BodyHolds(p.builtins, r.body, v, m)
  }

  ghost predicate Fires(p: Program, m: Interpretation, a: Atom) {
    exists r, v :: Yields(p, r, v, m, a)
  }

  // ----- non-recursive programs

  /** Every table of a body ranks below the table of the head, and bodies are no longer than
      width. */
  datatype Shape = Shape(rank: Name -> nat, width: nat)

  ghost predicate Fits(p: Program, sh: Shape) {
    forall r :: r in p.rules ==>
      && |r.body| <= sh.width
      && forall i :: 0 <= i < |r.body| ==> sh.rank(r.body[i].table) < sh.rank(r.head.table)
  }

  /** What is known once all tables of rank below k have been computed from those below them. */
  ghost function Level(p: Program, sh: Shape, k: nat): Interpretation {
    if k == 0 then iset{}
    else
      var below := Level(p, sh, k - 1);
      below + iset a: Atom | sh.rank(a.table) == k - 1 && Fires(p, below, a)
  }

  ghost function Model(p: Program, sh: Shape): Interpretation {
    iset a: Atom | a in Level(p, sh, sh.rank(a.table) + 1)
  }

  /** Two interpretations that agree below rank k. */
  ghost predicate AgreeBelow(sh: Shape, m: Interpretation, m': Interpretation, k: nat) {
    forall a: Atom :: sh.rank(a.table) < k ==> (a in m <==> a in m')
  }

  lemma FiresLocal(p: Program, sh: Shape, m: Interpretation, m': Interpretation, a: Atom)
    requires Fits(p, sh) && AgreeBelow(sh, m, m', sh.rank(a.table))
    requires Fires(p, m, a)
    ensures Fires(p, m', a)
  {
    var r, v :| Yields(p, r, v, m, a);
    forall i | 0 <= i < |r.body|
      ensures Holds(p.builtins, r.body[i], v, m')
    {
      var lit := r.body[i];
      assert Holds(p.builtins, lit, v, m);
      assert Atom(lit.table, Row(v, lit.args)) in m <==> Atom(lit.table, Row(v, lit.args)) in m';
      assert RowHolds(p.builtins, lit.Complement(), Row(v, lit.args), m) <==>
             RowHolds(p.builtins, lit.Complement(), Row(v, lit.args), m');
    }
    assert Yields(p, r, v, m', a);
  }

  lemma {:induction false} LevelModel(p: Program, sh: Shape, k: nat, a: Atom)
    ensures a in Level(p, sh, k) <==> sh.rank(a.table) < k && a in Model(p, sh)
  {
    if k > 0 {
      LevelModel(p, sh, k - 1, a);
    }
  }

  /** The model satisfies every rule, and everything in it is there because of a rule. */
  lemma ModelFixpoint(p: Program, sh: Shape, a: Atom)
    requires Fits(p, sh)
    ensures a in Model(p, sh) <==> Fires(p, Model(p, sh), a)
  {
    var k := sh.rank(a.table);
    var below := Level(p, sh, k);
    forall b: Atom | sh.rank(b.table) < k
      ensures b in below <==> b in Model(p, sh)
    {
      LevelModel(p, sh, k, b);
    }
    LevelModel(p, sh, k, a);
    if Fires(p, below, a) {
      FiresLocal(p, sh, below, Model(p, sh), a);
    }
    if Fires(p, Model(p, sh), a) {
      FiresLocal(p, sh, Model(p, sh), below, a);
    }
  }

  ghost predicate Supported(p: Program, m: Interpretation) {
    forall a :: a in m <==> Fires(p, m, a)
  }

  lemma {:induction false} SupportedUpTo(p: Program, sh: Shape, m: Interpretation, m': Interpretation, k: nat)
    requires Fits(p, sh) && Supported(p, m) && Supported(p, m')
    ensures AgreeBelow(sh, m, m', k)
  {
    if k > 0 {
      SupportedUpTo(p, sh, m, m', k - 1);
      forall a: Atom | sh.rank(a.table) < k
        ensures a in m <==> a in m'
      {
        if Fires(p, m, a) {
          FiresLocal(p, sh, m, m', a);
        }
        if Fires(p, m', a) {
          FiresLocal(p, sh, m', m, a);
        }
      }
    }
  }

  /** No other interpretation is like that: the model does not depend on the ranking used. */
  lemma ModelUnique(p: Program, sh: Shape, m: Interpretation)
    requires Fits(p, sh)
    ensures Supported(p, m) <==> m == Model(p, sh)
  {
    forall a
      ensures a in Model(p, sh) <==> Fires(p, Model(p, sh), a)
    {
      ModelFixpoint(p, sh, a);
    }
    if Supported(p, m) {
      forall a
        ensures a in m <==> a in Model(p, sh)
      {
        SupportedUpTo(p, sh, m, Model(p, sh), sh.rank(a.table) + 1);
      }
    }
  }
}
