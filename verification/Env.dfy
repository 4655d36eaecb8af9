/** Bindings seen from outside the heap: what a set of BiUnifiers says, and what it
    means for it to be extended by unification. */
module Env {
  import opened Options
  import opened Datalog

  /** A variable's identity is its name plus the unifier it belongs to. */
  datatype VarId = VarId(unifier: nat, name: Name)

  datatype Val = Bound(value: Const) | Ref(id: VarId)

  type Env = map<VarId, Val>

  /** A ground valuation of every variable of every unifier. */
  type Valuation = VarId -> Const

  function At(t: Term, u: nat): Val {
    match t
    case Var(x) => Ref(VarId(u, x))
    case Obj(c) => Bound(c)
  }

  /** A value as a term: an unbound variable keeps its own name. */
  function TermOf(v: Val): Term {
    match v
    case Bound(c) => Obj(c)
    case Ref(k) => Var(k.name)
  }

  // ----- chains are acyclic, so following them terminates

  ghost predicate Ranked(env: Env, d: VarId -> nat) {
    forall k :: k in env && env[k].Ref? ==> d(env[k].id) < d(k)
  }

  ghost predicate Acyclic(env: Env) {
    exists d :: Ranked(env, d)
  }

  ghost function Rank(env: Env): (d: VarId -> nat)
    requires Acyclic(env)
    ensures Ranked(env, d)
  {
    var d :| Ranked(env, d);
    d
  }

  ghost function Height(env: Env, v: Val): nat
    requires Acyclic(env)
  {
    if v.Ref? then 1 + Rank(env)(v.id) else 0
  }

  /** The end of the chain of bindings that starts at v. */
  ghost function Resolve(env: Env, v: Val): (r: Val)
    requires Acyclic(env)
    ensures r.Ref? ==> r.id !in env
    decreases Height(env, v)
  {
    if v.Ref? && v.id in env then Resolve(env, env[v.id]) else v
  }

  lemma AcyclicEmpty()
    ensures Acyclic(map[])
  {
    assert Ranked(map[], (k: VarId) => 0);
  }

  /** Binding an unbound variable to the end of a chain closes no cycle. */
  lemma AcyclicBind(env: Env, x: VarId, v: Val)
    requires Acyclic(env) && x !in env && v != Ref(x) && (v.Ref? ==> v.id !in env)
    ensures Acyclic(env[x := v])
  {
    var d := Rank(env);
    var d' := (k: VarId) => if v == Ref(k) then 0 else d(k) + 1;
    assert Ranked(env[x := v], d');
  }

  lemma {:induction false} ResolveBind(env: Env, x: VarId, v: Val, w: Val)
    requires Acyclic(env) && x !in env && v != Ref(x) && (v.Ref? ==> v.id !in env)
    ensures Acyclic(env[x := v])
    ensures Resolve(env[x := v], w) == if Resolve(env, w) == Ref(x) then v else Resolve(env, w)
    decreases Height(env, w)
  {
    AcyclicBind(env, x, v);
    if w.Ref? && w.id in env {
      ResolveBind(env, x, v, env[w.id]);
    }
  }

  // ----- what bindings mean

  function Value(s: Valuation, v: Val): Const {
    match v
    case Bound(c) => c
    case Ref(k) => s(k)
  }

  ghost predicate Sat(env: Env, s: Valuation) {
    forall k :: k in env ==> s(k) == Value(s, env[k])
  }

  lemma {:induction false} SatResolve(env: Env, s: Valuation, v: Val)
    requires Acyclic(env) && Sat(env, s)
    ensures Value(s, v) == Value(s, Resolve(env, v))
    decreases Height(env, v)
  {
    if v.Ref? && v.id in env {
      SatResolve(env, s, env[v.id]);
    }
  }

  /** Unbound variables may take any value: base says which. */
  ghost function Solution(env: Env, base: Valuation): (s: Valuation)
    requires Acyclic(env)
  {
    (k: VarId) => Value(base, Resolve(env, Ref(k)))
  }

  lemma SolutionSat(env: Env, base: Valuation)
    requires Acyclic(env)
    ensures Sat(env, Solution(env, base))
    ensures forall v :: Value(Solution(env, base), v) == Value(base, Resolve(env, v))
  {
    var s := Solution(env, base);
    forall k | k in env
      ensures s(k) == Value(s, env[k])
    {
      assert Resolve(env, Ref(k)) == Resolve(env, env[k]);
    }
  }

  // ----- unification

  /** One position: both sides are followed to the end of their chains, and an unbound
      left side is bound first. */
  ghost function UnifyVal(env: Env, a: Val, b: Val): (r: Option<Env>)
    requires Acyclic(env)
    ensures r.Some? ==> Acyclic(r.value)
  {
    var x, y := Resolve(env, a), Resolve(env, b);
    if x == y then Some(env)
    else if x.Ref? then AcyclicBind(env, x.id, y); Some(env[x.id := y])
    else if y.Ref? then AcyclicBind(env, y.id, x); Some(env[y.id := x])
    else None
  }

  ghost function UnifySeqs(env: Env, ts1: seq<Term>, u1: nat, ts2: seq<Term>, u2: nat): (r: Option<Env>)
    requires Acyclic(env) && |ts1| == |ts2|
    ensures r.Some? ==> Acyclic(r.value)
    decreases |ts1|
  {
    if ts1 == [] then Some(env)
    else
      var e := UnifyVal(env, At(ts1[0], u1), At(ts2[0], u2));
      if e.None? then None else UnifySeqs(e.value, ts1[1..], u1, ts2[1..], u2)
  }

  /** bi_unify_lists, as a function of the bindings. */
  ghost function UnifyLists(env: Env, ts1: seq<Term>, u1: nat, ts2: seq<Term>, u2: nat): (r: Option<Env>)
    requires Acyclic(env)
    ensures r.Some? ==> Acyclic(r.value)
  {
    if |ts1| != |ts2| then None else UnifySeqs(env, ts1, u1, ts2, u2)
  }

  /** The two lists denote the same row under s. */
  ghost predicate Equates(s: Valuation, ts1: seq<Term>, u1: nat, ts2: seq<Term>, u2: nat) {
    && |ts1| == |ts2|
    && forall i :: 0 <= i < |ts1| ==> Value(s, At(ts1[i], u1)) == Value(s, At(ts2[i], u2))
  }

  /** The same syntactically: position by position, the chains end in the same place. */
  ghost predicate Joined(env: Env, ts1: seq<Term>, u1: nat, ts2: seq<Term>, u2: nat)
    requires Acyclic(env)
  {
    && |ts1| == |ts2|
    && forall i :: 0 <= i < |ts1| ==> Resolve(env, At(ts1[i], u1)) == Resolve(env, At(ts2[i], u2))
  }

  lemma UnifyValExact(env: Env, a: Val, b: Val, s: Valuation)
    requires Acyclic(env)
    ensures var r := UnifyVal(env, a, b);
      (Sat(env, s) && Value(s, a) == Value(s, b)) <==> (r.Some? && Sat(r.value, s))
  {
    var x, y := Resolve(env, a), Resolve(env, b);
    var r := UnifyVal(env, a, b);
    if Sat(env, s) {
      SatResolve(env, s, a);
      SatResolve(env, s, b);
    }
    if r.Some? && Sat(r.value, s) {
      forall k | k in env
        ensures s(k) == Value(s, env[k])
      {
        assert r.value[k] == env[k];
      }
      SatResolve(env, s, a);
      SatResolve(env, s, b);
      if x != y {
        var k := if x.Ref? then x.id else y.id;
        assert k in r.value;
      }
    }
  }

  /** Unification loses no solution and admits no other: the result is most general. */
  lemma {:induction false} UnifySeqsExact(env: Env, ts1: seq<Term>, u1: nat, ts2: seq<Term>, u2: nat, s: Valuation)
    requires Acyclic(env) && |ts1| == |ts2|
    ensures var r := UnifySeqs(env, ts1, u1, ts2, u2);
      (Sat(env, s) && Equates(s, ts1, u1, ts2, u2)) <==> (r.Some? && Sat(r.value, s))
    decreases |ts1|
  {
    if ts1 != [] {
      var a, b := At(ts1[0], u1), At(ts2[0], u2);
      var e := UnifyVal(env, a, b);
      UnifyValExact(env, a, b, s);
      assert Equates(s, ts1, u1, ts2, u2) <==>
        (Value(s, a) == Value(s, b) && Equates(s, ts1[1..], u1, ts2[1..], u2)) by {
        if Value(s, a) == Value(s, b) && Equates(s, ts1[1..], u1, ts2[1..], u2) {
          forall i | 0 <= i < |ts1|
            ensures Value(s, At(ts1[i], u1)) == Value(s, At(ts2[i], u2))
          {
            if i > 0 {
              assert ts1[i] == ts1[1..][i - 1] && ts2[i] == ts2[1..][i - 1];
            }
          }
        }
      }
      if e.Some? {
        UnifySeqsExact(e.value, ts1[1..], u1, ts2[1..], u2, s);
      }
    }
  }

  lemma UnifyListsExact(env: Env, ts1: seq<Term>, u1: nat, ts2: seq<Term>, u2: nat, s: Valuation)
    requires Acyclic(env)
    ensures var r := UnifyLists(env, ts1, u1, ts2, u2);
      (Sat(env, s) && Equates(s, ts1, u1, ts2, u2)) <==> (r.Some? && Sat(r.value, s))
  {
    if |ts1| == |ts2| {
      UnifySeqsExact(env, ts1, u1, ts2, u2, s);
    }
  }

  /** It succeeds iff the lists have a common instance under the current bindings. */
  lemma UnifyListsComplete(env: Env, ts1: seq<Term>, u1: nat, ts2: seq<Term>, u2: nat)
    requires Acyclic(env)
    ensures UnifyLists(env, ts1, u1, ts2, u2).Some? <==>
      exists s :: Sat(env, s) && Equates(s, ts1, u1, ts2, u2)
  {
    var r := UnifyLists(env, ts1, u1, ts2, u2);
    forall s | Sat(env, s) && Equates(s, ts1, u1, ts2, u2)
      ensures r.Some?
    {
      UnifyListsExact(env, ts1, u1, ts2, u2, s);
    }
    if r.Some? {
      var base: Valuation := (k: VarId) => Num(0);
      SolutionSat(r.value, base);
      UnifyListsExact(env, ts1, u1, ts2, u2, Solution(r.value, base));
    }
  }

  /** Every binding made before stays, and two chains that met still meet. */
  ghost predicate Extends(env: Env, env': Env)
    requires Acyclic(env) && Acyclic(env')
  {
    && (forall k :: k in env ==> k in env' && env'[k] == env[k])
    && (forall v, w :: Resolve(env, v) == Resolve(env, w) ==> Resolve(env', v) == Resolve(env', w))
    && (forall v :: Resolve(env, v).Bound? ==> Resolve(env', v) == Resolve(env, v))
  }

  lemma UnifyValExtends(env: Env, a: Val, b: Val)
    requires Acyclic(env)
    ensures var r := UnifyVal(env, a, b);
      r.Some? ==> Extends(env, r.value) && Resolve(r.value, a) == Resolve(r.value, b)
  {
    var x, y := Resolve(env, a), Resolve(env, b);
    if x != y && (x.Ref? || y.Ref?) {
      var k := if x.Ref? then x.id else y.id;
      var v := if x.Ref? then y else x;
      AcyclicBind(env, k, v);
      forall w
        ensures Resolve(env[k := v], w) == if Resolve(env, w) == Ref(k) then v else Resolve(env, w)
      {
        ResolveBind(env, k, v, w);
      }
    }
  }

  lemma {:induction false} UnifySeqsExtends(env: Env, ts1: seq<Term>, u1: nat, ts2: seq<Term>, u2: nat)
    requires Acyclic(env) && |ts1| == |ts2|
    ensures var r := UnifySeqs(env, ts1, u1, ts2, u2);
      r.Some? ==> Extends(env, r.value) && Joined(r.value, ts1, u1, ts2, u2)
    decreases |ts1|
  {
    if ts1 != [] {
      var a, b := At(ts1[0], u1), At(ts2[0], u2);
      var e := UnifyVal(env, a, b);
      UnifyValExtends(env, a, b);
      if e.Some? {
        UnifySeqsExtends(e.value, ts1[1..], u1, ts2[1..], u2);
        var r := UnifySeqs(env, ts1, u1, ts2, u2);
        if r.Some? {
          forall i | 0 <= i < |ts1|
            ensures Resolve(r.value, At(ts1[i], u1)) == Resolve(r.value, At(ts2[i], u2))
          {
            if i > 0 {
              assert ts1[i] == ts1[1..][i - 1] && ts2[i] == ts2[1..][i - 1];
            }
          }
        }
      }
    }
  }

  /** All old bindings stay and every position is equated. */
  lemma UnifyListsExtends(env: Env, ts1: seq<Term>, u1: nat, ts2: seq<Term>, u2: nat)
    requires Acyclic(env)
    ensures var r := UnifyLists(env, ts1, u1, ts2, u2);
      r.Some? ==> Extends(env, r.value) && Joined(r.value, ts1, u1, ts2, u2)
  {
    if |ts1| == |ts2| {
      UnifySeqsExtends(env, ts1, u1, ts2, u2);
    }
  }

  // ----- which unifiers a set of bindings talks about

  ghost predicate ValBelow(v: Val, n: nat) {
    v.Ref? ==> v.id.unifier < n
  }

  ghost predicate Below(env: Env, n: nat) {
    forall k :: k in env ==> k.unifier < n && ValBelow(env[k], n)
  }

  lemma {:induction false} ResolveBelow(env: Env, v: Val, n: nat)
    requires Acyclic(env) && Below(env, n) && ValBelow(v, n)
    ensures ValBelow(Resolve(env, v), n)
    decreases Height(env, v)
  {
    if v.Ref? && v.id in env {
      ResolveBelow(env, env[v.id], n);
    }
  }

  lemma {:induction false} UnifySeqsBelow(env: Env, ts1: seq<Term>, u1: nat, ts2: seq<Term>, u2: nat, n: nat)
    requires Acyclic(env) && |ts1| == |ts2| && Below(env, n) && u1 < n && u2 < n
    ensures var r := UnifySeqs(env, ts1, u1, ts2, u2); r.Some? ==> Below(r.value, n)
    decreases |ts1|
  {
    if ts1 != [] {
      var a, b := At(ts1[0], u1), At(ts2[0], u2);
      ResolveBelow(env, a, n);
      ResolveBelow(env, b, n);
      var e := UnifyVal(env, a, b);
      if e.Some? {
        UnifySeqsBelow(e.value, ts1[1..], u1, ts2[1..], u2, n);
      }
    }
  }

  lemma UnifyListsBelow(env: Env, ts1: seq<Term>, u1: nat, ts2: seq<Term>, u2: nat, n: nat)
    requires Acyclic(env) && Below(env, n) && u1 < n && u2 < n
    ensures var r := UnifyLists(env, ts1, u1, ts2, u2); r.Some? ==> Below(r.value, n)
  {
    if |ts1| == |ts2| {
      UnifySeqsBelow(env, ts1, u1, ts2, u2, n);
    }
  }
}
