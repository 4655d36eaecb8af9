/** congress/datalog/unify.py: unifiers as objects that point at each other, changed in
    place and restored by undoing the recorded changes. */
module Unify {
  import opened Options
  import opened Datalog
  import opened Env

  /** What a variable is bound to: a term, read in the unifier next to it. */
  datatype Binding = Binding(value: Term, unifier: BiUnifier?)

  datatype Undo = Undo(name: Name, unifier: BiUnifier)

  class BiUnifier {
    /** The position of this unifier among those in use. */
    ghost const id: nat
    var contents: map<Name, Binding>

    constructor (ghost id: nat)
      ensures this.id == id && contents == map[]
    {
      this.id := id;
      contents := map[];
    }

    method Add(x: Name, value: Term, unifier: BiUnifier?) returns (u: Undo)
      modifies this
      ensures contents == old(contents)[x := Binding(value, unifier)]
      ensures u == Undo(x, this)
    {
      contents := contents[x := Binding(value, unifier)];
      u := Undo(x, this);
    }

    method Delete(x: Name)
      modifies this
      ensures contents == old(contents) - {x}
    {
      if x in contents {
        contents := contents - {x};
      }
    }

    /** Follows the chain from a term to its end.  The second part is the unifier that owns
        the variable at the end, when the end is a variable. */
    function ApplyFull(term: Term, ghost h: Heap): (r: (Term, BiUnifier?))
      requires h.Valid() && h.Live(this)
      reads h, h.unifiers
      ensures r.0.Var? ==> r.1 != null && h.Live(r.1) && Resolve(h.env, At(term, id)) == Ref(VarId(r.1.id, r.0.name))
      ensures r.0.Obj? ==> Resolve(h.env, At(term, id)) == Bound(r.0.value)
      decreases Height(h.env, At(term, id))
    {
      if term.Var? && term.name in contents then
        assert VarId(id, term.name) in h.env;
        var val := contents[term.name];
        if val.unifier == null || !val.value.Var? then
          (val.value, val.unifier)
        else
          val.unifier.ApplyFull(val.value, h)
      else
        assert term.Var? ==> VarId(id, term.name) !in h.env;
        (term, this)
    }

    function Apply(term: Term, ghost h: Heap): (t: Term)
      requires h.Valid() && h.Live(this)
      reads h, h.unifiers
      ensures t == TermOf(Resolve(h.env, At(term, id)))
    {
      ApplyFull(term, h).0
    }

    function Plug(lit: Literal, ghost h: Heap): (p: Literal)
      requires h.Valid() && h.Live(this)
      reads h, h.unifiers
      ensures p == PlugEnv(h.env, lit, id) && |p.args| == |lit.args|
    {
      Literal(lit.table, seq(|lit.args|, i requires 0 <= i < |lit.args| reads h, h.unifiers
        requires h.Valid() && h.Live(this) => Apply(lit.args[i], h)), lit.negated)
    }
  }

  ghost function PlugEnv(env: Env, lit: Literal, u: nat): Literal
    requires Acyclic(env)
  {
    Literal(lit.table, seq(|lit.args|, i requires 0 <= i < |lit.args| => TermOf(Resolve(env, At(lit.args[i], u)))),
      lit.negated)
  }

  type Store = seq<map<Name, Binding>>

  ghost predicate Agree(v: Val, b: Binding, us: seq<BiUnifier>) {
    match b.value
    case Obj(c) => v == Bound(c)
    case Var(x) => b.unifier != null && IsAt(b.unifier, us) && v == Ref(VarId(b.unifier.id, x))
  }

  ghost predicate IsAt(u: BiUnifier, us: seq<BiUnifier>) {
    u.id < |us| && us[u.id] == u
  }

  /** The contents of the unifiers us say what env says. */
  ghost predicate Coupled(env: Env, store: Store, us: seq<BiUnifier>) {
    && |store| == |us|
    && (forall k :: k in env <==> k.unifier < |store| && k.name in store[k.unifier])
    && (forall k :: k in env ==> Agree(env[k], store[k.unifier][k.name], us))
  }

  /** Every entry of a is in b. */
  ghost predicate Within(a: Store, b: Store) {
    && |a| == |b|
    && forall i, x :: 0 <= i < |a| && x in a[i] ==> x in b[i] && b[i][x] == a[i][x]
  }

  lemma WithinTransitive(a: Store, b: Store, c: Store)
    requires Within(a, b) && Within(b, c)
    ensures Within(a, c)
  {
  }

  /** Entries that were added and then taken away leave no trace. */
  lemma SameStore(env: Env, us: seq<BiUnifier>, a: Store, b: Store, c: Store)
    requires Coupled(env, a, us) && Coupled(env, c, us)
    requires Within(a, b) && Within(c, b)
    ensures a == c
  {
    forall i | 0 <= i < |a|
      ensures a[i] == c[i]
    {
      forall x
        ensures x in a[i] <==> x in c[i]
      {
        assert VarId(i, x) in env <==> x in a[i];
        assert VarId(i, x) in env <==> x in c[i];
      }
    }
  }

  /** The unifiers in use, in order of creation, and the bindings they hold. */
  class Heap {
    ghost var unifiers: seq<BiUnifier>
    ghost var env: Env

    ghost constructor ()
      ensures Valid() && unifiers == [] && env == map[]
    {
      unifiers := [];
      env := map[];
      new;
      AcyclicEmpty();
    }

    ghost predicate Live(u: BiUnifier)
      reads this
    {
      IsAt(u, unifiers)
    }

    ghost function Contents(): Store
      reads this, unifiers
    {
      seq(|unifiers|, i requires 0 <= i < |unifiers| reads this, unifiers => unifiers[i].contents)
    }

    ghost predicate Valid()
      reads this, unifiers
    {
      && (forall i :: 0 <= i < |unifiers| ==> unifiers[i].id == i)
      && Coupled(env, Contents(), unifiers)
      && Acyclic(env)
    }

    lemma ValidEnv()
      requires Valid()
      ensures Acyclic(env) && Below(env, |unifiers|) && Coupled(env, Contents(), unifiers)
      ensures |Contents()| == |unifiers|
      ensures forall u :: Live(u) <==> IsAt(u, unifiers)
    {
      forall k | k in env
        ensures k.unifier < |unifiers| && ValBelow(env[k], |unifiers|)
      {
        assert Agree(env[k], Contents()[k.unifier][k.name], unifiers);
      }
    }

    /** A new, empty unifier comes into use. */
    ghost method Enlist(u: BiUnifier)
      requires Valid() && u.id == |unifiers| && u.contents == map[]
      modifies this`unifiers
      ensures Valid()
      ensures unifiers == old(unifiers) + [u]
      ensures Contents() == old(Contents()) + [map[]]
    {
      unifiers := unifiers + [u];
      assert Contents() == old(Contents()) + [map[]];
      forall k | k in env
        ensures Agree(env[k], Contents()[k.unifier][k.name], unifiers)
      {
        assert Agree(env[k], old(Contents())[k.unifier][k.name], old(unifiers));
      }
    }

    /** The newest unifier, once nothing is bound in it, is no longer in use. */
    ghost method Drop()
      requires Valid() && |unifiers| > 0 && Below(env, |unifiers| - 1)
      modifies this`unifiers
      ensures Valid()
      ensures unifiers == old(unifiers)[..|old(unifiers)| - 1]
      ensures Contents() == old(Contents())[..|old(unifiers)| - 1]
    {
      unifiers := unifiers[..|unifiers| - 1];
      assert Contents() == old(Contents())[..|unifiers|];
      forall k | k in env
        ensures Agree(env[k], Contents()[k.unifier][k.name], unifiers)
      {
        assert Agree(env[k], old(Contents())[k.unifier][k.name], old(unifiers));
        assert ValBelow(env[k], |unifiers|);
      }
      forall k
        ensures k in env <==> k.unifier < |Contents()| && k.name in Contents()[k.unifier]
      {
        assert k in env <==> k.unifier < |old(Contents())| && k.name in old(Contents())[k.unifier];
      }
    }
  }

  ghost function Keys(changes: seq<Undo>): set<VarId> {
    set c | c in changes :: VarId(c.unifier.id, c.name)
  }

  lemma KeysNext(env: Env, changes: seq<Undo>, i: nat)
    requires i < |changes|
    ensures env - Keys(changes[..i]) - {VarId(changes[i].unifier.id, changes[i].name)} == env - Keys(changes[..i + 1])
  {
    assert changes[..i + 1] == changes[..i] + [changes[i]];
  }

  /** Undoing these changes leads from env back to env0. */
  ghost predicate Leads(us: seq<BiUnifier>, env: Env, changes: seq<Undo>, env0: Env) {
    && (forall c :: c in changes ==> IsAt(c.unifier, us) && VarId(c.unifier.id, c.name) !in env0)
    && env - Keys(changes) == env0
  }

  /** The change c is a new binding, and the only difference between env1 and env2. */
  ghost predicate Added(us: seq<BiUnifier>, env1: Env, c: Undo, env2: Env) {
    && IsAt(c.unifier, us)
    && VarId(c.unifier.id, c.name) !in env1
    && env2 - {VarId(c.unifier.id, c.name)} == env1
  }

  lemma LeadsStep(us: seq<BiUnifier>, env0: Env, changes: seq<Undo>, env1: Env, c: Undo, env2: Env)
    requires Leads(us, env1, changes, env0) && Added(us, env1, c, env2)
    ensures Leads(us, env2, changes + [c], env0)
  {
    assert Keys(changes + [c]) == Keys(changes) + {VarId(c.unifier.id, c.name)};
    assert env2 - Keys(changes + [c]) == env1 - Keys(changes);
    assert forall k :: k in env0 ==> k in env1;
  }

  lemma AcyclicRemove(env: Env, ks: set<VarId>)
    requires Acyclic(env)
    ensures Acyclic(env - ks)
  {
    assert Ranked(env - ks, Rank(env));
  }

  /** Binds an unbound variable to the end of another chain. */
  method BindTo(b: BiUnifier, x: Name, t: Term, u: BiUnifier?, ghost h: Heap) returns (c: Undo)
    requires h.Valid() && h.Live(b) && VarId(b.id, x) !in h.env
    requires t.Var? ==> u != null && h.Live(u) && VarId(u.id, t.name) !in h.env && !(u == b && t.name == x)
    modifies h`env, b
    ensures h.Valid()
    ensures c == Undo(x, b) && Added(h.unifiers, old(h.env), c, h.env)
    ensures h.env == old(h.env)[VarId(b.id, x) := if t.Var? then Ref(VarId(u.id, t.name)) else Bound(t.value)]
    ensures Within(old(h.Contents()), h.Contents())
  {
    ghost var k := VarId(b.id, x);
    ghost var v := if t.Var? then Ref(VarId(u.id, t.name)) else Bound(t.value);
    AcyclicBind(h.env, k, v);
    c := b.Add(x, t, u);
    h.env := h.env[k := v];
    assert h.Contents() == old(h.Contents())[b.id := b.contents];
  }

  method UndoOne(c: Undo, ghost h: Heap)
    requires h.Valid() && h.Live(c.unifier)
    modifies h`env, c.unifier
    ensures h.Valid()
    ensures h.env == old(h.env) - {VarId(c.unifier.id, c.name)}
    ensures Within(h.Contents(), old(h.Contents()))
  {
    c.unifier.Delete(c.name);
    AcyclicRemove(h.env, {VarId(c.unifier.id, c.name)});
    h.env := h.env - {VarId(c.unifier.id, c.name)};
    assert h.Contents() == old(h.Contents())[c.unifier.id := c.unifier.contents];
  }

  method UndoAll(changes: Option<seq<Undo>>, ghost h: Heap)
    requires h.Valid()
    requires changes.Some? ==> forall c :: c in changes.value ==> h.Live(c.unifier)
    modifies h`env, h.unifiers
    ensures h.Valid()
    ensures h.env == if changes.Some? then old(h.env) - Keys(changes.value) else old(h.env)
    ensures Within(h.Contents(), old(h.Contents()))
  {
    if changes.None? {
      return;
    }
    hide Heap.Valid, Heap.Contents, Within, Keys;
    var cs := changes.value;
    assert h.env - Keys(cs[..0]) == h.env && Within(h.Contents(), h.Contents());
    for i := 0 to |cs|
      invariant h.Valid()
      invariant h.env == old(h.env) - Keys(cs[..i])
      invariant Within(h.Contents(), old(h.Contents()))
    {
      ghost var before := h.Contents();
      UndoOne(cs[i], h);
      KeysNext(old(h.env), cs, i);
      WithinTransitive(h.Contents(), before, old(h.Contents()));
    }
    assert cs[..|cs|] == cs;
  }

  /** One position of bi_unify_lists: at most one binding is added. */
  method UnifyTerms(t1: Term, u1: BiUnifier, t2: Term, u2: BiUnifier, ghost h: Heap)
      returns (ok: bool, changes: seq<Undo>)
    requires h.Valid() && h.Live(u1) && h.Live(u2)
    modifies h`env, h.unifiers
    ensures h.Valid()
    ensures var e := UnifyVal(old(h.env), At(t1, u1.id), At(t2, u2.id));
      ok == e.Some? && h.env == if ok then e.value else old(h.env)
    ensures Within(old(h.Contents()), h.Contents())
    ensures if changes == [] then h.env == old(h.env)
      else |changes| == 1 && Added(h.unifiers, old(h.env), changes[0], h.env)
  {
    var (val1, binding1) := u1.ApplyFull(t1, h);
    var (val2, binding2) := u2.ApplyFull(t2, h);
    ok, changes := true, [];
    assert Within(h.Contents(), h.Contents());
    hide Heap.Valid, Heap.Contents, Coupled, Within, Acyclic, Resolve, Added;
    if val1.Var? && val2.Var? {
      if val1 == val2 && binding1 == binding2 {
        return;
      }
      var c := BindTo(binding1, val1.name, val2, binding2, h);
      changes := [c];
    } else if val1.Var? {
      var c := BindTo(binding1, val1.name, val2, binding2, h);
      changes := [c];
    } else if val2.Var? {
      var c := BindTo(binding2, val2.name, val1, binding1, h);
      changes := [c];
    } else {
      ok := val1 == val2;
    }
  }

  /** One round of the loop below, over the bindings alone. */
  lemma UnifySeqsNext(env: Env, ts1: seq<Term>, u1: nat, ts2: seq<Term>, u2: nat, i: nat)
    requires Acyclic(env) && i < |ts1| == |ts2|
    ensures var e := UnifyVal(env, At(ts1[i], u1), At(ts2[i], u2));
      UnifySeqs(env, ts1[i..], u1, ts2[i..], u2) ==
        if e.None? then None else UnifySeqs(e.value, ts1[i + 1..], u1, ts2[i + 1..], u2)
  {
    assert ts1[i..][0] == ts1[i] && ts1[i..][1..] == ts1[i + 1..];
    assert ts2[i..][0] == ts2[i] && ts2[i..][1..] == ts2[i + 1..];
  }

  lemma UnifyListsStart(env: Env, ts1: seq<Term>, u1: nat, ts2: seq<Term>, u2: nat)
    requires Acyclic(env)
    ensures UnifyLists(env, ts1, u1, ts2, u2) ==
      if |ts1| != |ts2| then None else UnifySeqs(env, ts1[0..], u1, ts2[0..], u2)
    ensures |ts1| == |ts2| ==> forall e :: Acyclic(e) ==> UnifySeqs(e, ts1[|ts1|..], u1, ts2[|ts1|..], u2) == Some(e)
  {
    assert ts1[0..] == ts1 && ts2[0..] == ts2;
  }

  lemma LeadsMore(us: seq<BiUnifier>, env0: Env, changes: seq<Undo>, env1: Env, cs: seq<Undo>, env2: Env)
    requires Leads(us, env1, changes, env0)
    requires if cs == [] then env2 == env1 else |cs| == 1 && Added(us, env1, cs[0], env2)
    ensures Leads(us, env2, changes + cs, env0)
  {
    if cs == [] {
      assert changes + cs == changes;
    } else {
      assert cs == [cs[0]];
      LeadsStep(us, env0, changes, env1, cs[0], env2);
    }
  }

  /** Unifies two lists in place.  On success the unifiers hold the most general solution
      and the changes made are returned; on failure they are as before. */
  method BiUnifyLists(iter1: seq<Term>, u1: BiUnifier, iter2: seq<Term>, u2: BiUnifier, ghost h: Heap)
      returns (r: Option<seq<Undo>>)
    requires h.Valid() && h.Live(u1) && h.Live(u2)
    modifies h`env, h.unifiers
    ensures h.Valid()
    ensures var e := UnifyLists(old(h.env), iter1, u1.id, iter2, u2.id);
      r.Some? == e.Some? && h.env == if e.Some? then e.value else old(h.env)
    ensures r.None? ==> h.Contents() == old(h.Contents())
    ensures r.Some? ==> Leads(h.unifiers, h.env, r.value, old(h.env)) && Within(old(h.Contents()), h.Contents())
  {
    var changes := [];
    h.ValidEnv();
    assert Leads(h.unifiers, h.env, changes, h.env) && Within(h.Contents(), h.Contents());
    hide Heap.Valid, Heap.Contents, Coupled, Within, Leads, UnifyVal, UnifySeqs, UnifyLists, Acyclic, Added;
    UnifyListsStart(h.env, iter1, u1.id, iter2, u2.id);
    if |iter1| != |iter2| {
      return None;
    }
    for i := 0 to |iter1|
      invariant h.Valid() && Acyclic(h.env)
      invariant UnifyLists(old(h.env), iter1, u1.id, iter2, u2.id) ==
        UnifySeqs(h.env, iter1[i..], u1.id, iter2[i..], u2.id)
      invariant Leads(h.unifiers, h.env, changes, old(h.env))
      invariant Within(old(h.Contents()), h.Contents())
    {
      ghost var env1, store1 := h.env, h.Contents();
      UnifySeqsNext(h.env, iter1, u1.id, iter2, u2.id, i);
      var ok, cs := UnifyTerms(iter1[i], u1, iter2[i], u2, h);
      h.ValidEnv();
      WithinTransitive(old(h.Contents()), store1, h.Contents());
      if !ok {
        Rewind(Some(changes), h, old(h.env), old(h.Contents()));
        return None;
      }
      LeadsMore(h.unifiers, old(h.env), changes, env1, cs, h.env);
      changes := changes + cs;
    }
    return Some(changes);
  }

  /** undo_all, after changes that lead back to env0: every unifier is as it was. */
  method Rewind(changes: Option<seq<Undo>>, ghost h: Heap, ghost env0: Env, ghost store0: Store)
    requires h.Valid() && Coupled(env0, store0, h.unifiers)
    requires Within(store0, h.Contents())
    requires changes.Some? ==> Leads(h.unifiers, h.env, changes.value, env0)
    requires changes.None? ==> h.env == env0
    modifies h`env, h.unifiers
    ensures h.Valid() && h.env == env0 && h.Contents() == store0
  {
    ghost var store1 := h.Contents();
    UndoAll(changes, h);
    SameStore(env0, h.unifiers, store0, store1, h.Contents());
  }
}
