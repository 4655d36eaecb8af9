/** Stored tuples with their proofs: congress/datalog/database.py. */
module Database {
  import opened Options
  import opened Datalog
  import opened Semantics
  import opened Views

  /** A row and the proofs that put it there; a base fact has none. */
  datatype DBTuple = DBTuple(row: seq<Const>, proofs: seq<Proof>)

  type Tables = map<Name, seq<DBTuple>>

  ghost function ProofSet(proofs: seq<Proof>): set<Proof> {
    set p | p in proofs
  }

  // ----- proof collections

  /** The proofs of contents that are not in other. */
  method Subtract(contents: seq<Proof>, other: seq<Proof>) returns (remaining: seq<Proof>)
    ensures ProofSet(remaining) == ProofSet(contents) - ProofSet(other)
  {
    remaining := [];
    for i := 0 to |contents|
      invariant ProofSet(remaining) == ProofSet(contents[..i]) - ProofSet(other)
    {
      assert ProofSet(contents[..i + 1]) == ProofSet(contents[..i]) + {contents[i]};
      if contents[i] !in other {
        assert ProofSet(remaining + [contents[i]]) == ProofSet(remaining) + {contents[i]};
        remaining := remaining + [contents[i]];
      }
    }
    assert contents[..|contents|] == contents;
  }

  /** The proofs of both, without repeating any of contents. */
  method Join(contents: seq<Proof>, other: seq<Proof>) returns (joined: seq<Proof>)
    ensures ProofSet(joined) == ProofSet(contents) + ProofSet(other)
  {
    joined := contents;
    for i := 0 to |other|
      invariant ProofSet(joined) == ProofSet(contents) + ProofSet(other[..i])
    {
      assert ProofSet(other[..i + 1]) == ProofSet(other[..i]) + {other[i]};
      if other[i] !in joined {
        assert ProofSet(joined + [other[i]]) == ProofSet(joined) + {other[i]};
        joined := joined + [other[i]];
      }
    }
    assert other[..|other|] == other;
  }

  /** Are all the proofs there? */
  method Includes(contents: seq<Proof>, proofs: seq<Proof>) returns (all: bool)
    ensures all <==> ProofSet(proofs) <= ProofSet(contents)
  {
    for i := 0 to |proofs|
      invariant forall j :: 0 <= j < i ==> proofs[j] in contents
    {
      if proofs[i] !in contents {
        assert proofs[i] in ProofSet(proofs) && proofs[i] !in ProofSet(contents);
        return false;
      }
    }
    return true;
  }

  // ----- what is stored

  /** No row is twice in a table. */
  ghost predicate Distinct(tuples: seq<DBTuple>) {
    forall i, j :: 0 <= i < j < |tuples| ==> tuples[i].row != tuples[j].row
  }

  ghost predicate TableStores(tuples: seq<DBTuple>, t: Name, content: Data) {
    && Distinct(tuples)
    && (forall i :: 0 <= i < |tuples| ==>
        Atom(t, tuples[i].row) in content && content[Atom(t, tuples[i].row)] == ProofSet(tuples[i].proofs))
    && (forall a :: a in content && a.table == t ==> exists i :: 0 <= i < |tuples| && tuples[i].row == a.row)
  }

  ghost predicate Stores(tables: Tables, content: Data) {
    && (forall t :: t in tables ==> TableStores(tables[t], t, content))
    && (forall a :: a in content ==> a.table in tables)
  }

  lemma TableOf(tables: Tables, content: Data, t: Name)
    requires Stores(tables, content)
    ensures TableStores(if t in tables then tables[t] else [], t, content)
  {
  }

  /** Changing one table changes the content there and nowhere else. */
  lemma StoresChange(tables: Tables, content: Data, t: Name, tuples: seq<DBTuple>, content': Data)
    requires Stores(tables, content) && TableStores(tuples, t, content')
    requires forall a: Atom :: a.table != t ==>
      (a in content <==> a in content') && (a in content ==> content[a] == content'[a])
    ensures Stores(tables[t := tuples], content')
  {
    forall s | s in tables && s != t
      ensures TableStores(tables[s], s, content')
    {
      assert TableStores(tables[s], s, content);
    }
  }

  lemma Appended(tuples: seq<DBTuple>, t: Name, content: Data, e: Event)
    requires TableStores(tuples, t, content) && e.FactEvent? && e.insert && e.atom.table == t && e.atom !in content
    ensures TableStores(tuples + [DBTuple(e.atom.row, e.proofs)], t, Modified(content, e))
  {
    var longer := tuples + [DBTuple(e.atom.row, e.proofs)];
    assert e.Proofs() == ProofSet(e.proofs);
    forall i | 0 <= i < |tuples|
      ensures tuples[i].row != e.atom.row
    {
      assert Atom(t, tuples[i].row) in content;
    }
    forall a | a in Modified(content, e) && a.table == t
      ensures exists i :: 0 <= i < |longer| && longer[i].row == a.row
    {
      if a == e.atom {
        assert longer[|tuples|].row == a.row;
      } else {
        var i :| 0 <= i < |tuples| && tuples[i].row == a.row;
        assert longer[i].row == a.row;
      }
    }
  }

  lemma Replaced(tuples: seq<DBTuple>, t: Name, content: Data, k: nat, proofs: seq<Proof>)
    requires TableStores(tuples, t, content) && k < |tuples|
    ensures TableStores(tuples[k := DBTuple(tuples[k].row, proofs)], t,
      content[Atom(t, tuples[k].row) := ProofSet(proofs)])
  {
    var tuples' := tuples[k := DBTuple(tuples[k].row, proofs)];
    assert forall i :: 0 <= i < |tuples'| ==> tuples'[i].row == tuples[i].row;
    forall a | a in content[Atom(t, tuples[k].row) := ProofSet(proofs)] && a.table == t
      ensures exists i :: 0 <= i < |tuples'| && tuples'[i].row == a.row
    {
      var i :| 0 <= i < |tuples| && tuples[i].row == a.row;
      assert tuples'[i].row == a.row;
    }
  }

  lemma ModifiedElsewhere(content: Data, e: Event)
    requires e.FactEvent?
    ensures forall a: Atom :: a.table != e.atom.table ==>
      (a in content <==> a in Modified(content, e)) && (a in content ==> content[a] == Modified(content, e)[a])
  {
  }

  lemma Inserted(tuples: seq<DBTuple>, t: Name, content: Data, e: Event, k: nat, proofs: seq<Proof>)
    requires TableStores(tuples, t, content) && e.FactEvent? && e.insert && e.atom.table == t
    requires k < |tuples| && tuples[k].row == e.atom.row
      && ProofSet(proofs) == ProofSet(tuples[k].proofs) + ProofSet(e.proofs)
    ensures TableStores(tuples[k := DBTuple(tuples[k].row, proofs)], t, Modified(content, e))
  {
    Replaced(tuples, t, content, k, proofs);
    assert e.Proofs() == ProofSet(e.proofs) && At(content, e.atom) == ProofSet(tuples[k].proofs);
  }

  function Skip(i: nat, k: nat): nat {
    if i < k then i else i + 1
  }

  lemma Removed(tuples: seq<DBTuple>, t: Name, content: Data, k: nat)
    requires TableStores(tuples, t, content) && k < |tuples|
    ensures TableStores(tuples[..k] + tuples[k + 1..], t, content - {Atom(t, tuples[k].row)})
  {
    hide TableStores;
    var left := tuples[..k] + tuples[k + 1..];
    assert forall i :: 0 <= i < |left| ==> left[i] == tuples[Skip(i, k)];
    RemovedFrom(tuples, t, content, k, left);
  }

  lemma RemovedFrom(tuples: seq<DBTuple>, t: Name, content: Data, k: nat, left: seq<DBTuple>)
    requires TableStores(tuples, t, content) && k < |tuples| && |left| == |tuples| - 1
    requires forall i :: 0 <= i < |left| ==> left[i] == tuples[Skip(i, k)]
    ensures TableStores(left, t, content - {Atom(t, tuples[k].row)})
  {
    forall i | 0 <= i < |left|
      ensures left[i].row != tuples[k].row
    {
      assert left[i] == tuples[Skip(i, k)];
    }
    forall a | a in content - {Atom(t, tuples[k].row)} && a.table == t
      ensures exists i :: 0 <= i < |left| && left[i].row == a.row
    {
      var i :| 0 <= i < |tuples| && tuples[i].row == a.row;
      var j := if i < k then i else i - 1;
      assert left[j] == tuples[Skip(j, k)];
    }
  }

  class Database {
    var data: Tables
    /** The stored tuples as facts, with the set of their proofs. */
    ghost var content: Data

    constructor ()
      ensures Valid() && content == map[]
    {
      data := map[];
      content := map[];
    }

    ghost predicate Valid()
      reads this
    {
      Stores(data, content)
    }

    /** Where the tuple of an event is, if it is stored. */
    method Find(a: Atom) returns (k: Option<nat>)
      requires Valid()
      ensures k.None? ==> a !in content
      ensures k.Some? ==> a.table in data && k.value < |data[a.table]| && data[a.table][k.value].row == a.row
      ensures k.Some? ==> a in content && content[a] == ProofSet(data[a.table][k.value].proofs)
    {
      if a.table !in data {
        return None;
      }
      assert TableStores(data[a.table], a.table, content);
      for i := 0 to |data[a.table]|
        invariant forall j :: 0 <= j < i ==> data[a.table][j].row != a.row
      {
        if data[a.table][i].row == a.row {
          return Some(i);
        }
      }
      return None;
    }

    /** Would the event change nothing?  A delete is ignored unless all its proofs are there. */
    method IsNoop(e: Event) returns (noop: bool)
      requires Valid() && e.FactEvent?
      ensures var there := e.atom in content && e.Proofs() <= content[e.atom];
        noop == if e.insert then there else !there
    {
      assert e.Proofs() == ProofSet(e.proofs);
      noop := e.insert;
      var k := Find(e.atom);
      if k.Some? {
        var all := Includes(data[e.atom.table][k.value].proofs, e.proofs);
        if all {
          return noop;
        }
      }
      return !noop;
    }

    /** Insert or delete a tuple, and tell whether that changed anything. */
    method Modify(e: Event) returns (changed: bool)
      requires Valid() && e.FactEvent?
      modifies this
      ensures Valid() && content == Modified(old(content), e)
      ensures !changed ==> content == old(content)
      ensures var there := e.atom in old(content) && e.Proofs() <= old(content)[e.atom];
        changed <==> if e.insert then !there else there
    {
      var noop := IsNoop(e);
      if noop {
        assert e.insert ==> content[e.atom] + e.Proofs() == content[e.atom];
        return false;
      }
      if e.insert {
        InsertActual(e);
      } else {
        DeleteActual(e);
      }
      return true;
    }

    method InsertActual(e: Event)
      requires Valid() && e.FactEvent? && e.insert
      modifies this
      ensures Valid() && content == Modified(old(content), e)
    {
      var t := e.atom.table;
      var k := Find(e.atom);
      TableOf(data, content, t);
      ModifiedElsewhere(content, e);
      var tuples := if t in data then data[t] else [];
      if k.Some? {
        var proofs := Join(tuples[k.value].proofs, e.proofs);
        Inserted(tuples, t, content, e, k.value, proofs);
        tuples := tuples[k.value := DBTuple(tuples[k.value].row, proofs)];
      } else {
        Appended(tuples, t, content, e);
        tuples := tuples + [DBTuple(e.atom.row, e.proofs)];
      }
      hide *;
      StoresChange(data, content, t, tuples, Modified(content, e));
      data := data[t := tuples];
      content := Modified(content, e);
      IsValid();
    }

    lemma IsValid()
      requires Stores(data, content)
      ensures Valid()
    {
    }

    method DeleteActual(e: Event)
      requires Valid() && e.FactEvent? && !e.insert && e.atom in content && e.Proofs() <= content[e.atom]
      modifies this
      ensures Valid() && content == Modified(old(content), e)
    {
      var t := e.atom.table;
      ghost var content' := Modified(content, e);
      assert e.Proofs() == ProofSet(e.proofs);
      var k := Find(e.atom);
      var i := k.value;
      var proofs := Subtract(data[t][i].proofs, e.proofs);
      if |proofs| == 0 {
        Removed(data[t], t, content, i);
        StoresChange(data, content, t, data[t][..i] + data[t][i + 1..], content');
        data := data[t := data[t][..i] + data[t][i + 1..]];
      } else {
        assert proofs[0] in ProofSet(proofs);
        Replaced(data[t], t, content, i, proofs);
        StoresChange(data, content, t, data[t][i := DBTuple(data[t][i].row, proofs)], content');
        data := data[t := data[t][i := DBTuple(data[t][i].row, proofs)]];
      }
      content := content';
    }

    /** All ways to extend a binding so that the literals are stored facts: what the search finds
        in a database, where every rule is a fact. */
    method Evaluate(literals: seq<Literal>, binding: Binding) returns (results: seq<Binding>)
      requires Valid()
      ensures forall b :: b in results <==> Solves(content.Keys, literals, binding, b)
      decreases |literals|
    {
      hide *;
      if literals == [] {
        SolvesNothing(content.Keys, binding);
        return [binding];
      }
      Unpack();
      results := [];
      var t := literals[0].table;
      if t !in data {
        NoTable(data, content, literals, binding);
        return;
      }
      var tuples := data[t];
      FoundNothing(content.Keys, literals, binding, tuples);
      for i := 0 to |tuples|
        invariant Valid() && content == old(content)
        invariant forall b :: b in results <==> Found(content.Keys, literals, binding, tuples, i, b)
      {
        var m := Match(tuples[i].row, literals[0].args, binding);
        ghost var before := results;
        if m.Some? {
          StoredFact(i, t);
          var more := Evaluate(literals[1..], m.value);
          FoundMore(content.Keys, literals, binding, tuples, i, m.value, more);
          results := results + more;
        } else {
          FoundNoMore(content.Keys, literals, binding, tuples, i);
        }
      }
      FoundAll(data, content, literals, binding);
    }

    lemma Unpack()
      requires Valid()
      ensures Stores(data, content)
    {
    }

    lemma StoredFact(i: nat, t: Name)
      requires Valid() && t in data && i < |data[t]|
      ensures Atom(t, data[t][i].row) in content
    {
      assert TableStores(data[t], t, content);
    }
  }

  // ----- evaluation

  ghost predicate Extends(b: Binding, c: Binding) {
    forall x :: x in c ==> x in b && b[x] == c[x]
  }

  /** b gives values to the variables of the literals, and to no more, so that all are facts. */
  ghost predicate Solves(d: set<Atom>, literals: seq<Literal>, binding: Binding, b: Binding) {
    && Extends(b, binding) && b.Keys == binding.Keys + BodyVars(literals)
    && forall i :: 0 <= i < |literals| ==> Plug(b, literals[i]) in d
  }

  /** c is what matching args with a row makes of a binding. */
  ghost predicate Matches(row: seq<Const>, args: seq<Term>, binding: Binding, c: Binding) {
    && Extends(c, binding) && c.Keys == binding.Keys + VarNames(args)
    && Row(Values(c), args) == row
  }

  lemma SolvesNothing(d: set<Atom>, binding: Binding)
    ensures forall b :: b == binding <==> Solves(d, [], binding, b)
  {
    forall b | Solves(d, [], binding, b)
      ensures b == binding
    {
      assert b.Keys == binding.Keys;
    }
  }

  /** b extends a binding and turns the arguments into the row. */
  ghost predicate Agrees(row: seq<Const>, args: seq<Term>, binding: Binding, b: Binding) {
    Extends(b, binding) && VarNames(args) <= b.Keys && Row(Values(b), args) == row
  }

  /** c is what matching the first i arguments has made of a binding: no solution is lost. */
  ghost predicate Matching(row: seq<Const>, args: seq<Term>, binding: Binding, i: nat, c: Binding)
    requires i <= |args| == |row|
  {
    && Extends(c, binding) && c.Keys == binding.Keys + VarNames(args[..i])
    && (forall j :: 0 <= j < i ==> Eval(Values(c), args[j]) == row[j] && (args[j].Var? ==> args[j].name in c))
    && forall b :: Agrees(row, args, binding, b) ==> Extends(b, c)
  }

  lemma VarNamesNext(args: seq<Term>, i: nat)
    requires i < |args|
    ensures VarNames(args[..i + 1]) == VarNames(args[..i]) + if args[i].Var? then {args[i].name} else {}
  {
    assert args[..i + 1] == args[..i] + [args[i]];
  }

  /** What a binding that solves the whole must say about one argument. */
  lemma Forced(row: seq<Const>, args: seq<Term>, binding: Binding, b: Binding, i: nat)
    requires Agrees(row, args, binding, b) && i < |args|
    ensures Eval(Values(b), args[i]) == row[i] && (args[i].Var? ==> args[i].name in b && b[args[i].name] == row[i])
  {
    assert Row(Values(b), args)[i] == Eval(Values(b), args[i]);
    assert args[i].Var? ==> Var(args[i].name) in args;
  }

  lemma MatchingVar(row: seq<Const>, args: seq<Term>, binding: Binding, i: nat, c: Binding)
    requires i < |args| == |row| && Matching(row, args, binding, i, c) && args[i].Var? && args[i].name !in c
    ensures Matching(row, args, binding, i + 1, c[args[i].name := row[i]])
  {
    VarNamesNext(args, i);
    hide VarNames, Row, Agrees;
    forall b | Agrees(row, args, binding, b)
      ensures Extends(b, c[args[i].name := row[i]])
    {
      Forced(row, args, binding, b, i);
    }
  }

  lemma MatchingKnown(row: seq<Const>, args: seq<Term>, binding: Binding, i: nat, c: Binding)
    requires i < |args| == |row| && Matching(row, args, binding, i, c) && (args[i].Var? ==> args[i].name in c)
    ensures Eval(Values(c), args[i]) == row[i] ==> Matching(row, args, binding, i + 1, c)
    ensures Eval(Values(c), args[i]) != row[i] ==>
      forall b :: !Agrees(row, args, binding, b)
  {
    VarNamesNext(args, i);
    hide VarNames, Row, Agrees;
    forall b | Agrees(row, args, binding, b)
      ensures Eval(Values(c), args[i]) == row[i]
    {
      Forced(row, args, binding, b, i);
      assert Extends(b, c);
    }
  }

  lemma MatchingDone(row: seq<Const>, args: seq<Term>, binding: Binding, c: Binding)
    requires |args| == |row| && Matching(row, args, binding, |args|, c)
    ensures Matches(row, args, binding, c)
  {
    assert args[..|args|] == args;
    assert Row(Values(c), args) == row;
  }

  /** Match a stored row with the arguments of a literal. */
  method Match(row: seq<Const>, args: seq<Term>, binding: Binding) returns (r: Option<Binding>)
    ensures r.Some? ==> Matches(row, args, binding, r.value)
    ensures r.None? ==> forall b :: Extends(b, binding) && VarNames(args) <= b.Keys ==> Row(Values(b), args) != row
  {
    if |row| != |args| {
      return None;
    }
    var c := binding;
    assert Matching(row, args, binding, 0, c) by {
      assert args[..0] == [];
    }
    hide Matching, Matches, Extends;
    for i := 0 to |args|
      invariant Matching(row, args, binding, i, c)
    {
      var t := args[i];
      if t.Var? && t.name !in c {
        MatchingVar(row, args, binding, i, c);
        c := c[t.name := row[i]];
      } else {
        MatchingKnown(row, args, binding, i, c);
        if Eval(Values(c), t) != row[i] {
          return None;
        }
      }
    }
    MatchingDone(row, args, binding, c);
    return Some(c);
  }

  lemma SolvesRest(d: set<Atom>, literals: seq<Literal>, binding: Binding, b: Binding, row: seq<Const>, c: Binding)
    requires literals != [] && Matches(row, literals[0].args, binding, c) && Atom(literals[0].table, row) in d
    requires Solves(d, literals[1..], c, b)
    ensures Plug(b, literals[0]).row == row && Solves(d, literals, binding, b)
  {
    hide BodyVars, VarNames;
    var lit, rest := literals[0], literals[1..];
    BodyVarsFirst(literals);
    assert Plug(b, lit) == Atom(lit.table, row) by {
      RowAgree(Values(b), Values(c), lit.args);
    }
    forall i | 0 <= i < |literals|
      ensures Plug(b, literals[i]) in d
    {
      assert i > 0 ==> literals[i] == rest[i - 1];
    }
  }

  lemma BodyVarsFirst(literals: seq<Literal>)
    requires literals != []
    ensures BodyVars(literals) == literals[0].Vars() + BodyVars(literals[1..])
  {
    assert literals == [literals[0]] + literals[1..];
  }

  lemma SolvesFirst(d: set<Atom>, literals: seq<Literal>, binding: Binding, b: Binding, row: seq<Const>, c: Binding)
    requires literals != [] && Matches(row, literals[0].args, binding, c)
    requires Plug(b, literals[0]).row == row && Solves(d, literals, binding, b)
    ensures Solves(d, literals[1..], c, b)
  {
    var lit, rest := literals[0], literals[1..];
    BodyVarsFirst(literals);
    forall x | x in c
      ensures x in b && b[x] == c[x]
    {
      if x !in binding {
        var k :| 0 <= k < |lit.args| && lit.args[k] == Var(x);
        assert Row(Values(b), lit.args)[k] == Row(Values(c), lit.args)[k];
        assert x in lit.Vars();
      }
    }
    forall i | 0 <= i < |rest|
      ensures Plug(b, rest[i]) in d
    {
      assert rest[i] == literals[i + 1];
    }
  }

  /** b solves the literals, the first one by one of the first i tuples. */
  ghost predicate Found(d: set<Atom>, literals: seq<Literal>, binding: Binding, tuples: seq<DBTuple>, i: nat,
      b: Binding)
    requires literals != [] && i <= |tuples|
  {
    Solves(d, literals, binding, b) && exists j :: 0 <= j < i && Plug(b, literals[0]).row == tuples[j].row
  }

  lemma FoundNothing(d: set<Atom>, literals: seq<Literal>, binding: Binding, tuples: seq<DBTuple>)
    requires literals != []
    ensures forall b :: !Found(d, literals, binding, tuples, 0, b)
  {
  }

  lemma FoundMore(d: set<Atom>, literals: seq<Literal>, binding: Binding, tuples: seq<DBTuple>, i: nat,
      c: Binding, more: seq<Binding>)
    requires literals != [] && i < |tuples| && Matches(tuples[i].row, literals[0].args, binding, c)
    requires Atom(literals[0].table, tuples[i].row) in d
    requires forall b :: b in more <==> Solves(d, literals[1..], c, b)
    ensures forall b :: Found(d, literals, binding, tuples, i + 1, b) <==>
      Found(d, literals, binding, tuples, i, b) || b in more
  {
    hide Solves, Matches, Plug;
    forall b
      ensures Found(d, literals, binding, tuples, i + 1, b) <==> Found(d, literals, binding, tuples, i, b) || b in more
    {
      if b in more {
        SolvesRest(d, literals, binding, b, tuples[i].row, c);
      }
      if Solves(d, literals, binding, b) && Plug(b, literals[0]).row == tuples[i].row {
        SolvesFirst(d, literals, binding, b, tuples[i].row, c);
      }
    }
  }

  lemma FoundNoMore(d: set<Atom>, literals: seq<Literal>, binding: Binding, tuples: seq<DBTuple>, i: nat)
    requires literals != [] && i < |tuples|
    requires forall c :: Extends(c, binding) && VarNames(literals[0].args) <= c.Keys ==>
      Row(Values(c), literals[0].args) != tuples[i].row
    ensures forall b :: Found(d, literals, binding, tuples, i + 1, b) <==> Found(d, literals, binding, tuples, i, b)
  {
    forall b
      ensures !(Plug(b, literals[0]).row == tuples[i].row && Solves(d, literals, binding, b))
    {
      if Solves(d, literals, binding, b) {
        assert literals[0].Vars() <= BodyVars(literals);
      }
    }
  }

  lemma FoundAll(tables: Tables, content: Data, literals: seq<Literal>, binding: Binding)
    requires Stores(tables, content) && literals != [] && literals[0].table in tables
    ensures var tuples := tables[literals[0].table];
      forall b :: Found(content.Keys, literals, binding, tuples, |tuples|, b) <==>
        Solves(content.Keys, literals, binding, b)
  {
    var tuples := tables[literals[0].table];
    assert TableStores(tuples, literals[0].table, content);
    forall b | Solves(content.Keys, literals, binding, b)
      ensures Found(content.Keys, literals, binding, tuples, |tuples|, b)
    {
      assert Plug(b, literals[0]) in content.Keys;
    }
  }

  lemma NoTable(tables: Tables, content: Data, literals: seq<Literal>, binding: Binding)
    requires Stores(tables, content) && literals != [] && literals[0].table !in tables
    ensures forall b :: !Solves(content.Keys, literals, binding, b)
  {
    forall b
      ensures !Solves(content.Keys, literals, binding, b)
    {
      assert Solves(content.Keys, literals, binding, b) ==> Plug(b, literals[0]) in content.Keys;
    }
  }
}
