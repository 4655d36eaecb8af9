/** congress/datalog/ruleset.py: the rules of a theory, with its facts kept apart and indexed. */
module RuleSet {
  import opened Options
  import opened Datalog
  import opened FactSet

  function ObjTerms(f: Fact): (ts: seq<Term>)
    ensures |ts| == |f.values| && forall i :: 0 <= i < |ts| ==> ts[i] == Obj(f.values[i])
  {
    seq(|f.values|, i requires 0 <= i < |f.values| => Obj(f.values[i]))
  }

  /** A fact as the rule without body that the search sees. */
  function FactRule(key: Name, f: Fact): Rule {
    Rule(Literal(key, ObjTerms(f), false), [])
  }

  /** The name of a term, which for an object constant is its raw value. */
  function TermName(t: Term): Const {
    match t
    case Obj(c) => c
    case Var(x) => Str(x.text)
  }

  function TermNames(ts: seq<Term>): (f: Fact)
    ensures |f.values| == |ts| && forall i :: 0 <= i < |ts| ==> f.values[i] == TermName(ts[i])
  {
    Fact(seq(|ts|, i requires 0 <= i < |ts| => TermName(ts[i])))
  }

  /** The rule as it is kept: one without body becomes a fact. */
  function Kept(key: Name, r: Rule): Rule {
    if r.body == [] then FactRule(key, TermNames(r.head.args)) else r
  }

  /** A rule, or an atom without variables, is kept as it is. */
  lemma KeptAsGiven(key: Name, r: Rule)
    requires key == r.head.table && (r.body != [] || (!r.head.negated && r.head.IsGround()))
    ensures Kept(key, r) == r
  {
    if r.body == [] {
      assert ObjTerms(TermNames(r.head.args)) == r.head.args;
    }
  }

  /** Rules are compared up to the order of their bodies. */
  predicate SameRule(r: Rule, r': Rule) {
    r.head == r'.head && multiset(r.body) == multiset(r'.body)
  }

  ghost predicate Known(rs: set<Rule>, r: Rule) {
    exists r' :: r' in rs && SameRule(r, r')
  }

  predicate Listed(r: Rule, rs: seq<Rule>) {
    exists i :: 0 <= i < |rs| && SameRule(r, rs[i])
  }

  /** The columns in which a literal has a constant, with those constants. */
  function BoundFrom(args: seq<Term>, i: nat): (partial: Partial)
    requires i <= |args|
    ensures forall c, v :: (c, v) in partial <==> i <= c < |args| && args[c] == Obj(v)
    decreases |args| - i
  {
    if i == |args| then []
    else if args[i].Obj? then [(i, args[i].value)] + BoundFrom(args, i + 1)
    else BoundFrom(args, i + 1)
  }

  /** The head of r has another constant than lit in some position, so the two do not unify. */
  ghost predicate Clashes(r: Rule, lit: Literal) {
    exists i :: 0 <= i < |lit.args| && i < |r.head.args|
      && lit.args[i].Obj? && r.head.args[i].Obj? && lit.args[i] != r.head.args[i]
  }

  // ----- what a rule set holds, apart from its objects

  type Tables = map<Name, set<Fact>>

  type Bodies = map<Name, seq<Rule>>

  ghost predicate HasFact(tables: Tables, k: Name, f: Fact) {
    k in tables && f in tables[k]
  }

  ghost predicate HasRule(bodies: Bodies, r: Rule) {
    r.head.table in bodies && r in bodies[r.head.table]
  }

  ghost predicate Filed(bodies: Bodies) {
    && (forall k, r :: k in bodies && r in bodies[k] ==> r.head.table == k && r.body != [])
    && (forall k :: k in bodies ==> Unlike(bodies[k]))
  }

  /** No two rules of the list are the same up to the order of their bodies. */
  ghost predicate Unlike(rs: seq<Rule>) {
    forall i, j :: 0 <= i < j < |rs| ==> !SameRule(rs[i], rs[j])
  }

  ghost function ContentOf(tables: Tables, bodies: Bodies): set<Rule> {
    (set k, f | k in tables && f in tables[k] :: FactRule(k, f)) + (set k, r | k in bodies && r in bodies[k] :: r)
  }

  lemma InContent(tables: Tables, bodies: Bodies, r: Rule)
    requires Filed(bodies)
    ensures r in ContentOf(tables, bodies) <==>
      HasRule(bodies, r) || exists f :: HasFact(tables, r.head.table, f) && r == FactRule(r.head.table, f)
    ensures r in ContentOf(tables, bodies) && r.body == [] ==>
      exists f :: HasFact(tables, r.head.table, f) && r == FactRule(r.head.table, f)
  {
    if r in ContentOf(tables, bodies) && !HasRule(bodies, r) {
      var k, f :| k in tables && f in tables[k] && r == FactRule(k, f);
      assert HasFact(tables, r.head.table, f);
    }
    forall f | HasFact(tables, r.head.table, f) && r == FactRule(r.head.table, f)
      ensures r in ContentOf(tables, bodies)
    {
    }
  }

  lemma FactInjective(k: Name, f: Fact, g: Fact)
    requires FactRule(k, f) == FactRule(k, g)
    ensures f == g
  {
    assert forall i :: 0 <= i < |f.values| ==> ObjTerms(f)[i] == ObjTerms(g)[i];
  }

  lemma KnownFact(tables: Tables, bodies: Bodies, k: Name, f: Fact)
    requires Filed(bodies)
    ensures HasFact(tables, k, f) <==> Known(ContentOf(tables, bodies), FactRule(k, f))
    ensures HasFact(tables, k, f) <==> FactRule(k, f) in ContentOf(tables, bodies)
  {
    var r := FactRule(k, f);
    InContent(tables, bodies, r);
    if Known(ContentOf(tables, bodies), r) {
      var r' :| r' in ContentOf(tables, bodies) && SameRule(r, r');
      assert |multiset(r'.body)| == |r'.body|;
      InContent(tables, bodies, r');
      var g :| HasFact(tables, k, g) && r' == FactRule(k, g);
      FactInjective(k, f, g);
    }
    if HasFact(tables, k, f) {
      assert SameRule(r, r);
    }
  }

  lemma KnownRule(tables: Tables, bodies: Bodies, r: Rule)
    requires Filed(bodies) && r.body != []
    ensures Known(ContentOf(tables, bodies), r) <==> r.head.table in bodies && Listed(r, bodies[r.head.table])
  {
    if Known(ContentOf(tables, bodies), r) {
      var r' :| r' in ContentOf(tables, bodies) && SameRule(r, r');
      assert |multiset(r.body)| == |r.body| && |multiset(r'.body)| == |r'.body|;
      InContent(tables, bodies, r');
      var i :| 0 <= i < |bodies[r'.head.table]| && bodies[r'.head.table][i] == r';
    }
    if r.head.table in bodies && Listed(r, bodies[r.head.table]) {
      var i :| 0 <= i < |bodies[r.head.table]| && SameRule(r, bodies[r.head.table][i]);
      InContent(tables, bodies, bodies[r.head.table][i]);
    }
  }

  /** Every fact of the table has the given width. */
  ghost predicate Sized(widths: map<Name, nat>, key: Name, width: nat) {
    key in widths ==> widths[key] == width
  }

  // ----- the class

  class RuleSet {
    var rules: map<Name, seq<Rule>>
    var facts: map<Name, FactSet>
    /** The facts of every table. */
    ghost var tables: Tables
    /** How wide the facts of every table are. */
    ghost var widths: map<Name, nat>
    /** The fact sets in use. */
    ghost var repr: set<FactSet>

    constructor ()
      ensures Valid() && Content() == {} && fresh(repr)
    {
      rules := map[];
      facts := map[];
      tables := map[];
      widths := map[];
      repr := {};
    }

    /** The set of facts behind a table. */
    ghost predicate Backs(fset: FactSet, key: Name, width: nat, fs: set<Fact>)
      reads fset
    {
      fset.table == key && fset.width == width && fset.Valid() && fset.Facts() == fs
    }

    ghost predicate ValidFacts()
      reads `facts, `tables, `widths, `repr, repr
    {
      && tables.Keys == widths.Keys == facts.Keys
      && (forall k :: k in facts ==> facts[k] in repr && Backs(facts[k], k, widths[k], tables[k]))
    }

    ghost predicate Valid()
      reads this, repr
    {
      ValidFacts() && Filed(rules)
    }

    ghost function Content(): set<Rule>
      reads this
    {
      ContentOf(tables, rules)
    }

    predicate Contains(key: Name)
      reads this
    {
      key in facts || key in rules
    }

    /** Adds a rule, or a fact if it has no body.  False iff it was there already. */
    method AddRule(key: Name, r: Rule) returns (changed: bool)
      requires Valid() && key == r.head.table && !r.head.negated
      requires r.body == [] ==> Sized(widths, key, |r.head.args|)
      modifies this, repr
      ensures Valid() && fresh(repr - old(repr))
      ensures Content() == old(Content()) + if changed then {Kept(key, r)} else {}
      ensures changed == !Known(old(Content()), Kept(key, r))
      ensures changed <==>
        forall r' :: r' in old(Content()) ==>
          r'.head != Kept(key, r).head || multiset(r'.body) != multiset(Kept(key, r).body)
    {
      if r.body == [] {
        KnownFact(tables, rules, key, TermNames(r.head.args));
        changed := AddFact(key, TermNames(r.head.args));
        AddedFact(old(tables), tables, rules, key, TermNames(r.head.args));
      } else {
        changed := AddBody(key, r);
      }
    }

    method AddBody(key: Name, r: Rule) returns (changed: bool)
      requires Filed(rules) && key == r.head.table && !r.head.negated && r.body != []
      modifies this`rules
      ensures Filed(rules) && changed == !Known(old(Content()), r)
      ensures Content() == old(Content()) + if changed then {r} else {}
    {
      KnownRule(tables, rules, r);
      var rs := if key in rules then rules[key] else [];
      changed := !Listed(r, rs);
      if changed {
        FiledMore(rules, r);
        hide Filed, ContentOf, Known, Listed;
        rules := rules[key := rs + [r]];
        AddedRule(tables, old(rules), rules, r);
      }
    }

    /** Removes a rule, or a fact if it has no body.  False iff it was not there. */
    method DiscardRule(key: Name, r: Rule) returns (changed: bool)
      requires Valid() && key == r.head.table && !r.head.negated
      modifies this, repr
      ensures Valid() && repr == old(repr)
      ensures forall r' :: r' in Content() <==> r' in old(Content()) && !SameRule(Kept(key, r), r')
      ensures changed == Known(old(Content()), Kept(key, r))
    {
      changed := false;
      if r.body == [] {
        KnownFact(tables, rules, key, TermNames(r.head.args));
        if key in facts {
          changed := RemoveFact(key, TermNames(r.head.args));
          RemovedFact(old(tables), tables, rules, key, TermNames(r.head.args));
        }
      } else {
        KnownRule(tables, rules, r);
        if key in rules {
          var rs, found := Without(rules[key], r);
          changed := found;
          rules := if rs == [] then rules - {key} else rules[key := rs];
          RemovedRule(tables, old(rules), rules, rs, r);
        }
      }
    }

    method RemoveFact(key: Name, f: Fact) returns (changed: bool)
      requires ValidFacts() && key in facts
      modifies this`facts, this`tables, this`widths, repr
      ensures ValidFacts()
      ensures tables ==
        if old(tables)[key] - {f} == {} then old(tables) - {key} else old(tables)[key := old(tables)[key] - {f}]
      ensures changed == HasFact(old(tables), key, f)
    {
      hide *;
      HasTable(key);
      HasFactIs(tables, key, f);
      var empty;
      changed, empty := RemoveFrom(key, f);
      if empty {
        DropTable(key);
      }
    }

    lemma HasTable(key: Name)
      requires ValidFacts() && key in facts
      ensures facts[key] in repr && key in tables
    {
    }

    lemma HasFactIs(tables: Tables, key: Name, f: Fact)
      ensures HasFact(tables, key, f) <==> key in tables && f in tables[key]
    {
    }

    method RemoveFrom(key: Name, f: Fact) returns (changed: bool, empty: bool)
      requires ValidFacts() && key in facts
      modifies this`tables, facts[key]
      ensures ValidFacts()
      ensures tables == old(tables)[key := old(tables)[key] - {f}]
      ensures changed == (f in old(tables)[key]) && empty == (tables[key] == {})
    {
      var fset := facts[key];
      changed := fset.Remove(f);
      empty := fset.facts == [];
      assert empty <==> fset.Facts() == {} by {
        assert fset.facts != [] ==> fset.facts[0] in fset.Facts();
      }
      hide FactSet.Valid, FactSet.Facts;
      tables := tables[key := tables[key] - {f}];
    }

    method DropTable(key: Name)
      requires ValidFacts() && key in facts
      modifies this`facts, this`tables, this`widths
      ensures ValidFacts() && tables == old(tables) - {key}
    {
      facts := facts - {key};
      tables := tables - {key};
      widths := widths - {key};
    }

    /** The facts of a table, leaving out only facts that clash with the literal. */
    method GetFacts(key: Name, matchLiteral: Option<Literal>) returns (fs: seq<Fact>)
      requires ValidFacts()
      requires matchLiteral.Some? ==> Sized(widths, key, |matchLiteral.value.args|)
      modifies repr
      ensures ValidFacts()
      ensures forall f :: f in fs ==> HasFact(tables, key, f)
      ensures forall f :: HasFact(tables, key, f) ==>
        f in fs || (matchLiteral.Some? && Clashes(FactRule(key, f), matchLiteral.value))
      ensures matchLiteral.Some? && !matchLiteral.value.negated ==>
        forall f :: f in fs ==> !Clashes(FactRule(key, f), matchLiteral.value)
    {
      if key !in facts {
        return [];
      }
      var fset := facts[key];
      if matchLiteral.Some? && !matchLiteral.value.negated {
        var partial := BoundFrom(matchLiteral.value.args, 0);
        PartialFits(matchLiteral.value.args, partial);
        fs := FindIn(fset, partial);
        hide FactSet.Valid;
        forall f | HasFact(tables, key, f) && f !in fs
          ensures Clashes(FactRule(key, f), matchLiteral.value)
        {
          MismatchClashes(key, f, matchLiteral.value);
        }
        forall f | f in fs
          ensures !Clashes(FactRule(key, f), matchLiteral.value)
        {
          MatchAgrees(key, f, matchLiteral.value);
        }
      } else {
        fs := fset.facts;
      }
    }

    /** The rules for a table, leaving out only facts that clash with the literal to be matched.
        Reading may create an index. */
    method GetRules(key: Name, matchLiteral: Option<Literal>) returns (found: seq<Rule>)
      requires Valid()
      requires matchLiteral.Some? ==> Sized(widths, key, |matchLiteral.value.args|)
      modifies repr
      ensures Valid()
      ensures forall r :: r in found ==> r in Content() && r.head.table == key
      ensures forall r :: r in Content() && r.head.table == key ==>
        r in found || (matchLiteral.Some? && Clashes(r, matchLiteral.value))
    {
      var fs := GetFacts(key, matchLiteral);
      hide ValidFacts, Clashes;
      var bodies := if key in rules then rules[key] else [];
      found := FactsAsRules(key, fs) + bodies;
      forall r | r in found
        ensures r in Content() && r.head.table == key
      {
        InContent(tables, rules, r);
        if r in FactsAsRules(key, fs) {
          var i :| 0 <= i < |fs| && r == FactRule(key, fs[i]);
          assert HasFact(tables, key, fs[i]);
        }
      }
      forall r | r in Content() && r.head.table == key
        ensures r in found || (matchLiteral.Some? && Clashes(r, matchLiteral.value))
      {
        InContent(tables, rules, r);
        if !HasRule(rules, r) {
          var f :| HasFact(tables, key, f) && r == FactRule(key, f);
          if f in fs {
            var i :| 0 <= i < |fs| && fs[i] == f;
            assert FactsAsRules(key, fs)[i] == r;
          }
        }
      }
    }

    method AddFact(key: Name, f: Fact) returns (changed: bool)
      requires ValidFacts() && Sized(widths, key, |f.values|)
      modifies this`facts, this`tables, this`widths, this`repr, repr
      ensures ValidFacts() && fresh(repr - old(repr))
      ensures tables == old(tables)[key := (if key in old(tables) then old(tables)[key] else {}) + {f}]
      ensures changed == !HasFact(old(tables), key, f)
    {
      hide ValidFacts, FactSet.Valid, FactSet.Facts;
      OpenTable(key, |f.values|);
      changed := AddTo(key, f);
    }

    method AddTo(key: Name, f: Fact) returns (changed: bool)
      requires ValidFacts() && key in facts && facts[key].width == |f.values|
      modifies this`tables, facts[key]
      ensures ValidFacts()
      ensures tables == old(tables)[key := old(tables)[key] + {f}]
      ensures changed == (f !in old(tables)[key])
    {
      var fset := facts[key];
      assert f in fset.facts <==> f in tables[key];
      assert forall k :: k in facts && k != key ==> facts[k] != fset;
      hide FactSet.Valid, FactSet.Facts;
      changed := fset.Add(f);
      assert Backs(fset, key, widths[key], tables[key] + {f});
      hide Backs;
      tables := tables[key := tables[key] + {f}];
    }

    /** Makes sure that there is a table for the key. */
    method OpenTable(key: Name, ghost width: nat)
      requires ValidFacts() && Sized(widths, key, width)
      modifies this`facts, this`tables, this`widths, this`repr
      ensures ValidFacts() && fresh(repr - old(repr))
      ensures key in facts && facts[key].width == width && facts[key] in repr
      ensures tables == old(tables)[key := if key in old(tables) then old(tables)[key] else {}]
    {
      if key !in facts {
        var empty := new FactSet(key, width);
        facts := facts[key := empty];
        tables := tables[key := {}];
        widths := widths[key := width];
        repr := repr + {empty};
      }
    }
  }

  /** A list of rules without the one, if any, that is the same as r. */
  method Without(rs: seq<Rule>, r: Rule) returns (left: seq<Rule>, found: bool)
    requires Unlike(rs)
    ensures Unlike(left) && found == Listed(r, rs)
    ensures forall q :: q in left <==> q in rs && !SameRule(r, q)
  {
    for i := 0 to |rs|
      invariant forall j :: 0 <= j < i ==> !SameRule(r, rs[j])
    {
      if SameRule(r, rs[i]) {
        left, found := rs[..i] + rs[i + 1..], true;
        forall q
          ensures q in left <==> q in rs && !SameRule(r, q)
        {
          if q in rs && !SameRule(r, q) {
            var j :| 0 <= j < |rs| && rs[j] == q;
            assert left[if j < i then j else j - 1] == q;
          }
        }
        return;
      }
    }
    left, found := rs, false;
  }

  lemma RemovedFact(tables: Tables, tables': Tables, bodies: Bodies, k: Name, f: Fact)
    requires k in tables && Filed(bodies)
    requires tables' == if tables[k] - {f} == {} then tables - {k} else tables[k := tables[k] - {f}]
    ensures forall r :: r in ContentOf(tables', bodies) <==>
      r in ContentOf(tables, bodies) && !SameRule(FactRule(k, f), r)
  {
    forall r
      ensures r in ContentOf(tables', bodies) <==> r in ContentOf(tables, bodies) && !SameRule(FactRule(k, f), r)
    {
      assert |multiset(r.body)| == |r.body| && multiset(FactRule(k, f).body) == multiset{};
      InContent(tables, bodies, r);
      InContent(tables', bodies, r);
      if r in ContentOf(tables, bodies) && r.body == [] {
        var g :| HasFact(tables, r.head.table, g) && r == FactRule(r.head.table, g);
        if SameRule(FactRule(k, f), r) {
          FactInjective(k, f, g);
          forall g' | HasFact(tables', k, g') && r == FactRule(k, g')
            ensures false
          {
            FactInjective(k, f, g');
          }
        } else {
          assert SameRule(r, r);
          if r.head.table == k {
            assert g in tables[k] - {f};
          }
          assert HasFact(tables', r.head.table, g);
        }
      }
    }
  }

  lemma RemovedRule(tables: Tables, bodies: Bodies, bodies': Bodies, rs: seq<Rule>, r: Rule)
    requires Filed(bodies) && r.body != [] && r.head.table in bodies
    requires forall q :: q in rs <==> q in bodies[r.head.table] && !SameRule(r, q)
    requires bodies' == if rs == [] then bodies - {r.head.table} else bodies[r.head.table := rs]
    requires Unlike(rs)
    ensures Filed(bodies')
    ensures forall q :: q in ContentOf(tables, bodies') <==> q in ContentOf(tables, bodies) && !SameRule(r, q)
  {
    forall q
      ensures q in ContentOf(tables, bodies') <==> q in ContentOf(tables, bodies) && !SameRule(r, q)
    {
      assert |multiset(q.body)| == |q.body| && |multiset(r.body)| == |r.body|;
      InContent(tables, bodies, q);
      InContent(tables, bodies', q);
    }
  }

  lemma AddedFact(tables: Tables, tables': Tables, bodies: Bodies, k: Name, f: Fact)
    requires tables' == tables[k := (if k in tables then tables[k] else {}) + {f}]
    ensures ContentOf(tables', bodies) == ContentOf(tables, bodies) + {FactRule(k, f)}
  {
    forall r
      ensures r in ContentOf(tables', bodies) <==> r in ContentOf(tables, bodies) + {FactRule(k, f)}
    {
      forall g | g in tables'[k] && r == FactRule(k, g)
        ensures r in ContentOf(tables, bodies) + {FactRule(k, f)}
      {
      }
    }
  }

  lemma FiledMore(bodies: Bodies, r: Rule)
    requires Filed(bodies) && r.body != []
    requires var rs := if r.head.table in bodies then bodies[r.head.table] else []; !Listed(r, rs)
    ensures var rs := if r.head.table in bodies then bodies[r.head.table] else [];
      Filed(bodies[r.head.table := rs + [r]])
  {
    var rs := if r.head.table in bodies then bodies[r.head.table] else [];
    forall i | 0 <= i < |rs|
      ensures !SameRule(rs[i], r)
    {
      assert !SameRule(r, rs[i]);
    }
    hide SameRule, Listed;
    var more := rs + [r];
    assert Unlike(more);
    assert forall q :: q in more ==> q in rs || q == r;
  }

  lemma AddedRule(tables: Tables, bodies: Bodies, bodies': Bodies, r: Rule)
    requires bodies' == bodies[r.head.table := (if r.head.table in bodies then bodies[r.head.table] else []) + [r]]
    ensures ContentOf(tables, bodies') == ContentOf(tables, bodies) + {r}
  {
    var k := r.head.table;
    forall r'
      ensures r' in ContentOf(tables, bodies') <==> r' in ContentOf(tables, bodies) + {r}
    {
      var rs := if k in bodies then bodies[k] else [];
      assert r' in rs + [r] <==> r' in rs || r' == r;
      forall k', q | k' in bodies && q in bodies[k']
        ensures q in ContentOf(tables, bodies')
      {
        assert q in bodies'[k'];
      }
      assert r in bodies'[k];
    }
  }

  lemma PartialFits(args: seq<Term>, partial: Partial)
    requires partial == BoundFrom(args, 0)
    ensures Fit(ColumnsOf(partial), |args|)
  {
    forall j | 0 <= j < |partial|
      ensures partial[j].0 < |args|
    {
      assert (partial[j].0, partial[j].1) in partial;
    }
  }

  lemma MismatchClashes(key: Name, f: Fact, lit: Literal)
    requires |f.values| == |lit.args|
    requires Fit(ColumnsOf(BoundFrom(lit.args, 0)), |f.values|) && !Matches(f, BoundFrom(lit.args, 0))
    ensures Clashes(FactRule(key, f), lit)
  {
    var partial := BoundFrom(lit.args, 0);
    var j :| 0 <= j < |partial| && f.values[partial[j].0] != partial[j].1;
    assert (partial[j].0, partial[j].1) in partial;
    assert lit.args[partial[j].0] == Obj(partial[j].1);
    assert FactRule(key, f).head.args[partial[j].0] == Obj(f.values[partial[j].0]);
  }

  lemma MatchAgrees(key: Name, f: Fact, lit: Literal)
    requires |f.values| == |lit.args|
    requires Fit(ColumnsOf(BoundFrom(lit.args, 0)), |f.values|) && Matches(f, BoundFrom(lit.args, 0))
    ensures !Clashes(FactRule(key, f), lit)
  {
    var partial := BoundFrom(lit.args, 0);
    forall i | 0 <= i < |lit.args| && lit.args[i].Obj?
      ensures lit.args[i] == FactRule(key, f).head.args[i]
    {
      assert (i, lit.args[i].value) in partial;
      var j :| 0 <= j < |partial| && partial[j] == (i, lit.args[i].value);
      assert f.values[partial[j].0] == partial[j].1;
    }
  }

  /** The facts that match, found through an index, which is created if there is none. */
  method FindIn(fset: FactSet, partial: Partial) returns (fs: seq<Fact>)
    requires fset.Valid() && Fit(ColumnsOf(partial), fset.width)
    modifies fset
    ensures fset.Valid() && fset.facts == old(fset.facts)
    ensures forall f :: f in fs <==> f in fset.Facts() && |f.values| == fset.width && Matches(f, partial)
    ensures forall f :: f in fset.Facts() ==> |f.values| == fset.width
  {
    if ColumnsOf(partial) != Columns([]) && !fset.HasIndex(ColumnsOf(partial)) {
      fset.CreateIndex(ColumnsOf(partial));
    }
    var found := fset.Find(partial);
    fs := ListOf(found);
  }

  /** The elements of a set, in some order. */
  method ListOf(s: set<Fact>) returns (fs: seq<Fact>)
    ensures forall f :: f in fs <==> f in s
  {
    fs := [];
    var todo := s;
    while todo != {}
      invariant todo <= s && forall f :: f in fs <==> f in s && f !in todo
      decreases todo
    {
      var f :| f in todo;
      fs := fs + [f];
      todo := todo - {f};
    }
  }

  function FactsAsRules(key: Name, fs: seq<Fact>): (rs: seq<Rule>)
    ensures |rs| == |fs| && forall i :: 0 <= i < |rs| ==> rs[i] == FactRule(key, fs[i])
  {
    seq(|fs|, i requires 0 <= i < |fs| => FactRule(key, fs[i]))
  }
}
