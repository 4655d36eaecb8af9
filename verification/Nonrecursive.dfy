/** The theory that the search runs on: congress/datalog/nonrecursive.py.  Rules are reordered on
    their way in, so that whatever is stored can be evaluated. */
module Nonrecursive {
  import opened Options
  import opened Datalog
  import opened Semantics
  import opened Safety
  import opened RuleSet
  import opened Reorder

  class NonrecursiveRuleTheory {
    const rules: RuleSet
    const builtins: Registry

    constructor (builtins: Registry)
      ensures Valid() && rules.Content() == {} && this.builtins == builtins && fresh(rules) && fresh(rules.repr)
    {
      rules := new RuleSet();
      this.builtins := builtins;
    }

    ghost predicate Valid()
      reads rules, rules.repr
    {
      rules.Valid()
    }

    /** Every rule stored can be evaluated. */
    ghost predicate Safe()
      reads rules, rules.repr
      requires Valid()
    {
      SafeProgram(Program(rules.Content(), builtins))
    }

    /** Apply one event.  None stands for the exception raised for a body that has no safe order;
        the theory is then as it was.  Otherwise rule is the formula as it was reordered. */
    method UpdateOne(event: FormulaEvent) returns (r: Option<bool>, ghost rule: Rule)
      requires Valid() && !event.formula.head.negated
      requires event.formula.body == [] ==> Sized(rules.widths, event.formula.head.table, |event.formula.head.args|)
      modifies rules, rules.repr
      ensures Valid() && fresh(rules.repr - old(rules.repr))
      ensures r.None? <==> forall b :: multiset(b) == multiset(event.formula.body) ==> !InOrder(builtins, b)
      ensures r.None? ==> rules.Content() == old(rules.Content())
      ensures r.Some? ==> InOrder(builtins, rule.body) && SameRule(event.formula, rule)
      ensures r.Some? && event.insert ==>
        r.value == !Known(old(rules.Content()), Kept(event.formula.head.table, event.formula))
      ensures r.Some? && event.insert ==>
        rules.Content() == old(rules.Content()) + if r.value then {Kept(rule.head.table, rule)} else {}
      ensures r.Some? && !event.insert ==>
        r.value == Known(old(rules.Content()), Kept(event.formula.head.table, event.formula))
      ensures r.Some? && !event.insert ==> forall q :: q in rules.Content() <==>
        q in old(rules.Content()) && !SameRule(Kept(event.formula.head.table, event.formula), q)
    {
      var formula := event.formula;
      rule := formula;
      var reordered := ReorderForSafety(formula, builtins);
      if reordered.None? {
        return None, formula;
      }
      rule := reordered.value;
      var key := formula.head.table;
      KeptSame(key, formula, rule);
      ghost var before := rules.Content();
      KnownSame(before, Kept(key, formula), Kept(key, rule));
      var changed;
      if event.insert {
        changed := rules.AddRule(key, reordered.value);
      } else {
        changed := rules.DiscardRule(key, reordered.value);
      }
      return Some(changed), rule;
    }
  }

  /** A theory stays safe through an event iff the rule that it stores, as reordered, can be
      evaluated. */
  lemma UpdateKeepsSafe(bs: Registry, content: set<Rule>, rule: Rule)
    requires SafeProgram(Program(content, bs)) && InOrder(bs, rule.body) && RuleHeadSafety(rule) == {}
    ensures SafeProgram(Program(content + {Kept(rule.head.table, rule)}, bs)) <==> Evaluable(bs, rule)
    ensures forall q :: SafeProgram(Program(content - q, bs))
  {
    AdmittedIsSafe(bs, rule);
    KeptIsSafe(bs, rule.head.table, rule);
  }

  lemma KeptIsSafe(bs: Registry, key: Name, r: Rule)
    requires r.head.table == key && RuleHeadSafety(r) == {}
    ensures SafeRule(bs, Kept(key, r)) <==> SafeRule(bs, r)
  {
    if r.body == [] {
      assert AllVars(r.body) == {} && r.head.Vars() == {};
    }
  }

  /** What is kept of a rule does not depend on the order of its body. */
  lemma KeptSame(key: Name, r: Rule, r': Rule)
    requires SameRule(r, r')
    ensures SameRule(Kept(key, r), Kept(key, r'))
    ensures r.body == [] <==> r'.body == []
  {
    assert |multiset(r.body)| == |r.body| && |multiset(r'.body)| == |r'.body|;
  }

  lemma KnownSame(rs: set<Rule>, r: Rule, r': Rule)
    requires SameRule(r, r')
    ensures Known(rs, r) <==> Known(rs, r')
    ensures forall q :: SameRule(r, q) <==> SameRule(r', q)
  {
  }
}
