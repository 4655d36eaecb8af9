/** Removing self-joins by giving repeated tables new names: eliminate_self_joins of
    congress/datalog/materialized.py. */
module SelfJoins {
  import opened Datalog
  import opened Semantics
  import opened RuleSet
  import opened Views
  import opened ViewRuns

  // ----- names

  function Digit(n: nat): char
    requires n < 10
  {
    "0123456789"[n]
  }

  function Digits(n: nat): string {
    if n < 10 then [Digit(n)] else Digits(n / 10) + [Digit(n % 10)]
  }

  lemma {:induction false} DigitsPlain(n: nat)
    ensures |Digits(n)| > 0 && forall i :: 0 <= i < |Digits(n)| ==> Digits(n)[i] != '_'
  {
    if n >= 10 {
      DigitsPlain(n / 10);
    }
  }

  /** The last digit, and the digits before it. */
  lemma DigitsSplit(n: nat)
    ensures |Digits(n)| > 0 && Digits(n)[|Digits(n)| - 1] == Digit(n % 10)
    ensures Digits(n)[..|Digits(n)| - 1] == if n < 10 then "" else Digits(n / 10)
  {
  }

  lemma DigitInjective(d: nat, e: nat)
    requires d < 10 && e < 10 && Digit(d) == Digit(e)
    ensures d == e
  {
  }

  lemma {:induction false} DigitsInjective(m: nat, n: nat)
    requires Digits(m) == Digits(n)
    ensures m == n
  {
    hide Digits, Digit;
    DigitsSplit(m);
    DigitsSplit(n);
    DigitsPlain(m / 10);
    DigitsPlain(n / 10);
    DigitInjective(m % 10, n % 10);
    if m >= 10 && n >= 10 {
      DigitsInjective(m / 10, n / 10);
    }
  }

  lemma PlainAfter(a: string, d: string, i: int)
    requires |a| < i < |a + "_" + d| && forall j :: 0 <= j < |d| ==> d[j] != '_'
    ensures (a + "_" + d)[i] != '_'
  {
  }

  /** A name ends with the part after its last underscore. */
  lemma SplitUnique(a: string, d: string, b: string, e: string)
    requires a + "_" + d == b + "_" + e
    requires (forall i :: 0 <= i < |d| ==> d[i] != '_') && (forall i :: 0 <= i < |e| ==> e[i] != '_')
    ensures a == b && d == e
  {
    var s := a + "_" + d;
    assert s[|a|] == '_' && s[|b|] == '_';
    if |a| < |b| {
      PlainAfter(a, d, |b|);
    } else if |b| < |a| {
      PlainAfter(b, e, |a|);
    }
    assert a == s[..|a|] && b == s[..|b|] && d == s[|a| + 1..] && e == s[|b| + 1..];
  }

  const PREFIX := "___"

  /** Names that policies do not use. */
  predicate Reserved(t: Name) {
    PREFIX <= t.text
  }

  function NewTableName(t: Name, arity: nat, index: nat): (name: Name)
    ensures Reserved(name)
  {
    Name(PREFIX + t.text + "_" + Digits(arity) + "_" + Digits(index))
  }

  lemma NewTableNameInjective(t: Name, arity: nat, index: nat, t': Name, arity': nat, index': nat)
    requires NewTableName(t, arity, index) == NewTableName(t', arity', index')
    ensures t == t' && arity == arity' && index == index'
  {
    var a, a' := PREFIX + t.text + "_" + Digits(arity), PREFIX + t'.text + "_" + Digits(arity');
    assert a + "_" + Digits(index) == a' + "_" + Digits(index');
    DigitsPlain(index);
    DigitsPlain(index');
    SplitUnique(a, Digits(index), a', Digits(index'));
    DigitsPlain(arity);
    DigitsPlain(arity');
    SplitUnique(PREFIX + t.text, Digits(arity), PREFIX + t'.text, Digits(arity'));
    DigitsInjective(index, index');
    DigitsInjective(arity, arity');
    assert t.text == (PREFIX + t.text)[|PREFIX|..] && t'.text == (PREFIX + t'.text)[|PREFIX|..];
  }

  function NthVariable(i: nat): Name {
    Name("x" + Digits(i))
  }

  lemma NthVariableInjective(i: nat, j: nat)
    requires NthVariable(i) == NthVariable(j)
    ensures i == j
  {
    assert Digits(i) == NthVariable(i).text[1..] && Digits(j) == NthVariable(j).text[1..];
    DigitsInjective(i, j);
  }

  function Variables(n: nat): (ts: seq<Term>)
    ensures |ts| == n && forall i :: 0 <= i < n ==> ts[i] == Var(NthVariable(i))
  {
    seq(n, i requires 0 <= i < n => Var(NthVariable(i)))
  }

  // ----- the elimination as a function

  /** How often the body has a table with an arity. */
  function Count(body: seq<Literal>, t: Name, n: nat): nat {
    if body == [] then 0
    else
      var last := body[|body| - 1];
      Count(body[..|body| - 1], t, n) + if last.table == t && |last.args| == n then 1 else 0
  }

  /** The i-th literal of a body, renamed if its table came before. */
  function RenamedAt(body: seq<Literal>, i: nat): Literal
    requires i < |body|
  {
    var lit := body[i];
    var k := Count(body[..i], lit.table, |lit.args|);
    if k == 0 then lit else lit.(table := NewTableName(lit.table, |lit.args|, k))
  }

  function RenamedBody(body: seq<Literal>): (renamed: seq<Literal>)
    ensures |renamed| == |body| && forall i :: 0 <= i < |body| ==> renamed[i] == RenamedAt(body, i)
  {
    seq(|body|, i requires 0 <= i < |body| => RenamedAt(body, i))
  }

  function Renamed(r: Rule): Rule {
    r.(body := RenamedBody(r.body))
  }

  /** The rule that makes a new table a copy of an old one. */
  function Copy(t: Name, n: nat, k: nat): Rule {
    Rule(Literal(NewTableName(t, n, k), Variables(n), false), [Literal(t, Variables(n), false)])
  }

  ghost predicate NeedsCopy(rules: set<Rule>, t: Name, n: nat, k: nat) {
    k > 0 && exists r :: r in rules && Count(r.body, t, n) > k
  }

  ghost predicate IsEliminated(rules: set<Rule>, q: Rule) {
    (exists r :: r in rules && q == Renamed(r))
      || exists t, n: nat, k: nat :: NeedsCopy(rules, t, n, k) && q == Copy(t, n, k)
  }

  lemma {:induction false} CountPrefix(body: seq<Literal>, i: nat, t: Name, n: nat)
    requires i <= |body|
    ensures Count(body[..i], t, n) <= Count(body, t, n)
    decreases |body|
  {
    if i < |body| {
      var shorter := body[..|body| - 1];
      CountPrefix(shorter, i, t, n);
      assert shorter[..i] == body[..i];
    } else {
      assert body[..i] == body;
    }
  }

  lemma CountNext(body: seq<Literal>, i: nat, t: Name, n: nat)
    requires i < |body|
    ensures Count(body[..i + 1], t, n) == Count(body[..i], t, n)
      + if body[i].table == t && |body[i].args| == n then 1 else 0
  {
    assert body[..i + 1][..i] == body[..i];
  }

  /** Literals of the same table and arity get different names, old and new never meet. */
  lemma RenamedApart(body: seq<Literal>)
    requires forall i :: 0 <= i < |body| ==> !Reserved(body[i].table)
    ensures SelfJoinFree(RenamedBody(body))
  {
    forall i, j | 0 <= i < j < |body|
      ensures RenamedAt(body, i).table != RenamedAt(body, j).table
        || |RenamedAt(body, i).args| != |RenamedAt(body, j).args|
    {
      var a, b := body[i], body[j];
      var k, l := Count(body[..i], a.table, |a.args|), Count(body[..j], b.table, |b.args|);
      if a.table == b.table && |a.args| == |b.args| {
        CountNext(body, i, a.table, |a.args|);
        CountPrefix(body[..j], i + 1, a.table, |a.args|);
        assert body[..j][..i + 1] == body[..i + 1];
        assert k < l;
      }
      if k > 0 && l > 0 && NewTableName(a.table, |a.args|, k) == NewTableName(b.table, |b.args|, l) {
        NewTableNameInjective(a.table, |a.args|, k, b.table, |b.args|, l);
      }
    }
  }

  /** A rule without self-joins comes out as it is, and needs no copies. */
  lemma SelfJoinFreeStays(r: Rule, q: Rule)
    requires SelfJoinFree(r.body) && IsEliminated({r}, q)
    ensures q == r
  {
    forall i | 0 <= i < |r.body|
      ensures RenamedAt(r.body, i) == r.body[i]
    {
      FirstOfItsKind(r.body, i);
    }
    assert RenamedBody(r.body) == r.body;
    forall t, n: nat, k: nat
      ensures !NeedsCopy({r}, t, n, k)
    {
      AtMostOnce(r.body, t, n);
    }
  }

  lemma NoneCounted(body: seq<Literal>, t: Name, n: nat)
    requires forall i :: 0 <= i < |body| ==> body[i].table != t || |body[i].args| != n
    ensures Count(body, t, n) == 0
  {
    if Count(body, t, n) > 0 {
      CountedTable(body, t, n);
    }
  }

  lemma {:induction false} AtMostOnce(body: seq<Literal>, t: Name, n: nat)
    requires SelfJoinFree(body)
    ensures Count(body, t, n) <= 1
    decreases |body|
  {
    if body != [] {
      var shorter := body[..|body| - 1];
      var last := body[|body| - 1];
      AtMostOnce(shorter, t, n);
      if last.table == t && |last.args| == n {
        forall i | 0 <= i < |shorter|
          ensures shorter[i].table != t || |shorter[i].args| != n
        {
          assert shorter[i] == body[i];
        }
        NoneCounted(shorter, t, n);
      }
    }
  }

  lemma FirstOfItsKind(body: seq<Literal>, i: nat)
    requires SelfJoinFree(body) && i < |body|
    ensures Count(body[..i], body[i].table, |body[i].args|) == 0
  {
    AtMostOnce(body, body[i].table, |body[i].args|);
    CountNext(body, i, body[i].table, |body[i].args|);
    CountPrefix(body, i + 1, body[i].table, |body[i].args|);
  }

  lemma EliminatedUnion(rules: set<Rule>, more: set<Rule>, q: Rule)
    ensures IsEliminated(rules + more, q) <==> IsEliminated(rules, q) || IsEliminated(more, q)
  {
    forall t, n: nat, k: nat
      ensures NeedsCopy(rules + more, t, n, k) <==> NeedsCopy(rules, t, n, k) || NeedsCopy(more, t, n, k)
    {
    }
  }

  // ----- the elimination as the program does it

  type Counters = map<(Name, nat), nat>

  function Counted(m: Counters, t: Name, n: nat): nat {
    if (t, n) in m then m[(t, n)] else 0
  }

  /** How often each table and arity came in a body. */
  ghost predicate CountersOf(m: Counters, body: seq<Literal>) {
    (forall t, n :: Counted(m, t, n) == Count(body, t, n)) && forall key :: key in m ==> m[key] > 0
  }

  /** The counters of copies, raised to what a body needs. */
  ghost predicate RaisedBy(before: Counters, m: Counters, body: seq<Literal>) {
    forall t, n :: Counted(m, t, n) == Larger(Counted(before, t, n), Count(body, t, n) - 1)
  }

  function Larger(a: nat, b: int): nat {
    if b > a then b else a
  }

  lemma CountAtom(body: seq<Literal>, i: nat, t: Name, n: nat)
    requires i < |body|
    ensures Count(body[..i + 1], t, n) == Count(body[..i], t, n)
      + if (t, n) == (body[i].table, |body[i].args|) then 1 else 0
  {
    CountNext(body, i, t, n);
  }

  lemma CountersNext(m: Counters, body: seq<Literal>, i: nat)
    requires i < |body| && CountersOf(m, body[..i])
    ensures var key := (body[i].table, |body[i].args|);
      && (key in m <==> Count(body[..i], key.0, key.1) > 0)
      && (key in m ==> m[key] == Count(body[..i], key.0, key.1))
      && CountersOf(m[key := if key in m then m[key] + 1 else 1], body[..i + 1])
  {
    var key := (body[i].table, |body[i].args|);
    assert Counted(m, key.0, key.1) == Count(body[..i], key.0, key.1);
    var m' := m[key := if key in m then m[key] + 1 else 1];
    forall t, n: nat
      ensures Counted(m', t, n) == Count(body[..i + 1], t, n)
    {
      CountAtom(body, i, t, n);
      assert Counted(m, t, n) == Count(body[..i], t, n);
    }
  }

  lemma RaisedFirst(before: Counters, m: Counters, body: seq<Literal>, i: nat)
    requires i < |body| && RaisedBy(before, m, body[..i]) && Count(body[..i], body[i].table, |body[i].args|) == 0
    ensures RaisedBy(before, m, body[..i + 1])
  {
    forall t, n: nat
      ensures Counted(m, t, n) == Larger(Counted(before, t, n), Count(body[..i + 1], t, n) - 1)
    {
      CountAtom(body, i, t, n);
      assert Counted(m, t, n) == Larger(Counted(before, t, n), Count(body[..i], t, n) - 1);
    }
  }

  lemma RaisedNext(before: Counters, m: Counters, body: seq<Literal>, i: nat, c: nat)
    requires i < |body| && RaisedBy(before, m, body[..i])
    requires c == Count(body[..i], body[i].table, |body[i].args|) > 0
    ensures var key := (body[i].table, |body[i].args|);
      RaisedBy(before, m[key := if key in m then Larger(m[key], c) else 1], body[..i + 1])
  {
    var key := (body[i].table, |body[i].args|);
    var m' := m[key := if key in m then Larger(m[key], c) else 1];
    assert Counted(m, key.0, key.1) == Larger(Counted(before, key.0, key.1), c - 1);
    forall t, n: nat
      ensures Counted(m', t, n) == Larger(Counted(before, t, n), Count(body[..i + 1], t, n) - 1)
    {
      CountAtom(body, i, t, n);
      assert Counted(m, t, n) == Larger(Counted(before, t, n), Count(body[..i], t, n) - 1);
    }
  }

  /** Rename the atoms of one rule, and raise the counters of copies needed. */
  method RenameBody(body: seq<Literal>, before: Counters) returns (renamed: seq<Literal>, globalSelfJoins: Counters)
    ensures renamed == RenamedBody(body) && RaisedBy(before, globalSelfJoins, body)
  {
    hide CountersOf, RaisedBy, Count;
    renamed, globalSelfJoins := [], before;
    var occurrences: Counters := map[];
    NothingCounted(before);
    for i := 0 to |body|
      invariant renamed == RenamedBody(body)[..i]
      invariant CountersOf(occurrences, body[..i]) && RaisedBy(before, globalSelfJoins, body[..i])
    {
      var atom := body[i];
      var key := (atom.table, |atom.args|);
      CountersNext(occurrences, body, i);
      if key !in occurrences {
        RaisedFirst(before, globalSelfJoins, body, i);
        occurrences := occurrences[key := 1];
        renamed := renamed + [atom];
      } else {
        RaisedNext(before, globalSelfJoins, body, i, occurrences[key]);
        renamed := renamed + [atom.(table := NewTableName(key.0, key.1, occurrences[key]))];
        occurrences := occurrences[key := occurrences[key] + 1];
        globalSelfJoins := globalSelfJoins[key :=
          if key in globalSelfJoins then Larger(globalSelfJoins[key], occurrences[key] - 1) else 1];
      }
    }
    assert body[..|body|] == body;
  }

  lemma NothingCounted(before: Counters)
    ensures CountersOf(map[], []) && RaisedBy(before, before, [])
  {
  }

  ghost function RulesIn(formulas: seq<Rule>): set<Rule> {
    set r | r in formulas
  }

  lemma RulesInMore(formulas: seq<Rule>, i: nat)
    requires i < |formulas|
    ensures RulesIn(formulas[..i + 1]) == RulesIn(formulas[..i]) + {formulas[i]}
  {
    assert formulas[..i + 1] == formulas[..i] + [formulas[i]];
  }

  /** The counters say how many copies the rules need of a table with an arity. */
  ghost predicate RaisedByAll(m: Counters, rules: set<Rule>) {
    forall t, n: nat, k: nat :: NeedsCopy(rules, t, n, k) <==> 1 <= k <= Counted(m, t, n)
  }

  lemma RaisedByMore(before: Counters, m: Counters, rules: set<Rule>, r: Rule)
    requires RaisedByAll(before, rules) && RaisedBy(before, m, r.body)
    ensures RaisedByAll(m, rules + {r})
  {
    forall t, n: nat, k: nat
      ensures NeedsCopy(rules + {r}, t, n, k) <==> 1 <= k <= Counted(m, t, n)
    {
      assert NeedsCopy(rules, t, n, k) <==> 1 <= k <= Counted(before, t, n);
      assert Counted(m, t, n) == Larger(Counted(before, t, n), Count(r.body, t, n) - 1);
      assert r in rules + {r};
    }
  }

  ghost predicate IsRenamed(rules: set<Rule>, q: Rule) {
    exists r :: r in rules && q == Renamed(r)
  }

  ghost predicate IsCopy(m: Counters, left: set<(Name, nat)>, q: Rule) {
    exists t, n: nat, k: nat :: 1 <= k <= Counted(m, t, n) && (t, n) !in left && q == Copy(t, n, k)
  }

  /** The rules without self-joins, and the rules that define the new tables. */
  method EliminateSelfJoins(formulas: seq<Rule>) returns (results: seq<Rule>)
    ensures forall q :: q in results <==> IsEliminated(RulesIn(formulas), q)
  {
    hide RaisedByAll, RaisedBy, RenamedBody, Copy, RulesIn;
    results := [];
    var globalSelfJoins: Counters := map[];
    NothingRaised(formulas);
    for i := 0 to |formulas|
      invariant RaisedByAll(globalSelfJoins, RulesIn(formulas[..i]))
      invariant forall q :: q in results <==> IsRenamed(RulesIn(formulas[..i]), q)
    {
      var rule := formulas[i];
      RulesInMore(formulas, i);
      ghost var before := globalSelfJoins;
      var body;
      body, globalSelfJoins := RenameBody(rule.body, globalSelfJoins);
      RaisedByMore(before, globalSelfJoins, RulesIn(formulas[..i]), rule);
      results := results + [rule.(body := body)];
    }
    assert formulas[..|formulas|] == formulas;
    var copies := AddDefinitions(globalSelfJoins);
    CopiesNeeded(globalSelfJoins, RulesIn(formulas));
    results := results + copies;
  }

  lemma NothingRaised(formulas: seq<Rule>)
    ensures RaisedByAll(map[], RulesIn(formulas[..0]))
    ensures forall q :: !IsRenamed(RulesIn(formulas[..0]), q)
  {
  }

  lemma CopiesNeeded(m: Counters, rules: set<Rule>)
    requires RaisedByAll(m, rules)
    ensures forall q :: IsEliminated(rules, q) <==> IsRenamed(rules, q) || IsCopy(m, {}, q)
  {
    forall q
      ensures (exists t, n: nat, k: nat :: NeedsCopy(rules, t, n, k) && q == Copy(t, n, k)) <==> IsCopy(m, {}, q)
    {
      if IsCopy(m, {}, q) {
        var t, n: nat, k: nat :| 1 <= k <= Counted(m, t, n) && (t, n) !in {} && q == Copy(t, n, k);
        assert NeedsCopy(rules, t, n, k);
      }
    }
  }

  /** The rules that define the new tables that the counters ask for. */
  method AddDefinitions(globalSelfJoins: Counters) returns (results: seq<Rule>)
    ensures forall q :: q in results <==> IsCopy(globalSelfJoins, {}, q)
  {
    hide Copy;
    results := [];
    var left := globalSelfJoins.Keys;
    while left != {}
      invariant left <= globalSelfJoins.Keys
      invariant forall q :: q in results <==> IsCopy(globalSelfJoins, left, q)
      decreases left
    {
      var key :| key in left;
      ghost var before := results;
      for i := 1 to globalSelfJoins[key] + 1
        invariant forall q :: q in results <==> q in before || exists k: nat :: 1 <= k < i && q == Copy(key.0, key.1, k)
      {
        results := results + [Copy(key.0, key.1, i)];
      }
      OneTableMore(globalSelfJoins, left, key);
      left := left - {key};
    }
  }

  lemma OneTableMore(m: Counters, left: set<(Name, nat)>, key: (Name, nat))
    requires key in left && key in m
    ensures forall q :: IsCopy(m, left - {key}, q) <==>
      IsCopy(m, left, q) || exists k: nat :: 1 <= k < m[key] + 1 && q == Copy(key.0, key.1, k)
  {
    forall q
      ensures IsCopy(m, left - {key}, q) <==>
        IsCopy(m, left, q) || exists k: nat :: 1 <= k < m[key] + 1 && q == Copy(key.0, key.1, k)
    {
      if k: nat :| 1 <= k < m[key] + 1 && q == Copy(key.0, key.1, k) {
        assert 1 <= k <= Counted(m, key.0, key.1) && (key.0, key.1) !in left - {key};
      }
      if IsCopy(m, left - {key}, q) {
        var t, n: nat, k: nat :| 1 <= k <= Counted(m, t, n) && (t, n) !in left - {key} && q == Copy(t, n, k);
        assert (t, n) == key || (t, n) !in left;
      }
    }
  }

  // ----- the elimination keeps the meaning

  /** A rule as a policy may write it: positive, without builtins, each variable of the head in
      the body, no reserved table. */
  ghost predicate Plain(r: Rule) {
    && (forall i :: 0 <= i < |r.body| ==> KindOf(map[], r.body[i]).Lookup? && !Reserved(r.body[i].table))
    && !r.head.negated && !Reserved(r.head.table) && r.head.Vars() <= BodyVars(r.body)
  }

  ghost predicate PlainPolicy(rules: set<Rule>, base: set<Atom>) {
    (forall r :: r in rules ==> Plain(r)) && forall a :: a in base ==> !Reserved(a.table)
  }

  lemma {:induction false} CountedTable(body: seq<Literal>, t: Name, n: nat)
    requires Count(body, t, n) > 0
    ensures exists i :: 0 <= i < |body| && body[i].table == t && |body[i].args| == n
    decreases |body|
  {
    var last := body[|body| - 1];
    if !(last.table == t && |last.args| == n) {
      CountedTable(body[..|body| - 1], t, n);
      var i :| 0 <= i < |body| - 1 && body[..|body| - 1][i].table == t && |body[..|body| - 1][i].args| == n;
      assert body[i] == body[..|body| - 1][i];
    }
  }

  lemma RenamedVars(body: seq<Literal>)
    ensures BodyVars(RenamedBody(body)) == BodyVars(body)
  {
    var renamed := RenamedBody(body);
    assert forall i :: 0 <= i < |body| ==> renamed[i].args == body[i].args;
    forall x
      ensures x in BodyVars(renamed) <==> x in BodyVars(body)
    {
      if lit :| lit in body && x in lit.Vars() {
        var i :| 0 <= i < |body| && body[i] == lit;
        assert x in renamed[i].Vars() && renamed[i] in renamed;
      }
      if lit :| lit in renamed && x in lit.Vars() {
        var i :| 0 <= i < |body| && renamed[i] == lit;
        assert x in body[i].Vars() && body[i] in body;
      }
    }
  }

  /** What comes out is what the view theory needs. */
  lemma EliminatedGood(rules: set<Rule>, q: Rule)
    requires (forall r :: r in rules ==> Plain(r)) && IsEliminated(rules, q)
    ensures Good(q)
  {
    if r :| r in rules && q == Renamed(r) {
      RenamedApart(r.body);
      RenamedVars(r.body);
      forall i | 0 <= i < |q.body|
        ensures KindOf(map[], q.body[i]).Lookup?
      {
        assert q.body[i] == RenamedAt(r.body, i);
        assert TRUE.text[0] != PREFIX[0] && FALSE.text[0] != PREFIX[0];
      }
    } else {
      var t, n: nat, k: nat :| NeedsCopy(rules, t, n, k) && q == Copy(t, n, k);
      CopyOfPlain(rules, t, n, k);
      assert q.body[0] in q.body;
      assert q.body[0].Vars() == q.head.Vars();
    }
  }

  lemma CopyOfPlain(rules: set<Rule>, t: Name, n: nat, k: nat)
    requires (forall r :: r in rules ==> Plain(r)) && NeedsCopy(rules, t, n, k)
    ensures !Reserved(t) && t != TRUE && t != FALSE
  {
    var r :| r in rules && Count(r.body, t, n) > k;
    CountedTable(r.body, t, n);
    var i :| 0 <= i < |r.body| && r.body[i].table == t && |r.body[i].args| == n;
    assert KindOf(map[], r.body[i]).Lookup?;
  }

  /** a is a copy, under a new name, of something in m. */
  ghost predicate Copied(rules: set<Rule>, m: Interpretation, a: Atom) {
    exists t, k: nat :: NeedsCopy(rules, t, |a.row|, k) && a.table == NewTableName(t, |a.row|, k) && Atom(t, a.row) in m
  }

  ghost function WithCopies(rules: set<Rule>, m: Interpretation): Interpretation {
    iset a: Atom | a in m || Copied(rules, m, a)
  }

  /** Nothing in the model has a reserved name. */
  lemma ModelUnreserved(rules: set<Rule>, base: set<Atom>, sh: Shape, a: Atom)
    requires PlainPolicy(rules, base) && Fits(ProgramOf(rules, base), sh) && a in Model(ProgramOf(rules, base), sh)
    ensures !Reserved(a.table)
  {
    var p := ProgramOf(rules, base);
    ModelFixpoint(p, sh, a);
    var r, v :| Yields(p, r, v, Model(p, sh), a);
    if r !in rules {
      var b :| b in base && r == FactRuleOf(b);
    }
  }

  /** A renamed literal says with copies what the literal said without. */
  lemma RenamedHolds(rules: set<Rule>, m: Interpretation, r: Rule, i: nat, v: Choice)
    requires r in rules && Plain(r) && i < |r.body| && forall a :: a in m ==> !Reserved(a.table)
    ensures Holds(map[], RenamedAt(r.body, i), v, WithCopies(rules, m)) <==> Holds(map[], r.body[i], v, m)
  {
    var lit := r.body[i];
    var n := |lit.args|;
    var k := Count(r.body[..i], lit.table, n);
    var row := Row(v, lit.args);
    if k > 0 {
      CountNext(r.body, i, lit.table, n);
      CountPrefix(r.body, i + 1, lit.table, n);
      assert NeedsCopy(rules, lit.table, n, k);
      var name := NewTableName(lit.table, n, k);
      assert TRUE.text[0] != PREFIX[0] && FALSE.text[0] != PREFIX[0];
      assert KindOf(map[], lit.(table := name)).Lookup?;
      if Copied(rules, m, Atom(name, row)) {
        var t', k': nat :| NeedsCopy(rules, t', n, k') && name == NewTableName(t', n, k') && Atom(t', row) in m;
        NewTableNameInjective(lit.table, n, k, t', n, k');
      }
    }
  }

  /** The value in a row of the variable that stands for its place. */
  ghost function ValueIn(row: seq<Const>, x: Name): Const {
    if exists i :: 0 <= i < |row| && NthVariable(i) == x then
      var i :| 0 <= i < |row| && NthVariable(i) == x;
      row[i]
    else Str("")
  }

  lemma RowOfVariables(row: seq<Const>) returns (v: Choice)
    ensures Row(v, Variables(|row|)) == row
  {
    v := x => ValueIn(row, x);
    forall i | 0 <= i < |row|
      ensures Eval(v, Variables(|row|)[i]) == row[i]
    {
      forall j | 0 <= j < |row| && NthVariable(j) == NthVariable(i)
        ensures j == i
      {
        NthVariableInjective(i, j);
      }
    }
  }

  /** The model with copies is supported by the rules without self-joins. */
  lemma CopiesSupported(rules: set<Rule>, base: set<Atom>, sh: Shape, eliminated: set<Rule>, a: Atom)
    requires PlainPolicy(rules, base) && Fits(ProgramOf(rules, base), sh)
    requires forall q :: q in eliminated <==> IsEliminated(rules, q)
    ensures var m := WithCopies(rules, Model(ProgramOf(rules, base), sh));
      a in m <==> Fires(ProgramOf(eliminated, base), m, a)
  {
    if a in WithCopies(rules, Model(ProgramOf(rules, base), sh)) {
      if a in Model(ProgramOf(rules, base), sh) {
        OldFires(rules, base, sh, eliminated, a);
      } else {
        CopyFires(rules, base, sh, eliminated, a);
      }
    }
    if Fires(ProgramOf(eliminated, base), WithCopies(rules, Model(ProgramOf(rules, base), sh)), a) {
      FiredIsThere(rules, base, sh, eliminated, a);
    }
  }

  lemma OldFires(rules: set<Rule>, base: set<Atom>, sh: Shape, eliminated: set<Rule>, a: Atom)
    requires PlainPolicy(rules, base) && Fits(ProgramOf(rules, base), sh)
    requires forall q :: q in eliminated <==> IsEliminated(rules, q)
    requires a in Model(ProgramOf(rules, base), sh)
    ensures Fires(ProgramOf(eliminated, base), WithCopies(rules, Model(ProgramOf(rules, base), sh)), a)
  {
    var p, p' := ProgramOf(rules, base), ProgramOf(eliminated, base);
    var m := Model(p, sh);
    ModelFixpoint(p, sh, a);
    var r, v :| Yields(p, r, v, m, a);
    if r in rules {
      forall b | b in m
        ensures !Reserved(b.table)
      {
        ModelUnreserved(rules, base, sh, b);
      }
      assert IsEliminated(rules, Renamed(r));
      forall i | 0 <= i < |r.body|
        ensures Holds(map[], Renamed(r).body[i], v, WithCopies(rules, m))
      {
        RenamedHolds(rules, m, r, i, v);
      }
      assert Yields(p', Renamed(r), v, WithCopies(rules, m), a);
    } else {
      assert Yields(p', r, v, WithCopies(rules, m), a);
    }
  }

  lemma CopyFires(rules: set<Rule>, base: set<Atom>, sh: Shape, eliminated: set<Rule>, a: Atom)
    requires PlainPolicy(rules, base) && Fits(ProgramOf(rules, base), sh)
    requires forall q :: q in eliminated <==> IsEliminated(rules, q)
    requires Copied(rules, Model(ProgramOf(rules, base), sh), a)
    ensures Fires(ProgramOf(eliminated, base), WithCopies(rules, Model(ProgramOf(rules, base), sh)), a)
  {
    var m := Model(ProgramOf(rules, base), sh);
    var n := |a.row|;
    var t, k: nat :| NeedsCopy(rules, t, n, k) && a.table == NewTableName(t, n, k) && Atom(t, a.row) in m;
    var v := RowOfVariables(a.row);
    var q := Copy(t, n, k);
    assert IsEliminated(rules, q);
    CopyOfPlain(rules, t, n, k);
    assert Holds(map[], q.body[0], v, WithCopies(rules, m));
    assert Yields(ProgramOf(eliminated, base), q, v, WithCopies(rules, m), a);
  }

  lemma FiredIsThere(rules: set<Rule>, base: set<Atom>, sh: Shape, eliminated: set<Rule>, a: Atom)
    requires PlainPolicy(rules, base) && Fits(ProgramOf(rules, base), sh)
    requires forall q :: q in eliminated <==> IsEliminated(rules, q)
    requires Fires(ProgramOf(eliminated, base), WithCopies(rules, Model(ProgramOf(rules, base), sh)), a)
    ensures a in WithCopies(rules, Model(ProgramOf(rules, base), sh))
  {
    var p, p' := ProgramOf(rules, base), ProgramOf(eliminated, base);
    var m := Model(p, sh);
    var m' := WithCopies(rules, m);
    forall b | b in m
      ensures !Reserved(b.table)
    {
      ModelUnreserved(rules, base, sh, b);
    }
    ModelFixpoint(p, sh, a);
    var q, v :| Yields(p', q, v, m', a);
    if q !in eliminated {
      assert BodyHolds(map[], q.body, v, m);
      assert Yields(p, q, v, m, a);
    } else if r :| r in rules && q == Renamed(r) {
      forall i | 0 <= i < |r.body|
        ensures Holds(map[], r.body[i], v, m)
      {
        assert Holds(map[], q.body[i], v, m');
        RenamedHolds(rules, m, r, i, v);
      }
      assert Yields(p, r, v, m, a);
    } else {
      var t, n: nat, k: nat :| NeedsCopy(rules, t, n, k) && q == Copy(t, n, k);
      CopyOfPlain(rules, t, n, k);
      assert Holds(map[], q.body[0], v, m');
      assert |a.row| == n && Atom(t, a.row) in m';
      assert Copied(rules, m, a);
    }
  }

  /** The rules without self-joins give every table of the policy the contents it had, and each
      new table those of the table it copies. */
  lemma EliminationKeepsMeaning(rules: set<Rule>, base: set<Atom>, sh: Shape, eliminated: set<Rule>, sh': Shape)
    requires PlainPolicy(rules, base) && Fits(ProgramOf(rules, base), sh)
    requires forall q :: q in eliminated <==> IsEliminated(rules, q)
    requires Fits(ProgramOf(eliminated, base), sh')
    ensures Model(ProgramOf(eliminated, base), sh') == WithCopies(rules, Model(ProgramOf(rules, base), sh))
    ensures forall a: Atom :: !Reserved(a.table) ==>
      (a in Model(ProgramOf(eliminated, base), sh') <==> a in Model(ProgramOf(rules, base), sh))
  {
    var m := WithCopies(rules, Model(ProgramOf(rules, base), sh));
    forall a
      ensures a in m <==> Fires(ProgramOf(eliminated, base), m, a)
    {
      CopiesSupported(rules, base, sh, eliminated, a);
    }
    ModelUnique(ProgramOf(eliminated, base), sh', m);
  }

  ghost predicate IsNewName(x: Name, t: Name, n: nat, k: nat) {
    x == NewTableName(t, n, k)
  }

  /** Copies rank between what they copy and what uses them. */
  ghost function RankWithCopies(rank: Name -> nat, x: Name): nat {
    if exists t, n, k :: IsNewName(x, t, n, k) then
      var t, n, k :| IsNewName(x, t, n, k);
      2 * rank(t) + 1
    else 2 * rank(x)
  }

  lemma RankOfNew(rank: Name -> nat, t: Name, n: nat, k: nat)
    ensures RankWithCopies(rank, NewTableName(t, n, k)) == 2 * rank(t) + 1
  {
    var x := NewTableName(t, n, k);
    assert IsNewName(x, t, n, k);
    forall t', n', k' | IsNewName(x, t', n', k')
      ensures t' == t
    {
      NewTableNameInjective(t, n, k, t', n', k');
    }
  }

  /** The elimination makes no rule recursive. */
  lemma EliminationFits(rules: set<Rule>, base: set<Atom>, sh: Shape, eliminated: set<Rule>)
    requires PlainPolicy(rules, base) && Fits(ProgramOf(rules, base), sh)
    requires forall q :: q in eliminated <==> IsEliminated(rules, q)
    ensures exists sh' :: Fits(ProgramOf(eliminated, base), sh')
  {
    var sh' := Shape(x => RankWithCopies(sh.rank, x), sh.width + 1);
    forall q | q in eliminated
      ensures |q.body| <= sh'.width
        && forall i :: 0 <= i < |q.body| ==> sh'.rank(q.body[i].table) < sh'.rank(q.head.table)
    {
      EliminatedFits(rules, base, sh, q);
    }
    assert Fits(ProgramOf(eliminated, base), sh');
  }

  lemma EliminatedFits(rules: set<Rule>, base: set<Atom>, sh: Shape, q: Rule)
    requires PlainPolicy(rules, base) && Fits(ProgramOf(rules, base), sh) && IsEliminated(rules, q)
    ensures |q.body| <= sh.width + 1
    ensures forall i :: 0 <= i < |q.body| ==>
      RankWithCopies(sh.rank, q.body[i].table) < RankWithCopies(sh.rank, q.head.table)
  {
    hide RankWithCopies, NewTableName, Plain;
    if r :| r in rules && q == Renamed(r) {
      forall i | 0 <= i < |q.body|
        ensures RankWithCopies(sh.rank, q.body[i].table) < RankWithCopies(sh.rank, q.head.table)
      {
        assert r in ProgramOf(rules, base).rules;
        RenamedRanks(sh.rank, r, i);
      }
    } else {
      var t, n: nat, k: nat :| NeedsCopy(rules, t, n, k) && q == Copy(t, n, k);
      CopyOfPlain(rules, t, n, k);
      RankOfNew(sh.rank, t, n, k);
      RankOfOld(sh.rank, t);
    }
  }

  lemma RankOfOld(rank: Name -> nat, t: Name)
    requires !Reserved(t)
    ensures RankWithCopies(rank, t) == 2 * rank(t)
  {
  }

  lemma RenamedRanks(rank: Name -> nat, r: Rule, i: nat)
    requires Plain(r) && i < |r.body| && rank(r.body[i].table) < rank(r.head.table)
    ensures RankWithCopies(rank, Renamed(r).body[i].table) < RankWithCopies(rank, Renamed(r).head.table)
  {
    var lit := r.body[i];
    var k := Count(r.body[..i], lit.table, |lit.args|);
    RankOfOld(rank, r.head.table);
    RankOfOld(rank, lit.table);
    if k > 0 {
      RankOfNew(rank, lit.table, |lit.args|, k);
    }
  }
}
