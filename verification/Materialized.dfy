/** Delta rules and the queue that keeps views up to date: congress/datalog/materialized.py. */
module Materialized {
  import opened Options
  import opened Datalog
  import opened Semantics
  import opened RuleSet
  import opened Views
  import opened Database
  import opened ViewRuns
  import opened SelfJoins

  /** How a change of one table changes another: a rule with one literal of its body singled out. */
  datatype DeltaRule = DeltaRule(trigger: Literal, head: Literal, body: seq<Literal>, original: Rule)

  function DeltaAt(r: Rule, i: nat): DeltaRule
    requires i < |r.body|
  {
    DeltaRule(r.body[i], r.head, r.body[..i] + r.body[i + 1..], r)
  }

  /** Equality of delta rules: the order of the body does not count, nor does the original. */
  predicate SameDelta(d: DeltaRule, d': DeltaRule) {
    d.trigger == d'.trigger && d.head == d'.head && multiset(d.body) == multiset(d'.body)
  }

  type DeltaTables = map<Name, seq<DeltaRule>>

  ghost predicate IsDelta(d: DeltaRule, rules: set<Rule>, t: Name) {
    && d.original in rules && d.trigger.table == t
    && exists i :: 0 <= i < |d.original.body| && d == DeltaAt(d.original, i)
  }

  /** The delta rules filed are those of the rules, and of the first n literals of one more. */
  ghost predicate Filing(tables: DeltaTables, rules: set<Rule>, r: Rule, n: nat)
    requires n <= |r.body|
  {
    && (forall t, k :: t in tables && 0 <= k < |tables[t]| ==>
        IsDelta(tables[t][k], rules, t)
          || exists i :: 0 <= i < n && tables[t][k] == DeltaAt(r, i) && r.body[i].table == t)
    && (forall r', i :: r' in rules && 0 <= i < |r'.body| ==>
        r'.body[i].table in tables && DeltaAt(r', i) in tables[r'.body[i].table])
    && (forall i :: 0 <= i < n ==> r.body[i].table in tables && DeltaAt(r, i) in tables[r.body[i].table])
    && (forall t, j, k :: t in tables && 0 <= j < k < |tables[t]| ==> tables[t][j] != tables[t][k])
  }

  /** The delta rules filed are those of the rules, each once. */
  ghost predicate DeltasOf(tables: DeltaTables, rules: set<Rule>) {
    && (forall t, k :: t in tables && 0 <= k < |tables[t]| ==> IsDelta(tables[t][k], rules, t))
    && (forall r, i :: r in rules && 0 <= i < |r.body| ==>
        r.body[i].table in tables && DeltaAt(r, i) in tables[r.body[i].table])
    && (forall t, j, k :: t in tables && 0 <= j < k < |tables[t]| ==> tables[t][j] != tables[t][k])
  }

  function Deltas(r: Rule): (ds: seq<DeltaRule>)
    ensures |ds| == |r.body| && forall i :: 0 <= i < |ds| ==> ds[i] == DeltaAt(r, i)
  {
    seq(|r.body|, i requires 0 <= i < |r.body| => DeltaAt(r, i))
  }

  /** Rules that give equal delta rules are equal. */
  lemma SameDeltaSameRule(r: Rule, i: nat, r': Rule, j: nat)
    requires i < |r.body| && j < |r'.body| && SameDelta(DeltaAt(r, i), DeltaAt(r', j))
    ensures SameRule(r, r')
  {
    assert r.body == r.body[..i] + [r.body[i]] + r.body[i + 1..];
    assert r'.body == r'.body[..j] + [r'.body[j]] + r'.body[j + 1..];
    assert multiset(r.body) == multiset(DeltaAt(r, i).body) + multiset{r.body[i]};
    assert multiset(r'.body) == multiset(DeltaAt(r', j).body) + multiset{r'.body[j]};
  }

  /** A new rule's next delta rule is not there yet. */
  lemma NewDelta(tables: DeltaTables, rules: set<Rule>, r: Rule, n: nat, k: nat)
    requires n < |r.body| && Filing(tables, rules, r, n) && !Known(rules, r) && SelfJoinFree(r.body)
    requires r.body[n].table in tables && k < |tables[r.body[n].table]|
    ensures !SameDelta(DeltaAt(r, n), tables[r.body[n].table][k])
  {
    var d := tables[r.body[n].table][k];
    if SameDelta(DeltaAt(r, n), d) {
      if IsDelta(d, rules, r.body[n].table) {
        var i :| 0 <= i < |d.original.body| && d == DeltaAt(d.original, i);
        SameDeltaSameRule(r, n, d.original, i);
      }
    }
  }

  lemma FilingNext(tables: DeltaTables, rules: set<Rule>, r: Rule, n: nat)
    requires n < |r.body| && Filing(tables, rules, r, n) && !Known(rules, r) && SelfJoinFree(r.body)
    ensures var t := r.body[n].table;
      Filing(tables[t := (if t in tables then tables[t] else []) + [DeltaAt(r, n)]], rules, r, n + 1)
  {
    var t := r.body[n].table;
    var filed := if t in tables then tables[t] else [];
    var tables' := tables[t := filed + [DeltaAt(r, n)]];
    forall k | 0 <= k < |filed|
      ensures filed[k] != DeltaAt(r, n)
    {
      NewDelta(tables, rules, r, n, k);
    }
    forall s, k | s in tables' && 0 <= k < |tables'[s]|
      ensures IsDelta(tables'[s][k], rules, s)
        || exists i :: 0 <= i < n + 1 && tables'[s][k] == DeltaAt(r, i) && r.body[i].table == s
    {
      if s == t && k == |filed| {
        assert tables'[s][k] == DeltaAt(r, n);
      } else {
        assert s in tables && tables'[s][k] == tables[s][k];
      }
    }
    forall s, d | s in tables && d in tables[s]
      ensures d in tables'[s]
    {
    }
    assert tables'[t][|filed|] == DeltaAt(r, n);
  }

  class DeltaRuleTheory {
    var rules: DeltaTables
    var originals: set<Rule>
    /** For each table defined by rules, how many delta rules have it in the head. */
    var views: map<Name, int>

    constructor ()
      ensures Valid() && originals == {} && views == map[]
    {
      rules := map[];
      originals := {};
      views := map[];
    }

    ghost predicate Valid()
      reads this
    {
      && DeltasOf(rules, originals) && (forall r :: r in originals ==> SelfJoinFree(r.body))
      && (forall t :: t in views <==> exists r :: r in originals && r.body != [] && r.head.table == t)
    }

    predicate IsView(t: Name)
      reads this
    {
      t in views
    }

    function RulesWithTrigger(t: Name): seq<DeltaRule>
      reads this
    {
      if t in rules then rules[t] else []
    }

    /** One delta rule for each literal of the body. */
    method ComputeDeltaRules(rule: Rule) returns (deltas: seq<DeltaRule>)
      ensures deltas == Deltas(rule)
    {
      deltas := [];
      for i := 0 to |rule.body|
        invariant deltas == Deltas(rule)[..i]
      {
        deltas := deltas + [DeltaAt(rule, i)];
      }
    }

    /** Add a delta rule to those of its trigger, unless an equal one is there. */
    method InsertDelta(delta: DeltaRule)
      modifies this`rules, this`views
      ensures views == old(views)[delta.head.table :=
        if delta.head.table in old(views) then old(views)[delta.head.table] + 1 else 1]
      ensures var t := delta.trigger.table;
        var filed := if t in old(rules) then old(rules)[t] else [];
        (forall k :: 0 <= k < |filed| ==> !SameDelta(delta, filed[k])) ==> rules == old(rules)[t := filed + [delta]]
    {
      views := views[delta.head.table := if delta.head.table in views then views[delta.head.table] + 1 else 1];
      var t := delta.trigger.table;
      if t !in rules {
        rules := rules[t := []];
      }
      if !exists k :: 0 <= k < |rules[t]| && SameDelta(delta, rules[t][k]) {
        rules := rules[t := rules[t] + [delta]];
      }
    }

    /** Insert a rule, unless it is there up to the order of its body. */
    method Insert(rule: Rule) returns (changed: bool)
      requires Valid() && SelfJoinFree(rule.body)
      modifies this
      ensures Valid() && changed == !Known(old(originals), rule)
      ensures originals == if changed then old(originals) + {rule} else old(originals)
    {
      if exists r :: r in originals && SameRule(rule, r) {
        KnownEither(originals, rule);
        return false;
      }
      KnownEither(originals, rule);
      var deltas := ComputeDeltaRules(rule);
      for i := 0 to |deltas|
        invariant originals == old(originals) && Filing(rules, originals, rule, i)
        invariant forall t :: t in views <==> t in old(views) || (i > 0 && t == rule.head.table)
      {
        FilingNext(rules, originals, rule, i);
        if rule.body[i].table in rules {
          forall k | 0 <= k < |rules[rule.body[i].table]|
            ensures !SameDelta(DeltaAt(rule, i), rules[rule.body[i].table][k])
          {
            NewDelta(rules, originals, rule, i, k);
          }
        }
        InsertDelta(deltas[i]);
      }
      FilingDone(rules, originals, rule);
      originals := originals + {rule};
      assert rule in originals;
      return true;
    }
  }

  lemma KnownEither(rules: set<Rule>, r: Rule)
    ensures Known(rules, r) <==> exists r' :: r' in rules && SameRule(r, r')
  {
  }

  lemma FilingDone(tables: DeltaTables, rules: set<Rule>, r: Rule)
    requires Filing(tables, rules, r, |r.body|)
    ensures DeltasOf(tables, rules + {r})
  {
    forall t, k | t in tables && 0 <= k < |tables[t]|
      ensures IsDelta(tables[t][k], rules + {r}, t)
    {
      if !IsDelta(tables[t][k], rules, t) {
        var i :| 0 <= i < |r.body| && tables[t][k] == DeltaAt(r, i) && r.body[i].table == t;
      }
    }
  }

  // ----- what one delta rule causes

  ghost function CausesBy(d: set<Atom>, delta: DeltaRule, f: Atom): iset<Proof> {
    iset pr: Proof |
      && pr.rule == delta.original && pr.binding.Keys == RuleVars(pr.rule)
      && Plug(pr.binding, delta.trigger) == f
      && forall i :: 0 <= i < |delta.body| ==> Plug(pr.binding, delta.body[i]) in d
  }

  ghost function CausesOfFirst(d: set<Atom>, deltas: seq<DeltaRule>, k: nat, f: Atom): iset<Proof>
    requires k <= |deltas|
  {
    iset pr: Proof | CausedByFirst(d, deltas, k, f, pr)
  }

  ghost predicate CausedByFirst(d: set<Atom>, deltas: seq<DeltaRule>, k: nat, f: Atom, pr: Proof)
    requires k <= |deltas|
  {
    exists j :: 0 <= j < k && pr in CausesBy(d, deltas[j], f)
  }

  lemma CausesByUses(d: set<Atom>, r: Rule, i: nat, f: Atom, pr: Proof)
    requires i < |r.body|
    ensures pr in CausesBy(d, DeltaAt(r, i), f) <==> pr.rule == r && Uses(d, pr, i, f)
  {
    var delta := DeltaAt(r, i);
    if pr in CausesBy(d, delta, f) {
      forall j | 0 <= j < |r.body| && j != i
        ensures Plug(pr.binding, r.body[j]) in d
      {
        assert r.body[j] == delta.body[if j < i then j else j - 1];
      }
    }
    if pr.rule == r && Uses(d, pr, i, f) {
      forall k | 0 <= k < |delta.body|
        ensures Plug(pr.binding, delta.body[k]) in d
      {
        if k < i {
          assert delta.body[k] == r.body[k];
        } else {
          assert delta.body[k] == r.body[i + 1..][k - i] == r.body[k + 1];
        }
      }
    }
  }

  /** The delta rules of a table together cause what a change of that table causes. */
  lemma CausesOfAll(tables: DeltaTables, rules: set<Rule>, d: set<Atom>, f: Atom)
    requires DeltasOf(tables, rules)
    ensures var deltas := if f.table in tables then tables[f.table] else [];
      CausesOfFirst(d, deltas, |deltas|, f) == Causes(d, rules, f)
  {
    var deltas := if f.table in tables then tables[f.table] else [];
    forall pr
      ensures pr in CausesOfFirst(d, deltas, |deltas|, f) <==> pr in Causes(d, rules, f)
    {
      if pr in CausesOfFirst(d, deltas, |deltas|, f) {
        var j :| 0 <= j < |deltas| && pr in CausesBy(d, deltas[j], f);
        assert IsDelta(tables[f.table][j], rules, f.table);
        var i :| 0 <= i < |deltas[j].original.body| && deltas[j] == DeltaAt(deltas[j].original, i);
        CausesByUses(d, deltas[j].original, i, f, pr);
      }
      if pr in Causes(d, rules, f) {
        var i: nat :| Uses(d, pr, i, f);
        CausesByUses(d, pr.rule, i, f, pr);
        assert pr.rule.body[i].table == f.table && DeltaAt(pr.rule, i) in tables[f.table];
      }
    }
  }

  /** Two delta rules never cause the same instance. */
  lemma CausesApart(tables: DeltaTables, rules: set<Rule>, d: set<Atom>, f: Atom, j: nat, k: nat, p: Proof, q: Proof)
    requires DeltasOf(tables, rules) && forall r :: r in rules ==> Good(r)
    requires f.table in tables && j < k < |tables[f.table]|
    requires p in CausesBy(d, tables[f.table][j], f) && q in CausesBy(d, tables[f.table][k], f)
    ensures p.rule != q.rule
  {
    var dj, dk := tables[f.table][j], tables[f.table][k];
    assert IsDelta(dj, rules, f.table) && IsDelta(dk, rules, f.table) && dj != dk;
    var a: nat :| a < |dj.original.body| && dj == DeltaAt(dj.original, a);
    var b: nat :| b < |dk.original.body| && dk == DeltaAt(dk.original, b);
    assert |Plug(p.binding, dj.trigger).row| == |dj.trigger.args|
      && |Plug(q.binding, dk.trigger).row| == |dk.trigger.args|;
    if p.rule == q.rule {
      NoTwin(p.rule.body, a, b);
    }
  }

  lemma NoTwin(body: seq<Literal>, a: nat, b: nat)
    requires SelfJoinFree(body) && a < |body| && b < |body|
    requires body[a].table == body[b].table && |body[a].args| == |body[b].args|
    ensures a == b
  {
  }

  lemma BatchJoin(c1: iset<Proof>, N1: seq<Event>, c2: iset<Proof>, N2: seq<Event>, insert: bool)
    requires Batch(c1, insert, N1) && Batch(c2, insert, N2)
    requires forall p, q :: p in c1 && q in c2 ==> p.rule != q.rule
    ensures Batch(c1 + c2, insert, N1 + N2)
  {
    hide HeadOf;
    var N := N1 + N2;
    forall k | 0 <= k < |N|
      ensures ReportsOn(c1 + c2, insert, N[k])
    {
      if k < |N1| {
        BatchMember(c1, insert, N1, k);
      } else {
        BatchMember(c2, insert, N2, k - |N1|);
      }
    }
    forall pr | pr in c1 + c2
      ensures exists k :: 0 <= k < |N| && pr in N[k].Proofs()
    {
      if pr in c1 {
        var k :| 0 <= k < |N1| && pr in N1[k].Proofs();
        assert pr in N[k].Proofs();
      } else {
        var k :| 0 <= k < |N2| && pr in N2[k].Proofs();
        assert pr in N[|N1| + k].Proofs();
      }
    }
    forall j, k, p, q | 0 <= j < k < |N| && p in N[j].Proofs() && q in N[k].Proofs()
      ensures p.rule != q.rule || HeadOf(p) != HeadOf(q)
    {
      JoinedApart(c1, N1, c2, N2, insert, j, k, p, q);
    }
  }

  lemma JoinedApart(c1: iset<Proof>, N1: seq<Event>, c2: iset<Proof>, N2: seq<Event>, insert: bool, j: nat,
      k: nat, p: Proof, q: Proof)
    requires Batch(c1, insert, N1) && Batch(c2, insert, N2)
    requires forall p, q :: p in c1 && q in c2 ==> p.rule != q.rule
    requires j < k < |N1 + N2| && p in (N1 + N2)[j].Proofs() && q in (N1 + N2)[k].Proofs()
    ensures p.rule != q.rule || HeadOf(p) != HeadOf(q)
  {
    hide HeadOf;
    if k < |N1| {
      assert p in N1[j].Proofs() && q in N1[k].Proofs();
    } else if j >= |N1| {
      assert p in N2[j - |N1|].Proofs() && q in N2[k - |N1|].Proofs();
    } else {
      BatchMember(c1, insert, N1, j);
      BatchMember(c2, insert, N2, k - |N1|);
    }
  }

  // ----- grouping bindings by the tuple they generate

  ghost function ProofsOf(bindings: seq<Binding>, r: Rule): iset<Proof> {
    iset pr: Proof | pr.rule == r && pr.binding in bindings
  }

  type Groups = map<Atom, seq<Proof>>

  /** Every group is not empty and holds the proofs of its tuple. */
  ghost predicate Grouped(groups: Groups, cause: iset<Proof>) {
    && (forall a :: a in groups ==> groups[a] != [] && forall p :: p in groups[a] ==> p in cause && HeadOf(p) == a)
    && (forall p :: p in cause ==> HeadOf(p) in groups && p in groups[HeadOf(p)])
  }

  /** The events queued are those of the groups of some tuples. */
  ghost predicate Queued(groups: Groups, done: set<Atom>, insert: bool, N: seq<Event>) {
    && (forall k :: 0 <= k < |N| ==>
        N[k].FactEvent? && N[k].atom in done && N[k].atom in groups
          && N[k] == FactEvent(N[k].atom, groups[N[k].atom], insert))
    && (forall a :: a in done ==> exists k :: 0 <= k < |N| && N[k].FactEvent? && N[k].atom == a)
    && (forall j, k :: 0 <= j < k < |N| && N[j].FactEvent? && N[k].FactEvent? ==> N[j].atom != N[k].atom)
  }

  lemma GroupNext(groups: Groups, bindings: seq<Binding>, i: nat, r: Rule)
    requires i < |bindings| && Grouped(groups, ProofsOf(bindings[..i], r))
    ensures var p := Proof(bindings[i], r);
      var a := HeadOf(p);
      Grouped(groups[a := (if a in groups then groups[a] else []) + [p]], ProofsOf(bindings[..i + 1], r))
  {
    var p := Proof(bindings[i], r);
    assert bindings[..i + 1] == bindings[..i] + [bindings[i]];
    assert forall q :: q in ProofsOf(bindings[..i + 1], r) <==> q in ProofsOf(bindings[..i], r) || q == p;
  }

  lemma QueuedNext(groups: Groups, done: set<Atom>, insert: bool, N: seq<Event>, a: Atom)
    requires Queued(groups, done, insert, N) && a in groups && a !in done
    ensures Queued(groups, done + {a}, insert, N + [FactEvent(a, groups[a], insert)])
  {
    var N' := N + [FactEvent(a, groups[a], insert)];
    forall b | b in done + {a}
      ensures exists k :: 0 <= k < |N'| && N'[k].FactEvent? && N'[k].atom == b
    {
      if b == a {
        assert N'[|N|].atom == a;
      } else {
        var k :| 0 <= k < |N| && N[k].FactEvent? && N[k].atom == b;
        assert N'[k] == N[k];
      }
    }
  }

  lemma QueuedBatch(groups: Groups, cause: iset<Proof>, insert: bool, N: seq<Event>)
    requires Grouped(groups, cause) && Queued(groups, groups.Keys, insert, N)
    ensures Batch(cause, insert, N)
  {
    forall k | 0 <= k < |N|
      ensures ReportsOn(cause, insert, N[k])
    {
    }
    forall pr | pr in cause
      ensures exists k :: 0 <= k < |N| && pr in N[k].Proofs()
    {
      var k :| 0 <= k < |N| && N[k].FactEvent? && N[k].atom == HeadOf(pr);
      assert pr in N[k].Proofs();
    }
  }

  /** What a theory has been asked for: the rules, and the facts inserted and not deleted since.
      Has nothing ever been deleted?  Have rules defined only the tables in derived, and facts
      only others? */
  datatype History = History(asked: set<Rule>, base: set<Atom>, grows: bool, layered: bool)

  class MaterializedViewTheory {
    const database: Database
    const deltaRules: DeltaRuleTheory
    var queue: seq<Event>
    /** The rules asked for without self-joins.  Has no deleted tuple lingered? */
    ghost const derived: iset<Name>
    ghost var history: History
    ghost var given: set<Rule>
    ghost var clean: bool

    constructor (ghost derived: iset<Name>)
      ensures AtRest() && history == History({}, {}, true, true) && clean && this.derived == derived
      ensures fresh(database) && fresh(deltaRules)
    {
      database := new Database();
      deltaRules := new DeltaRuleTheory();
      queue := [];
      this.derived := derived;
      history, given, clean := History({}, {}, true, true), {}, true;
      new;
      NothingRests(derived);
    }

    ghost function Now(): State
      reads this`queue, database`content, deltaRules`originals
    {
      State(deltaRules.originals, database.content, queue)
    }

    /** Nothing is queued, and views and base tables are as Resting says. */
    ghost predicate AtRest()
      reads this, database, deltaRules
    {
      Valid() && queue == [] && Resting(derived, history, given, clean, Now())
    }

    ghost predicate Valid()
      reads database, deltaRules
    {
      database.Valid() && deltaRules.Valid() && forall r :: r in deltaRules.originals ==> Good(r)
    }

    lemma Unpack()
      requires AtRest()
      ensures Valid() && queue == [] && Resting(derived, history, given, clean, Now())
      ensures Now() == State(deltaRules.originals, database.content, [])
    {
    }

    lemma Pack()
      requires Valid() && queue == [] && Resting(derived, history, given, clean, Now())
      ensures AtRest()
    {
    }

    method Enqueue(e: Event)
      modifies this`queue
      ensures queue == old(queue) + [e]
    {
      queue := queue + [e];
    }

    method Dequeue() returns (e: Event)
      requires queue != []
      modifies this`queue
      ensures e == old(queue)[0] && queue == old(queue)[1..]
    {
      e := queue[0];
      queue := queue[1..];
    }

    /** Queue one event for each tuple that the bindings generate, with its proofs. */
    method ProcessNewBindings(bindings: seq<Binding>, atom: Literal, insert: bool, original: Rule)
        returns (ghost N: seq<Event>)
      requires atom == original.head
      modifies this`queue
      ensures queue == old(queue) + N && Batch(ProofsOf(bindings, original), insert, N)
    {
      hide Grouped, Queued, Batch;
      var newAtoms: Groups := map[];
      assert Grouped(newAtoms, ProofsOf(bindings[..0], original)) by {
        GroupedNone(original);
      }
      for i := 0 to |bindings|
        invariant queue == old(queue) && Grouped(newAtoms, ProofsOf(bindings[..i], original))
      {
        var newAtom := Plug(bindings[i], atom);
        GroupNext(newAtoms, bindings, i, original);
        newAtoms := newAtoms[newAtom := (if newAtom in newAtoms then newAtoms[newAtom] else [])
          + [Proof(bindings[i], original)]];
      }
      assert bindings[..|bindings|] == bindings;
      N := [];
      var left := newAtoms.Keys;
      QueuedNone(newAtoms, insert);
      assert queue + N == queue;
      assert newAtoms.Keys - left == {};
      while left != {}
        invariant left <= newAtoms.Keys && queue == old(queue) + N
        invariant Queued(newAtoms, newAtoms.Keys - left, insert, N)
        decreases left
      {
        var newAtom :| newAtom in left;
        QueuedNext(newAtoms, newAtoms.Keys - left, insert, N, newAtom);
        assert newAtoms.Keys - (left - {newAtom}) == newAtoms.Keys - left + {newAtom};
        left := left - {newAtom};
        Enqueue(FactEvent(newAtom, newAtoms[newAtom], insert));
        N := N + [FactEvent(newAtom, newAtoms[newAtom], insert)];
      }
      assert newAtoms.Keys - left == newAtoms.Keys;
      QueuedBatch(newAtoms, ProofsOf(bindings, original), insert, N);
    }

    /** Queue what a change of one tuple causes through one delta rule, as seen before the tuple
        itself is changed. */
    method PropagateRule(e: Event, delta: DeltaRule, ghost i: nat) returns (ghost N: seq<Event>)
      requires Valid() && e.FactEvent? && Good(delta.original)
      requires i < |delta.original.body| && delta == DeltaAt(delta.original, i) && delta.trigger.table == e.atom.table
      modifies this`queue
      ensures queue == old(queue) + N && Batch(CausesBy(database.content.Keys, delta, e.atom), e.insert, N)
    {
      hide Batch, CausesBy, DeltaRuleTheory.Valid, Database.Valid, Good;
      var binding := Match(e.atom.row, delta.trigger.args, map[]);
      if binding.None? {
        N := [];
        assert queue + N == queue;
        NotTriggered(database.content.Keys, delta, e.atom, e.insert);
        return;
      }
      var bindings := database.Evaluate(delta.body, binding.value);
      SolutionsAreCauses(database.content.Keys, delta, i, e.atom, binding.value, bindings);
      N := ProcessNewBindings(bindings, delta.head, e.insert, delta.original);
    }

    /** Queue what a change of one tuple causes. */
    method Propagate(e: Event) returns (ghost N: seq<Event>)
      requires Valid() && e.FactEvent?
      modifies this`queue
      ensures queue == old(queue) + N && Batch(Causes(database.content.Keys, deltaRules.originals, e.atom), e.insert, N)
    {
      hide Batch, CausesOfFirst, DeltaRuleTheory.Valid, Database.Valid;
      var applicable := deltaRules.RulesWithTrigger(e.atom.table);
      ghost var d := database.content.Keys;
      N := [];
      assert queue + N == queue;
      NothingCaused(d, applicable, e.atom, e.insert);
      for k := 0 to |applicable|
        invariant Valid() && queue == old(queue) + N && Batch(CausesOfFirst(d, applicable, k, e.atom), e.insert, N)
      {
        ghost var i := Applicable(e.atom.table, k);
        ghost var more := PropagateRule(e, applicable[k], i);
        CausedNext(e.atom, k, N, more, e.insert);
        N := N + more;
      }
      AllCaused(e.atom);
    }

    lemma Applicable(t: Name, k: nat) returns (i: nat)
      requires Valid() && k < |deltaRules.RulesWithTrigger(t)|
      ensures var delta := deltaRules.RulesWithTrigger(t)[k];
        && Good(delta.original) && delta.trigger.table == t
        && i < |delta.original.body| && delta == DeltaAt(delta.original, i)
    {
      var delta := deltaRules.RulesWithTrigger(t)[k];
      assert IsDelta(delta, deltaRules.originals, t);
      i :| 0 <= i < |delta.original.body| && delta == DeltaAt(delta.original, i);
    }

    lemma CausedNext(f: Atom, k: nat, N: seq<Event>, more: seq<Event>, insert: bool)
      requires Valid() && k < |deltaRules.RulesWithTrigger(f.table)|
      requires Batch(CausesOfFirst(database.content.Keys, deltaRules.RulesWithTrigger(f.table), k, f), insert, N)
      requires Batch(CausesBy(database.content.Keys, deltaRules.RulesWithTrigger(f.table)[k], f), insert, more)
      ensures Batch(CausesOfFirst(database.content.Keys, deltaRules.RulesWithTrigger(f.table), k + 1, f), insert,
        N + more)
    {
      hide Batch, DeltasOf;
      var d, deltas := database.content.Keys, deltaRules.RulesWithTrigger(f.table);
      forall p, q | p in CausesOfFirst(d, deltas, k, f) && q in CausesBy(d, deltas[k], f)
        ensures p.rule != q.rule
      {
        var j :| 0 <= j < k && p in CausesBy(d, deltas[j], f);
        CausesApart(deltaRules.rules, deltaRules.originals, d, f, j, k, p, q);
      }
      BatchJoin(CausesOfFirst(d, deltas, k, f), N, CausesBy(d, deltas[k], f), more, insert);
      assert CausesOfFirst(d, deltas, k + 1, f) == CausesOfFirst(d, deltas, k, f) + CausesBy(d, deltas[k], f);
    }

    lemma AllCaused(f: Atom)
      requires Valid()
      ensures var deltas := deltaRules.RulesWithTrigger(f.table);
        CausesOfFirst(database.content.Keys, deltas, |deltas|, f) ==
          Causes(database.content.Keys, deltaRules.originals, f)
    {
      CausesOfAll(deltaRules.rules, deltaRules.originals, database.content.Keys, f);
    }

    /** Take one event off the queue and process it: a rule by adding it and what it says about
        the data; a change of data by propagating it first and making it then. */
    method ProcessEvent() returns (ghost more: seq<Event>)
      requires Valid() && queue != [] && (queue[0].RuleEvent? ==> Good(queue[0].rule))
      modifies this`queue, deltaRules, database
      ensures Valid()
      ensures Processed(old(deltaRules.originals), old(database.content), old(queue), more,
        deltaRules.originals, database.content, queue)
    {
      hide Batch, DeltaRuleTheory.Valid, Database.Valid, Good, SatSet, Causes, Modified, Known, SelfJoinFree;
      var e := Dequeue();
      match e
      case RuleEvent(rule) =>
        GoodSelfJoinFree(rule);
        var changed := deltaRules.Insert(rule);
        more := [];
        assert queue + more == queue;
        if changed {
          var bindings := database.Evaluate(rule.body, map[]);
          SolutionsSatisfy(database.content.Keys, rule, bindings);
          more := ProcessNewBindings(bindings, rule.head, true, rule);
        }
      case FactEvent(_, _, _) =>
        more := Propagate(e);
        var _ := database.Modify(e);
    }

    /** Process events until none is left. */
    method ProcessQueue(ghost rank: Atom -> nat, ghost top: nat, ghost u: set<Atom>, ghost given: set<Rule>)
        returns (ghost run: seq<State>)
      requires Valid() && Bounded(rank, top, u, given, Now()) && forall r :: r in given ==> Good(r)
      modifies this`queue, deltaRules, database
      ensures Valid() && queue == [] && Run(run) && run != [] && run[0] == old(Now()) && Last(run) == Now()
      ensures deltaRules.originals <= given
    {
      hide *;
      run := [Now()];
      RunStart(Now());
      NowIs();
      while |queue| > 0
        invariant Valid() && Bounded(rank, top, u, given, Now()) && Now().queue == queue
        invariant Run(run) && run != [] && run[0] == old(Now()) && Last(run) == Now()
        decreases QueueWeight(rank, top, Base(given, u), queue)
      {
        ghost var before := Now();
        NowIs();
        FirstIsGood(rank, top, u, given, before);
        var more := ProcessEvent();
        NowIs();
        RunNext(run, before, Now(), more);
        RoundLightens(rank, top, u, given, before, Now());
        run := run + [Now()];
      }
      NowIs();
      WithinGiven(rank, top, u, given, Now());
    }

    lemma NowIs()
      ensures Now().queue == queue && Now().rules == deltaRules.originals && Now().data == database.content
    {
    }

    /** Queue what a request is about: a fact as it is, a rule with its self-joins removed. */
    method EnqueueAny(request: Request) returns (ghost N: seq<Event>)
      requires request.FactRequest? ==> !deltaRules.IsView(request.atom.table)
      modifies this`queue
      ensures queue == old(queue) + N && EventsOf(request, N)
    {
      match request
      case FactRequest(atom, insert) =>
        N := [FactEvent(atom, [], insert)];
        Enqueue(FactEvent(atom, [], insert));
      case RuleRequest(formula) =>
        var rules := EliminateSelfJoins([formula]);
        N := [];
        assert queue + N == queue;
        for i := 0 to |rules|
          invariant queue == old(queue) + N
          invariant forall e :: e in N <==> e.RuleEvent? && e.rule in rules[..i]
        {
          assert rules[..i + 1] == rules[..i] + [rules[i]];
          Enqueue(RuleEvent(rules[i]));
          N := N + [RuleEvent(rules[i])];
        }
        assert rules[..|rules|] == rules;
        assert RulesIn([formula]) == {formula};
    }

    /** Apply a batch of requests. */
    method Update(requests: seq<Request>) returns (ghost run: seq<State>)
      requires AtRest() && forall q :: q in requests ==> Allowed(q)
      requires forall q :: q in requests && q.FactRequest? ==> !deltaRules.IsView(q.atom.table)
      requires Settles(After(derived, history, requests).asked, database.content.Keys + FactsOf(requests))
      modifies this, deltaRules, database
      ensures AtRest() && history == After(derived, old(history), requests)
      ensures Run(run) && run != [] && Last(run) == Now()
      ensures run[0].rules == old(deltaRules.originals) && run[0].data == old(database.content)
        && Asks(requests, run[0].queue)
      ensures clean == (old(clean) && NeverLingers(run))
    {
      hide *;
      ghost var given0, before := given, Now();
      Unpack();
      EnqueueAll(requests);
      NowIs();
      ghost var rank, u, top := ReadyToProcess(derived, before, old(history), given0, Now(), history, given,
        database.content.Keys + FactsOf(requests));
      run := ProcessQueue(rank, top, u, given);
      NowIs();
      RestsAgain(derived, before, old(history), given0, old(clean), run, history, given);
      clean := clean && NeverLingers(run);
      Pack();
    }

    /** Queue all requests, one after the other. */
    method EnqueueAll(requests: seq<Request>)
      requires AtRest() && forall q :: q in requests ==> Allowed(q)
      requires forall q :: q in requests && q.FactRequest? ==> !deltaRules.IsView(q.atom.table)
      modifies this`queue, this`history, this`given
      ensures Collected(derived, old(history), old(given), Now(), history, given)
      ensures history == After(derived, old(history), requests)
      ensures Asks(requests, queue) && AtomsIn(database.content, queue) <= database.content.Keys + FactsOf(requests)
    {
      hide *;
      Unpack();
      CollectedNothing(derived, history, given, clean, Now());
      NoRequests(derived, history, requests, database.content);
      for i := 0 to |requests|
        invariant Collected(derived, old(history), old(given), State(deltaRules.originals, database.content, queue),
          history, given)
        invariant history == After(derived, old(history), requests[..i])
        invariant Asks(requests[..i], queue)
        invariant AtomsIn(database.content, queue) <= database.content.Keys + FactsOf(requests[..i])
      {
        ghost var queue0 := queue;
        ghost var N := TakeRequest(requests[i], old(history), old(given));
        NextRequest(derived, old(history), requests, i, database.content, queue0, N);
      }
      NowIs();
      assert requests[..|requests|] == requests;
    }

    method TakeRequest(request: Request, ghost history0: History, ghost given0: set<Rule>) returns (ghost N: seq<Event>)
      requires Allowed(request) && (request.FactRequest? ==> !deltaRules.IsView(request.atom.table))
      requires Collected(derived, history0, given0, State(deltaRules.originals, database.content, queue), history,
        given)
      modifies this`queue, this`history, this`given
      ensures Collected(derived, history0, given0, State(deltaRules.originals, database.content, queue), history, given)
      ensures history == Next(derived, old(history), request)
      ensures queue == old(queue) + N && EventsOf(request, N)
    {
      hide *;
      ghost var queue0 := queue;
      N := EnqueueAny(request);
      CollectedNext(derived, history0, given0, deltaRules.originals, database.content, queue0, history, given,
        request, N);
      given := given + set e | e in N && e.RuleEvent? :: e.rule;
      history := Next(derived, history, request);
    }
  }

  lemma GoodSelfJoinFree(r: Rule)
    requires Good(r)
    ensures SelfJoinFree(r.body)
  {
  }

  lemma RunStart(s: State)
    ensures Run([s]) && Last([s]) == s
  {
  }

  lemma RunNext(run: seq<State>, s: State, s': State, more: seq<Event>)
    requires Run(run) && run != [] && Last(run) == s
    requires Processed(s.rules, s.data, s.queue, more, s'.rules, s'.data, s'.queue)
    ensures Round(s, s') && Run(run + [s']) && Last(run + [s']) == s'
  {
    hide Processed;
    assert Round(s, s');
  }

  lemma FirstIsGood(rank: Atom -> nat, top: nat, u: set<Atom>, given: set<Rule>, s: State)
    requires Bounded(rank, top, u, given, s) && |s.queue| > 0 && forall r :: r in given ==> Good(r)
    ensures s.queue[0].RuleEvent? ==> Good(s.queue[0].rule)
  {
    assert s.queue[0] in s.queue;
  }

  lemma WithinGiven(rank: Atom -> nat, top: nat, u: set<Atom>, given: set<Rule>, s: State)
    requires Bounded(rank, top, u, given, s)
    ensures s.rules <= given
  {
  }

  // ----- updates

  /** What a user may ask for: a new rule, or a base fact to insert or delete. */
  datatype Request = RuleRequest(rule: Rule) | FactRequest(atom: Atom, insert: bool)

  ghost predicate Allowed(q: Request) {
    match q
    case RuleRequest(r) => Plain(r)
    case FactRequest(a, _) => !Reserved(a.table)
  }

  ghost function Next(derived: iset<Name>, h: History, q: Request): History {
    match q
    case RuleRequest(r) => h.(asked := h.asked + {r}, layered := h.layered && r.head.table in derived)
    case FactRequest(a, insert) =>
      h.(base := if insert then h.base + {a} else h.base - {a}, grows := h.grows && insert,
        layered := h.layered && a.table !in derived)
  }

  ghost function After(derived: iset<Name>, h: History, requests: seq<Request>): History {
    if requests == [] then h
    else Next(derived, After(derived, h, requests[..|requests| - 1]), requests[|requests| - 1])
  }

  ghost function FactsOf(requests: seq<Request>): set<Atom> {
    set q | q in requests && q.FactRequest? :: q.atom
  }

  /** The events that a request puts on the queue. */
  ghost predicate EventsOf(q: Request, N: seq<Event>) {
    match q
    case FactRequest(a, insert) => N == [FactEvent(a, [], insert)]
    case RuleRequest(r) => forall e :: e in N <==> e.RuleEvent? && IsEliminated({r}, e.rule)
  }

  /** The queue holds the events of the requests, in their order. */
  ghost predicate Asks(requests: seq<Request>, queue: seq<Event>)
    decreases |requests|
  {
    if requests == [] then queue == []
    else
      var n := |requests| - 1;
      exists i :: 0 <= i <= |queue| && Asks(requests[..n], queue[..i]) && EventsOf(requests[n], queue[i..])
  }

  /** With the self-joins of the rules removed, the atoms lead to no tuple that is among its own
      causes. */
  ghost predicate Settles(asked: set<Rule>, atoms: set<Atom>) {
    forall given: set<Rule> :: (forall q :: q in given <==> IsEliminated(asked, q)) ==> Settled(given, atoms)
  }

  /** Rules that are not recursive always settle. */
  lemma NonrecursiveSettles(asked: set<Rule>, atoms: set<Atom>, sh: Shape)
    requires Fits(ProgramOf(asked, {}), sh) && forall r :: r in asked ==> Plain(r)
    ensures Settles(asked, atoms)
  {
    hide Fits, Plain, IsEliminated, Settled;
    forall given: set<Rule> | forall q :: q in given <==> IsEliminated(asked, q)
      ensures Settled(given, atoms)
    {
      EliminationFits(asked, {}, sh, given);
      forall r | r in given
        ensures Good(r)
      {
        EliminatedGood(asked, r);
      }
      var sh' :| Fits(ProgramOf(given, {}), sh');
      FittingSettles(given, atoms, sh');
    }
  }

  lemma FittingSettles(given: set<Rule>, atoms: set<Atom>, sh: Shape)
    requires Fits(ProgramOf(given, {}), sh) && forall r :: r in given ==> Good(r)
    ensures Settled(given, atoms)
  {
    hide Fits, Good, Universe, ClosedUnder, Acyclic, Ranked, Ranks;
    FitsWithoutFacts(given, {}, {}, sh);
    UniverseCloses(atoms, given);
    RankedRanks(sh, Universe(atoms, given), given);
    AcyclicIffRanked(Universe(atoms, given), given);
  }

  lemma NoRequests(derived: iset<Name>, h: History, requests: seq<Request>, data: Data)
    ensures h == After(derived, h, requests[..0]) && Asks(requests[..0], [])
      && AtomsIn(data, []) <= data.Keys + FactsOf(requests[..0])
  {
  }

  lemma NextRequest(derived: iset<Name>, h: History, requests: seq<Request>, i: nat, data: Data,
      queue: seq<Event>, N: seq<Event>)
    requires i < |requests| && EventsOf(requests[i], N)
    requires Asks(requests[..i], queue) && AtomsIn(data, queue) <= data.Keys + FactsOf(requests[..i])
    ensures After(derived, h, requests[..i + 1]) == Next(derived, After(derived, h, requests[..i]), requests[i])
    ensures Asks(requests[..i + 1], queue + N) && AtomsIn(data, queue + N) <= data.Keys + FactsOf(requests[..i + 1])
  {
    assert requests[..i + 1] == requests[..i] + [requests[i]];
    assert requests[..i + 1][..i] == requests[..i];
    assert (queue + N)[..|queue|] == queue && (queue + N)[|queue|..] == N;
    forall a | a in AtomsIn(data, queue + N)
      ensures a in data.Keys + FactsOf(requests[..i + 1])
    {
      if a !in AtomsIn(data, queue) {
        assert requests[i] == FactRequest(a, requests[i].insert) && requests[i] in requests[..i + 1];
      } else {
        assert FactsOf(requests[..i]) <= FactsOf(requests[..i + 1]);
      }
    }
  }

  // ----- what holds between updates

  /** The tables that rules define, and those that the removal of self-joins adds. */
  ghost function ViewsOf(derived: iset<Name>): iset<Name> {
    derived + iset t: Name | Reserved(t)
  }

  /** No rule looks at a table that a rule defines. */
  ghost predicate FlatRules(derived: iset<Name>, asked: set<Rule>) {
    forall r :: r in asked ==> FlatRule(derived, r)
  }

  /** Every rule asked for has been stored, with its self-joins removed.  If nothing has ever
      been deleted, the data are the model of the rules and facts.  If rules define only tables
      that no facts are given for, the base tables hold the facts inserted and not deleted since,
      and the views are right if no deleted tuple has lingered: which none does if nothing has
      been deleted, or no rule looks at a view. */
  ghost predicate Resting(derived: iset<Name>, h: History, given: set<Rule>, clean: bool, s: State) {
    && PlainPolicy(h.asked, h.base)
    && (forall q :: q in given <==> IsEliminated(h.asked, q))
    && s.queue == [] && s.rules <= given && (forall r :: r in given ==> Known(s.rules, r))
    && (h.grows ==> IsModel(s.data, given, h.base) && clean)
    && (h.layered ==>
        && Layered(ViewsOf(derived), s) && BasePart(s.data.Keys, ViewsOf(derived)) == h.base
        && (clean ==> Right(ViewsOf(derived), s))
        && (FlatRules(derived, h.asked) ==> clean && Flat(ViewsOf(derived), s)))
  }

  lemma NothingRests(derived: iset<Name>)
    ensures Resting(derived, History({}, {}, true, true), {}, true, State({}, map[], []))
  {
    var p := ProgramOf({}, {});
    forall sh, a | Fits(p, sh)
      ensures a !in Model(p, sh)
    {
      ModelFixpoint(p, sh, a);
    }
  }

  /** While requests are being queued: what is new is on the queue. */
  ghost predicate Collected(derived: iset<Name>, h0: History, given0: set<Rule>, s: State, h: History,
      given: set<Rule>) {
    && PlainPolicy(h.asked, h.base) && h0.asked <= h.asked
    && given0 <= given && (forall q :: q in given <==> IsEliminated(h.asked, q))
    && (forall e :: e in s.queue && e.RuleEvent? ==> e.rule in given)
    && (forall r :: r in given ==> r in given0 || RuleEvent(r) in s.queue)
    && (h.grows ==>
        && h0.grows && h0.base <= h.base
        && (forall e :: e in s.queue && e.FactEvent? ==> e.insert && e.atom in h.base)
        && forall a :: a in h.base ==> a in h0.base || FactEvent(a, [], true) in s.queue)
    && (h.layered ==>
        && h0.layered && Layered(ViewsOf(derived), s)
        && BaseAfter(BasePart(s.data.Keys, ViewsOf(derived)), ViewsOf(derived), s.queue) == h.base
        && Fold(s.data, ViewsOf(derived), s.queue) == s.data)
  }

  lemma CollectedNothing(derived: iset<Name>, h: History, given: set<Rule>, clean: bool, s: State)
    requires Resting(derived, h, given, clean, s)
    ensures Collected(derived, h, given, s, h, given)
  {
  }

  lemma CollectedNext(derived: iset<Name>, h0: History, given0: set<Rule>, rules: set<Rule>, data: Data,
      queue: seq<Event>, h: History, given: set<Rule>, q: Request, N: seq<Event>)
    requires Collected(derived, h0, given0, State(rules, data, queue), h, given) && Allowed(q) && EventsOf(q, N)
    ensures Collected(derived, h0, given0, State(rules, data, queue + N), Next(derived, h, q),
        given + set e | e in N && e.RuleEvent? :: e.rule)
  {
    hide Layered, BaseAfter, Fold, Plain;
    if Next(derived, h, q).layered {
      LayeredNext(derived, rules, data, queue, q, N, h);
    }
    if q.RuleRequest? {
      forall p
        ensures IsEliminated(h.asked + {q.rule}, p) <==> IsEliminated(h.asked, p) || IsEliminated({q.rule}, p)
      {
        EliminatedUnion(h.asked, {q.rule}, p);
      }
      forall p
        ensures RuleEvent(p) in N <==> IsEliminated({q.rule}, p)
      {
      }
    }
  }

  lemma EliminatedHead(r: Rule, q: Rule)
    requires IsEliminated({r}, q)
    ensures q.head.table == r.head.table || Reserved(q.head.table)
  {
  }

  /** Queued requests leave the views alone, and change base tables as they say. */
  lemma LayeredNext(derived: iset<Name>, rules: set<Rule>, data: Data, queue: seq<Event>, q: Request,
      N: seq<Event>, h: History)
    requires Layered(ViewsOf(derived), State(rules, data, queue)) && Allowed(q) && EventsOf(q, N)
    requires BaseAfter(BasePart(data.Keys, ViewsOf(derived)), ViewsOf(derived), queue) == h.base
    requires Fold(data, ViewsOf(derived), queue) == data && Next(derived, h, q).layered
    ensures Layered(ViewsOf(derived), State(rules, data, queue + N)) && Fold(data, ViewsOf(derived), queue + N) == data
    ensures BaseAfter(BasePart(data.Keys, ViewsOf(derived)), ViewsOf(derived), queue + N) == Next(derived, h, q).base
  {
    var vs := ViewsOf(derived);
    FoldAppend(data, vs, queue, N);
    BaseAfterAppend(BasePart(data.Keys, vs), vs, queue, N);
    match q
    case FactRequest(a, insert) =>
      assert BaseAfter(h.base, vs, N) == BaseNext(h.base, vs, N[0]);
    case RuleRequest(r) =>
      RulesLeaveAlone(vs, data, h.base, N);
      forall e | e in N
        ensures Good(e.rule) && e.rule.head.table in vs
      {
        EliminatedGood({r}, e.rule);
        EliminatedHead(r, e.rule);
      }
  }

  lemma {:induction false} RulesLeaveAlone(vs: iset<Name>, data: Data, base: set<Atom>, N: seq<Event>)
    requires forall e :: e in N ==> e.RuleEvent?
    ensures Fold(data, vs, N) == data && BaseAfter(base, vs, N) == base
    decreases |N|
  {
    if N != [] {
      assert N[0] in N;
      RulesLeaveAlone(vs, data, base, N[1..]);
    }
  }

  /** Once all requests are queued, the queue may be processed. */
  lemma ReadyToProcess(derived: iset<Name>, s0: State, h0: History, given0: set<Rule>, s: State, h: History,
      given: set<Rule>, atoms: set<Atom>) returns (rank: Atom -> nat, u: set<Atom>, top: nat)
    requires s0.rules <= given0 && s.rules == s0.rules
    requires Collected(derived, h0, given0, s, h, given) && Settles(h.asked, atoms) && AtomsIn(s.data, s.queue) <= atoms
    ensures Bounded(rank, top, u, given, s) && forall r :: r in given ==> Good(r)
  {
    forall r | r in given
      ensures Good(r)
    {
      EliminatedGood(h.asked, r);
    }
    rank, u, top := BoundedExists(given, s, atoms);
  }

  /** What is growing towards the model arrives there. */
  lemma GrownAtRest(derived: iset<Name>, s0: State, h0: History, given0: set<Rule>, run: seq<State>, h: History,
      given: set<Rule>)
    requires Run(run) && run != [] && Last(run).queue == [] && h.grows
    requires Collected(derived, h0, given0, run[0], h, given) && IsModel(s0.data, given0, h0.base)
    requires s0.rules <= given0 && (forall r :: r in given0 ==> Known(s0.rules, r)) && run[0].rules == s0.rules
      && run[0].data == s0.data
    requires forall r :: r in given ==> Good(r)
    ensures IsModel(Last(run).data, given, h.base)
  {
    hide Run, NeverLingers, Fits, Model, Good, Known, Layered, Fold, BaseAfter;
    var s := run[0];
    forall a | a in h.base && a !in h0.base
      ensures OnQueue(s.queue, a)
    {
      assert FactEvent(a, [], true) in s.queue;
    }
    forall sh | Fits(ProgramOf(given, h.base), sh)
      ensures forall a :: a in Last(run).data <==> a in Model(ProgramOf(given, h.base), sh)
    {
      GrowingStart(given0, h0.base, given, h.base, sh, s);
      GrowingRun(given, h.base, sh, run);
      GrownIsModel(given, h.base, sh, Last(run).rules, Last(run).data);
    }
  }

  /** Rules over base tables have no self-joins to be removed. */
  lemma FlatStart(derived: iset<Name>, h: History, given: set<Rule>, s: State)
    requires PlainPolicy(h.asked, h.base) && (forall q :: q in given <==> IsEliminated(h.asked, q))
      && FlatRules(derived, h.asked)
    requires s.rules <= given && forall e :: e in s.queue && e.RuleEvent? ==> e.rule in given
    ensures Flat(ViewsOf(derived), s)
  {
    forall q | q in given
      ensures FlatRule(ViewsOf(derived), q)
    {
      AskedAsIs(h.asked, q);
    }
  }

  lemma AskedAsIs(asked: set<Rule>, q: Rule)
    requires IsEliminated(asked, q) && forall r :: r in asked ==> SelfJoinFree(r.body)
    ensures q in asked
  {
    if r :| r in asked && q == Renamed(r) {
      assert IsEliminated({r}, q);
      SelfJoinFreeStays(r, q);
    } else {
      var t, n: nat, k: nat :| NeedsCopy(asked, t, n, k) && q == Copy(t, n, k);
      var r :| r in asked && Count(r.body, t, n) > k;
      assert NeedsCopy({r}, t, n, k);
      assert IsEliminated({r}, q);
      SelfJoinFreeStays(r, q);
    }
  }

  lemma LayeredAtRest(derived: iset<Name>, s0: State, h0: History, given0: set<Rule>, clean0: bool,
      run: seq<State>, h: History, given: set<Rule>)
    requires Resting(derived, h0, given0, clean0, s0) && run != [] && run[0].rules == s0.rules && run[0].data == s0.data
    requires Collected(derived, h0, given0, run[0], h, given) && h.layered
    requires Run(run) && Last(run).queue == []
    ensures var s, vs := Last(run), ViewsOf(derived);
      && Layered(vs, s) && BasePart(s.data.Keys, vs) == h.base
      && (clean0 && NeverLingers(run) ==> Right(vs, s))
      && (FlatRules(derived, h.asked) ==> clean0 && NeverLingers(run) && Flat(vs, s))
  {
    hide Run, Layered, Flat, NeverLingers, Known, PlainPolicy, FlatRule, Exact, SatSet;
    var vs := ViewsOf(derived);
    LayeredRun(vs, run);
    if clean0 && NeverLingers(run) {
      assert Right(vs, run[0]);
      RunExact(vs, run);
    }
    if FlatRules(derived, h.asked) {
      FlatStart(derived, h, given, run[0]);
      FlatRun(vs, run);
    }
  }

  lemma RestsAgain(derived: iset<Name>, s0: State, h0: History, given0: set<Rule>, clean0: bool, run: seq<State>,
      h: History, given: set<Rule>)
    requires Resting(derived, h0, given0, clean0, s0) && run != [] && run[0].rules == s0.rules && run[0].data == s0.data
    requires Collected(derived, h0, given0, run[0], h, given) && (forall r :: r in given ==> Good(r))
    requires Run(run) && Last(run).queue == [] && Last(run).rules <= given
    ensures Resting(derived, h, given, clean0 && NeverLingers(run), Last(run))
  {
    hide Run, NeverLingers, Layered, Flat, Right, IsModel, Good, FlatRules, Known, BaseAfter, Fold;
    forall r | r in given
      ensures Known(Last(run).rules, r)
    {
      Arrives(derived, h0, given0, clean0, s0, h, given, run, r);
    }
    if h.grows {
      GrownAtRest(derived, s0, h0, given0, run, h, given);
      assert Inserting(run[0]);
      InsertingRun(run);
    }
    if h.layered {
      LayeredAtRest(derived, s0, h0, given0, clean0, run, h, given);
    }
  }

  lemma Arrives(derived: iset<Name>, h0: History, given0: set<Rule>, clean0: bool, s0: State, h: History,
      given: set<Rule>, run: seq<State>, r: Rule)
    requires Resting(derived, h0, given0, clean0, s0) && run != [] && run[0].rules == s0.rules
    requires Collected(derived, h0, given0, run[0], h, given) && r in given && Run(run) && Last(run).queue == []
    ensures Known(Last(run).rules, r)
  {
    hide Run, Layered, Flat, Right, IsModel, Known;
    assert Arriving(run[0], r);
    ArrivingRun(run, r);
  }

  lemma NotTriggered(d: set<Atom>, delta: DeltaRule, f: Atom, insert: bool)
    requires forall b :: Extends(b, map[]) && VarNames(delta.trigger.args) <= b.Keys ==>
      Row(Values(b), delta.trigger.args) != f.row
    requires exists i :: 0 <= i < |delta.original.body| && delta == DeltaAt(delta.original, i)
    ensures Batch(CausesBy(d, delta, f), insert, [])
  {
    forall pr
      ensures pr !in CausesBy(d, delta, f)
    {
      if pr in CausesBy(d, delta, f) {
        var i :| 0 <= i < |delta.original.body| && delta == DeltaAt(delta.original, i);
        assert delta.original.body[i] in delta.original.body;
        assert delta.trigger.Vars() <= pr.binding.Keys;
        assert Extends(pr.binding, map[]);
      }
    }
  }

  lemma NothingCaused(d: set<Atom>, deltas: seq<DeltaRule>, f: Atom, insert: bool)
    ensures Batch(CausesOfFirst(d, deltas, 0, f), insert, [])
  {
  }

  lemma VarsWithout(r: Rule, i: nat)
    requires i < |r.body| && Good(r)
    ensures RuleVars(r) == r.body[i].Vars() + BodyVars(DeltaAt(r, i).body)
  {
    var delta := DeltaAt(r, i);
    assert r.body == r.body[..i] + [r.body[i]] + r.body[i + 1..];
    assert forall lit :: lit in r.body <==> lit == r.body[i] || lit in delta.body;
  }

  lemma SolutionIsCause(d: set<Atom>, delta: DeltaRule, i: nat, f: Atom, c: Binding, b: Binding)
    requires i < |delta.original.body| && delta == DeltaAt(delta.original, i) && Good(delta.original)
    requires delta.trigger.table == f.table && Matches(f.row, delta.trigger.args, map[], c)
    requires Solves(d, delta.body, c, b)
    ensures Proof(b, delta.original) in CausesBy(d, delta, f)
  {
    hide Good, RuleVars, BodyVars, VarNames;
    VarsWithout(delta.original, i);
    assert Plug(b, delta.trigger) == f by {
      RowAgree(Values(b), Values(c), delta.trigger.args);
    }
  }

  lemma CauseIsSolution(d: set<Atom>, delta: DeltaRule, i: nat, f: Atom, c: Binding, pr: Proof)
    requires i < |delta.original.body| && delta == DeltaAt(delta.original, i) && Good(delta.original)
    requires Matches(f.row, delta.trigger.args, map[], c) && pr in CausesBy(d, delta, f)
    ensures Solves(d, delta.body, c, pr.binding)
  {
    VarsWithout(delta.original, i);
    TriggerFixes(pr.binding, delta.trigger, f.row, c);
  }

  /** What the search finds for a delta rule is what the delta rule causes. */
  lemma SolutionsAreCauses(d: set<Atom>, delta: DeltaRule, i: nat, f: Atom, c: Binding, bindings: seq<Binding>)
    requires i < |delta.original.body| && delta == DeltaAt(delta.original, i) && Good(delta.original)
    requires delta.trigger.table == f.table && Matches(f.row, delta.trigger.args, map[], c)
    requires forall b :: b in bindings <==> Solves(d, delta.body, c, b)
    ensures ProofsOf(bindings, delta.original) == CausesBy(d, delta, f)
  {
    hide Solves, Good, Matches;
    forall pr: Proof
      ensures pr in ProofsOf(bindings, delta.original) <==> pr in CausesBy(d, delta, f)
    {
      if pr in ProofsOf(bindings, delta.original) {
        SolutionIsCause(d, delta, i, f, c, pr.binding);
      }
      if pr in CausesBy(d, delta, f) {
        CauseIsSolution(d, delta, i, f, c, pr);
      }
    }
  }

  lemma TriggerFixes(b: Binding, trigger: Literal, row: seq<Const>, c: Binding)
    requires Matches(row, trigger.args, map[], c) && Plug(b, trigger).row == row && trigger.Vars() <= b.Keys
    ensures Extends(b, c)
  {
    forall x | x in c
      ensures x in b && b[x] == c[x]
    {
      var k :| 0 <= k < |trigger.args| && trigger.args[k] == Var(x);
      assert Row(Values(b), trigger.args)[k] == Row(Values(c), trigger.args)[k];
      assert x in trigger.Vars();
    }
  }

  lemma SolutionsSatisfy(d: set<Atom>, r: Rule, bindings: seq<Binding>)
    requires Good(r) && forall b :: b in bindings <==> Solves(d, r.body, map[], b)
    ensures ProofsOf(bindings, r) == SatSet(d, {r})
  {
    assert RuleVars(r) == BodyVars(r.body);
    forall pr: Proof | pr.rule == r
      ensures pr.binding in bindings <==> Satisfied(d, pr)
    {
      assert Solves(d, r.body, map[], pr.binding) <==> Satisfied(d, pr);
    }
  }

  lemma GroupedNone(r: Rule)
    ensures Grouped(map[], ProofsOf([], r))
  {
  }

  lemma QueuedNone(groups: Groups, insert: bool)
    ensures Queued(groups, {}, insert, [])
  {
  }

  // ----- what a user can rely on

  /** If nothing has been deleted, the stored tuples are exactly the model of the rules and facts
      asked for, in whatever order they came. */
  lemma InsertsGiveTheModel(derived: iset<Name>, h: History, given: set<Rule>, clean: bool, s: State, sh: Shape,
      a: Atom)
    requires Resting(derived, h, given, clean, s) && h.grows
    requires Fits(ProgramOf(h.asked, h.base), sh) && !Reserved(a.table)
    ensures a in s.data <==> a in Model(ProgramOf(h.asked, h.base), sh)
  {
    EliminationFits(h.asked, h.base, sh, given);
    var sh' :| Fits(ProgramOf(given, h.base), sh');
    EliminationKeepsMeaning(h.asked, h.base, sh, given, sh');
  }

  /** The same after deletes, views over views included, if no deleted tuple has lingered. */
  lemma CleanRunsGiveTheModel(derived: iset<Name>, h: History, given: set<Rule>, s: State, sh: Shape, a: Atom)
    requires Resting(derived, h, given, true, s) && h.layered
    requires Fits(ProgramOf(h.asked, h.base), sh) && !Reserved(a.table)
    ensures a in s.data <==> a in Model(ProgramOf(h.asked, h.base), sh)
  {
    EliminationFits(h.asked, h.base, sh, given);
    var sh' :| Fits(ProgramOf(given, h.base), sh');
    EliminationKeepsMeaning(h.asked, h.base, sh, given, sh');
    forall r | r in given
      ensures Good(r) && r.head.table in ViewsOf(derived)
    {
      EliminatedGood(h.asked, r);
      var r' :| r' in s.rules && SameRule(r, r');
    }
    RightIsModel(ViewsOf(derived), given, h.base, sh', s.rules, s.data);
  }

  /** What deletes of stored facts put on the queue. */
  lemma {:induction false} DeletesAsked(requests: seq<Request>, queue: seq<Event>)
    requires Asks(requests, queue) && forall q :: q in requests ==> q.FactRequest? && !q.insert
    ensures forall e :: e in queue ==>
      e.FactEvent? && !e.insert && e.proofs == [] && FactRequest(e.atom, false) in requests
    decreases |requests|
  {
    if requests != [] {
      var n := |requests| - 1;
      var i :| 0 <= i <= |queue| && Asks(requests[..n], queue[..i]) && EventsOf(requests[n], queue[i..]);
      DeletesAsked(requests[..n], queue[..i]);
      assert queue == queue[..i] + queue[i..];
      assert requests[n] in requests;
    }
  }

  /** It can be told before an update that only deletes facts, from the rules and the stored
      tuples, that no tuple will linger: it is enough that the tuples which the deletes reach, and
      which rules use, have one proof each. */
  lemma ThinDeletesStayClean(derived: iset<Name>, h: History, given: set<Rule>, s: State, requests: seq<Request>,
      hit: set<Atom>, run: seq<State>)
    requires Resting(derived, h, given, true, s) && h.layered && Thin(ViewsOf(derived), hit, s)
    requires forall q :: q in requests ==>
      q.FactRequest? && !q.insert && q.atom in hit && q.atom.table !in ViewsOf(derived)
    requires Run(run) && run != [] && run[0].rules == s.rules && run[0].data == s.data
    requires Asks(requests, run[0].queue)
    ensures NeverLingers(run)
  {
    hide Run, NeverLingers, Exact, Asks, IsEliminated, IsModel, Known;
    DeletesAsked(requests, run[0].queue);
    assert Fold(s.data, ViewsOf(derived), []) == s.data;
    assert Layered(ViewsOf(derived), run[0]);
    ThinDeletes(ViewsOf(derived), hit, run);
  }

  /** Then too each view tuple has exactly the proofs that hold of what is stored, and it is
      stored iff there is one. */
  lemma CleanViewsAreExact(derived: iset<Name>, h: History, given: set<Rule>, s: State, a: Atom)
    requires Resting(derived, h, given, true, s) && h.layered && a.table in ViewsOf(derived)
    ensures forall pr: Proof :: pr in At(s.data, a) <==>
      pr.rule in s.rules && Satisfied(s.data.Keys, pr) && HeadOf(pr) == a
    ensures a in s.data <==> exists pr: Proof :: pr.rule in s.rules && Satisfied(s.data.Keys, pr) && HeadOf(pr) == a
  {
    assert forall pr: Proof :: pr in SatSet(s.data.Keys, s.rules) <==> pr.rule in s.rules && Satisfied(s.data.Keys, pr);
    forall pr
      ensures pr in At(s.data, a) <==> pr.rule in s.rules && Satisfied(s.data.Keys, pr) && HeadOf(pr) == a
    {
      assert HeadOf(pr) == a ==> (pr in At(s.data, HeadOf(pr)) <==> pr in SatSet(s.data.Keys, s.rules));
    }
    if a in s.data {
      assert s.data[a] != {};
      var pr :| pr in s.data[a];
      assert pr in At(s.data, a);
    }
  }

  /** If all rules are over base tables, then after any inserts and deletes of base facts each
      view tuple has exactly the proofs that hold of the facts inserted and not deleted since, and
      it is stored iff there is one. */
  lemma FlatViewsAreExact(derived: iset<Name>, h: History, given: set<Rule>, clean: bool, s: State, a: Atom)
    requires Resting(derived, h, given, clean, s) && h.layered && FlatRules(derived, h.asked) && a.table in derived
    ensures forall pr: Proof :: pr in At(s.data, a) <==> pr.rule in s.rules && Satisfied(h.base, pr) && HeadOf(pr) == a
    ensures a in s.data <==> exists pr: Proof :: pr.rule in s.rules && Satisfied(h.base, pr) && HeadOf(pr) == a
  {
    CleanViewsAreExact(derived, h, given, s, a);
    forall pr: Proof | pr.rule in s.rules
      ensures Satisfied(s.data.Keys, pr) <==> Satisfied(h.base, pr)
    {
      forall i | 0 <= i < |pr.rule.body|
        ensures Plug(pr.binding, pr.rule.body[i]) in s.data <==> Plug(pr.binding, pr.rule.body[i]) in h.base
      {
        assert pr.rule.body[i].table !in ViewsOf(derived);
      }
    }
  }
}
