/** Materialized views as values: what events there are, which events a change causes, and what
    the stored proofs have to do with the rules (congress/datalog/materialized.py). */
module Views {
  import opened Datalog
  import opened Semantics
  import opened RuleSet

  type Binding = map<Name, Const>

  /** Why a tuple is in a view: a rule, and values for all its variables. */
  datatype Proof = Proof(binding: Binding, rule: Rule)

  datatype Event = RuleEvent(rule: Rule) | FactEvent(atom: Atom, proofs: seq<Proof>, insert: bool) {
    ghost function Proofs(): set<Proof> {
      if FactEvent? then set p | p in proofs else {}
    }
  }

  /** The stored tuples, each with its proofs. */
  type Data = map<Atom, set<Proof>>

  /** A binding as a choice of values; the rules below leave no variable unbound. */
  function Values(b: Binding): Choice {
    x => if x in b then b[x] else Str("")
  }

  function Plug(b: Binding, lit: Literal): Atom {
    Atom(lit.table, Row(Values(b), lit.args))
  }

  function BodyVars(body: seq<Literal>): set<Name> {
    set lit, x | lit in body && x in lit.Vars() :: x
  }

  function RuleVars(r: Rule): set<Name> {
    r.head.Vars() + BodyVars(r.body)
  }

  function HeadOf(pr: Proof): Atom {
    Plug(pr.binding, pr.rule.head)
  }

  // ----- the rules considered: positive, without builtins, without self-joins

  ghost predicate SelfJoinFree(body: seq<Literal>) {
    forall i, j :: 0 <= i < j < |body| ==> body[i].table != body[j].table || |body[i].args| != |body[j].args|
  }

  ghost predicate Good(r: Rule) {
    && (forall i :: 0 <= i < |r.body| ==> KindOf(map[], r.body[i]).Lookup?)
    && !r.head.negated && r.head.Vars() <= BodyVars(r.body)
    && SelfJoinFree(r.body)
  }

  // ----- what rules say about data

  /** The instance pr of its rule has its whole body in d. */
  ghost predicate Satisfied(d: set<Atom>, pr: Proof) {
    && pr.binding.Keys == RuleVars(pr.rule)
    && forall i :: 0 <= i < |pr.rule.body| ==> Plug(pr.binding, pr.rule.body[i]) in d
  }

  /** The same with f standing in for the i-th literal. */
  ghost predicate Uses(d: set<Atom>, pr: Proof, i: nat, f: Atom) {
    && i < |pr.rule.body|
    && pr.binding.Keys == RuleVars(pr.rule)
    && Plug(pr.binding, pr.rule.body[i]) == f
    && forall j :: 0 <= j < |pr.rule.body| && j != i ==> Plug(pr.binding, pr.rule.body[j]) in d
  }

  ghost function SatSet(d: set<Atom>, rules: set<Rule>): iset<Proof> {
    iset pr: Proof | pr.rule in rules && Satisfied(d, pr)
  }

  ghost function Causes(d: set<Atom>, rules: set<Rule>, f: Atom): iset<Proof> {
    iset pr: Proof | pr.rule in rules && exists i: nat :: Uses(d, pr, i, f)
  }

  lemma UsesOnce(d: set<Atom>, pr: Proof, f: Atom, i: nat, j: nat)
    requires Good(pr.rule) && i < |pr.rule.body| && j < |pr.rule.body| && i != j
    requires Plug(pr.binding, pr.rule.body[i]) == f
    ensures Plug(pr.binding, pr.rule.body[j]) != f
  {
    var body := pr.rule.body;
    assert |Plug(pr.binding, body[i]).row| == |body[i].args| && |Plug(pr.binding, body[j]).row| == |body[j].args|;
    if i < j {
      assert body[i].table != body[j].table || |body[i].args| != |body[j].args|;
    } else {
      assert body[j].table != body[i].table || |body[j].args| != |body[i].args|;
    }
  }

  /** A new fact satisfies exactly the instances that use it, since no rule uses it twice. */
  lemma SatInsert(d: set<Atom>, rules: set<Rule>, f: Atom)
    requires forall r :: r in rules ==> Good(r)
    ensures SatSet(d + {f}, rules) == SatSet(d, rules) + Causes(d, rules, f)
  {
    forall pr: Proof | pr.rule in rules
      ensures Satisfied(d + {f}, pr) <==> Satisfied(d, pr) || exists i: nat :: Uses(d, pr, i, f)
    {
      if Satisfied(d + {f}, pr) && !Satisfied(d, pr) {
        var i: nat :| i < |pr.rule.body| && Plug(pr.binding, pr.rule.body[i]) == f;
        forall j | 0 <= j < |pr.rule.body| && j != i
          ensures Plug(pr.binding, pr.rule.body[j]) in d
        {
          UsesOnce(d, pr, f, i, j);
        }
        assert Uses(d, pr, i, f);
      }
    }
  }

  lemma SatDelete(d: set<Atom>, rules: set<Rule>, f: Atom)
    requires forall r :: r in rules ==> Good(r)
    ensures SatSet(d - {f}, rules) == SatSet(d, rules) - Causes(d, rules, f)
    ensures f in d ==> Causes(d, rules, f) <= SatSet(d, rules)
    ensures f !in d ==> Causes(d, rules, f) !! SatSet(d, rules)
  {
    forall pr: Proof | pr.rule in rules
      ensures Satisfied(d - {f}, pr) <==> Satisfied(d, pr) && !exists i: nat :: Uses(d, pr, i, f)
      ensures (exists i: nat :: Uses(d, pr, i, f)) ==> (f in d <==> Satisfied(d, pr))
    {
      if i: nat :| Uses(d, pr, i, f) {
        assert f in d ==> Satisfied(d, pr);
        assert Satisfied(d, pr) ==> Plug(pr.binding, pr.rule.body[i]) in d;
      }
      if Satisfied(d, pr) && !Satisfied(d - {f}, pr) {
        var i: nat :| i < |pr.rule.body| && Plug(pr.binding, pr.rule.body[i]) == f;
        assert Uses(d, pr, i, f);
      }
    }
  }

  // ----- batches of events

  /** The events N say, tuple by tuple and rule by rule, that the instances in cause have come
      or gone. */
  ghost predicate Batch(cause: iset<Proof>, insert: bool, N: seq<Event>) {
    && (forall k :: 0 <= k < |N| ==> ReportsOn(cause, insert, N[k]))
    && (forall pr :: pr in cause ==> exists k :: 0 <= k < |N| && pr in N[k].Proofs())
    && (forall j, k, p, q :: 0 <= j < k < |N| && p in N[j].Proofs() && q in N[k].Proofs() ==>
        p.rule != q.rule || HeadOf(p) != HeadOf(q))
  }

  ghost predicate ReportsOn(cause: iset<Proof>, insert: bool, e: Event) {
    && e.FactEvent? && e.insert == insert && e.proofs != []
    && forall pr :: pr in e.Proofs() ==> pr in cause && HeadOf(pr) == e.atom
  }

  // ----- what an event does to the data

  ghost function At(data: Data, a: Atom): set<Proof> {
    if a in data then data[a] else {}
  }

  /** Inserting joins proofs.  Deleting is ignored unless all its proofs are there, and removes
      the tuple with its last proof. */
  ghost function Modified(data: Data, e: Event): Data
    requires e.FactEvent?
  {
    if e.insert then data[e.atom := At(data, e.atom) + e.Proofs()]
    else if e.atom in data && e.Proofs() <= data[e.atom] then
      if data[e.atom] - e.Proofs() == {} then data - {e.atom} else data[e.atom := data[e.atom] - e.Proofs()]
    else data
  }

  // ----- views over base tables only: exact proof sets under inserts and deletes

  /** The proofs stored for the tuples of the tables in vs are exactly those in s, each with its
      tuple, and no tuple is there without a proof. */
  ghost predicate Exact(data: Data, vs: iset<Name>, s: iset<Proof>) {
    && (forall pr :: HeadOf(pr).table in vs ==> (pr in At(data, HeadOf(pr)) <==> pr in s))
    && (forall a :: a in data && a.table in vs ==> data[a] != {})
    && (forall a, pr :: a in data && a.table in vs && pr in data[a] ==> HeadOf(pr) == a)
  }

  lemma ModifiedInsert(data: Data, vs: iset<Name>, s: iset<Proof>, cause: iset<Proof>, e: Event)
    requires Exact(data, vs, s) && ReportsOn(cause, true, e) && e.atom.table in vs
    ensures Exact(Modified(data, e), vs, s + iset pr | pr in e.Proofs())
  {
    assert e.proofs[0] in e.Proofs();
  }

  lemma ModifiedDelete(data: Data, vs: iset<Name>, s: iset<Proof>, cause: iset<Proof>, e: Event)
    requires Exact(data, vs, s) && ReportsOn(cause, false, e) && e.atom.table in vs
    requires (forall pr :: pr in e.Proofs() ==> pr in s) || (forall pr :: pr in e.Proofs() ==> pr !in s)
    ensures Exact(Modified(data, e), vs, s - iset pr | pr in e.Proofs())
  {
    var t := s - iset pr | pr in e.Proofs();
    assert e.proofs[0] in e.Proofs();
    var here := At(data, e.atom);
    forall pr | pr in e.Proofs()
      ensures pr in here <==> pr in s
    {
      assert HeadOf(pr) == e.atom;
    }
    if e.proofs[0] in s {
      assert e.Proofs() <= here;
    } else {
      assert !(e.Proofs() <= here);
      assert t == s;
    }
  }

  /** What the data of the views will be once the queue is empty, if nothing is added to it. */
  ghost function Fold(data: Data, vs: iset<Name>, queue: seq<Event>): Data
    decreases |queue|
  {
    if queue == [] then data
    else Fold(if queue[0].FactEvent? && queue[0].atom.table in vs then Modified(data, queue[0])
      else data, vs, queue[1..])
  }

  lemma {:induction false} FoldAppend(data: Data, vs: iset<Name>, queue: seq<Event>, more: seq<Event>)
    ensures Fold(data, vs, queue + more) == Fold(Fold(data, vs, queue), vs, more)
    decreases |queue|
  {
    if queue == [] {
      assert queue + more == more;
    } else {
      assert (queue + more)[1..] == queue[1..] + more;
      FoldAppend(if queue[0].FactEvent? && queue[0].atom.table in vs then Modified(data, queue[0])
        else data, vs, queue[1..], more);
    }
  }

  ghost predicate SameViews(data: Data, data': Data, vs: iset<Name>) {
    forall a: Atom :: a.table in vs ==> (a in data <==> a in data') && (a in data ==> data[a] == data'[a])
  }

  lemma {:induction false} FoldSame(data: Data, data': Data, vs: iset<Name>, queue: seq<Event>)
    requires SameViews(data, data', vs)
    ensures SameViews(Fold(data, vs, queue), Fold(data', vs, queue), vs)
    decreases |queue|
  {
    if queue != [] {
      if queue[0].FactEvent? && queue[0].atom.table in vs {
        FoldSame(Modified(data, queue[0]), Modified(data', queue[0]), vs, queue[1..]);
      } else {
        FoldSame(data, data', vs, queue[1..]);
      }
    }
  }

  lemma ExactSame(data: Data, data': Data, vs: iset<Name>, s: iset<Proof>)
    requires Exact(data, vs, s) && SameViews(data, data', vs)
    ensures Exact(data', vs, s)
  {
  }

  ghost predicate Among(N: seq<Event>, k: nat, pr: Proof)
    requires k <= |N|
  {
    exists j :: 0 <= j < k && pr in N[j].Proofs()
  }

  /** The proofs that the first k events are about. */
  ghost function Done(N: seq<Event>, k: nat): iset<Proof>
    requires k <= |N|
  {
    iset pr | Among(N, k, pr)
  }

  lemma DoneAll(cause: iset<Proof>, insert: bool, N: seq<Event>)
    requires Batch(cause, insert, N)
    ensures Done(N, |N|) == cause
  {
    forall pr
      ensures pr in Done(N, |N|) <==> pr in cause
    {
      if pr in Done(N, |N|) {
        var j :| 0 <= j < |N| && pr in N[j].Proofs();
        assert ReportsOn(cause, insert, N[j]);
      }
    }
  }

  lemma DoneNext(cause: iset<Proof>, insert: bool, N: seq<Event>, k: nat)
    requires Batch(cause, insert, N) && k < |N|
    ensures N[k].FactEvent?
    ensures Done(N, k + 1) == Done(N, k) + iset pr | pr in N[k].Proofs()
    ensures forall pr :: pr in N[k].Proofs() ==> pr !in Done(N, k)
  {
    assert ReportsOn(cause, insert, N[k]);
    forall pr
      ensures pr in Done(N, k + 1) <==> pr in Done(N, k) || pr in N[k].Proofs()
    {
      if pr in N[k].Proofs() {
        assert 0 <= k < k + 1 && pr in N[k].Proofs();
      }
    }
  }

  /** Working off a batch adds its proofs, or takes them away. */
  lemma {:induction false} BatchDone(data: Data, vs: iset<Name>, s: iset<Proof>, cause: iset<Proof>, insert: bool,
      N: seq<Event>, k: nat)
    requires Exact(data, vs, s) && Batch(cause, insert, N) && k <= |N|
    requires forall pr :: pr in cause ==> HeadOf(pr).table in vs
    requires insert || cause <= s || cause !! s
    ensures Exact(Fold(data, vs, N[..k]), vs, if insert then s + Done(N, k) else s - Done(N, k))
    decreases k
  {
    if k == 0 {
      assert s + Done(N, 0) == s == s - Done(N, 0);
    } else {
      BatchDone(data, vs, s, cause, insert, N, k - 1);
      BatchNext(data, vs, s, cause, insert, N, k - 1);
    }
  }

  lemma BatchNext(data: Data, vs: iset<Name>, s: iset<Proof>, cause: iset<Proof>, insert: bool, N: seq<Event>, k: nat)
    requires Batch(cause, insert, N) && k < |N|
    requires forall pr :: pr in cause ==> HeadOf(pr).table in vs
    requires insert || cause <= s || cause !! s
    requires Exact(Fold(data, vs, N[..k]), vs, if insert then s + Done(N, k) else s - Done(N, k))
    ensures Exact(Fold(data, vs, N[..k + 1]), vs, if insert then s + Done(N, k + 1) else s - Done(N, k + 1))
  {
    hide Exact, Modified, Batch;
    var e, now := N[k], Fold(data, vs, N[..k]);
    BatchMember(cause, insert, N, k);
    assert e.atom.table in vs by {
      assert e.proofs[0] in e.Proofs();
    }
    assert N[..k + 1] == N[..k] + [e];
    FoldAppend(data, vs, N[..k], [e]);
    assert Fold(now, vs, [e]) == Modified(now, e);
    DoneNext(cause, insert, N, k);
    if insert {
      ModifiedInsert(now, vs, s + Done(N, k), cause, e);
      assert s + Done(N, k) + (iset pr | pr in e.Proofs()) == s + Done(N, k + 1);
    } else {
      ModifiedDelete(now, vs, s - Done(N, k), cause, e);
      assert s - Done(N, k) - (iset pr | pr in e.Proofs()) == s - Done(N, k + 1);
    }
  }

  lemma BatchMember(cause: iset<Proof>, insert: bool, N: seq<Event>, k: nat)
    requires Batch(cause, insert, N) && k < |N|
    ensures ReportsOn(cause, insert, N[k])
  {
  }

  // ----- one round of the queue

  /** The rules, the data and the queue after the first event has been processed; more is what
      it caused.  Causes are looked up before the data change. */
  ghost predicate Processed(rules: set<Rule>, data: Data, queue: seq<Event>, more: seq<Event>,
      rules': set<Rule>, data': Data, queue': seq<Event>) {
    && queue != [] && queue' == queue[1..] + more
    && match queue[0]
      case RuleEvent(r) =>
        && data' == data
        && (Known(rules, r) ==> rules' == rules && more == [])
        && (!Known(rules, r) ==> rules' == rules + {r} && Batch(SatSet(data.Keys, {r}), true, more))
      case FactEvent(f, _, insert) =>
        && rules' == rules && data' == Modified(data, queue[0])
        && Batch(Causes(data.Keys, rules, f), insert, more)
  }

  datatype State = State(rules: set<Rule>, data: Data, queue: seq<Event>)

  ghost predicate Round(s: State, s': State) {
    exists more :: Processed(s.rules, s.data, s.queue, more, s'.rules, s'.data, s'.queue)
  }

  /** A run of the queue, round by round. */
  ghost predicate Run(states: seq<State>) {
    forall i :: 0 <= i < |states| - 1 ==> Round(states[i], states[i + 1])
  }

  // ----- exactly when the views are right

  /** Rules define only tables in vs; facts of other tables have no proofs. */
  ghost predicate Layered(vs: iset<Name>, s: State) {
    && (forall r :: r in s.rules ==> Good(r) && r.head.table in vs)
    && (forall e :: e in s.queue ==>
        if e.RuleEvent? then Good(e.rule) && e.rule.head.table in vs else e.atom.table in vs || e.proofs == [])
    && (forall a :: a in s.data && a.table !in vs ==> s.data[a] == {})
  }

  /** The views are what the rules make of the stored tuples, as soon as what is queued is done. */
  ghost predicate Right(vs: iset<Name>, s: State) {
    Exact(Fold(s.data, vs, s.queue), vs, SatSet(s.data.Keys, s.rules))
  }

  /** The next event deletes a tuple that is stored and will stay stored, though instances of
      rules use it. */
  ghost predicate Lingers(s: State) {
    && s.queue != [] && s.queue[0].FactEvent? && !s.queue[0].insert
    && s.queue[0].atom in s.data && s.queue[0].atom in Modified(s.data, s.queue[0])
    && Causes(s.data.Keys, s.rules, s.queue[0].atom) != iset{}
  }

  ghost predicate NeverLingers(states: seq<State>) {
    forall i :: 0 <= i < |states| - 1 ==> !Lingers(states[i])
  }

  lemma BatchAtoms(vs: iset<Name>, cause: iset<Proof>, insert: bool, N: seq<Event>)
    requires Batch(cause, insert, N) && forall pr :: pr in cause ==> HeadOf(pr).table in vs
    ensures forall e :: e in N ==> e.FactEvent? && e.atom.table in vs
  {
    forall e | e in N
      ensures e.FactEvent? && e.atom.table in vs
    {
      assert ReportsOn(cause, insert, e);
      assert e.proofs[0] in e.Proofs();
    }
  }

  lemma LayeredRound(vs: iset<Name>, s: State, s': State)
    requires Layered(vs, s) && Round(s, s')
    ensures Layered(vs, s')
  {
    var more :| Processed(s.rules, s.data, s.queue, more, s'.rules, s'.data, s'.queue);
    var e := s.queue[0];
    assert e in s.queue;
    match e
    case RuleEvent(r) =>
      if !Known(s.rules, r) {
        BatchAtoms(vs, SatSet(s.data.Keys, {r}), true, more);
      }
    case FactEvent(f, _, insert) =>
      BatchAtoms(vs, Causes(s.data.Keys, s.rules, f), insert, more);
      assert e.proofs == [] ==> e.Proofs() == {};
  }

  /** Two sets of instances that are both exact are the same. */
  lemma ExactOnce(data: Data, vs: iset<Name>, s: iset<Proof>, s': iset<Proof>)
    requires Exact(data, vs, s) && Exact(data, vs, s')
    requires forall pr :: pr in s || pr in s' ==> HeadOf(pr).table in vs
    ensures s == s'
  {
    forall pr
      ensures pr in s <==> pr in s'
    {
      assert HeadOf(pr).table in vs ==> (pr in At(data, HeadOf(pr)) <==> pr in s);
      assert HeadOf(pr).table in vs ==> (pr in At(data, HeadOf(pr)) <==> pr in s');
    }
  }

  lemma RuleRound(vs: iset<Name>, s: State, s': State)
    requires Layered(vs, s) && Right(vs, s) && Round(s, s') && s.queue[0].RuleEvent?
    ensures Right(vs, s')
  {
    var more :| Processed(s.rules, s.data, s.queue, more, s'.rules, s'.data, s'.queue);
    var r, rest := s.queue[0].rule, s.queue[1..];
    assert s.queue[0] in s.queue;
    if Known(s.rules, r) {
      assert rest + more == rest;
    } else {
      var cause := SatSet(s.data.Keys, {r});
      FoldAppend(s.data, vs, rest, more);
      BatchDone(Fold(s.data, vs, rest), vs, SatSet(s.data.Keys, s.rules), cause, true, more, |more|);
      assert more[..|more|] == more;
      DoneAll(cause, true, more);
      assert SatSet(s.data.Keys, s.rules) + cause == SatSet(s.data.Keys, s.rules + {r});
    }
  }

  /** What the views become: the instances that use the tuple are added or taken away, whether
      or not the tuple itself comes or goes. */
  lemma FactRound(vs: iset<Name>, s: State, s': State)
    requires Layered(vs, s) && Right(vs, s) && Round(s, s') && s.queue[0].FactEvent?
    ensures var f, d := s.queue[0].atom, s.data.Keys;
      Exact(Fold(s'.data, vs, s'.queue), vs,
        if s.queue[0].insert then SatSet(d + {f}, s.rules) else SatSet(d - {f}, s.rules))
  {
    var more :| Processed(s.rules, s.data, s.queue, more, s'.rules, s'.data, s'.queue);
    var e, rest := s.queue[0], s.queue[1..];
    var f, d := e.atom, s.data.Keys;
    var sat, cause := SatSet(d, s.rules), Causes(d, s.rules, f);
    SatInsert(d, s.rules, f);
    SatDelete(d, s.rules, f);
    if f.table !in vs {
      FoldSame(s.data, s'.data, vs, rest);
      ExactSame(Fold(s.data, vs, rest), Fold(s'.data, vs, rest), vs, sat);
    }
    BatchDone(Fold(s'.data, vs, rest), vs, sat, cause, e.insert, more, |more|);
    assert more[..|more|] == more;
    DoneAll(cause, e.insert, more);
    FoldAppend(s'.data, vs, rest, more);
  }

  /** A round keeps the views right, unless it deletes a tuple that lingers: then they are wrong. */
  lemma RoundExact(vs: iset<Name>, s: State, s': State)
    requires Layered(vs, s) && Right(vs, s) && Round(s, s')
    ensures Right(vs, s') <==> !Lingers(s)
  {
    if s.queue[0].RuleEvent? {
      RuleRound(vs, s, s');
    } else {
      var e, f, d := s.queue[0], s.queue[0].atom, s.data.Keys;
      FactRound(vs, s, s');
      SatDelete(d, s.rules, f);
      if e.insert {
        assert s'.data.Keys == d + {f};
      } else if f in s.data && f in s'.data {
        assert s'.data.Keys == d;
        if Right(vs, s') {
          ExactOnce(Fold(s'.data, vs, s'.queue), vs, SatSet(d, s.rules), SatSet(d - {f}, s.rules));
        }
      } else {
        assert s'.data.Keys == d - {f};
      }
    }
  }

  /** All states of a run are right iff no round deletes a tuple that lingers. */
  lemma {:induction false} RunExact(vs: iset<Name>, states: seq<State>)
    requires Run(states) && states != [] && Layered(vs, states[0]) && Right(vs, states[0])
    ensures (forall i :: 0 <= i < |states| ==> Right(vs, states[i])) <==> NeverLingers(states)
    ensures forall i :: 0 <= i < |states| ==> Layered(vs, states[i])
    decreases |states|
  {
    hide Right, Layered, Lingers, Round;
    if |states| > 1 {
      var n := |states| - 1;
      assert Round(states[n - 1], states[n - 1 + 1]);
      RunExact(vs, states[..n]);
      assert states[..n][n - 1] == states[n - 1];
      LayeredRound(vs, states[n - 1], states[n]);
      assert NeverLingers(states) <==> NeverLingers(states[..n]) && !Lingers(states[n - 1]);
      if forall i :: 0 <= i < n ==> Right(vs, states[..n][i]) {
        RoundExact(vs, states[n - 1], states[n]);
        assert forall i :: 0 <= i < n ==> Right(vs, states[i]);
      } else {
        var i :| 0 <= i < n && !Right(vs, states[..n][i]);
        assert !Right(vs, states[i]);
      }
    }
  }

  // ----- where no tuple can linger

  /** No rule looks at a table that a rule defines. */
  ghost predicate Flat(vs: iset<Name>, s: State) {
    && (forall r :: r in s.rules ==> FlatRule(vs, r))
    && (forall e :: e in s.queue && e.RuleEvent? ==> FlatRule(vs, e.rule))
  }

  ghost predicate FlatRule(vs: iset<Name>, r: Rule) {
    Good(r) && r.head.table in vs && forall i :: 0 <= i < |r.body| ==> r.body[i].table !in vs
  }

  lemma FlatRound(vs: iset<Name>, s: State, s': State)
    requires Layered(vs, s) && Flat(vs, s) && Round(s, s')
    ensures Flat(vs, s') && !Lingers(s)
  {
    var more :| Processed(s.rules, s.data, s.queue, more, s'.rules, s'.data, s'.queue);
    var e := s.queue[0];
    assert e in s.queue;
    match e
    case RuleEvent(r) =>
      if !Known(s.rules, r) {
        BatchAtoms(vs, SatSet(s.data.Keys, {r}), true, more);
      }
    case FactEvent(f, _, insert) =>
      BatchAtoms(vs, Causes(s.data.Keys, s.rules, f), insert, more);
      if f.table in vs {
        forall pr: Proof, i: nat | pr.rule in s.rules
          ensures !Uses(s.data.Keys, pr, i, f)
        {
          assert i < |pr.rule.body| ==> Plug(pr.binding, pr.rule.body[i]).table !in vs;
        }
        assert Causes(s.data.Keys, s.rules, f) == iset{};
      } else {
        assert e.Proofs() == {};
      }
  }

  /** Nothing is to be deleted. */
  ghost predicate Inserting(s: State) {
    forall e :: e in s.queue && e.FactEvent? ==> e.insert
  }

  lemma InsertingRound(s: State, s': State)
    requires Inserting(s) && Round(s, s')
    ensures Inserting(s') && !Lingers(s)
  {
    var more :| Processed(s.rules, s.data, s.queue, more, s'.rules, s'.data, s'.queue);
    var e := s.queue[0];
    assert e in s.queue;
    forall v: Event | v in more
      ensures v.FactEvent? && v.insert
    {
      var k :| 0 <= k < |more| && more[k] == v;
      if e.RuleEvent? {
        BatchMember(SatSet(s.data.Keys, {e.rule}), true, more, k);
      } else {
        BatchMember(Causes(s.data.Keys, s.rules, e.atom), e.insert, more, k);
      }
    }
  }
}
