/** congress/datalog/factset.py: a set of rows with indexes on chosen columns. */
module FactSet {
  import opened Datalog

  /** A Python tuple of values: a row of a table, or the part of it that an index looks at. */
  datatype Fact = Fact(values: seq<Const>)

  /** The columns an index is on. */
  datatype Columns = Columns(numbers: seq<nat>)

  type Index = map<Fact, set<Fact>>

  /** A partial row: columns and the values wanted there. */
  type Partial = seq<(nat, Const)>

  predicate Fit(columns: Columns, width: nat) {
    forall j :: 0 <= j < |columns.numbers| ==> columns.numbers[j] < width
  }

  function Key(columns: Columns, f: Fact): (k: Fact)
    requires Fit(columns, |f.values|)
    ensures |k.values| == |columns.numbers|
    ensures forall j :: 0 <= j < |k.values| ==> k.values[j] == f.values[columns.numbers[j]]
  {
    Fact(seq(|columns.numbers|, j requires 0 <= j < |columns.numbers| => f.values[columns.numbers[j]]))
  }

  function ColumnsOf(partial: Partial): (columns: Columns)
    ensures |columns.numbers| == |partial|
    ensures forall j :: 0 <= j < |partial| ==> columns.numbers[j] == partial[j].0
  {
    Columns(seq(|partial|, j requires 0 <= j < |partial| => partial[j].0))
  }

  function ValuesOf(partial: Partial): (k: Fact)
    ensures |k.values| == |partial| && forall j :: 0 <= j < |partial| ==> k.values[j] == partial[j].1
  {
    Fact(seq(|partial|, j requires 0 <= j < |partial| => partial[j].1))
  }

  /** The answer of a linear scan. */
  predicate Matches(f: Fact, partial: Partial)
    requires Fit(ColumnsOf(partial), |f.values|)
  {
    forall j :: 0 <= j < |partial| ==> f.values[partial[j].0] == partial[j].1
  }

  lemma MatchesKey(f: Fact, partial: Partial)
    requires Fit(ColumnsOf(partial), |f.values|)
    ensures Matches(f, partial) <==> Key(ColumnsOf(partial), f) == ValuesOf(partial)
  {
    if Key(ColumnsOf(partial), f) == ValuesOf(partial) {
      forall j | 0 <= j < |partial|
        ensures f.values[partial[j].0] == partial[j].1
      {
        assert Key(ColumnsOf(partial), f).values[j] == ValuesOf(partial).values[j];
      }
    }
  }

  function SetOf(facts: seq<Fact>): set<Fact> {
    set f | f in facts
  }

  lemma SetOfNext(facts: seq<Fact>, n: nat)
    requires n < |facts|
    ensures SetOf(facts[..n + 1]) == SetOf(facts[..n]) + {facts[n]}
    ensures SetOf(facts[..n]) <= SetOf(facts) && facts[n] in SetOf(facts)
  {
    assert facts[..n + 1] == facts[..n] + [facts[n]];
  }

  ghost predicate Distinct(facts: seq<Fact>) {
    forall i, j :: 0 <= i < j < |facts| ==> facts[i] != facts[j]
  }

  lemma WithoutAt(facts: seq<Fact>, i: nat)
    requires i < |facts| && Distinct(facts)
    ensures Distinct(facts[..i] + facts[i + 1..])
    ensures SetOf(facts[..i] + facts[i + 1..]) == SetOf(facts) - {facts[i]}
  {
    var rest := facts[..i] + facts[i + 1..];
    forall j | 0 <= j < |facts| && j != i
      ensures facts[j] in rest
    {
      assert facts[j] == rest[if j < i then j else j - 1];
    }
  }

  ghost predicate AllWide(facts: set<Fact>, width: nat) {
    forall f :: f in facts ==> |f.values| == width
  }

  /** The index files every fact under its key, and nothing else; no bucket is empty. */
  ghost predicate Indexes(index: Index, columns: Columns, facts: set<Fact>)
    requires forall f :: f in facts ==> Fit(columns, |f.values|)
  {
    && (forall f :: f in facts ==> Key(columns, f) in index && f in index[Key(columns, f)])
    && (forall k, f :: k in index && f in index[k] ==> f in facts && Key(columns, f) == k)
    && (forall k :: k in index ==> index[k] != {})
  }

  class FactSet {
    /** How wide the facts are: all facts of one set are expected to be equally wide. */
    ghost const width: nat
    /** The table the facts belong to. */
    ghost const table: Name
    /** In order of insertion, without duplicates. */
    var facts: seq<Fact>
    var indices: map<Columns, Index>

    ghost function Facts(): set<Fact>
      reads this
    {
      SetOf(facts)
    }

    ghost predicate Valid()
      reads this
    {
      && Distinct(facts)
      && AllWide(Facts(), width)
      && (forall c :: c in indices ==> Fit(c, width) && Indexes(indices[c], c, Facts()))
    }

    constructor (ghost table: Name, ghost width: nat)
      ensures Valid() && this.table == table && this.width == width && facts == [] && indices == map[]
    {
      this.table := table;
      this.width := width;
      facts := [];
      indices := map[];
    }

    /** True iff the fact was absent; it is filed in every index. */
    method Add(f: Fact) returns (changed: bool)
      requires Valid() && |f.values| == width
      modifies this
      ensures Valid() && changed == (f !in old(facts))
      ensures facts == if changed then old(facts) + [f] else old(facts)
      ensures Facts() == old(Facts()) + {f}
      ensures indices.Keys == old(indices.Keys)
    {
      changed := f !in facts;
      if !changed {
        return;
      }
      ghost var before := Facts();
      facts := facts + [f];
      assert Facts() == before + {f};
      var todo := indices.Keys;
      while todo != {}
        invariant facts == old(facts) + [f] && Facts() == before + {f}
        invariant todo <= indices.Keys == old(indices.Keys)
        invariant forall c :: c in indices ==> Fit(c, width)
        invariant forall c :: c in indices ==> Indexes(indices[c], c, if c in todo then before else before + {f})
        decreases todo
      {
        var c :| c in todo;
        AddIndexes(indices[c], c, before, f, width);
        AddFactToIndex(f, c);
        todo := todo - {c};
      }
    }

    /** True iff the fact was present; it is taken out of every index. */
    method Remove(f: Fact) returns (changed: bool)
      requires Valid()
      modifies this
      ensures Valid() && changed == (f in old(facts))
      ensures Facts() == old(Facts()) - {f}
      ensures !changed ==> facts == old(facts)
      ensures indices.Keys == old(indices.Keys)
    {
      changed := f in facts;
      if !changed {
        return;
      }
      ghost var before := Facts();
      var i :| 0 <= i < |facts| && facts[i] == f;
      WithoutAt(facts, i);
      facts := facts[..i] + facts[i + 1..];
      assert f in before && AllWide(before, width);
      RemoveFromIndices(f, before);
    }

    /** Takes a fact out of every index. */
    method RemoveFromIndices(f: Fact, ghost before: set<Fact>)
      requires f in before && AllWide(before, width) && |f.values| == width
      requires forall c :: c in indices ==> Fit(c, width) && Indexes(indices[c], c, before)
      modifies this`indices
      ensures indices.Keys == old(indices.Keys)
      ensures forall c :: c in indices ==> Fit(c, width) && Indexes(indices[c], c, before - {f})
    {
      hide Indexes, RemoveFromIndex;
      var todo := indices.Keys;
      while todo != {}
        invariant todo <= indices.Keys == old(indices.Keys)
        invariant forall c :: c in indices ==> Fit(c, width)
        invariant forall c :: c in indices ==> Indexes(indices[c], c, if c in todo then before else before - {f})
        decreases todo
      {
        var c :| c in todo;
        RemoveIndexes(indices[c], c, before, f, width);
        indices := indices[c := RemoveFromIndex(indices[c], c, f)];
        todo := todo - {c};
      }
    }

    method AddFactToIndex(f: Fact, columns: Columns)
      requires Fit(columns, |f.values|)
      modifies this`indices
      ensures indices == old(indices)[columns :=
        AddToIndex(if columns in old(indices) then old(indices)[columns] else map[], columns, f)]
    {
      if columns !in indices {
        indices := indices[columns := map[]];
      }
      indices := indices[columns := AddToIndex(indices[columns], columns, f)];
    }

    predicate HasIndex(columns: Columns)
      reads this
    {
      columns in indices
    }

    /** Files all facts under the new index.  A set without facts gets no index. */
    method CreateIndex(columns: Columns)
      requires Valid() && Fit(columns, width)
      modifies this`indices
      ensures Valid()
      ensures indices.Keys == old(indices.Keys) + if facts == [] then {} else {columns}
      ensures columns in old(indices) ==> indices == old(indices)
    {
      if columns in indices {
        return;
      }
      assert Fit(columns, width);
      var built := FileAll(columns);
    }

    method FileAll(columns: Columns) returns (ghost built: Index)
      requires Fit(columns, width) && AllWide(Facts(), width) && columns !in indices
      modifies this`indices
      ensures indices == if facts == [] then old(indices) else old(indices)[columns := built]
      ensures Indexes(built, columns, Facts())
    {
      built := map[];
      assert Indexes(built, columns, SetOf(facts[..0]));
      hide Indexes, AddToIndex;
      for n := 0 to |facts|
        invariant indices == if n == 0 then old(indices) else old(indices)[columns := built]
        invariant n == 0 ==> built == map[]
        invariant Indexes(built, columns, SetOf(facts[..n]))
      {
        SetOfNext(facts, n);
        AddIndexes(built, columns, SetOf(facts[..n]), facts[n], width);
        built := AddToIndex(built, columns, facts[n]);
        AddFactToIndex(facts[n], columns);
      }
      assert facts[..|facts|] == facts;
    }

    method RemoveIndex(columns: Columns)
      requires Valid()
      modifies this`indices
      ensures Valid() && indices == old(indices) - {columns}
    {
      if columns in indices {
        indices := indices - {columns};
      }
    }

    /** Exactly the facts that a linear scan would find, whether or not there is an index. */
    method Find(partial: Partial) returns (found: set<Fact>)
      requires Valid() && Fit(ColumnsOf(partial), width)
      ensures found == set f | f in Facts() && Matches(f, partial)
      ensures forall f :: f in found <==>
        f in facts && forall c, v :: (c, v) in partial ==> c < |f.values| && f.values[c] == v
    {
      var columns, k := ColumnsOf(partial), ValuesOf(partial);
      forall f | f in Facts()
        ensures Matches(f, partial) <==> Key(columns, f) == k
      {
        MatchesKey(f, partial);
      }
      if columns in indices {
        return if k in indices[columns] then indices[columns][k] else {};
      }
      found := {};
      for n := 0 to |facts|
        invariant found == set f | f in facts[..n] && Matches(f, partial)
      {
        if Matches(facts[n], partial) {
          found := found + {facts[n]};
        }
      }
      assert facts[..|facts|] == facts;
    }
  }

  function AddToIndex(index: Index, columns: Columns, f: Fact): (r: Index)
    requires Fit(columns, |f.values|)
  {
    var k := Key(columns, f);
    if k !in index then index[k := {f}] else index[k := index[k] + {f}]
  }

  lemma AddIndexes(index: Index, columns: Columns, facts: set<Fact>, f: Fact, width: nat)
    requires AllWide(facts, width) && |f.values| == width && Fit(columns, width)
    requires Indexes(index, columns, facts)
    ensures Indexes(AddToIndex(index, columns, f), columns, facts + {f})
  {
    var k := Key(columns, f);
    var r := AddToIndex(index, columns, f);
    forall g | g in facts + {f}
      ensures Key(columns, g) in r && g in r[Key(columns, g)]
    {
    }
  }

  function RemoveFromIndex(index: Index, columns: Columns, f: Fact): (r: Index)
    requires Fit(columns, |f.values|)
    requires Key(columns, f) in index
  {
    var k := Key(columns, f);
    var bucket := index[k] - {f};
    if bucket == {} then index - {k} else index[k := bucket]
  }

  lemma RemoveIndexes(index: Index, columns: Columns, facts: set<Fact>, f: Fact, width: nat)
    requires AllWide(facts, width) && Fit(columns, width) && f in facts
    requires Indexes(index, columns, facts)
    ensures Key(columns, f) in index
    ensures Indexes(RemoveFromIndex(index, columns, f), columns, facts - {f})
  {
    var k := Key(columns, f);
    var r := RemoveFromIndex(index, columns, f);
    forall g | g in facts - {f}
      ensures Key(columns, g) in r && g in r[Key(columns, g)]
    {
      assert Key(columns, g) == k ==> g in index[k] - {f};
    }
    forall k', g | k' in r && g in r[k']
      ensures g in facts - {f} && Key(columns, g) == k'
    {
      assert g in index[k'];
    }
  }
}
