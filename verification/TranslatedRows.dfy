/** What the rows say of the objects they were converted from: which rows there are, in which order,
    and what is in them. */
module TranslatedRows {
  import opened Options
  import opened Datalog
  import opened Translators

  /** The rows of one table, in their order. */
  function RowsIn(table: Name, rows: seq<TableRow>): seq<seq<Cell>> {
    if rows == [] then []
    else
      var last := rows[|rows| - 1];
      RowsIn(table, rows[..|rows| - 1]) + if last.table == table then [last.cells] else []
  }

  lemma {:induction false} RowsInBoth(table: Name, a: seq<TableRow>, b: seq<TableRow>)
    ensures RowsIn(table, a + b) == RowsIn(table, a) + RowsIn(table, b)
    decreases |b|
  {
    if b == [] {
      assert a + b == a;
    } else {
      var n := |b| - 1;
      RowsInBoth(table, a, b[..n]);
      assert (a + b)[..|a + b| - 1] == a + b[..n];
    }
  }

  lemma {:induction false} RowsInNone(table: Name, rows: seq<TableRow>)
    requires forall row :: row in rows ==> row.table != table
    ensures RowsIn(table, rows) == []
    decreases |rows|
  {
    if rows != [] {
      RowsInNone(table, rows[..|rows| - 1]);
    }
  }

  lemma {:induction false} RowsInOwn(table: Name, link: seq<Cell>, rests: seq<seq<Cell>>, rows: seq<TableRow>)
    requires |rows| == |rests| && forall i :: 0 <= i < |rows| ==> rows[i] == TableRow(table, link + rests[i])
    ensures |RowsIn(table, rows)| == |rests|
    ensures forall i :: 0 <= i < |rests| ==> RowsIn(table, rows)[i] == link + rests[i]
    decreases |rows|
  {
    if rows != [] {
      var n := |rows| - 1;
      RowsInOwn(table, link, rests[..n], rows[..n]);
    }
  }

  ghost predicate Within(rows: seq<TableRow>, tables: set<Name>) {
    forall row :: row in rows ==> row.table in tables
  }

  // ----- all rows are of tables of the translator

  lemma {:induction false} ConvertedWithin(o: Obj, t: Translator, parent: Option<ParentRow>, emptyHash: Const)
    requires !t.Value?
    ensures var c := ConvertOf(o, t, parent, emptyHash);
      c.Some? && c.value.rows.Some? ==> Within(c.value.rows.value, Tables(t))
    decreases t, 3
  {
    if !o.Null? {
      match t
      case HDict(_, _, _, _, inList) =>
        if !inList {
          RecordWithin(o, t, parent, emptyHash);
        } else if o.Listing? {
          RecordsWithin(o.elements, t, parent, |o.elements|, emptyHash);
        }
      case VDict(_, _, _, _, _, _) =>
        if o.Items? {
          PairsWithin(o.pairs, t, |o.pairs|, emptyHash);
        }
      case Lists(_, _, _, _, _) =>
        if o.Listing? {
          ElementsWithin(o.elements, t, |o.elements|, emptyHash);
        }
    }
  }

  lemma {:induction false} BelowWithin(o: Obj, sub: Translator, parent: Option<ParentRow>, emptyHash: Const)
    requires !sub.Value?
    ensures var c := BelowOf(o, sub, parent, emptyHash); c.Some? ==> Within(c.value.0, Tables(sub))
    decreases sub, 4
  {
    if !o.Null? && sub.prepare(o).Some? {
      ConvertedWithin(sub.prepare(o).value, sub, parent, emptyHash);
    }
  }

  lemma {:induction false} ElementsWithin(os: seq<Obj>, t: Translator, k: nat, emptyHash: Const)
    requires t.Lists? && k <= |os|
    ensures var c := ElementsOf(os, t, k, emptyHash); c.Some? ==> Within(c.value.0, Tables(t.sub))
    decreases t, 2, k
  {
    if k > 0 {
      ElementsWithin(os, t, k - 1, emptyHash);
      if !t.sub.Value? {
        BelowWithin(os[k - 1], t.sub, None, emptyHash);
      }
    }
  }

  lemma {:induction false} PairsWithin(pairs: seq<(Const, Obj)>, t: Translator, k: nat, emptyHash: Const)
    requires t.VDict? && k <= |pairs|
    ensures var c := PairsOf(pairs, t, k, emptyHash); c.Some? ==> Within(c.value.0, Tables(t.sub))
    decreases t, 2, k
  {
    if k > 0 {
      PairsWithin(pairs, t, k - 1, emptyHash);
      if !t.sub.Value? {
        BelowWithin(pairs[k - 1].1, t.sub, Some(map[t.keyCol := Some(pairs[k - 1].0)]), emptyHash);
      }
    }
  }

  lemma {:induction false} FieldWithin(o: Obj, t: Translator, i: nat, row: ParentRow, emptyHash: Const)
    requires t.HDict? && i < |t.fields| && !t.fields[i].sub.Value?
    ensures var c := FieldOf(o, t, i, row, emptyHash); c.Some? ==> Within(c.value.0, Tables(t.fields[i].sub))
    decreases t, 0
  {
    var sub, v := t.fields[i].sub, GetValue(o, t.fields[i].name);
    if !v.Null? && sub.prepare(v).Some? {
      ConvertedWithin(sub.prepare(v).value, sub, Some(row), emptyHash);
    }
  }

  lemma FieldTables(t: Translator, i: nat)
    requires t.HDict? && i < |t.fields|
    ensures Tables(t.fields[i].sub) <= Tables(t)
  {
  }

  lemma {:induction false} PlainWithin(o: Obj, t: Translator, start: ParentRow, k: nat, emptyHash: Const)
    requires t.HDict? && k <= |t.fields|
    ensures var c := PlainOf(o, t, start, k, emptyHash); c.Some? ==> Within(c.value.0, Tables(t))
    decreases t, 1, k
  {
    if k > 0 {
      PlainWithin(o, t, start, k - 1, emptyHash);
      var before := PlainOf(o, t, start, k - 1, emptyHash);
      if before.Some? && !t.fields[k - 1].sub.Value? {
        FieldWithin(o, t, k - 1, before.value.1, emptyHash);
        FieldTables(t, k - 1);
      }
    }
  }

  lemma {:induction false} KeyedWithin(o: Obj, t: Translator, row: ParentRow, k: nat, emptyHash: Const)
    requires t.HDict? && k <= |t.fields|
    ensures var c := KeyedOf(o, t, row, k, emptyHash); c.Some? ==> Within(c.value, Tables(t))
    decreases t, 1, k
  {
    if k > 0 {
      KeyedWithin(o, t, row, k - 1, emptyHash);
      if !t.fields[k - 1].sub.Value? {
        FieldWithin(o, t, k - 1, row, emptyHash);
        FieldTables(t, k - 1);
      }
    }
  }

  lemma {:induction false} RecordWithin(o: Obj, t: Translator, parent: Option<ParentRow>, emptyHash: Const)
    requires t.HDict?
    ensures var c := RecordOf(o, t, parent, emptyHash); c.Some? ==> Within(c.value.0, Tables(t))
    decreases t, 2, 0
  {
    var start := StartRow(t, parent);
    PlainWithin(o, t, start, |t.fields|, emptyHash);
    var plain := PlainOf(o, t, start, |t.fields|, emptyHash);
    if plain.Some? {
      KeyedWithin(o, t, plain.value.1, |t.fields|, emptyHash);
    }
  }

  lemma {:induction false} RecordsWithin(os: seq<Obj>, t: Translator, parent: Option<ParentRow>, k: nat,
      emptyHash: Const)
    requires t.HDict? && k <= |os|
    ensures var c := RecordsOf(os, t, parent, k, emptyHash);
      c.Some? && c.value.rows.Some? ==> Within(c.value.rows.value, Tables(t))
    decreases t, 2, k + 1
  {
    if k > 0 {
      RecordsWithin(os, t, parent, k - 1, emptyHash);
      RecordWithin(os[k - 1], t, parent, emptyHash);
    }
  }

  // ----- what stands for an object in the row of a list, a dictionary or a record

  /** The rows that an object gives there, and its cell: the value extracted; or the identifier of
      its own rows, with those rows, after it has been prepared; or the empty hash, for a null. */
  ghost predicate Gives(o: Obj, sub: Translator, parent: Option<ParentRow>, emptyHash: Const, rows: seq<TableRow>,
      cell: Cell) {
    if sub.Value? then rows == [] && cell.Some? && cell == sub.extract(o)
    else if o.Null? then rows == [] && cell == Some(emptyHash)
    else
      && sub.prepare(o).Some?
      && var c := ConvertOf(sub.prepare(o).value, sub, parent, emptyHash);
      c.Some? && cell == c.value.id && rows == if c.value.rows.Some? then c.value.rows.value else []
  }

  ghost predicate Convertible(o: Obj, sub: Translator, parent: Option<ParentRow>, emptyHash: Const) {
    exists rows, cell :: Gives(o, sub, parent, emptyHash, rows, cell)
  }

  ghost function PartRows(o: Obj, sub: Translator, parent: Option<ParentRow>, emptyHash: Const): (rows: seq<TableRow>)
    ensures Convertible(o, sub, parent, emptyHash) ==>
      Gives(o, sub, parent, emptyHash, rows, PartCell(o, sub, parent, emptyHash))
  {
    if sub.Value? || BelowOf(o, sub, parent, emptyHash).None? then [] else BelowOf(o, sub, parent, emptyHash).value.0
  }

  ghost function PartCell(o: Obj, sub: Translator, parent: Option<ParentRow>, emptyHash: Const): Cell {
    if sub.Value? then sub.extract(o)
    else if BelowOf(o, sub, parent, emptyHash).None? then None
    else BelowOf(o, sub, parent, emptyHash).value.1
  }

  lemma ConvertibleExactly(o: Obj, sub: Translator, parent: Option<ParentRow>, emptyHash: Const)
    ensures Convertible(o, sub, parent, emptyHash) <==>
      if sub.Value? then sub.extract(o).Some? else BelowOf(o, sub, parent, emptyHash).Some?
  {
    if if sub.Value? then sub.extract(o).Some? else BelowOf(o, sub, parent, emptyHash).Some? {
      assert Gives(o, sub, parent, emptyHash, PartRows(o, sub, parent, emptyHash), PartCell(o, sub, parent, emptyHash));
    }
  }

  lemma PartIs(o: Obj, sub: Translator, parent: Option<ParentRow>, emptyHash: Const)
    ensures sub.Value? ==>
      PartRows(o, sub, parent, emptyHash) == [] && PartCell(o, sub, parent, emptyHash) == sub.extract(o)
    ensures !sub.Value? && BelowOf(o, sub, parent, emptyHash).Some? ==>
      BelowOf(o, sub, parent, emptyHash) ==
        Some((PartRows(o, sub, parent, emptyHash), PartCell(o, sub, parent, emptyHash)))
  {
  }

  /** The link part of a row: nothing, the identifier, or the parent's value. */
  ghost predicate IsLink(link: Link, id: Cell, parent: Option<ParentRow>, cells: seq<Cell>) {
    match link
    case Own => cells == []
    case Id(_, _) => cells == [id]
    case Parent(key, _) => parent.Some? && key in parent.value && cells == [parent.value[key]]
  }

  /** A row of the table itself: a link part and a rest. */
  ghost predicate IsOwn(t: Translator, id: Cell, parent: Option<ParentRow>, rest: seq<Cell>, row: TableRow)
    requires !t.Value?
  {
    exists link :: IsLink(t.link, id, parent, link) && row == TableRow(t.table, link + rest)
  }

  /** The rows are those from below, and then one row of the table itself for each rest. */
  ghost predicate OneRowEach(t: Translator, parent: Option<ParentRow>, below: seq<TableRow>,
      rests: seq<seq<Cell>>, c: Converted)
    requires !t.Value?
  {
    && c.rows.Some? && |c.rows.value| == |below| + |rests| && c.rows.value[..|below|] == below
    && (forall i :: 0 <= i < |rests| ==> IsOwn(t, c.id, parent, rests[i], c.rows.value[|below| + i]))
    && (forall i :: 0 <= i < |below| ==> c.rows.value[i].table != t.table)
  }

  lemma FinishedIs(t: Translator, o: Obj, below: seq<TableRow>, rests: seq<seq<Cell>>, parent: Option<ParentRow>)
    requires (t.VDict? || t.Lists?) && WellFormed(t) && Within(below, Tables(t.sub))
    ensures FinishOf(t, o, below, rests, parent).Some? <==>
      match t.link
      case Own => true
      case Id(_, compute) => compute(o, rests).Some?
      case Parent(key, _) => (!t.sub.Value? && rests == []) || (parent.Some? && key in parent.value)
    ensures var c := FinishOf(t, o, below, rests, parent);
      c.Some? ==>
        OneRowEach(t, parent, below, rests, c.value) && (t.link.Id? ==> c.value.id == t.link.compute(o, rests))
  {
    var c := FinishOf(t, o, below, rests, parent);
    if c.Some? {
      var link := LinkCells(t.link, c.value.id, parent);
      if link.Some? {
        assert IsLink(t.link, c.value.id, parent, link.value);
      }
      assert forall i :: 0 <= i < |below| ==> below[i] in below;
      assert t.table !in Tables(t.sub);
    }
  }

  // ----- lists

  ghost function ListRests(os: seq<Obj>, t: Translator, k: nat, emptyHash: Const): (rests: seq<seq<Cell>>)
    requires t.Lists? && k <= |os|
    ensures |rests| == k && forall i :: 0 <= i < k ==> rests[i] == [PartCell(os[i], t.sub, None, emptyHash)]
  {
    seq(k, i requires 0 <= i < k => [PartCell(os[i], t.sub, None, emptyHash)])
  }

  ghost function ListParts(os: seq<Obj>, t: Translator, k: nat, emptyHash: Const): (parts: seq<seq<TableRow>>)
    requires t.Lists? && k <= |os|
    ensures |parts| == k && forall i :: 0 <= i < k ==> parts[i] == PartRows(os[i], t.sub, None, emptyHash)
  {
    seq(k, i requires 0 <= i < k => PartRows(os[i], t.sub, None, emptyHash))
  }

  ghost predicate ElementsConvertible(os: seq<Obj>, t: Translator, k: nat, emptyHash: Const)
    requires t.Lists? && k <= |os|
  {
    forall i :: 0 <= i < k ==>
      && Convertible(os[i], t.sub, None, emptyHash)
      && (!t.sub.Value? ==>
        PartCell(os[i], t.sub, None, emptyHash) !in {None, Some(Str("")), Some(Num(0))})
  }

  lemma ElementsStep(os: seq<Obj>, t: Translator, k: nat, emptyHash: Const)
    requires t.Lists? && k < |os|
    ensures var c, next := ElementsOf(os, t, k, emptyHash), ElementsOf(os, t, k + 1, emptyHash);
      && (next.Some? <==>
        && c.Some? && Convertible(os[k], t.sub, None, emptyHash)
        && (!t.sub.Value? ==> !Falsy(PartCell(os[k], t.sub, None, emptyHash))))
      && (next.Some? ==>
        next.value == (c.value.0 + PartRows(os[k], t.sub, None, emptyHash),
          c.value.1 + [[PartCell(os[k], t.sub, None, emptyHash)]]))
  {
    ConvertibleExactly(os[k], t.sub, None, emptyHash);
    PartIs(os[k], t.sub, None, emptyHash);
    hide Convertible, BelowOf, PartRows, PartCell, Falsy;
    if t.sub.Value? {
      var c := ElementsOf(os, t, k, emptyHash);
      assert c.Some? ==> c.value.0 + [] == c.value.0;
    }
  }

  lemma ListNext(os: seq<Obj>, t: Translator, k: nat, emptyHash: Const)
    requires t.Lists? && k < |os|
    ensures Joined(ListParts(os, t, k + 1, emptyHash)) ==
      Joined(ListParts(os, t, k, emptyHash)) + PartRows(os[k], t.sub, None, emptyHash)
    ensures ListRests(os, t, k + 1, emptyHash) ==
      ListRests(os, t, k, emptyHash) + [[PartCell(os[k], t.sub, None, emptyHash)]]
  {
    hide PartRows, PartCell;
    assert ListParts(os, t, k + 1, emptyHash)[..k] == ListParts(os, t, k, emptyHash);
  }

  lemma NoElements(os: seq<Obj>, t: Translator, emptyHash: Const)
    requires t.Lists?
    ensures ElementsOf(os, t, 0, emptyHash) ==
      Some((Joined(ListParts(os, t, 0, emptyHash)), ListRests(os, t, 0, emptyHash)))
    ensures ElementsConvertible(os, t, 0, emptyHash)
  {
    assert ListParts(os, t, 0, emptyHash) == [] && ListRests(os, t, 0, emptyHash) == [];
  }

  lemma ElementsConvertibleNext(os: seq<Obj>, t: Translator, k: nat, emptyHash: Const)
    requires t.Lists? && k < |os|
    ensures ElementsConvertible(os, t, k + 1, emptyHash) <==>
      && ElementsConvertible(os, t, k, emptyHash) && Convertible(os[k], t.sub, None, emptyHash)
      && (!t.sub.Value? ==> !Falsy(PartCell(os[k], t.sub, None, emptyHash)))
  {
    hide Convertible, PartCell;
  }

  lemma {:induction false} ElementsAre(os: seq<Obj>, t: Translator, k: nat, emptyHash: Const)
    requires t.Lists? && k <= |os|
    ensures var c := ElementsOf(os, t, k, emptyHash);
      && (c.Some? <==> ElementsConvertible(os, t, k, emptyHash))
      && (c.Some? ==> c.value == (Joined(ListParts(os, t, k, emptyHash)), ListRests(os, t, k, emptyHash)))
    decreases k
  {
    hide *;
    if k == 0 {
      NoElements(os, t, emptyHash);
    } else {
      ElementsAre(os, t, k - 1, emptyHash);
      ElementsStep(os, t, k - 1, emptyHash);
      ListNext(os, t, k - 1, emptyHash);
      ElementsConvertibleNext(os, t, k - 1, emptyHash);
    }
  }

  /** What the identifier of a list is computed from: its last element, prepared, if its elements
      have rows of their own. */
  ghost function Identified(o: Obj, t: Translator): Obj
    requires o.Listing? && t.Lists?
  {
    if t.sub.Value? || o.elements == [] then o
    else
      var e := o.elements[|o.elements| - 1];
      if e.Null? || t.sub.prepare(e).None? then e else t.sub.prepare(e).value
  }

  lemma LastIs(o: Obj, t: Translator)
    requires o.Listing? && t.Lists?
    ensures Identified(o, t) == if t.sub.Value? then o else LastOf(o, t)
  {
  }

  /** A list gives the rows of its elements, in order, and then one row of its own for each of
      them; it raises an exception iff it is none, an element raises one or has no identifier, or
      the link part cannot be made. */
  lemma ListShows(o: Obj, t: Translator, parent: Option<ParentRow>, emptyHash: Const)
    requires WellFormed(t) && t.Lists? && !o.Null?
    ensures ConvertOf(o, t, parent, emptyHash).Some? <==>
      && o.Listing? && ElementsConvertible(o.elements, t, |o.elements|, emptyHash)
      && match t.link
        case Own => true
        case Id(_, compute) => (t.sub.Value? || o.elements != [])
          && compute(Identified(o, t), ListRests(o.elements, t, |o.elements|, emptyHash)).Some?
        case Parent(key, _) => (!t.sub.Value? && o.elements == []) || (parent.Some? && key in parent.value)
    ensures var c := ConvertOf(o, t, parent, emptyHash);
      c.Some? ==>
        var n := |o.elements|;
        var parts, rests := ListParts(o.elements, t, n, emptyHash), ListRests(o.elements, t, n, emptyHash);
        && OneRowEach(t, parent, Joined(parts), rests, c.value)
        && (t.link.Id? ==> c.value.id == t.link.compute(Identified(o, t), rests))
        && forall i :: 0 <= i < n ==>
          |rests[i]| == 1 && Gives(o.elements[i], t.sub, None, emptyHash, parts[i], rests[i][0])
  {
    ListUnfolds(o, t, parent, emptyHash);
    if o.Listing? {
      LastIs(o, t);
      var n := |o.elements|;
      ElementsAre(o.elements, t, n, emptyHash);
      ElementsWithin(o.elements, t, n, emptyHash);
      var c := ElementsOf(o.elements, t, n, emptyHash);
      hide ConvertOf, ElementsOf, ElementsConvertible, FinishOf, OneRowEach, Within, LastOf, ListRests, ListParts,
        Joined, Identified, WellFormed, Tables;
      if c.Some? {
        FinishedIs(t, if t.sub.Value? then o else LastOf(o, t), c.value.0, c.value.1, parent);
        ElementsGive(o.elements, t, n, emptyHash);
      }
    }
  }

  lemma ElementsGive(os: seq<Obj>, t: Translator, k: nat, emptyHash: Const)
    requires t.Lists? && k <= |os| && ElementsConvertible(os, t, k, emptyHash)
    ensures forall i :: 0 <= i < k ==>
      && |ListRests(os, t, k, emptyHash)[i]| == 1
      && Gives(os[i], t.sub, None, emptyHash, ListParts(os, t, k, emptyHash)[i], ListRests(os, t, k, emptyHash)[i][0])
  {
    hide Convertible, Gives;
  }

  lemma ListUnfolds(o: Obj, t: Translator, parent: Option<ParentRow>, emptyHash: Const)
    requires t.Lists? && !o.Null?
    ensures !o.Listing? ==> ConvertOf(o, t, parent, emptyHash).None?
    ensures o.Listing? ==>
      var c := ElementsOf(o.elements, t, |o.elements|, emptyHash);
      ConvertOf(o, t, parent, emptyHash) ==
        if c.None? || (!t.sub.Value? && t.link.Id? && o.elements == []) then None
        else FinishOf(t, if t.sub.Value? then o else LastOf(o, t), c.value.0, c.value.1, parent)
  {
    hide ElementsOf, FinishOf, LastOf;
  }

  // ----- dictionaries

  /** What a pair puts in its own row: the key, and the cell of the value unless the rows of the
      value are tied to the key. */
  function PairRest(key: Const, cell: Cell, sub: Translator): seq<Cell> {
    if sub.Value? || sub.HasId() then [Some(key), cell] else [Some(key)]
  }

  ghost function KeyRow(t: Translator, key: Const): Option<ParentRow>
    requires t.VDict?
  {
    Some(map[t.keyCol := Some(key)])
  }

  /** The rows and the own row that a pair gives. */
  ghost predicate PairGives(key: Const, o: Obj, t: Translator, emptyHash: Const, rows: seq<TableRow>, rest: seq<Cell>)
    requires t.VDict?
  {
    exists cell :: rest == PairRest(key, cell, t.sub) && Gives(o, t.sub, KeyRow(t, key), emptyHash, rows, cell)
  }

  ghost function RestOf(pair: (Const, Obj), t: Translator, emptyHash: Const): seq<Cell>
    requires t.VDict?
  {
    PairRest(pair.0, PartCell(pair.1, t.sub, KeyRow(t, pair.0), emptyHash), t.sub)
  }

  ghost function DictRests(pairs: seq<(Const, Obj)>, t: Translator, k: nat, emptyHash: Const): (rests: seq<seq<Cell>>)
    requires t.VDict? && k <= |pairs|
    ensures |rests| == k && forall i :: 0 <= i < k ==> rests[i] == RestOf(pairs[i], t, emptyHash)
  {
    seq(k, i requires 0 <= i < k => RestOf(pairs[i], t, emptyHash))
  }

  ghost function DictParts(pairs: seq<(Const, Obj)>, t: Translator, k: nat,
      emptyHash: Const): (parts: seq<seq<TableRow>>)
    requires t.VDict? && k <= |pairs|
    ensures |parts| == k
    ensures forall i :: 0 <= i < k ==> parts[i] == PartRows(pairs[i].1, t.sub, KeyRow(t, pairs[i].0), emptyHash)
  {
    seq(k, i requires 0 <= i < k => PartRows(pairs[i].1, t.sub, KeyRow(t, pairs[i].0), emptyHash))
  }

  ghost predicate PairsConvertible(pairs: seq<(Const, Obj)>, t: Translator, k: nat, emptyHash: Const)
    requires t.VDict? && k <= |pairs|
  {
    forall i :: 0 <= i < k ==> Convertible(pairs[i].1, t.sub, KeyRow(t, pairs[i].0), emptyHash)
  }

  lemma PairsStep(pairs: seq<(Const, Obj)>, t: Translator, k: nat, emptyHash: Const)
    requires t.VDict? && k < |pairs|
    ensures var c, next := PairsOf(pairs, t, k, emptyHash), PairsOf(pairs, t, k + 1, emptyHash);
      && (next.Some? <==> c.Some? && Convertible(pairs[k].1, t.sub, KeyRow(t, pairs[k].0), emptyHash))
      && (next.Some? ==>
        next.value == (c.value.0 + PartRows(pairs[k].1, t.sub, KeyRow(t, pairs[k].0), emptyHash),
          c.value.1 + [RestOf(pairs[k], t, emptyHash)]))
  {
    var (key, o) := pairs[k];
    ConvertibleExactly(o, t.sub, KeyRow(t, key), emptyHash);
    PartIs(o, t.sub, KeyRow(t, key), emptyHash);
    assert pairs[k] == (key, o);
    hide Convertible, BelowOf, PartRows, PartCell;
    if t.sub.Value? {
      var c := PairsOf(pairs, t, k, emptyHash);
      assert c.Some? ==> c.value.0 + [] == c.value.0;
    } else {
      var cell := PartCell(o, t.sub, KeyRow(t, key), emptyHash);
      assert [Some(key)] + (if t.sub.HasId() then [cell] else []) == PairRest(key, cell, t.sub);
    }
  }

  lemma DictNext(pairs: seq<(Const, Obj)>, t: Translator, k: nat, emptyHash: Const)
    requires t.VDict? && k < |pairs|
    ensures Joined(DictParts(pairs, t, k + 1, emptyHash)) ==
      Joined(DictParts(pairs, t, k, emptyHash)) + PartRows(pairs[k].1, t.sub, KeyRow(t, pairs[k].0), emptyHash)
    ensures DictRests(pairs, t, k + 1, emptyHash) ==
      DictRests(pairs, t, k, emptyHash) + [RestOf(pairs[k], t, emptyHash)]
  {
    hide PartRows, RestOf;
    assert DictParts(pairs, t, k + 1, emptyHash)[..k] == DictParts(pairs, t, k, emptyHash);
  }

  lemma NoPairs(pairs: seq<(Const, Obj)>, t: Translator, emptyHash: Const)
    requires t.VDict?
    ensures PairsOf(pairs, t, 0, emptyHash) ==
      Some((Joined(DictParts(pairs, t, 0, emptyHash)), DictRests(pairs, t, 0, emptyHash)))
    ensures PairsConvertible(pairs, t, 0, emptyHash)
  {
    assert DictParts(pairs, t, 0, emptyHash) == [] && DictRests(pairs, t, 0, emptyHash) == [];
  }

  lemma PairsConvertibleNext(pairs: seq<(Const, Obj)>, t: Translator, k: nat, emptyHash: Const)
    requires t.VDict? && k < |pairs|
    ensures PairsConvertible(pairs, t, k + 1, emptyHash) <==>
      PairsConvertible(pairs, t, k, emptyHash) && Convertible(pairs[k].1, t.sub, KeyRow(t, pairs[k].0), emptyHash)
  {
    hide Convertible;
  }

  lemma {:induction false} PairsAre(pairs: seq<(Const, Obj)>, t: Translator, k: nat, emptyHash: Const)
    requires t.VDict? && k <= |pairs|
    ensures var c := PairsOf(pairs, t, k, emptyHash);
      && (c.Some? <==> PairsConvertible(pairs, t, k, emptyHash))
      && (c.Some? ==> c.value == (Joined(DictParts(pairs, t, k, emptyHash)), DictRests(pairs, t, k, emptyHash)))
    decreases k
  {
    hide *;
    if k == 0 {
      NoPairs(pairs, t, emptyHash);
    } else {
      PairsAre(pairs, t, k - 1, emptyHash);
      PairsStep(pairs, t, k - 1, emptyHash);
      DictNext(pairs, t, k - 1, emptyHash);
      PairsConvertibleNext(pairs, t, k - 1, emptyHash);
    }
  }

  /** A dictionary gives the rows of its values, in order, and then one row of its own for each
      pair; it raises an exception iff it is none, a value raises one, or the link part cannot be
      made. */
  lemma DictShows(o: Obj, t: Translator, parent: Option<ParentRow>, emptyHash: Const)
    requires WellFormed(t) && t.VDict? && !o.Null?
    ensures ConvertOf(o, t, parent, emptyHash).Some? <==>
      && o.Items? && PairsConvertible(o.pairs, t, |o.pairs|, emptyHash)
      && match t.link
        case Own => true
        case Id(_, compute) => compute(o, DictRests(o.pairs, t, |o.pairs|, emptyHash)).Some?
        case Parent(key, _) => (!t.sub.Value? && o.pairs == []) || (parent.Some? && key in parent.value)
    ensures var c := ConvertOf(o, t, parent, emptyHash);
      c.Some? ==>
        var n := |o.pairs|;
        var parts, rests := DictParts(o.pairs, t, n, emptyHash), DictRests(o.pairs, t, n, emptyHash);
        && OneRowEach(t, parent, Joined(parts), rests, c.value)
        && (t.link.Id? ==> c.value.id == t.link.compute(o, rests))
        && forall i :: 0 <= i < n ==>
          PairGives(o.pairs[i].0, o.pairs[i].1, t, emptyHash, parts[i], rests[i])
  {
    DictUnfolds(o, t, parent, emptyHash);
    if o.Items? {
      var n := |o.pairs|;
      PairsAre(o.pairs, t, n, emptyHash);
      PairsWithin(o.pairs, t, n, emptyHash);
      var c := PairsOf(o.pairs, t, n, emptyHash);
      hide *;
      if c.Some? {
        FinishedIs(t, o, c.value.0, c.value.1, parent);
        PairsGive(o.pairs, t, n, emptyHash);
      }
    }
  }

  lemma PairsGive(pairs: seq<(Const, Obj)>, t: Translator, k: nat, emptyHash: Const)
    requires t.VDict? && k <= |pairs| && PairsConvertible(pairs, t, k, emptyHash)
    ensures forall i :: 0 <= i < k ==>
      PairGives(pairs[i].0, pairs[i].1, t, emptyHash, DictParts(pairs, t, k, emptyHash)[i],
        DictRests(pairs, t, k, emptyHash)[i])
  {
    hide Convertible, Gives, PairRest;
  }

  lemma DictUnfolds(o: Obj, t: Translator, parent: Option<ParentRow>, emptyHash: Const)
    requires t.VDict? && !o.Null?
    ensures !o.Items? ==> ConvertOf(o, t, parent, emptyHash).None?
    ensures o.Items? ==>
      var c := PairsOf(o.pairs, t, |o.pairs|, emptyHash);
      ConvertOf(o, t, parent, emptyHash) ==
        if c.None? then None else FinishOf(t, o, c.value.0, c.value.1, parent)
  {
    hide PairsOf, FinishOf;
  }

  // ----- records

  /** Only rows that are tied by a parent key depend on the row above. */
  lemma {:induction false} ParentIrrelevant(o: Obj, t: Translator, p: Option<ParentRow>, q: Option<ParentRow>,
      emptyHash: Const)
    requires !t.Value? && !t.HasParentKey()
    ensures ConvertOf(o, t, p, emptyHash) == ConvertOf(o, t, q, emptyHash)
  {
    if t.HDict? && o.Listing? {
      RecordsIrrelevant(o.elements, t, p, q, |o.elements|, emptyHash);
    }
  }

  lemma {:induction false} RecordsIrrelevant(os: seq<Obj>, t: Translator, p: Option<ParentRow>,
      q: Option<ParentRow>, k: nat,
      emptyHash: Const)
    requires t.HDict? && !t.HasParentKey() && k <= |os|
    ensures RecordsOf(os, t, p, k, emptyHash) == RecordsOf(os, t, q, k, emptyHash)
    decreases k
  {
    if k > 0 {
      RecordsIrrelevant(os, t, p, q, k - 1, emptyHash);
    }
  }

  /** The value of a field. */
  function FieldValue(o: Obj, name: Name): Obj {
    if o.Record? && name in o.fields then o.fields[name] else Null
  }

  /** The rows that a field gives, and its cell: nothing and the empty hash, if it has an identifier,
      for a missing field or a null. */
  ghost predicate FieldGives(o: Obj, f: Field, row: ParentRow, emptyHash: Const, rows: seq<TableRow>, cell: Cell) {
    var v := FieldValue(o, f.name);
    if f.sub.Value? then rows == [] && cell.Some? && cell == f.sub.extract(v)
    else if v.Null? then rows == [] && cell == if f.sub.HasId() then Some(emptyHash) else None
    else
      && f.sub.prepare(v).Some?
      && var c := ConvertOf(f.sub.prepare(v).value, f.sub, Some(row), emptyHash);
      c.Some? && c.value.rows == Some(rows) && c.value.id == cell
  }

  lemma FieldIs(o: Obj, t: Translator, i: nat, row: ParentRow, emptyHash: Const, rows: seq<TableRow>, cell: Cell)
    requires t.HDict? && i < |t.fields|
    ensures FieldGives(o, t.fields[i], row, emptyHash, rows, cell) <==>
      if t.fields[i].sub.Value? then rows == [] && cell.Some?
        && cell == t.fields[i].sub.extract(GetValue(o, t.fields[i].name))
      else FieldOf(o, t, i, row, emptyHash) == Some((rows, cell))
  {
  }

  lemma FieldIrrelevant(o: Obj, f: Field, p: ParentRow, q: ParentRow, emptyHash: Const, rows: seq<TableRow>, cell: Cell)
    requires !f.sub.HasParentKey() && FieldGives(o, f, p, emptyHash, rows, cell)
    ensures FieldGives(o, f, q, emptyHash, rows, cell)
  {
    var v := FieldValue(o, f.name);
    if !f.sub.Value? && f.sub.prepare(v).Some? {
      ParentIrrelevant(f.sub.prepare(v).value, f.sub, Some(p), Some(q), emptyHash);
    }
  }

  /** What is known of the first k fields that are in turn: each gives its rows, the rows of its
      tables are these, and its cell is in the row, unless it is tied by a parent key. */
  ghost predicate FieldsGive(o: Obj, t: Translator, keyed: bool, k: nat, given: ParentRow, row: ParentRow,
      emptyHash: Const, rows: seq<TableRow>)
    requires t.HDict? && k <= |t.fields|
  {
    && (forall i :: 0 <= i < k && t.fields[i].sub.HasParentKey() == keyed ==>
        FieldShows(o, t.fields[i], given, row, emptyHash, rows))
    && forall q :: q in rows ==>
      exists i :: 0 <= i < k && t.fields[i].sub.HasParentKey() == keyed && q.table in Tables(t.fields[i].sub)
  }

  ghost predicate FieldShows(o: Obj, f: Field, given: ParentRow, row: ParentRow, emptyHash: Const,
      rows: seq<TableRow>) {
    exists more, cell :: FieldGives(o, f, given, emptyHash, more, cell)
      && (!f.sub.HasParentKey() ==> f.col in row && row[f.col] == cell)
      && forall x :: x in Tables(f.sub) ==> RowsIn(x, rows) == RowsIn(x, more)
  }

  lemma FieldsApart(t: Translator, i: nat, j: nat)
    requires WellFormed(t) && t.HDict? && i < |t.fields| && j < |t.fields| && i != j
    ensures Tables(t.fields[i].sub) !! Tables(t.fields[j].sub) && t.fields[i].col != t.fields[j].col
  {
    assert if i < j then Tables(t.fields[i].sub) !! Tables(t.fields[j].sub)
      else Tables(t.fields[j].sub) !! Tables(t.fields[i].sub);
  }

  /** Rows of other tables change nothing. */
  lemma ShowsMore(o: Obj, f: Field, given: ParentRow, row: ParentRow, emptyHash: Const, rows: seq<TableRow>,
      before: seq<TableRow>, after: seq<TableRow>, row': ParentRow)
    requires FieldShows(o, f, given, row, emptyHash, rows)
    requires forall q :: q in before || q in after ==> q.table !in Tables(f.sub)
    requires f.col in row ==> f.col in row' && row'[f.col] == row[f.col]
    ensures FieldShows(o, f, given, row', emptyHash, before + rows + after)
  {
    hide FieldGives, Tables;
    forall x | x in Tables(f.sub)
      ensures RowsIn(x, before + rows + after) == RowsIn(x, rows)
    {
      RowsInBoth(x, before + rows, after);
      RowsInBoth(x, before, rows);
      RowsInNone(x, before);
      RowsInNone(x, after);
    }
  }

  lemma ShowsNew(o: Obj, f: Field, given: ParentRow, row: ParentRow, emptyHash: Const, more: seq<TableRow>, cell: Cell)
    requires FieldGives(o, f, given, emptyHash, more, cell)
    requires !f.sub.HasParentKey() ==> f.col in row && row[f.col] == cell
    ensures FieldShows(o, f, given, row, emptyHash, more)
  {
  }

  /** One more field. */
  lemma FieldsGiveNext(o: Obj, t: Translator, keyed: bool, k: nat, given: ParentRow, row: ParentRow, emptyHash: Const,
      rows: seq<TableRow>, more: seq<TableRow>, cell: Cell, row': ParentRow)
    requires WellFormed(t) && t.HDict? && k < |t.fields| && t.fields[k].sub.HasParentKey() == keyed
    requires FieldsGive(o, t, keyed, k, given, row, emptyHash, rows)
    requires FieldGives(o, t.fields[k], given, emptyHash, more, cell) && Within(more, Tables(t.fields[k].sub))
    requires row' == if keyed then row else row[t.fields[k].col := cell]
    ensures FieldsGive(o, t, keyed, k + 1, given, row', emptyHash, rows + more)
  {
    hide WellFormed, Tables, FieldGives, FieldShows;
    forall i | 0 <= i < k + 1 && t.fields[i].sub.HasParentKey() == keyed
      ensures FieldShows(o, t.fields[i], given, row', emptyHash, rows + more)
    {
      if i < k {
        FieldsApart(t, i, k);
        ShowsMore(o, t.fields[i], given, row, emptyHash, rows, [], more, row');
        assert [] + rows + more == rows + more;
      } else {
        ShowsNew(o, t.fields[k], given, row', emptyHash, more, cell);
        forall q | q in rows
          ensures q.table !in Tables(t.fields[k].sub)
        {
          var j :| 0 <= j < k && q.table in Tables(t.fields[j].sub);
          FieldsApart(t, j, k);
        }
        ShowsMore(o, t.fields[k], given, row', emptyHash, more, rows, [], row');
        assert rows + more + [] == rows + more;
      }
    }
    forall q | q in rows + more
      ensures exists i ::
        0 <= i < k + 1 && t.fields[i].sub.HasParentKey() == keyed && q.table in Tables(t.fields[i].sub)
    {
      if q in more {
        assert 0 <= k < k + 1 && q.table in Tables(t.fields[k].sub);
      }
    }
  }

  lemma FieldsGiveSkip(o: Obj, t: Translator, keyed: bool, k: nat, given: ParentRow, row: ParentRow, emptyHash: Const,
      rows: seq<TableRow>)
    requires t.HDict? && k < |t.fields| && t.fields[k].sub.HasParentKey() != keyed
    requires FieldsGive(o, t, keyed, k, given, row, emptyHash, rows)
    ensures FieldsGive(o, t, keyed, k + 1, given, row, emptyHash, rows)
  {
    hide FieldShows, Tables;
  }

  lemma {:induction false} PlainShows(o: Obj, t: Translator, start: ParentRow, k: nat, emptyHash: Const)
    requires WellFormed(t) && t.HDict? && k <= |t.fields| && PlainOf(o, t, start, k, emptyHash).Some?
    ensures var c := PlainOf(o, t, start, k, emptyHash).value; FieldsGive(o, t, false, k, map[], c.1, emptyHash, c.0)
    decreases k
  {
    hide *;
    if k == 0 {
      PlainNone(o, t, start, emptyHash);
      NoFieldsGive(o, t, false, map[], start, emptyHash);
    } else {
      PlainStep(o, t, start, k - 1, emptyHash);
      PlainShows(o, t, start, k - 1, emptyHash);
      var before, c := PlainOf(o, t, start, k - 1, emptyHash).value, PlainOf(o, t, start, k, emptyHash).value;
      if t.fields[k - 1].sub.HasParentKey() {
        FieldsGiveSkip(o, t, false, k - 1, map[], c.1, emptyHash, c.0);
      } else {
        var more, cell :| FieldGives(o, t.fields[k - 1], before.1, emptyHash, more, cell)
          && Within(more, Tables(t.fields[k - 1].sub))
          && c == (before.0 + more, before.1[t.fields[k - 1].col := cell]);
        FieldIrrelevant(o, t.fields[k - 1], before.1, map[], emptyHash, more, cell);
        FieldsGiveNext(o, t, false, k - 1, map[], before.1, emptyHash, before.0, more, cell, c.1);
      }
    }
  }

  lemma NoFieldsGive(o: Obj, t: Translator, keyed: bool, given: ParentRow, row: ParentRow, emptyHash: Const)
    requires t.HDict?
    ensures FieldsGive(o, t, keyed, 0, given, row, emptyHash, [])
  {
    hide FieldShows;
  }

  lemma PlainStep(o: Obj, t: Translator, start: ParentRow, k: nat, emptyHash: Const)
    requires t.HDict? && k < |t.fields| && PlainOf(o, t, start, k + 1, emptyHash).Some?
    ensures PlainOf(o, t, start, k, emptyHash).Some?
    ensures var before, c, f := PlainOf(o, t, start, k, emptyHash).value,
      PlainOf(o, t, start, k + 1, emptyHash).value, t.fields[k];
      if f.sub.HasParentKey() then c == before
      else
        exists more, cell :: FieldGives(o, f, before.1, emptyHash, more, cell) && Within(more, Tables(f.sub))
          && c == (before.0 + more, before.1[f.col := cell])
  {
    PlainNext(o, t, start, k, emptyHash);
    var before, c, f := PlainOf(o, t, start, k, emptyHash).value, PlainOf(o, t, start, k + 1, emptyHash).value,
      t.fields[k];
    hide PlainOf, FieldGives, FieldOf;
    if f.sub.Value? {
      FieldIs(o, t, k, before.1, emptyHash, [], c.1[f.col]);
      assert before.0 + [] == before.0;
      assert FieldGives(o, f, before.1, emptyHash, [], c.1[f.col]);
    } else if !f.sub.HasParentKey() {
      var (more, cell) := FieldOf(o, t, k, before.1, emptyHash).value;
      FieldIs(o, t, k, before.1, emptyHash, more, cell);
      FieldWithin(o, t, k, before.1, emptyHash);
    }
  }

  lemma {:induction false} KeyedShows(o: Obj, t: Translator, row: ParentRow, k: nat, emptyHash: Const)
    requires WellFormed(t) && t.HDict? && k <= |t.fields| && KeyedOf(o, t, row, k, emptyHash).Some?
    ensures FieldsGive(o, t, true, k, row, row, emptyHash, KeyedOf(o, t, row, k, emptyHash).value)
    decreases k
  {
    if k == 0 {
      hide FieldShows;
    } else {
      KeyedNext(o, t, row, k - 1, emptyHash);
      KeyedShows(o, t, row, k - 1, emptyHash);
      var before := KeyedOf(o, t, row, k - 1, emptyHash).value;
      hide WellFormed, FieldsGive, FieldGives, Within, FieldOf;
      if t.fields[k - 1].sub.HasParentKey() {
        var (more, cell) := FieldOf(o, t, k - 1, row, emptyHash).value;
        FieldIs(o, t, k - 1, row, emptyHash, more, cell);
        FieldWithin(o, t, k - 1, row, emptyHash);
        FieldsGiveNext(o, t, true, k - 1, row, row, emptyHash, before, more, cell, row);
      } else {
        FieldsGiveSkip(o, t, true, k - 1, row, row, emptyHash, before);
      }
    }
  }

  lemma {:induction false} PlainFills(o: Obj, t: Translator, start: ParentRow, k: nat, emptyHash: Const)
    requires WellFormed(t) && t.HDict? && k <= |t.fields| && PlainOf(o, t, start, k, emptyHash).Some?
    requires forall i :: 0 <= i < |t.fields| ==> t.fields[i].col !in start
    ensures Filled(t, k, start, PlainOf(o, t, start, k, emptyHash).value.1)
    decreases k
  {
    hide *;
    if k == 0 {
      PlainNone(o, t, start, emptyHash);
      NothingFilled(t, start);
    } else {
      PlainStep(o, t, start, k - 1, emptyHash);
      PlainFills(o, t, start, k - 1, emptyHash);
      var before, c := PlainOf(o, t, start, k - 1, emptyHash).value, PlainOf(o, t, start, k, emptyHash).value;
      var f := t.fields[k - 1];
      FilledNext(t, k - 1, start, before.1, if f.sub.HasParentKey() then None else c.1[f.col], c.1);
    }
  }

  lemma StartKept(t: Translator, start: ParentRow, row: ParentRow)
    requires t.HDict? && Filled(t, |t.fields|, start, row)
    ensures forall x :: x in start ==> x in row && row[x] == start[x]
  {
  }

  lemma NothingFilled(t: Translator, start: ParentRow)
    requires t.HDict?
    ensures Filled(t, 0, start, start)
  {
  }

  lemma FilledNext(t: Translator, k: nat, start: ParentRow, row: ParentRow, cell: Cell, row': ParentRow)
    requires t.HDict? && k < |t.fields| && Filled(t, k, start, row) && t.fields[k].col !in start
    requires row' == if t.fields[k].sub.HasParentKey() then row else row[t.fields[k].col := cell]
    ensures Filled(t, k + 1, start, row')
  {
  }

  /** All that a record's rows say: its own row comes last and is the only one of its table; each
      field shows in the row and in the rows of its tables; and there are no other rows. */
  ghost predicate RecordShows(o: Obj, t: Translator, parent: Option<ParentRow>, emptyHash: Const, row: ParentRow,
      rows: seq<TableRow>, id: Cell)
    requires t.HDict?
  {
    && rows != [] && OwnShows(o, t, parent, row, rows[|rows| - 1], id)
    && EachFieldShows(o, t, row, emptyHash, rows) && OthersAreOfFields(t, rows)
  }

  ghost predicate EachFieldShows(o: Obj, t: Translator, row: ParentRow, emptyHash: Const, rows: seq<TableRow>)
    requires t.HDict?
  {
    forall i :: 0 <= i < |t.fields| ==>
      FieldShows(o, t.fields[i], if t.fields[i].sub.HasParentKey() then row else map[], row, emptyHash, rows)
  }

  /** All rows but the last are of tables of fields. */
  ghost predicate OthersAreOfFields(t: Translator, rows: seq<TableRow>)
    requires t.HDict?
  {
    forall k :: 0 <= k < |rows| - 1 ==>
      rows[k].table != t.table && exists i :: 0 <= i < |t.fields| && rows[k].table in Tables(t.fields[i].sub)
  }

  /** The own row has the link part and then a cell for each field that is not tied by a parent key,
      in the order of the fields. */
  ghost predicate OwnShows(o: Obj, t: Translator, parent: Option<ParentRow>, row: ParentRow, own: TableRow, id: Cell)
    requires t.HDict?
  {
    exists link, cells :: own == TableRow(t.table, link + cells) && IsLink(t.link, id, parent, link)
      && ShowsCells(FieldColumns(t.fields), row, cells) && (t.link.Id? ==> id.Some? && id == t.link.compute(o, [cells]))
  }

  /** The cells of a row in the order of the columns; None becomes text. */
  ghost predicate ShowsCells(columns: seq<Name>, row: ParentRow, cells: seq<Cell>) {
    && |cells| == |columns|
    && forall c :: 0 <= c < |columns| ==>
      columns[c] in row && cells[c] == if row[columns[c]].None? then Some(Str("None")) else row[columns[c]]
  }

  /** The row of a record, filled with everything but what is tied by a parent key. */
  ghost function FullRow(o: Obj, t: Translator, parent: Option<ParentRow>, emptyHash: Const): ParentRow
    requires t.HDict?
  {
    var plain := PlainOf(o, t, StartRow(t, parent), |t.fields|, emptyHash);
    if plain.Some? then plain.value.1 else map[]
  }

  lemma RecordParts(o: Obj, t: Translator, parent: Option<ParentRow>, emptyHash: Const)
    requires t.HDict? && RecordOf(o, t, parent, emptyHash).Some?
    ensures PlainOf(o, t, StartRow(t, parent), |t.fields|, emptyHash).Some?
    ensures var row := FullRow(o, t, parent, emptyHash);
      && KeyedOf(o, t, row, |t.fields|, emptyHash).Some?
      && RecordOf(o, t, parent, emptyHash) == RecordDone(o, t,
        PlainOf(o, t, StartRow(t, parent), |t.fields|, emptyHash).value.0
          + KeyedOf(o, t, row, |t.fields|, emptyHash).value, row)
  {
    hide PlainOf, KeyedOf, RecordDone;
  }

  lemma StartApart(t: Translator, parent: Option<ParentRow>)
    requires WellFormed(t) && t.HDict?
    ensures forall i :: 0 <= i < |t.fields| ==> t.fields[i].col !in StartRow(t, parent)
    ensures t.link.Parent? ==>
      (t.link.column in StartRow(t, parent) <==> parent.Some? && t.link.key in parent.value)
      && (t.link.column in StartRow(t, parent) ==> StartRow(t, parent)[t.link.column] == parent.value[t.link.key])
  {
  }

  /** What the rows of a record say. */
  lemma RecordMeans(o: Obj, t: Translator, parent: Option<ParentRow>, emptyHash: Const)
    requires WellFormed(t) && t.HDict? && RecordOf(o, t, parent, emptyHash).Some?
    ensures var (rows, id) := RecordOf(o, t, parent, emptyHash).value;
      RecordShows(o, t, parent, emptyHash, FullRow(o, t, parent, emptyHash), rows, id)
  {
    var start, row, n := StartRow(t, parent), FullRow(o, t, parent, emptyHash), |t.fields|;
    RecordParts(o, t, parent, emptyHash);
    StartApart(t, parent);
    PlainShows(o, t, start, n, emptyHash);
    PlainFills(o, t, start, n, emptyHash);
    KeyedShows(o, t, row, n, emptyHash);
    var plain, keyed := PlainOf(o, t, start, n, emptyHash).value.0, KeyedOf(o, t, row, n, emptyHash).value;
    assert PlainOf(o, t, start, n, emptyHash).value.1 == row;
    hide *;
    DoneShows(o, t, parent, start, row, emptyHash, plain, keyed);
  }

  lemma DoneShows(o: Obj, t: Translator, parent: Option<ParentRow>, start: ParentRow, row: ParentRow, emptyHash: Const,
      plain: seq<TableRow>, keyed: seq<TableRow>)
    requires WellFormed(t) && t.HDict? && start == StartRow(t, parent) && Filled(t, |t.fields|, start, row)
    requires FieldsGive(o, t, false, |t.fields|, map[], row, emptyHash, plain)
    requires FieldsGive(o, t, true, |t.fields|, row, row, emptyHash, keyed)
    requires RecordDone(o, t, plain + keyed, row).Some?
    ensures var (rows, id) := RecordDone(o, t, plain + keyed, row).value;
      RecordShows(o, t, parent, emptyHash, row, rows, id)
  {
    hide *;
    OwnIs(o, t, parent, start, row, plain + keyed);
    var (rows, id) := RecordDone(o, t, plain + keyed, row).value;
    var own := rows[|rows| - 1];
    assert rows == plain + keyed + [own];
    OwnTable(o, t, parent, row, own, id);
    AllFieldsShow(o, t, row, emptyHash, plain, keyed, own);
    ShowsTogether(o, t, parent, emptyHash, row, rows, id);
  }

  lemma ShowsTogether(o: Obj, t: Translator, parent: Option<ParentRow>, emptyHash: Const, row: ParentRow,
      rows: seq<TableRow>, id: Cell)
    requires t.HDict? && rows != [] && OwnShows(o, t, parent, row, rows[|rows| - 1], id)
    requires EachFieldShows(o, t, row, emptyHash, rows) && OthersAreOfFields(t, rows)
    ensures RecordShows(o, t, parent, emptyHash, row, rows, id)
  {
  }

  lemma OwnTable(o: Obj, t: Translator, parent: Option<ParentRow>, row: ParentRow, own: TableRow, id: Cell)
    requires t.HDict? && OwnShows(o, t, parent, row, own, id)
    ensures own.table == t.table
  {
  }

  /** The own row. */
  lemma OwnIs(o: Obj, t: Translator, parent: Option<ParentRow>, start: ParentRow, row: ParentRow, below: seq<TableRow>)
    requires WellFormed(t) && t.HDict? && start == StartRow(t, parent) && Filled(t, |t.fields|, start, row)
    requires RecordDone(o, t, below, row).Some?
    ensures var (rows, id) := RecordDone(o, t, below, row).value;
      rows != [] && rows[..|rows| - 1] == below && OwnShows(o, t, parent, row, rows[|rows| - 1], id)
  {
    StartApart(t, parent);
    CellsAre(t, start, row, |t.fields|);
    assert t.fields[..|t.fields|] == t.fields;
    var cells := CellsIn(t.fields, row);
    assert ShowsCells(FieldColumns(t.fields), row, cells);
    var (rows, id) := RecordDone(o, t, below, row).value;
    var own := rows[|rows| - 1];
    hide WellFormed, Filled, CellsOf, CellsIn, ShowsCells;
    match t.link
    case Own =>
      assert own == TableRow(t.table, [] + cells) && IsLink(t.link, id, parent, []);
    case Id(_, _) =>
      assert own == TableRow(t.table, [id] + cells) && IsLink(t.link, id, parent, [id]);
    case Parent(key, column) =>
      ParentColumn(t, start, row);
      StartKept(t, start, row);
      assert own == TableRow(t.table, [parent.value[key]] + cells) && IsLink(t.link, id, parent, [parent.value[key]]);
  }

  lemma {:induction false} CellsAre(t: Translator, start: ParentRow, row: ParentRow, k: nat)
    requires WellFormed(t) && t.HDict? && Filled(t, |t.fields|, start, row) && k <= |t.fields|
    requires forall i :: 0 <= i < |t.fields| ==> t.fields[i].col !in start
    ensures CellsOf(FieldColumns(t.fields[..k]), row, CellsIn(t.fields[..k], row))
    decreases k
  {
    if k > 0 {
      CellsAre(t, start, row, k - 1);
      ColumnFilled(t, start, row, k - 1);
      assert t.fields[..k][..k - 1] == t.fields[..k - 1];
    }
  }

  lemma AllFieldsShow(o: Obj, t: Translator, row: ParentRow, emptyHash: Const, plain: seq<TableRow>,
      keyed: seq<TableRow>,
      own: TableRow)
    requires WellFormed(t) && t.HDict? && own.table == t.table
    requires FieldsGive(o, t, false, |t.fields|, map[], row, emptyHash, plain)
    requires FieldsGive(o, t, true, |t.fields|, row, row, emptyHash, keyed)
    ensures var rows := plain + keyed + [own];
      EachFieldShows(o, t, row, emptyHash, rows) && OthersAreOfFields(t, rows)
  {
    hide FieldShows;
    forall i | 0 <= i < |t.fields|
      ensures FieldShows(o, t.fields[i], if t.fields[i].sub.HasParentKey() then row else map[], row, emptyHash,
        plain + keyed + [own])
    {
      FieldAmongAll(o, t, row, emptyHash, plain, keyed, own, i);
    }
    forall q | q in plain + keyed
      ensures q.table != t.table && exists i :: 0 <= i < |t.fields| && q.table in Tables(t.fields[i].sub)
    {
    }
    assert forall k :: 0 <= k < |plain + keyed| ==> (plain + keyed + [own])[k] in plain + keyed;
  }

  lemma FieldAmongAll(o: Obj, t: Translator, row: ParentRow, emptyHash: Const, plain: seq<TableRow>,
      keyed: seq<TableRow>,
      own: TableRow, i: nat)
    requires WellFormed(t) && t.HDict? && own.table == t.table && i < |t.fields|
    requires FieldsGive(o, t, false, |t.fields|, map[], row, emptyHash, plain)
    requires FieldsGive(o, t, true, |t.fields|, row, row, emptyHash, keyed)
    ensures FieldShows(o, t.fields[i], if t.fields[i].sub.HasParentKey() then row else map[], row, emptyHash,
      plain + keyed + [own])
  {
    var f := t.fields[i];
    assert t.table !in Tables(f.sub);
    hide WellFormed, FieldShows, Tables;
    if f.sub.HasParentKey() {
      forall q | q in plain
        ensures q.table !in Tables(f.sub)
      {
        var j :| 0 <= j < |t.fields| && !t.fields[j].sub.HasParentKey() && q.table in Tables(t.fields[j].sub);
        FieldsApart(t, i, j);
      }
      ShowsMore(o, f, row, row, emptyHash, keyed, plain, [own], row);
    } else {
      forall q | q in keyed
        ensures q.table !in Tables(f.sub)
      {
        var j :| 0 <= j < |t.fields| && t.fields[j].sub.HasParentKey() && q.table in Tables(t.fields[j].sub);
        FieldsApart(t, i, j);
      }
      ShowsMore(o, f, map[], row, emptyHash, plain, [], keyed + [own], row);
      assert [] + plain + (keyed + [own]) == plain + keyed + [own];
    }
  }

  /** In a record's own row, the cell of a value field's column is what is extracted from the field
      of that name. */
  lemma ValueCell(o: Obj, t: Translator, parent: Option<ParentRow>, emptyHash: Const, i: nat)
      returns (c: nat)
    requires WellFormed(t) && t.HDict? && RecordOf(o, t, parent, emptyHash).Some?
    requires i < |t.fields| && t.fields[i].sub.Value?
    ensures var rows := RecordOf(o, t, parent, emptyHash).value.0;
      && rows != [] && rows[|rows| - 1].table == t.table && |rows[|rows| - 1].cells| == |Columns(t)|
      && (forall k :: 0 <= k < |rows| - 1 ==> rows[k].table != t.table)
      && c < |Columns(t)| && Columns(t)[c] == t.fields[i].col
      && t.fields[i].sub.extract(FieldValue(o, t.fields[i].name)).Some?
      && rows[|rows| - 1].cells[c] == t.fields[i].sub.extract(FieldValue(o, t.fields[i].name))
  {
    RecordMeans(o, t, parent, emptyHash);
    var (rows, id) := RecordOf(o, t, parent, emptyHash).value;
    var row := FullRow(o, t, parent, emptyHash);
    hide RecordOf, FullRow, Tables;
    c := OwnCell(o, t, parent, row, rows[|rows| - 1], id, i);
    assert FieldShows(o, t.fields[i], map[], row, emptyHash, rows);
  }

  /** Where in the own row the cell of a field is. */
  lemma OwnCell(o: Obj, t: Translator, parent: Option<ParentRow>, row: ParentRow, own: TableRow, id: Cell, i: nat)
      returns (c: nat)
    requires t.HDict? && OwnShows(o, t, parent, row, own, id) && i < |t.fields| && !t.fields[i].sub.HasParentKey()
    ensures c < |Columns(t)| == |own.cells| && Columns(t)[c] == t.fields[i].col && t.fields[i].col in row
    ensures var v := row[t.fields[i].col]; own.cells[c] == if v.None? then Some(Str("None")) else v
  {
    var d := FieldColumnAt(t.fields, i);
    c := |LinkColumns(t.link)| + d;
  }

  ghost predicate FieldConvertible(o: Obj, f: Field, row: ParentRow, emptyHash: Const) {
    exists rows, cell :: FieldGives(o, f, row, emptyHash, rows, cell)
  }

  lemma FieldFails(o: Obj, t: Translator, i: nat, row: ParentRow, emptyHash: Const)
    requires t.HDict? && i < |t.fields|
    ensures FieldConvertible(o, t.fields[i], row, emptyHash) <==>
      if t.fields[i].sub.Value? then t.fields[i].sub.extract(GetValue(o, t.fields[i].name)).Some?
      else FieldOf(o, t, i, row, emptyHash).Some?
  {
    var f := t.fields[i];
    forall rows, cell
      ensures FieldGives(o, f, row, emptyHash, rows, cell) <==>
        if f.sub.Value? then rows == [] && cell.Some? && cell == f.sub.extract(GetValue(o, f.name))
        else FieldOf(o, t, i, row, emptyHash) == Some((rows, cell))
    {
      FieldIs(o, t, i, row, emptyHash, rows, cell);
    }
    hide FieldGives, FieldOf;
    if f.sub.Value? {
      assert f.sub.extract(GetValue(o, f.name)).Some? ==>
        FieldGives(o, f, row, emptyHash, [], f.sub.extract(GetValue(o, f.name)));
    } else if FieldOf(o, t, i, row, emptyHash).Some? {
      var (rows, cell) := FieldOf(o, t, i, row, emptyHash).value;
      assert FieldGives(o, f, row, emptyHash, rows, cell);
    }
  }

  ghost predicate FieldsConvertible(o: Obj, t: Translator, keyed: bool, k: nat, row: ParentRow, emptyHash: Const)
    requires t.HDict? && k <= |t.fields|
  {
    forall i :: 0 <= i < k && t.fields[i].sub.HasParentKey() == keyed ==>
      FieldConvertible(o, t.fields[i], row, emptyHash)
  }

  lemma {:induction false} PlainConverts(o: Obj, t: Translator, start: ParentRow, k: nat, emptyHash: Const)
    requires t.HDict? && k <= |t.fields|
    ensures PlainOf(o, t, start, k, emptyHash).Some? <==> FieldsConvertible(o, t, false, k, map[], emptyHash)
    decreases k
  {
    if k > 0 {
      PlainConverts(o, t, start, k - 1, emptyHash);
      if PlainOf(o, t, start, k - 1, emptyHash).Some? {
        var row := PlainOf(o, t, start, k - 1, emptyHash).value.1;
        PlainNext(o, t, start, k - 1, emptyHash);
        FieldFails(o, t, k - 1, row, emptyHash);
        RowIrrelevant(o, t.fields[k - 1], row, map[], emptyHash);
      } else {
        PlainFails(o, t, start, k - 1, k, emptyHash);
      }
      hide PlainOf, FieldConvertible, FieldOf;
    }
  }

  lemma RowIrrelevant(o: Obj, f: Field, p: ParentRow, q: ParentRow, emptyHash: Const)
    ensures !f.sub.HasParentKey() ==> (FieldConvertible(o, f, p, emptyHash) <==> FieldConvertible(o, f, q, emptyHash))
  {
    if !f.sub.HasParentKey() {
      forall rows, cell | FieldGives(o, f, p, emptyHash, rows, cell)
        ensures FieldGives(o, f, q, emptyHash, rows, cell)
      {
        FieldIrrelevant(o, f, p, q, emptyHash, rows, cell);
      }
      forall rows, cell | FieldGives(o, f, q, emptyHash, rows, cell)
        ensures FieldGives(o, f, p, emptyHash, rows, cell)
      {
        FieldIrrelevant(o, f, q, p, emptyHash, rows, cell);
      }
      hide FieldGives;
    }
  }

  lemma {:induction false} KeyedConverts(o: Obj, t: Translator, row: ParentRow, k: nat, emptyHash: Const)
    requires t.HDict? && k <= |t.fields|
    ensures KeyedOf(o, t, row, k, emptyHash).Some? <==> FieldsConvertible(o, t, true, k, row, emptyHash)
    decreases k
  {
    if k > 0 {
      KeyedConverts(o, t, row, k - 1, emptyHash);
      if KeyedOf(o, t, row, k - 1, emptyHash).Some? {
        KeyedNext(o, t, row, k - 1, emptyHash);
        FieldFails(o, t, k - 1, row, emptyHash);
      } else {
        KeyedFails(o, t, row, k - 1, k, emptyHash);
      }
      hide KeyedOf, FieldConvertible, FieldOf;
    }
  }

  /** A record can be converted iff all its fields can, and the link part can be made. */
  lemma RecordConverts(o: Obj, t: Translator, parent: Option<ParentRow>, emptyHash: Const)
    requires WellFormed(t) && t.HDict?
    ensures var row := FullRow(o, t, parent, emptyHash);
      RecordOf(o, t, parent, emptyHash).Some? <==>
      && FieldsConvertible(o, t, false, |t.fields|, map[], emptyHash)
      && FieldsConvertible(o, t, true, |t.fields|, row, emptyHash)
      && match t.link
        case Own => true
        case Id(_, compute) => compute(o, [CellsIn(t.fields, row)]).Some?
        case Parent(key, _) => parent.Some? && key in parent.value
  {
    var start, row, n := StartRow(t, parent), FullRow(o, t, parent, emptyHash), |t.fields|;
    StartApart(t, parent);
    PlainConverts(o, t, start, n, emptyHash);
    KeyedConverts(o, t, row, n, emptyHash);
    if PlainOf(o, t, start, n, emptyHash).Some? {
      PlainFills(o, t, start, n, emptyHash);
      ColumnGiven(t, start, row);
    }
    hide PlainOf, KeyedOf, FieldsConvertible, CellsIn, Filled, WellFormed;
  }

  lemma ColumnGiven(t: Translator, start: ParentRow, row: ParentRow)
    requires WellFormed(t) && t.HDict? && Filled(t, |t.fields|, start, row)
    ensures t.link.Parent? ==> (t.link.column in row <==> t.link.column in start)
  {
  }

  // ----- records in a list, and objects as they are converted

  ghost function RowsOfRecords(os: seq<Obj>, t: Translator, parent: Option<ParentRow>, k: nat, emptyHash: Const):
      (parts: seq<seq<TableRow>>)
    requires t.HDict? && k <= |os| && forall i :: 0 <= i < k ==> RecordOf(os[i], t, parent, emptyHash).Some?
    ensures |parts| == k && forall i :: 0 <= i < k ==> parts[i] == RecordOf(os[i], t, parent, emptyHash).value.0
  {
    seq(k, i requires 0 <= i < k => RecordOf(os[i], t, parent, emptyHash).value.0)
  }

  lemma {:induction false} RecordsAre(os: seq<Obj>, t: Translator, parent: Option<ParentRow>, k: nat, emptyHash: Const)
    requires t.HDict? && k <= |os|
    ensures var c := RecordsOf(os, t, parent, k, emptyHash);
      && (c.Some? <==> forall i :: 0 <= i < k ==> RecordOf(os[i], t, parent, emptyHash).Some?)
      && (c.Some? ==>
        && c.value.rows == Some(Joined(RowsOfRecords(os, t, parent, k, emptyHash)))
        && c.value.id == if k == 0 then None else RecordOf(os[k - 1], t, parent, emptyHash).value.1)
    decreases k
  {
    hide RecordOf;
    if k > 0 {
      RecordsAre(os, t, parent, k - 1, emptyHash);
      if RecordsOf(os, t, parent, k, emptyHash).Some? {
        var parts := RowsOfRecords(os, t, parent, k, emptyHash);
        assert parts[..k - 1] == RowsOfRecords(os, t, parent, k - 1, emptyHash);
      }
    }
  }

  /** A record translator converts one record, or a list of them one after the other. */
  lemma RecordsMean(o: Obj, t: Translator, parent: Option<ParentRow>, emptyHash: Const)
    requires t.HDict? && !o.Null?
    ensures var c, one := ConvertOf(o, t, parent, emptyHash), RecordOf(o, t, parent, emptyHash);
      !t.inList ==> c == if one.None? then None else Some(Converted(Some(one.value.0), one.value.1))
    ensures var c := ConvertOf(o, t, parent, emptyHash);
      t.inList ==>
        && (c.Some? <==> o.Listing? && forall e :: e in o.elements ==> RecordOf(e, t, parent, emptyHash).Some?)
        && (c.Some? ==>
          var n := |o.elements|;
          && c.value.rows == Some(Joined(RowsOfRecords(o.elements, t, parent, n, emptyHash)))
          && c.value.id == if n == 0 then None else RecordOf(o.elements[n - 1], t, parent, emptyHash).value.1)
  {
    if t.inList && o.Listing? {
      RecordsAre(o.elements, t, parent, |o.elements|, emptyHash);
      hide RecordsOf, RecordOf;
      assert forall e :: e in o.elements <==> exists i :: 0 <= i < |o.elements| && o.elements[i] == e;
    }
  }

  // ----- one row of its own for each object

  /** How many objects of the translator's own kind there are in an object. */
  function Units(o: Obj, t: Translator): nat
    requires !t.Value?
  {
    match o
    case Listing(elements) => if t.Lists? || (t.HDict? && t.inList) then |elements| else 1
    case Items(pairs) => if t.VDict? then |pairs| else 1
    case _ => 1
  }

  lemma LastAlone(table: Name, rows: seq<TableRow>)
    requires rows != [] && rows[|rows| - 1].table == table
    requires forall k :: 0 <= k < |rows| - 1 ==> rows[k].table != table
    ensures RowsIn(table, rows) == [rows[|rows| - 1].cells]
  {
    RowsInNone(table, rows[..|rows| - 1]);
  }

  /** The rows of a table in all parts, one for each. */
  ghost predicate HasOneEach(table: Name, parts: seq<seq<TableRow>>, rows: seq<seq<Cell>>) {
    |rows| == |parts| && forall i :: 0 <= i < |parts| ==> RowsIn(table, parts[i]) == [rows[i]]
  }

  lemma {:induction false} OneEach(table: Name, parts: seq<seq<TableRow>>)
    requires forall i :: 0 <= i < |parts| ==> |RowsIn(table, parts[i])| == 1
    ensures HasOneEach(table, parts, RowsIn(table, Joined(parts)))
    decreases |parts|
  {
    if parts != [] {
      var n := |parts| - 1;
      OneEach(table, parts[..n]);
      RowsInBoth(table, Joined(parts[..n]), parts[n]);
      assert parts == parts[..n] + [parts[n]];
      hide RowsIn;
      assert RowsIn(table, Joined(parts)) == RowsIn(table, Joined(parts[..n])) + RowsIn(table, parts[n]);
      OneMore(table, parts[..n], parts[n], RowsIn(table, Joined(parts[..n])), RowsIn(table, parts[n])[0]);
    }
  }

  lemma OneMore(table: Name, parts: seq<seq<TableRow>>, part: seq<TableRow>, rows: seq<seq<Cell>>, row: seq<Cell>)
    requires HasOneEach(table, parts, rows) && RowsIn(table, part) == [row]
    ensures HasOneEach(table, parts + [part], rows + [row])
  {
    hide RowsIn;
  }

  lemma RecordOnce(o: Obj, t: Translator, parent: Option<ParentRow>, emptyHash: Const)
    requires WellFormed(t) && t.HDict? && RecordOf(o, t, parent, emptyHash).Some?
    ensures var rows := RecordOf(o, t, parent, emptyHash).value.0;
      rows != [] && RowsIn(t.table, rows) == [rows[|rows| - 1].cells]
  {
    RecordMeans(o, t, parent, emptyHash);
    var (rows, id) := RecordOf(o, t, parent, emptyHash).value;
    hide RecordOf, FullRow, Tables, FieldShows;
    LastAlone(t.table, rows);
  }

  lemma AppendedOnce(t: Translator, parent: Option<ParentRow>, below: seq<TableRow>, rests: seq<seq<Cell>>,
      c: Converted)
    requires !t.Value? && OneRowEach(t, parent, below, rests, c)
    ensures |RowsIn(t.table, c.rows.value)| == |rests|
    ensures forall i :: 0 <= i < |rests| ==> RowsIn(t.table, c.rows.value)[i] == c.rows.value[|below| + i].cells
  {
    var rows := c.rows.value;
    var own := rows[|below|..];
    assert rows == below + own;
    RowsInNone(t.table, below);
    RowsInBoth(t.table, below, own);
    var cells := seq(|own|, i requires 0 <= i < |own| => own[i].cells);
    forall i | 0 <= i < |own|
      ensures own[i] == TableRow(t.table, [] + cells[i])
    {
      assert own[i] == rows[|below| + i] && IsOwn(t, c.id, parent, rests[i], rows[|below| + i]);
      assert [] + cells[i] == cells[i];
    }
    RowsInOwn(t.table, [], cells, own);
  }

  /** Every record, every element of a list and every pair of a dictionary gives exactly one row of
      the table of its translator. */
  lemma OneRowForEach(o: Obj, t: Translator, parent: Option<ParentRow>, emptyHash: Const)
    requires WellFormed(t) && !t.Value? && !o.Null? && ConvertOf(o, t, parent, emptyHash).Some?
    ensures var c := ConvertOf(o, t, parent, emptyHash).value;
      c.rows.Some? && |RowsIn(t.table, c.rows.value)| == Units(o, t)
  {
    match t
    case HDict(_, _, _, _, inList) =>
      RecordsMean(o, t, parent, emptyHash);
      if inList {
        var parts := RowsOfRecords(o.elements, t, parent, |o.elements|, emptyHash);
        forall i | 0 <= i < |parts|
          ensures |RowsIn(t.table, parts[i])| == 1
        {
          RecordOnce(o.elements[i], t, parent, emptyHash);
        }
        OneEach(t.table, parts);
      } else {
        RecordOnce(o, t, parent, emptyHash);
      }
    case VDict(_, _, _, _, _, _) =>
      DictShows(o, t, parent, emptyHash);
      var n := |o.pairs|;
      AppendedOnce(t, parent, Joined(DictParts(o.pairs, t, n, emptyHash)), DictRests(o.pairs, t, n, emptyHash),
        ConvertOf(o, t, parent, emptyHash).value);
    case Lists(_, _, _, _, _) =>
      ListShows(o, t, parent, emptyHash);
      var n := |o.elements|;
      AppendedOnce(t, parent, Joined(ListParts(o.elements, t, n, emptyHash)), ListRests(o.elements, t, n, emptyHash),
        ConvertOf(o, t, parent, emptyHash).value);
  }

  // ----- the rows of several objects, and the names of their columns

  /** Rows put together keep their order, and none is lost. */
  lemma {:induction false} JoinedBoth<T>(a: seq<seq<T>>, b: seq<seq<T>>)
    ensures Joined(a + b) == Joined(a) + Joined(b)
    ensures |a| == 1 ==> Joined(a) == a[0]
    decreases |b|
  {
    if b == [] {
      assert a + b == a;
    } else {
      var n := |b| - 1;
      JoinedBoth(a, b[..n]);
      assert (a + b)[..|a + b| - 1] == a + b[..n];
    }
  }

  /** The columns of a table: the link part first, then those of the fields in their order, the key
      and the value, or the value. */
  lemma SchemaColumns(t: Translator, schema: Schema)
    requires !t.Value? && GetSchema(t, schema).Some?
    ensures t.table in GetSchema(t, schema).value
    ensures var columns := GetSchema(t, schema).value[t.table];
      var k := if t.link.Own? then 0 else 1;
      && (t.link.Id? ==> |columns| > 0 && columns[0] == t.link.name)
      && (t.link.Parent? ==> |columns| > 0 && columns[0] == t.link.column)
      && (t.Lists? ==> columns[k..] == [t.valCol])
      && (t.VDict? ==> columns[k..] == if t.sub.HasParentKey() then [t.keyCol] else [t.keyCol, t.valCol])
      && (t.HDict? ==> |columns| >= k && IsColumns(t.fields, columns[k..]))
  {
    if t.HDict? {
      FieldColumnsAre(t.fields);
      assert Columns(t)[|LinkColumns(t.link)|..] == FieldColumns(t.fields);
    }
  }

  /** The columns of the fields that are not tied by a parent key, in their order. */
  ghost predicate IsColumns(fields: seq<Field>, columns: seq<Name>)
    decreases |fields|
  {
    if fields == [] then columns == []
    else if fields[0].sub.HasParentKey() then IsColumns(fields[1..], columns)
    else columns != [] && columns[0] == fields[0].col && IsColumns(fields[1..], columns[1..])
  }

  lemma {:induction false} FieldColumnsAre(fields: seq<Field>)
    ensures IsColumns(fields, FieldColumns(fields))
    decreases |fields|
  {
    if fields != [] {
      var last := fields[|fields| - 1];
      FieldColumnsAre(fields[..|fields| - 1]);
      ColumnsMore(fields[..|fields| - 1], FieldColumns(fields[..|fields| - 1]), last);
      assert fields[..|fields| - 1] + [last] == fields;
    }
  }

  lemma {:induction false} ColumnsMore(fields: seq<Field>, columns: seq<Name>, last: Field)
    requires IsColumns(fields, columns)
    ensures IsColumns(fields + [last], columns + if last.sub.HasParentKey() then [] else [last.col])
    decreases |fields|
  {
    var more := if last.sub.HasParentKey() then [] else [last.col];
    var all := fields + [last];
    if fields == [] {
      assert all == [last] && all[1..] == [] && columns + more == more;
      assert more != [] ==> more[1..] == [];
    } else {
      assert all[0] == fields[0] && all[1..] == fields[1..] + [last];
      if fields[0].sub.HasParentKey() {
        ColumnsMore(fields[1..], columns, last);
      } else {
        ColumnsMore(fields[1..], columns[1..], last);
        assert (columns + more)[1..] == columns[1..] + more;
      }
    }
  }
}
