/** Translating objects to rows of tables: congress/datasources/datasource_driver.py. */
module Translators {
  import opened Options
  import opened Datalog

  /** What a cloud client returns. */
  datatype Obj =
    | Null
    | Scalar(value: Const)
    | Record(fields: map<Name, Obj>)
    | Items(pairs: seq<(Const, Obj)>)
    | Listing(elements: seq<Obj>)

  /** A cell holds a value, or Python's None. */
  type Cell = Option<Const>

  datatype TableRow = TableRow(table: Name, cells: seq<Cell>)

  /** How the rows of a table are tied to those of the table above: not at all, by an identifier
      that the row above holds, or by repeating a value of the row above. */
  datatype Link =
    | Own
    | Id(name: Name, compute: (Obj, seq<seq<Cell>>) -> Option<Const>)
    | Parent(key: Name, column: Name)

  datatype Field = Field(name: Name, col: Name, sub: Translator)

  /** Functions given by the driver may raise an exception, shown by None. */
  datatype Translator =
    | Value(extract: Obj -> Option<Const>)
    | HDict(table: Name, link: Link, prepare: Obj -> Option<Obj>, fields: seq<Field>, inList: bool)
    | VDict(table: Name, link: Link, prepare: Obj -> Option<Obj>, keyCol: Name, valCol: Name, sub: Translator)
    | Lists(table: Name, link: Link, prepare: Obj -> Option<Obj>, valCol: Name, sub: Translator)
  {
    predicate HasParentKey() {
      !Value? && link.Parent?
    }

    predicate HasId() {
      !Value? && link.Id?
    }
  }

  // ----- the schema

  function LinkColumns(link: Link): seq<Name> {
    match link
    case Own => []
    case Id(name, _) => [name]
    case Parent(_, column) => [column]
  }

  /** The columns of the fields that are not tied by a parent key. */
  function FieldColumns(fields: seq<Field>): seq<Name> {
    if fields == [] then []
    else
      var last := fields[|fields| - 1];
      FieldColumns(fields[..|fields| - 1]) + if last.sub.HasParentKey() then [] else [last.col]
  }

  function Columns(t: Translator): seq<Name>
    requires !t.Value?
  {
    match t
    case HDict(_, link, _, fields, _) => LinkColumns(link) + FieldColumns(fields)
    case VDict(_, link, _, keyCol, valCol, sub) =>
      LinkColumns(link) + [keyCol] + if sub.HasParentKey() then [] else [valCol]
    case Lists(_, link, _, valCol, _) => LinkColumns(link) + [valCol]
  }

  type Schema = map<Name, seq<Name>>

  /** The schema of a translator on top of a given one; None if a table is there already. */
  function GetSchema(t: Translator, schema: Schema): Option<Schema>
    decreases t, 0
  {
    if t.Value? then Some(schema)
    else
      var inner := if t.HDict? then FieldSchemas(t, |t.fields|, schema) else GetSchema(t.sub, schema);
      if inner.None? || t.table in inner.value then None else Some(inner.value[t.table := Columns(t)])
  }

  /** The schemas of the first k fields. */
  function FieldSchemas(t: Translator, k: nat, schema: Schema): Option<Schema>
    requires t.HDict? && k <= |t.fields|
    decreases t, 0, k
  {
    if k == 0 then Some(schema)
    else
      var before := FieldSchemas(t, k - 1, schema);
      if before.None? then None else GetSchema(t.fields[k - 1].sub, before.value)
  }

  /** The tables of a translator, the root first: what its registration records as dependent. */
  function Tables(t: Translator): set<Name> {
    match t
    case Value(_) => {}
    case HDict(table, _, _, fields, _) => {table} + set i, x | 0 <= i < |fields| && x in Tables(fields[i].sub) :: x
    case VDict(table, _, _, _, _, sub) => {table} + Tables(sub)
    case Lists(table, _, _, _, sub) => {table} + Tables(sub)
  }

  // ----- well-formed translators

  ghost predicate Tied(sub: Translator) {
    !sub.Value? ==> !sub.link.Own?
  }

  ghost predicate WellFormed(t: Translator) {
    match t
    case Value(_) => true
    case HDict(table, link, _, fields, _) =>
      && (forall i :: 0 <= i < |fields| ==>
        WellFormed(fields[i].sub) && Tied(fields[i].sub) && table !in Tables(fields[i].sub))
      && (forall i, j :: 0 <= i < j < |fields| ==>
        fields[i].col != fields[j].col && Tables(fields[i].sub) !! Tables(fields[j].sub))
      && (link.Parent? ==> forall i :: 0 <= i < |fields| ==> fields[i].col != link.column)
    case VDict(table, _, _, _, _, sub) => WellFormed(sub) && Tied(sub) && table !in Tables(sub)
    case Lists(table, _, _, _, sub) => WellFormed(sub) && (!sub.Value? ==> sub.link.Id?) && table !in Tables(sub)
  }

  // ----- what is said about rows

  /** The row is of a table of the translator and as wide as its columns. */
  ghost predicate Fits(t: Translator, row: TableRow) {
    match t
    case Value(_) => false
    case HDict(table, _, _, fields, _) =>
      (row.table == table && |row.cells| == |Columns(t)|) || exists i :: 0 <= i < |fields| && Fits(fields[i].sub, row)
    case VDict(table, _, _, _, _, sub) => (row.table == table && |row.cells| == |Columns(t)|) || Fits(sub, row)
    case Lists(table, _, _, _, sub) => (row.table == table && |row.cells| == |Columns(t)|) || Fits(sub, row)
  }

  /** How a cell shows in a row: None becomes text. */
  function Shown(c: Cell): Cell {
    if c.None? then Some(Str("None")) else c
  }

  /** Some row of the table t has, in the column named key, the value v. */
  ghost predicate Held(t: Translator, rows: seq<TableRow>, key: Name, v: Cell)
    requires !t.Value?
  {
    exists p, c :: p in rows && p.table == t.table && |p.cells| == |Columns(t)| && 0 <= c < |Columns(t)|
      && Columns(t)[c] == key && Shown(p.cells[c]) == Shown(v)
  }

  /** Every row of sub starts with a value that a row of t holds. */
  ghost predicate Rooted(t: Translator, sub: Translator, rows: seq<TableRow>)
    requires !t.Value?
  {
    sub.HasParentKey() ==> forall row :: row in rows && row.table == sub.table ==>
      |row.cells| > 0 && Held(t, rows, sub.link.key, row.cells[0])
  }

  /** The same everywhere in the tree below t. */
  ghost predicate Linked(t: Translator, rows: seq<TableRow>) {
    match t
    case Value(_) => true
    case HDict(_, _, _, fields, _) =>
      forall i :: 0 <= i < |fields| ==> Rooted(t, fields[i].sub, rows) && Linked(fields[i].sub, rows)
    case VDict(_, _, _, _, _, sub) => Rooted(t, sub, rows) && Linked(sub, rows)
    case Lists(_, _, _, _, sub) => Rooted(t, sub, rows) && Linked(sub, rows)
  }

  type ParentRow = map<Name, Cell>

  /** The rows of t itself repeat the value of the parent's row. */
  ghost predicate StartsRight(t: Translator, rows: seq<TableRow>, parent: Option<ParentRow>) {
    t.HasParentKey() ==> forall row :: row in rows && row.table == t.table ==>
      |row.cells| > 0 && parent.Some? && t.link.key in parent.value && row.cells[0] == parent.value[t.link.key]
  }

  /** All that is promised about the rows of one conversion. */
  ghost predicate Proper(t: Translator, rows: seq<TableRow>, parent: Option<ParentRow>) {
    && (forall row :: row in rows ==> Fits(t, row))
    && Linked(t, rows) && StartsRight(t, rows, parent)
  }

  lemma {:induction false} FitsTable(t: Translator, row: TableRow)
    requires Fits(t, row)
    ensures row.table in Tables(t)
    decreases t
  {
    match t
    case HDict(table, _, _, fields, _) =>
      if !(row.table == table && |row.cells| == |Columns(t)|) {
        var i :| 0 <= i < |fields| && Fits(fields[i].sub, row);
        FitsTable(fields[i].sub, row);
      }
    case VDict(_, _, _, _, _, sub) =>
      if Fits(sub, row) {
        FitsTable(sub, row);
      }
    case Lists(_, _, _, _, sub) =>
      if Fits(sub, row) {
        FitsTable(sub, row);
      }
  }

  lemma HeldMore(t: Translator, a: seq<TableRow>, b: seq<TableRow>, key: Name, v: Cell)
    requires !t.Value? && (Held(t, a, key, v) || Held(t, b, key, v))
    ensures Held(t, a + b, key, v)
  {
    if Held(t, a, key, v) {
      var p, c :| p in a && p.table == t.table && |p.cells| == |Columns(t)| && 0 <= c < |Columns(t)|
        && Columns(t)[c] == key && Shown(p.cells[c]) == Shown(v);
      assert p in a + b;
    } else {
      var p, c :| p in b && p.table == t.table && |p.cells| == |Columns(t)| && 0 <= c < |Columns(t)|
        && Columns(t)[c] == key && Shown(p.cells[c]) == Shown(v);
      assert p in a + b;
    }
  }

  lemma RootedUnion(t: Translator, sub: Translator, a: seq<TableRow>, b: seq<TableRow>)
    requires !t.Value? && Rooted(t, sub, a) && Rooted(t, sub, b)
    ensures Rooted(t, sub, a + b)
  {
    if sub.HasParentKey() {
      forall row | row in a + b && row.table == sub.table
        ensures |row.cells| > 0 && Held(t, a + b, sub.link.key, row.cells[0])
      {
        HeldMore(t, a, b, sub.link.key, row.cells[0]);
      }
    }
  }

  /** Rows of two conversions may be put together. */
  lemma {:induction false} LinkedUnion(t: Translator, a: seq<TableRow>, b: seq<TableRow>)
    requires Linked(t, a) && Linked(t, b)
    ensures Linked(t, a + b)
    decreases t
  {
    match t
    case Value(_) =>
    case HDict(_, _, _, fields, _) =>
      forall i | 0 <= i < |fields|
        ensures Rooted(t, fields[i].sub, a + b) && Linked(fields[i].sub, a + b)
      {
        RootedUnion(t, fields[i].sub, a, b);
        LinkedUnion(fields[i].sub, a, b);
      }
    case VDict(_, _, _, _, _, sub) =>
      RootedUnion(t, sub, a, b);
      LinkedUnion(sub, a, b);
    case Lists(_, _, _, _, sub) =>
      RootedUnion(t, sub, a, b);
      LinkedUnion(sub, a, b);
  }

  /** Rows of other tables do not matter. */
  lemma {:induction false} LinkedVoid(t: Translator, rows: seq<TableRow>)
    requires forall row :: row in rows ==> row.table !in Tables(t)
    ensures Linked(t, rows)
    decreases t
  {
    match t
    case Value(_) =>
    case HDict(_, _, _, fields, _) =>
      forall i | 0 <= i < |fields|
        ensures Rooted(t, fields[i].sub, rows) && Linked(fields[i].sub, rows)
      {
        assert Tables(fields[i].sub) <= Tables(t);
        assert !fields[i].sub.Value? ==> fields[i].sub.table in Tables(fields[i].sub);
        LinkedVoid(fields[i].sub, rows);
      }
    case VDict(_, _, _, _, _, sub) =>
      assert !sub.Value? ==> sub.table in Tables(sub);
      LinkedVoid(sub, rows);
    case Lists(_, _, _, _, sub) =>
      assert !sub.Value? ==> sub.table in Tables(sub);
      LinkedVoid(sub, rows);
  }

  /** The schema has every table of the translator, and the rows that fit have its width. */
  lemma {:induction false} SchemaHas(t: Translator, schema: Schema)
    requires GetSchema(t, schema).Some?
    ensures var s := GetSchema(t, schema).value;
      && s.Keys == schema.Keys + Tables(t)
      && (forall x :: x in schema ==> s[x] == schema[x])
      && forall row :: Fits(t, row) ==> row.table in s && |row.cells| == |s[row.table]|
    decreases t, 0
  {
    match t
    case Value(_) =>
    case HDict(_, _, _, fields, _) =>
      FieldSchemasHave(t, |fields|, schema);
      forall row | Fits(t, row)
        ensures row.table in GetSchema(t, schema).value && |row.cells| == |GetSchema(t, schema).value[row.table]|
      {
        if !(row.table == t.table && |row.cells| == |Columns(t)|) {
          var i :| 0 <= i < |fields| && Fits(fields[i].sub, row);
        }
      }
    case VDict(_, _, _, _, _, sub) => SchemaHas(sub, schema);
    case Lists(_, _, _, _, sub) => SchemaHas(sub, schema);
  }

  lemma {:induction false} FieldSchemasHave(t: Translator, k: nat, schema: Schema)
    requires t.HDict? && k <= |t.fields| && FieldSchemas(t, k, schema).Some?
    ensures var s := FieldSchemas(t, k, schema).value;
      && (forall x :: x in s <==> x in schema || exists i :: 0 <= i < k && x in Tables(t.fields[i].sub))
      && (forall x :: x in schema ==> s[x] == schema[x])
      && forall row, i :: 0 <= i < k && Fits(t.fields[i].sub, row) ==> row.table in s && |row.cells| == |s[row.table]|
    decreases t, 0, k
  {
    if k > 0 {
      var sub, before := t.fields[k - 1].sub, FieldSchemas(t, k - 1, schema).value;
      FieldSchemasHave(t, k - 1, schema);
      SchemaHas(sub, before);
      hide Fits, Tables, GetSchema;
      FieldSchemasNext(t, k - 1, schema, before, GetSchema(sub, before).value);
    }
  }

  /** One more field adds its tables and changes no other. */
  lemma FieldSchemasNext(t: Translator, k: nat, schema: Schema, before: Schema, s: Schema)
    requires t.HDict? && k < |t.fields|
    requires forall x :: x in before <==> x in schema || exists i :: 0 <= i < k && x in Tables(t.fields[i].sub)
    requires forall x :: x in schema ==> before[x] == schema[x]
    requires forall row, i :: 0 <= i < k && Fits(t.fields[i].sub, row) ==>
      row.table in before && |row.cells| == |before[row.table]|
    requires s.Keys == before.Keys + Tables(t.fields[k].sub) && forall x :: x in before ==> s[x] == before[x]
    requires forall row :: Fits(t.fields[k].sub, row) ==> row.table in s && |row.cells| == |s[row.table]|
    ensures forall x :: x in s <==> x in schema || exists i :: 0 <= i < k + 1 && x in Tables(t.fields[i].sub)
    ensures forall x :: x in schema ==> s[x] == schema[x]
    ensures forall row, i :: 0 <= i < k + 1 && Fits(t.fields[i].sub, row) ==>
      row.table in s && |row.cells| == |s[row.table]|
  {
    hide Fits, Tables;
    forall x
      ensures x in s <==> x in schema || exists i :: 0 <= i < k + 1 && x in Tables(t.fields[i].sub)
    {
      if x in Tables(t.fields[k].sub) {
        assert 0 <= k < k + 1 && x in Tables(t.fields[k].sub);
      }
    }
  }

  /** A well-formed tree never runs into a table that is there already. */
  lemma {:induction false} SchemaExists(t: Translator, schema: Schema)
    requires WellFormed(t) && Tables(t) !! schema.Keys
    ensures GetSchema(t, schema).Some?
    decreases t, 0
  {
    match t
    case Value(_) =>
    case HDict(table, _, _, fields, _) =>
      FieldSchemasExist(t, |fields|, schema);
      FieldSchemasHave(t, |fields|, schema);
      forall i | 0 <= i < |fields|
        ensures table !in Tables(fields[i].sub)
      {
      }
      assert table in Tables(t);
    case VDict(table, _, _, _, _, sub) =>
      assert Tables(sub) <= Tables(t) && table in Tables(t);
      SchemaExists(sub, schema);
      SchemaHas(sub, schema);
    case Lists(table, _, _, _, sub) =>
      assert Tables(sub) <= Tables(t) && table in Tables(t);
      SchemaExists(sub, schema);
      SchemaHas(sub, schema);
  }

  lemma {:induction false} FieldSchemasExist(t: Translator, k: nat, schema: Schema)
    requires t.HDict? && WellFormed(t) && Tables(t) !! schema.Keys && k <= |t.fields|
    ensures FieldSchemas(t, k, schema).Some?
    decreases t, 0, k
  {
    if k > 0 {
      FieldSchemasExist(t, k - 1, schema);
      FieldSchemasHave(t, k - 1, schema);
      var sub, s := t.fields[k - 1].sub, FieldSchemas(t, k - 1, schema).value;
      forall x | x in Tables(sub)
        ensures x !in s
      {
        assert x in Tables(t);
        forall i | 0 <= i < k - 1
          ensures x !in Tables(t.fields[i].sub)
        {
          assert Tables(t.fields[i].sub) !! Tables(sub);
        }
      }
      SchemaExists(sub, s);
    }
  }

  // ----- conversion

  datatype Converted = Converted(rows: Option<seq<TableRow>>, id: Cell)

  function GetValue(o: Obj, field: Name): Obj {
    if o.Record? && field in o.fields then o.fields[field] else Null
  }

  function Falsy(c: Cell): bool {
    c == None || c == Some(Str("")) || c == Some(Num(0))
  }

  /** The link part of a row: an identifier computed from the row, or the parent's value. */
  function LinkCells(link: Link, id: Cell, parent: Option<ParentRow>): Option<seq<Cell>> {
    match link
    case Own => Some([])
    case Id(_, _) => Some([id])
    case Parent(key, _) => if parent.Some? && key in parent.value then Some([parent.value[key]]) else None
  }

  lemma LinkCellsFit(link: Link, id: Cell, parent: Option<ParentRow>)
    ensures LinkCells(link, id, parent).Some? ==> |LinkCells(link, id, parent).value| == |LinkColumns(link)|
  {
  }

  /** Rows of the table itself, each made of the link part and a rest. */
  function OwnRows(table: Name, link: seq<Cell>, rests: seq<seq<Cell>>): (rows: seq<TableRow>)
    ensures |rows| == |rests| && forall i :: 0 <= i < |rows| ==> rows[i] == TableRow(table, link + rests[i])
  {
    seq(|rests|, i requires 0 <= i < |rests| => TableRow(table, link + rests[i]))
  }

  /** Rows from below followed by rows of the table itself. */
  lemma ProperRows(t: Translator, below: seq<TableRow>, rests: seq<seq<Cell>>, id: Cell, parent: Option<ParentRow>)
    requires (t.VDict? || t.Lists?) && WellFormed(t)
    requires forall row :: row in below ==> Fits(t.sub, row)
    requires Linked(t.sub, below) && LinkCells(t.link, id, parent).Some?
    requires forall i :: 0 <= i < |rests| ==> |rests[i]| + |LinkColumns(t.link)| == |Columns(t)|
    requires t.sub.HasParentKey() ==> forall row :: row in below && row.table == t.sub.table ==>
      |row.cells| > 0 && HeldByRest(t, rests, row.cells[0])
    ensures Proper(t, below + OwnRows(t.table, LinkCells(t.link, id, parent).value, rests), parent)
  {
    var link := LinkCells(t.link, id, parent).value;
    var own := OwnRows(t.table, link, rests);
    var rows := below + own;
    LinkCellsFit(t.link, id, parent);
    forall row | row in below
      ensures row.table != t.table
    {
      FitsTable(t.sub, row);
    }
    LinkedVoid(t.sub, own);
    LinkedUnion(t.sub, below, own);
    if t.sub.HasParentKey() {
      forall row | row in rows && row.table == t.sub.table
        ensures |row.cells| > 0 && Held(t, rows, t.sub.link.key, row.cells[0])
      {
        assert row in below by {
          assert t.sub.table in Tables(t.sub);
        }
        var i :| 0 <= i < |rests| && HeldAt(t, rests[i], row.cells[0]);
        HeldByOwn(t, rows, own[i], link, rests[i], row.cells[0]);
      }
    }
  }

  /** The rest of a row holds, in the key column, the value that the rows below start with. */
  ghost predicate HeldAt(t: Translator, rest: seq<Cell>, v: Cell)
    requires !t.Value?
  {
    t.VDict? && t.sub.HasParentKey() && t.sub.link.key == t.keyCol && |rest| > 0 && rest[0] == v
  }

  ghost predicate HeldByRest(t: Translator, rests: seq<seq<Cell>>, v: Cell)
    requires !t.Value?
  {
    exists i :: 0 <= i < |rests| && HeldAt(t, rests[i], v)
  }

  lemma HeldByOwn(t: Translator, rows: seq<TableRow>, row: TableRow, link: seq<Cell>, rest: seq<Cell>, v: Cell)
    requires !t.Value? && HeldAt(t, rest, v) && |link| == |LinkColumns(t.link)|
    requires row in rows && row == TableRow(t.table, link + rest) && |row.cells| == |Columns(t)|
    ensures Held(t, rows, t.sub.link.key, v)
  {
    var c := |link|;
    assert Columns(t)[c] == t.keyCol && row.cells[c] == v;
  }

  // ----- conversion as a function

  /** What an object gives: rows, unless it is null, and an identifier if it has one. */
  function ConvertOf(o: Obj, t: Translator, parent: Option<ParentRow>, emptyHash: Const): Option<Converted>
    requires !t.Value?
    decreases t, 3
  {
    if o.Null? then Some(Converted(None, None))
    else
      match t
      case HDict(_, _, _, _, inList) =>
        if inList then if o.Listing? then RecordsOf(o.elements, t, parent, |o.elements|, emptyHash) else None
        else
          var one := RecordOf(o, t, parent, emptyHash);
          if one.None? then None else Some(Converted(Some(one.value.0), one.value.1))
      case VDict(_, _, _, _, _, _) =>
        if !o.Items? then None
        else
          var c := PairsOf(o.pairs, t, |o.pairs|, emptyHash);
          if c.None? then None else FinishOf(t, o, c.value.0, c.value.1, parent)
      case Lists(_, _, _, _, sub) =>
        if !o.Listing? then None
        else
          var c := ElementsOf(o.elements, t, |o.elements|, emptyHash);
          if c.None? || (!sub.Value? && t.link.Id? && o.elements == []) then None
          else FinishOf(t, if sub.Value? then o else LastOf(o, t), c.value.0, c.value.1, parent)
  }

  /** The element that was looked at last: the identifier of a list is computed from it. */
  function LastOf(o: Obj, t: Translator): Obj
    requires o.Listing? && t.Lists? && !t.sub.Value?
  {
    if o.elements == [] then o else Prepared(o.elements[|o.elements| - 1], t.sub)
  }

  function Prepared(o: Obj, sub: Translator): Obj
    requires !sub.Value?
  {
    if o.Null? || sub.prepare(o).None? then o else sub.prepare(o).value
  }

  /** Rows from below, and then a row for each rest. */
  function FinishOf(t: Translator, o: Obj, below: seq<TableRow>, rests: seq<seq<Cell>>, parent: Option<ParentRow>):
      Option<Converted>
    requires t.VDict? || t.Lists?
  {
    var h: Cell := if t.link.Id? then t.link.compute(o, rests) else None;
    if t.link.Id? && h.None? then None
    else
      var link := LinkCells(t.link, h, parent);
      if link.None? then if t.sub.Value? || rests != [] then None else Some(Converted(Some(below), h))
      else Some(Converted(Some(below + OwnRows(t.table, link.value, rests)), h))
  }

  /** The first k elements of a list: the rows below, and what each puts in its own row. */
  function ElementsOf(os: seq<Obj>, t: Translator, k: nat, emptyHash: Const): Option<(seq<TableRow>, seq<seq<Cell>>)>
    requires t.Lists? && k <= |os|
    decreases t, 2, k
  {
    if k == 0 then Some(([], []))
    else
      var before := ElementsOf(os, t, k - 1, emptyHash);
      if before.None? then None
      else if t.sub.Value? then
        var v := t.sub.extract(os[k - 1]);
        if v.None? then None else Some((before.value.0, before.value.1 + [[v]]))
      else
        var c := BelowOf(os[k - 1], t.sub, None, emptyHash);
        if c.None? || Falsy(c.value.1) then None
        else Some((before.value.0 + c.value.0, before.value.1 + [[c.value.1]]))
  }

  /** The first k pairs of a dictionary. */
  function PairsOf(pairs: seq<(Const, Obj)>, t: Translator, k: nat, emptyHash: Const):
      Option<(seq<TableRow>, seq<seq<Cell>>)>
    requires t.VDict? && k <= |pairs|
    decreases t, 2, k
  {
    if k == 0 then Some(([], []))
    else
      var before := PairsOf(pairs, t, k - 1, emptyHash);
      var (key, o) := pairs[k - 1];
      if before.None? then None
      else if t.sub.Value? then
        var v := t.sub.extract(o);
        if v.None? then None else Some((before.value.0, before.value.1 + [[Some(key), v]]))
      else
        var c := BelowOf(o, t.sub, Some(map[t.keyCol := Some(key)]), emptyHash);
        if c.None? then None
        else Some((before.value.0 + c.value.0,
          before.value.1 + [[Some(key)] + if t.sub.HasId() then [c.value.1] else []]))
  }

  /** What an object in a list or a dictionary gives: its rows, and what stands for it above. */
  function BelowOf(o: Obj, sub: Translator, parent: Option<ParentRow>, emptyHash: Const): Option<(seq<TableRow>, Cell)>
    requires !sub.Value?
    decreases sub, 4
  {
    if o.Null? then Some(([], Some(emptyHash)))
    else
      var prepared := sub.prepare(o);
      if prepared.None? then None
      else
        var c := ConvertOf(prepared.value, sub, parent, emptyHash);
        if c.None? then None
        else Some((if c.value.rows.Some? then c.value.rows.value else [], c.value.id))
  }

  /** What a field gives that is not a value. */
  function FieldOf(o: Obj, t: Translator, i: nat, row: ParentRow, emptyHash: Const): Option<(seq<TableRow>, Cell)>
    requires t.HDict? && i < |t.fields| && !t.fields[i].sub.Value?
    decreases t, 0
  {
    var sub, v := t.fields[i].sub, GetValue(o, t.fields[i].name);
    if v.Null? then Some(([], if sub.HasId() then Some(emptyHash) else None))
    else
      var prepared := sub.prepare(v);
      if prepared.None? then None
      else
        var c := ConvertOf(prepared.value, sub, Some(row), emptyHash);
        if c.None? || c.value.rows.None? then None else Some((c.value.rows.value, c.value.id))
  }

  /** The first k fields, without those that are tied by a parent key: their rows, and the row of
      the record so far. */
  function PlainOf(o: Obj, t: Translator, start: ParentRow, k: nat, emptyHash: Const):
      Option<(seq<TableRow>, ParentRow)>
    requires t.HDict? && k <= |t.fields|
    decreases t, 1, k
  {
    if k == 0 then Some(([], start))
    else
      var before := PlainOf(o, t, start, k - 1, emptyHash);
      var f := t.fields[k - 1];
      if before.None? || f.sub.HasParentKey() then before
      else if f.sub.Value? then
        var v := f.sub.extract(GetValue(o, f.name));
        if v.None? then None else Some((before.value.0, before.value.1[f.col := v]))
      else
        var c := FieldOf(o, t, k - 1, before.value.1, emptyHash);
        if c.None? then None else Some((before.value.0 + c.value.0, before.value.1[f.col := c.value.1]))
  }

  /** The rows of those among the first k fields that are tied by a parent key. */
  function KeyedOf(o: Obj, t: Translator, row: ParentRow, k: nat, emptyHash: Const): Option<seq<TableRow>>
    requires t.HDict? && k <= |t.fields|
    decreases t, 1, k
  {
    if k == 0 then Some([])
    else
      var before := KeyedOf(o, t, row, k - 1, emptyHash);
      if before.None? || !t.fields[k - 1].sub.HasParentKey() then before
      else
        var c := FieldOf(o, t, k - 1, row, emptyHash);
        if c.None? then None else Some(before.value + c.value.0)
  }

  /** The cells of the first fields that the row has. */
  function CellsIn(fields: seq<Field>, row: ParentRow): seq<Cell> {
    if fields == [] then []
    else
      var f := fields[|fields| - 1];
      CellsIn(fields[..|fields| - 1], row) + if f.col in row then [Shown(row[f.col])] else []
  }

  /** A record: the rows of its fields, and its own row. */
  function RecordOf(o: Obj, t: Translator, parent: Option<ParentRow>, emptyHash: Const): Option<(seq<TableRow>, Cell)>
    requires t.HDict?
    decreases t, 2, 0
  {
    if parent.Some? && parent.value != map[] && t.link.Parent? && t.link.key !in parent.value then None
    else
      var plain := PlainOf(o, t, StartRow(t, parent), |t.fields|, emptyHash);
      if plain.None? then None
      else
        var keyed := KeyedOf(o, t, plain.value.1, |t.fields|, emptyHash);
        if keyed.None? then None
        else RecordDone(o, t, plain.value.0 + keyed.value, plain.value.1)
  }

  /** What a record starts with: the parent's value, if it is tied by one. */
  function StartRow(t: Translator, parent: Option<ParentRow>): ParentRow
    requires t.HDict?
  {
    if t.link.Parent? && parent.Some? && t.link.key in parent.value
    then map[t.link.column := parent.value[t.link.key]]
    else map[]
  }

  function RecordDone(o: Obj, t: Translator, below: seq<TableRow>, row: ParentRow): Option<(seq<TableRow>, Cell)>
    requires t.HDict?
  {
    var cells := CellsIn(t.fields, row);
    match t.link
    case Own => Some((below + [TableRow(t.table, cells)], None))
    case Id(_, compute) =>
      var h := compute(o, [cells]);
      if h.None? then None else Some((below + [TableRow(t.table, [h] + cells)], h))
    case Parent(_, column) =>
      if column in row then Some((below + [TableRow(t.table, [row[column]] + cells)], None)) else None
  }

  /** The first k records of a list. */
  function RecordsOf(os: seq<Obj>, t: Translator, parent: Option<ParentRow>, k: nat, emptyHash: Const):
      Option<Converted>
    requires t.HDict? && k <= |os|
    decreases t, 2, k + 1
  {
    if k == 0 then Some(Converted(Some([]), None))
    else
      var before := RecordsOf(os, t, parent, k - 1, emptyHash);
      var one := RecordOf(os[k - 1], t, parent, emptyHash);
      if before.None? || before.value.rows.None? || one.None? then None
      else Some(Converted(Some(before.value.rows.value + one.value.0), one.value.1))
  }

  lemma {:induction false} ElementsFail(os: seq<Obj>, t: Translator, k: nat, n: nat, emptyHash: Const)
    requires t.Lists? && k <= n <= |os| && ElementsOf(os, t, k, emptyHash).None?
    ensures ElementsOf(os, t, n, emptyHash).None?
    decreases n
  {
    if k < n {
      ElementsFail(os, t, k, n - 1, emptyHash);
    }
  }

  lemma {:induction false} PairsFail(pairs: seq<(Const, Obj)>, t: Translator, k: nat, n: nat, emptyHash: Const)
    requires t.VDict? && k <= n <= |pairs| && PairsOf(pairs, t, k, emptyHash).None?
    ensures PairsOf(pairs, t, n, emptyHash).None?
    decreases n
  {
    if k < n {
      PairsFail(pairs, t, k, n - 1, emptyHash);
    }
  }

  lemma {:induction false} PlainFails(o: Obj, t: Translator, start: ParentRow, k: nat, n: nat, emptyHash: Const)
    requires t.HDict? && k <= n <= |t.fields| && PlainOf(o, t, start, k, emptyHash).None?
    ensures PlainOf(o, t, start, n, emptyHash).None?
    decreases n
  {
    if k < n {
      PlainFails(o, t, start, k, n - 1, emptyHash);
    }
  }

  lemma {:induction false} KeyedFails(o: Obj, t: Translator, row: ParentRow, k: nat, n: nat, emptyHash: Const)
    requires t.HDict? && k <= n <= |t.fields| && KeyedOf(o, t, row, k, emptyHash).None?
    ensures KeyedOf(o, t, row, n, emptyHash).None?
    decreases n
  {
    if k < n {
      KeyedFails(o, t, row, k, n - 1, emptyHash);
    }
  }

  lemma {:induction false} RecordsFail(os: seq<Obj>, t: Translator, parent: Option<ParentRow>, k: nat, n: nat,
      emptyHash: Const)
    requires t.HDict? && k <= n <= |os| && RecordsOf(os, t, parent, k, emptyHash).None?
    ensures RecordsOf(os, t, parent, n, emptyHash).None?
    decreases n
  {
    if k < n {
      RecordsFail(os, t, parent, k, n - 1, emptyHash);
    }
  }

  // ----- conversion

  /** Convert an object: the rows it gives, and its identifier if it has one.  No result stands
      for an exception. */
  method ConvertObj(o: Obj, t: Translator, parent: Option<ParentRow>, emptyHash: Const) returns (r: Option<Converted>)
    requires WellFormed(t) && !t.Value?
    ensures r == ConvertOf(o, t, parent, emptyHash)
    ensures o.Null? ==> r == Some(Converted(None, None))
    ensures r.Some? && r.value.rows.Some? ==> Proper(t, r.value.rows.value, parent)
    decreases t, 4
  {
    if o.Null? {
      return Some(Converted(None, None));
    }
    match t
    case HDict(_, _, _, _, _) => r := PopulateHdictData(o, t, parent, emptyHash);
    case VDict(_, _, _, _, _, _) => r := PopulateVdict(o, t, parent, emptyHash);
    case Lists(_, _, _, _, _) => r := PopulateList(o, t, parent, emptyHash);
  }

  /** The link part and the rows of the table itself, after all that is below. */
  method Finish(t: Translator, o: Obj, below: seq<TableRow>, rests: seq<seq<Cell>>, parent: Option<ParentRow>)
      returns (r: Option<Converted>)
    requires (t.VDict? || t.Lists?) && WellFormed(t)
    requires forall row :: row in below ==> Fits(t.sub, row)
    requires Linked(t.sub, below)
    requires forall i :: 0 <= i < |rests| ==> |rests[i]| + |LinkColumns(t.link)| == |Columns(t)|
    requires t.sub.HasParentKey() ==> forall row :: row in below && row.table == t.sub.table ==>
      |row.cells| > 0 && HeldByRest(t, rests, row.cells[0])
    ensures r == FinishOf(t, o, below, rests, parent)
    ensures r.Some? && r.value.rows.Some? ==> Proper(t, r.value.rows.value, parent)
  {
    var h: Cell := None;
    if t.link.Id? {
      h := t.link.compute(o, rests);
      if h.None? {
        return None;
      }
    }
    var link := LinkCells(t.link, h, parent);
    if link.None? && (t.sub.Value? || rests != []) {
      return None;
    }
    if rests == [] {
      NoRests(t, below, parent);
      assert link.Some? ==> below + OwnRows(t.table, link.value, rests) == below;
      return Some(Converted(Some(below), h));
    }
    ProperRows(t, below, rests, h, parent);
    return Some(Converted(Some(below + OwnRows(t.table, link.value, rests)), h));
  }

  lemma NoRests(t: Translator, below: seq<TableRow>, parent: Option<ParentRow>)
    requires (t.VDict? || t.Lists?) && WellFormed(t)
    requires forall row :: row in below ==> Fits(t.sub, row)
    requires Linked(t.sub, below)
    requires t.sub.HasParentKey() ==> forall row :: row in below && row.table == t.sub.table ==>
      |row.cells| > 0 && HeldByRest(t, [], row.cells[0])
    ensures Proper(t, below, parent)
  {
    forall row | row in below
      ensures row.table != t.table
    {
      FitsTable(t.sub, row);
    }
  }

  method PopulateList(o: Obj, t: Translator, parent: Option<ParentRow>, emptyHash: Const) returns (r: Option<Converted>)
    requires WellFormed(t) && t.Lists? && !o.Null?
    ensures r == ConvertOf(o, t, parent, emptyHash)
    ensures r.Some? && r.value.rows.Some? ==> Proper(t, r.value.rows.value, parent)
    decreases t, 2
  {
    if !o.Listing? {
      return None;
    }
    var rests: seq<seq<Cell>> := [];
    var n := |o.elements|;
    if t.sub.Value? {
      for i := 0 to n
        invariant forall j :: 0 <= j < |rests| ==> |rests[j]| == 1
        invariant ElementsOf(o.elements, t, i, emptyHash) == Some(([], rests))
      {
        var v := t.sub.extract(o.elements[i]);
        if v.None? {
          ElementsFail(o.elements, t, i + 1, n, emptyHash);
          return None;
        }
        rests := rests + [[v]];
      }
      r := Finish(t, o, [], rests, parent);
    } else {
      var below: seq<TableRow> := [];
      var last := o;
      LinkedVoid(t.sub, []);
      hide Linked, Fits, ElementsOf, BelowOf;
      ElementsNone(o.elements, t, emptyHash);
      for i := 0 to n
        invariant forall j :: 0 <= j < |rests| ==> |rests[j]| == 1
        invariant (forall row :: row in below ==> Fits(t.sub, row)) && Linked(t.sub, below)
        invariant ElementsOf(o.elements, t, i, emptyHash) == Some((below, rests))
        invariant i == n ==> last == LastOf(o, t)
      {
        var c;
        c, last := ConvertBelow(o.elements[i], t.sub, None, emptyHash);
        ElementsNext(o.elements, t, i, emptyHash);
        if c.None? || Falsy(c.value.1) {
          ElementsFail(o.elements, t, i + 1, n, emptyHash);
          return None;
        }
        LinkedUnion(t.sub, below, c.value.0);
        below := below + c.value.0;
        rests := rests + [[c.value.1]];
      }
      if t.link.Id? && n == 0 {
        return None;
      }
      r := Finish(t, last, below, rests, parent);
    }
  }

  /** Convert an object of a list or a dictionary. */
  method ConvertBelow(o: Obj, sub: Translator, parent: Option<ParentRow>, emptyHash: Const)
      returns (r: Option<(seq<TableRow>, Cell)>, last: Obj)
    requires WellFormed(sub) && !sub.Value?
    ensures r == BelowOf(o, sub, parent, emptyHash) && last == Prepared(o, sub)
    ensures r.Some? ==> Proper(sub, r.value.0, parent)
    decreases sub, 5
  {
    LinkedVoid(sub, []);
    last := o;
    if o.Null? {
      return Some(([], Some(emptyHash))), last;
    }
    var prepared := sub.prepare(o);
    if prepared.None? {
      return None, last;
    }
    last := prepared.value;
    var c := ConvertObj(last, sub, parent, emptyHash);
    if c.None? {
      return None, last;
    }
    return Some((if c.value.rows.Some? then c.value.rows.value else [], c.value.id)), last;
  }

  lemma ElementsNone(os: seq<Obj>, t: Translator, emptyHash: Const)
    requires t.Lists?
    ensures ElementsOf(os, t, 0, emptyHash) == Some(([], []))
  {
  }

  lemma ElementsNext(os: seq<Obj>, t: Translator, k: nat, emptyHash: Const)
    requires t.Lists? && !t.sub.Value? && k < |os| && ElementsOf(os, t, k, emptyHash).Some?
    ensures var before, c := ElementsOf(os, t, k, emptyHash).value, BelowOf(os[k], t.sub, None, emptyHash);
      ElementsOf(os, t, k + 1, emptyHash) ==
        if c.None? || Falsy(c.value.1) then None else Some((before.0 + c.value.0, before.1 + [[c.value.1]]))
  {
    hide BelowOf;
  }

  lemma PairsNone(pairs: seq<(Const, Obj)>, t: Translator, emptyHash: Const)
    requires t.VDict?
    ensures PairsOf(pairs, t, 0, emptyHash) == Some(([], []))
  {
  }

  lemma PairsNext(pairs: seq<(Const, Obj)>, t: Translator, k: nat, emptyHash: Const)
    requires t.VDict? && !t.sub.Value? && k < |pairs| && PairsOf(pairs, t, k, emptyHash).Some?
    ensures var before := PairsOf(pairs, t, k, emptyHash).value;
      var c := BelowOf(pairs[k].1, t.sub, Some(map[t.keyCol := Some(pairs[k].0)]), emptyHash);
      PairsOf(pairs, t, k + 1, emptyHash) ==
        if c.None? then None
        else Some((before.0 + c.value.0,
          before.1 + [[Some(pairs[k].0)] + if t.sub.HasId() then [c.value.1] else []]))
  {
    hide BelowOf;
  }

  method PopulateVdict(o: Obj, t: Translator, parent: Option<ParentRow>, emptyHash: Const)
      returns (r: Option<Converted>)
    requires WellFormed(t) && t.VDict? && !o.Null?
    ensures r == ConvertOf(o, t, parent, emptyHash)
    ensures r.Some? && r.value.rows.Some? ==> Proper(t, r.value.rows.value, parent)
    decreases t, 2
  {
    if !o.Items? {
      return None;
    }
    var rests: seq<seq<Cell>> := [];
    if t.sub.Value? {
      for i := 0 to |o.pairs|
        invariant forall j :: 0 <= j < |rests| ==> |rests[j]| == 2
        invariant PairsOf(o.pairs, t, i, emptyHash) == Some(([], rests))
      {
        var v := t.sub.extract(o.pairs[i].1);
        if v.None? {
          PairsFail(o.pairs, t, i + 1, |o.pairs|, emptyHash);
          return None;
        }
        rests := rests + [[Some(o.pairs[i].0), v]];
      }
      r := Finish(t, o, [], rests, parent);
    } else {
      var below: seq<TableRow> := [];
      LinkedVoid(t.sub, []);
      hide Linked, Fits, PairsOf, BelowOf;
      PairsNone(o.pairs, t, emptyHash);
      for i := 0 to |o.pairs|
        invariant forall j :: 0 <= j < |rests| ==> |rests[j]| == if t.sub.HasParentKey() then 1 else 2
        invariant (forall row :: row in below ==> Fits(t.sub, row)) && Linked(t.sub, below)
        invariant t.sub.HasParentKey() ==> forall row :: row in below && row.table == t.sub.table ==>
          |row.cells| > 0 && HeldByRest(t, rests, row.cells[0])
        invariant PairsOf(o.pairs, t, i, emptyHash) == Some((below, rests))
      {
        var (k, v) := o.pairs[i];
        var c, _ := ConvertBelow(v, t.sub, Some(map[t.keyCol := Some(k)]), emptyHash);
        PairsNext(o.pairs, t, i, emptyHash);
        if c.None? {
          PairsFail(o.pairs, t, i + 1, |o.pairs|, emptyHash);
          return None;
        }
        var rest: seq<Cell> := [Some(k)] + if t.sub.HasId() then [c.value.1] else [];
        MoreHeld(t, below, rests, c.value.0, rest, k);
        LinkedUnion(t.sub, below, c.value.0);
        below := below + c.value.0;
        rests := rests + [rest];
      }
      r := Finish(t, o, below, rests, parent);
    }
  }

  lemma MoreHeld(t: Translator, below: seq<TableRow>, rests: seq<seq<Cell>>, tuples: seq<TableRow>,
      rest: seq<Cell>, k: Const)
    requires t.VDict? && |rest| > 0 && rest[0] == Some(k)
    requires t.sub.HasParentKey() ==> forall row :: row in below && row.table == t.sub.table ==>
      |row.cells| > 0 && HeldByRest(t, rests, row.cells[0])
    requires StartsRight(t.sub, tuples, Some(map[t.keyCol := Some(k)]))
    ensures t.sub.HasParentKey() ==> forall row :: row in below + tuples && row.table == t.sub.table ==>
      |row.cells| > 0 && HeldByRest(t, rests + [rest], row.cells[0])
  {
    if t.sub.HasParentKey() {
      forall row | row in below + tuples && row.table == t.sub.table
        ensures |row.cells| > 0 && HeldByRest(t, rests + [rest], row.cells[0])
      {
        if row in below {
          var i :| 0 <= i < |rests| && HeldAt(t, rests[i], row.cells[0]);
          assert (rests + [rest])[i] == rests[i];
        } else {
          assert HeldAt(t, (rests + [rest])[|rests|], row.cells[0]);
        }
      }
    }
  }

  // ----- records

  /** The rows so far are rows of fields, and linked below every field. */
  ghost predicate FieldRows(t: Translator, rows: seq<TableRow>)
    requires t.HDict?
  {
    && (forall row :: row in rows ==> exists i :: 0 <= i < |t.fields| && Fits(t.fields[i].sub, row))
    && (forall i :: 0 <= i < |t.fields| ==> Linked(t.fields[i].sub, rows))
  }

  lemma FieldRowsMore(t: Translator, rows: seq<TableRow>, i: nat, more: seq<TableRow>)
    requires t.HDict? && WellFormed(t) && FieldRows(t, rows) && i < |t.fields|
    requires (forall row :: row in more ==> Fits(t.fields[i].sub, row)) && Linked(t.fields[i].sub, more)
    ensures FieldRows(t, rows + more)
  {
    forall j | 0 <= j < |t.fields|
      ensures Linked(t.fields[j].sub, rows + more)
    {
      if j != i {
        forall row | row in more
          ensures row.table !in Tables(t.fields[j].sub)
        {
          FitsTable(t.fields[i].sub, row);
          assert if i < j then Tables(t.fields[i].sub) !! Tables(t.fields[j].sub)
            else Tables(t.fields[j].sub) !! Tables(t.fields[i].sub);
        }
        LinkedVoid(t.fields[j].sub, more);
      }
      LinkedUnion(t.fields[j].sub, rows, more);
    }
  }

  lemma NoFieldRows(t: Translator)
    requires t.HDict?
    ensures FieldRows(t, [])
  {
    forall i | 0 <= i < |t.fields|
      ensures Linked(t.fields[i].sub, [])
    {
      LinkedVoid(t.fields[i].sub, []);
    }
  }

  /** The row under construction has a value for each field that is not tied by a parent key, and
      keeps what it started with. */
  ghost predicate Filled(t: Translator, k: nat, start: ParentRow, row: ParentRow)
    requires t.HDict? && k <= |t.fields|
  {
    && (forall x :: x in row <==>
      x in start || exists i :: 0 <= i < k && !t.fields[i].sub.HasParentKey() && t.fields[i].col == x)
    && forall x :: x in start ==> x in row && row[x] == start[x]
  }

  /** What one field that is not a value gives. */
  method ConvertField(o: Obj, t: Translator, i: nat, row: ParentRow, emptyHash: Const)
      returns (r: Option<(seq<TableRow>, Cell)>)
    requires WellFormed(t) && t.HDict? && i < |t.fields| && !t.fields[i].sub.Value?
    ensures r == FieldOf(o, t, i, row, emptyHash)
    ensures r.Some? ==> Proper(t.fields[i].sub, r.value.0, Some(row))
    decreases t, 0
  {
    var sub := t.fields[i].sub;
    var v := GetValue(o, t.fields[i].name);
    if v.Null? {
      LinkedVoid(sub, []);
      return Some(([], if sub.HasId() then Some(emptyHash) else None));
    }
    var prepared := sub.prepare(v);
    if prepared.None? {
      return None;
    }
    var c := ConvertObj(prepared.value, sub, Some(row), emptyHash);
    if c.None? || c.value.rows.None? {
      return None;
    }
    return Some((c.value.rows.value, c.value.id));
  }

  /** The fields that are not tied by a parent key: they come first, and fill the row. */
  method PlainFields(o: Obj, t: Translator, start: ParentRow, emptyHash: Const)
      returns (r: Option<(seq<TableRow>, ParentRow)>)
    requires WellFormed(t) && t.HDict?
    requires forall i :: 0 <= i < |t.fields| ==> t.fields[i].col !in start
    ensures r == PlainOf(o, t, start, |t.fields|, emptyHash)
    ensures r.Some? ==> FieldRows(t, r.value.0) && Filled(t, |t.fields|, start, r.value.1)
    ensures r.Some? ==> forall row, i :: row in r.value.0 && 0 <= i < |t.fields| && t.fields[i].sub.HasParentKey() ==>
      row.table != t.fields[i].sub.table
    decreases t, 1
  {
    hide FieldRows, Linked, Fits, WellFormed, PlainOf, FieldOf, Proper;
    var rows: seq<TableRow>, row := [], start;
    NoFieldRows(t);
    PlainNone(o, t, start, emptyHash);
    for i := 0 to |t.fields|
      invariant FieldRows(t, rows) && Filled(t, i, start, row)
      invariant PlainOf(o, t, start, i, emptyHash) == Some((rows, row))
      invariant forall q, j :: q in rows && 0 <= j < |t.fields| && t.fields[j].sub.HasParentKey() ==>
        q.table != t.fields[j].sub.table
    {
      var sub := t.fields[i].sub;
      PlainNext(o, t, start, i, emptyHash);
      if sub.Value? {
        var v := sub.extract(GetValue(o, t.fields[i].name));
        if v.None? {
          PlainFails(o, t, start, i + 1, |t.fields|, emptyHash);
          return None;
        }
        row := row[t.fields[i].col := v];
      } else if !sub.HasParentKey() {
        var c := ConvertField(o, t, i, row, emptyHash);
        if c.None? {
          PlainFails(o, t, start, i + 1, |t.fields|, emptyHash);
          return None;
        }
        FieldRowsMore(t, rows, i, c.value.0);
        OtherTables(t, i, c.value.0);
        rows := rows + c.value.0;
        TiedById(t, i);
        row := row[t.fields[i].col := c.value.1];
      }
    }
    return Some((rows, row));
  }

  lemma PlainNone(o: Obj, t: Translator, start: ParentRow, emptyHash: Const)
    requires t.HDict?
    ensures PlainOf(o, t, start, 0, emptyHash) == Some(([], start))
  {
  }

  lemma PlainNext(o: Obj, t: Translator, start: ParentRow, k: nat, emptyHash: Const)
    requires t.HDict? && k < |t.fields| && PlainOf(o, t, start, k, emptyHash).Some?
    ensures var (rows, row) := PlainOf(o, t, start, k, emptyHash).value;
      var f := t.fields[k];
      PlainOf(o, t, start, k + 1, emptyHash) ==
        if f.sub.Value? then
          var v := f.sub.extract(GetValue(o, f.name));
          if v.None? then None else Some((rows, row[f.col := v]))
        else if f.sub.HasParentKey() then Some((rows, row))
        else
          var c := FieldOf(o, t, k, row, emptyHash);
          if c.None? then None else Some((rows + c.value.0, row[f.col := c.value.1]))
  {
    var before := PlainOf(o, t, start, k, emptyHash);
    assert before == Some((before.value.0, before.value.1));
  }

  lemma KeyedNext(o: Obj, t: Translator, row: ParentRow, k: nat, emptyHash: Const)
    requires t.HDict? && k < |t.fields| && KeyedOf(o, t, row, k, emptyHash).Some?
    ensures KeyedOf(o, t, row, 0, emptyHash) == Some([])
    ensures var rows := KeyedOf(o, t, row, k, emptyHash).value;
      KeyedOf(o, t, row, k + 1, emptyHash) ==
        if !t.fields[k].sub.HasParentKey() then Some(rows)
        else
          var c := FieldOf(o, t, k, row, emptyHash);
          if c.None? then None else Some(rows + c.value.0)
  {
    hide FieldOf;
  }

  lemma TiedById(t: Translator, i: nat)
    requires WellFormed(t) && t.HDict? && i < |t.fields|
    ensures !t.fields[i].sub.Value? && !t.fields[i].sub.HasParentKey() ==> t.fields[i].sub.HasId()
  {
  }

  lemma OtherTables(t: Translator, i: nat, more: seq<TableRow>)
    requires WellFormed(t) && t.HDict? && i < |t.fields|
    requires forall row :: row in more ==> Fits(t.fields[i].sub, row)
    ensures forall row, j :: row in more && 0 <= j < |t.fields| && j != i && !t.fields[j].sub.Value? ==>
      row.table != t.fields[j].sub.table
  {
    forall row, j | row in more && 0 <= j < |t.fields| && j != i && !t.fields[j].sub.Value?
      ensures row.table != t.fields[j].sub.table
    {
      FitsTable(t.fields[i].sub, row);
      assert t.fields[j].sub.table in Tables(t.fields[j].sub);
      assert if i < j then Tables(t.fields[i].sub) !! Tables(t.fields[j].sub)
        else Tables(t.fields[j].sub) !! Tables(t.fields[i].sub);
    }
  }

  /** The rows of tied fields start with values of the row. */
  ghost predicate FieldsStartRight(t: Translator, rows: seq<TableRow>, row: ParentRow)
    requires t.HDict?
  {
    forall q, i ::
      q in rows && 0 <= i < |t.fields| && t.fields[i].sub.HasParentKey() && q.table == t.fields[i].sub.table ==>
      |q.cells| > 0 && t.fields[i].sub.link.key in row && q.cells[0] == row[t.fields[i].sub.link.key]
  }

  /** The fields tied by a parent key: they come last, and find the row filled. */
  method KeyedFields(o: Obj, t: Translator, row: ParentRow, before: seq<TableRow>, emptyHash: Const)
      returns (r: Option<seq<TableRow>>)
    requires WellFormed(t) && t.HDict? && FieldRows(t, before)
    requires forall q, j :: q in before && 0 <= j < |t.fields| && t.fields[j].sub.HasParentKey() ==>
      q.table != t.fields[j].sub.table
    ensures var keyed := KeyedOf(o, t, row, |t.fields|, emptyHash);
      r == if keyed.None? then None else Some(before + keyed.value)
    ensures r.Some? ==> FieldRows(t, r.value) && FieldsStartRight(t, r.value, row)
    decreases t, 1
  {
    hide FieldRows, Linked, Fits, WellFormed, FieldOf;
    var rows := before;
    ghost var keyed: seq<TableRow> := [];
    for i := 0 to |t.fields|
      invariant FieldRows(t, rows) && FieldsStartRight(t, rows, row)
      invariant KeyedOf(o, t, row, i, emptyHash) == Some(keyed) && rows == before + keyed
    {
      if t.fields[i].sub.HasParentKey() {
        var c := ConvertField(o, t, i, row, emptyHash);
        if c.None? {
          KeyedFails(o, t, row, i + 1, |t.fields|, emptyHash);
          return None;
        }
        FieldRowsMore(t, rows, i, c.value.0);
        OtherTables(t, i, c.value.0);
        rows := rows + c.value.0;
        keyed := keyed + c.value.0;
      }
    }
    return Some(rows);
  }

  lemma FieldColumnsNext(fields: seq<Field>, i: nat)
    requires i < |fields|
    ensures FieldColumns(fields[..i + 1]) ==
      FieldColumns(fields[..i]) + if fields[i].sub.HasParentKey() then [] else [fields[i].col]
  {
    assert fields[..i + 1][..i] == fields[..i];
  }

  /** The cells of a row in the order of the columns. */
  ghost predicate CellsOf(columns: seq<Name>, row: ParentRow, cells: seq<Cell>) {
    |cells| == |columns| && forall c :: 0 <= c < |columns| ==> columns[c] in row && cells[c] == Shown(row[columns[c]])
  }

  method FormatCells(t: Translator, start: ParentRow, row: ParentRow) returns (cells: seq<Cell>)
    requires WellFormed(t) && t.HDict? && Filled(t, |t.fields|, start, row)
    requires forall i :: 0 <= i < |t.fields| ==> t.fields[i].col !in start
    ensures CellsOf(FieldColumns(t.fields), row, cells) && cells == CellsIn(t.fields, row)
  {
    cells := [];
    hide WellFormed, Filled;
    for i := 0 to |t.fields|
      invariant CellsOf(FieldColumns(t.fields[..i]), row, cells) && cells == CellsIn(t.fields[..i], row)
    {
      assert t.fields[..i + 1][..i] == t.fields[..i];
      FieldColumnsNext(t.fields, i);
      ColumnFilled(t, start, row, i);
      if t.fields[i].col in row {
        cells := cells + [Shown(row[t.fields[i].col])];
      }
    }
    assert t.fields[..|t.fields|] == t.fields;
  }

  lemma ColumnFilled(t: Translator, start: ParentRow, row: ParentRow, i: nat)
    requires WellFormed(t) && t.HDict? && Filled(t, |t.fields|, start, row) && i < |t.fields|
    requires t.fields[i].col !in start
    ensures t.fields[i].col in row <==> !t.fields[i].sub.HasParentKey()
  {
    forall j | 0 <= j < |t.fields| && t.fields[j].col == t.fields[i].col
      ensures j == i
    {
    }
  }

  /** Put the row together, and the rows of the fields before it. */
  method FormatResultsToHdict(o: Obj, results: seq<TableRow>, t: Translator, start: ParentRow, row: ParentRow,
      parent: Option<ParentRow>)
      returns (r: Option<(seq<TableRow>, Cell)>)
    requires WellFormed(t) && t.HDict? && Filled(t, |t.fields|, start, row) && StartOf(t, start, parent)
    requires forall i :: 0 <= i < |t.fields| ==> t.fields[i].col !in start
    requires FieldRows(t, results) && FieldsStartRight(t, results, row)
    ensures r == RecordDone(o, t, results, row)
    ensures r.Some? ==> Proper(t, r.value.0, parent)
  {
    var newRow := FormatCells(t, start, row);
    match t.link
    case Own =>
      RecordProper(t, results, start, row, parent, newRow, [], newRow);
      return Some((results + [TableRow(t.table, newRow)], None));
    case Id(_, compute) =>
      var h := compute(o, [newRow]);
      if h.None? {
        return None;
      }
      RecordProper(t, results, start, row, parent, newRow, [h], [h] + newRow);
      return Some((results + [TableRow(t.table, [h] + newRow)], h));
    case Parent(_, column) =>
      if column !in row {
        return None;
      }
      RecordProper(t, results, start, row, parent, newRow, [row[column]], [row[column]] + newRow);
      return Some((results + [TableRow(t.table, [row[column]] + newRow)], None));
  }

  /** The row under construction starts with the parent's value, if there is one. */
  ghost predicate StartOf(t: Translator, start: ParentRow, parent: Option<ParentRow>)
    requires t.HDict?
  {
    forall x :: x in start ==>
      t.link.Parent? && x == t.link.column && parent.Some? && t.link.key in parent.value
        && start[x] == parent.value[t.link.key]
  }

  lemma RecordProper(t: Translator, results: seq<TableRow>, start: ParentRow, row: ParentRow, parent: Option<ParentRow>,
      newRow: seq<Cell>, link: seq<Cell>, cells: seq<Cell>)
    requires WellFormed(t) && t.HDict? && Filled(t, |t.fields|, start, row) && StartOf(t, start, parent)
    requires forall i :: 0 <= i < |t.fields| ==> t.fields[i].col !in start
    requires FieldRows(t, results) && FieldsStartRight(t, results, row)
    requires CellsOf(FieldColumns(t.fields), row, newRow) && cells == link + newRow && |link| == |LinkColumns(t.link)|
    requires t.link.Parent? ==> t.link.column in row && link[0] == row[t.link.column]
    ensures Proper(t, results + [TableRow(t.table, cells)], parent)
  {
    var own := TableRow(t.table, cells);
    var rows := results + [own];
    assert |cells| == |Columns(t)|;
    forall q | q in results
      ensures q.table != t.table && Fits(t, q)
    {
      var i :| 0 <= i < |t.fields| && Fits(t.fields[i].sub, q);
      FitsTable(t.fields[i].sub, q);
    }
    assert Fits(t, own);
    forall i | 0 <= i < |t.fields|
      ensures Rooted(t, t.fields[i].sub, rows) && Linked(t.fields[i].sub, rows)
    {
      LinkedVoid(t.fields[i].sub, [own]);
      LinkedUnion(t.fields[i].sub, results, [own]);
      RecordRoots(t, results, start, row, parent, newRow, link, cells, i);
    }
    if t.link.Parent? {
      ParentColumn(t, start, row);
    }
  }

  lemma ParentColumn(t: Translator, start: ParentRow, row: ParentRow)
    requires WellFormed(t) && t.HDict? && Filled(t, |t.fields|, start, row) && t.link.Parent? && t.link.column in row
    ensures t.link.column in start
  {
  }

  lemma RecordRoots(t: Translator, results: seq<TableRow>, start: ParentRow, row: ParentRow, parent: Option<ParentRow>,
      newRow: seq<Cell>, link: seq<Cell>, cells: seq<Cell>, i: nat)
    requires WellFormed(t) && t.HDict? && Filled(t, |t.fields|, start, row) && StartOf(t, start, parent)
      && i < |t.fields|
    requires FieldsStartRight(t, results, row)
    requires CellsOf(FieldColumns(t.fields), row, newRow) && cells == link + newRow && |link| == |LinkColumns(t.link)|
    requires t.link.Parent? ==> t.link.column in row && link[0] == row[t.link.column]
    ensures Rooted(t, t.fields[i].sub, results + [TableRow(t.table, cells)])
  {
    var own := TableRow(t.table, cells);
    var rows := results + [own];
    var sub := t.fields[i].sub;
    if sub.HasParentKey() {
      forall q | q in rows && q.table == sub.table
        ensures |q.cells| > 0 && Held(t, rows, sub.link.key, q.cells[0])
      {
        assert sub.table in Tables(sub);
        assert q in results && sub.link.key in row && q.cells[0] == row[sub.link.key];
        var c := ColumnOf(t, start, row, parent, newRow, link, sub.link.key);
        assert own in rows && cells[c] == (link + newRow)[c];
      }
    }
  }

  /** Where in the row the value with a given name is. */
  lemma ColumnOf(t: Translator, start: ParentRow, row: ParentRow, parent: Option<ParentRow>, newRow: seq<Cell>,
      link: seq<Cell>, key: Name)
      returns (c: nat)
    requires WellFormed(t) && t.HDict? && Filled(t, |t.fields|, start, row) && StartOf(t, start, parent) && key in row
    requires CellsOf(FieldColumns(t.fields), row, newRow) && |link| == |LinkColumns(t.link)|
    requires t.link.Parent? ==> t.link.column in row && link[0] == row[t.link.column]
    ensures c < |Columns(t)| && Columns(t)[c] == key && Shown((link + newRow)[c]) == Shown(row[key])
  {
    if key in start {
      c := 0;
    } else {
      var i :| 0 <= i < |t.fields| && !t.fields[i].sub.HasParentKey() && t.fields[i].col == key;
      var d := FieldColumnAt(t.fields, i);
      c := |link| + d;
    }
  }

  lemma {:induction false} FieldColumnAt(fields: seq<Field>, i: nat) returns (d: nat)
    requires i < |fields| && !fields[i].sub.HasParentKey()
    ensures d < |FieldColumns(fields)| && FieldColumns(fields)[d] == fields[i].col
    decreases |fields|
  {
    if i == |fields| - 1 {
      d := |FieldColumns(fields)| - 1;
    } else {
      d := FieldColumnAt(fields[..|fields| - 1], i);
    }
  }

  /** One row of a record table, after the rows of its fields. */
  method PopulateHdict(o: Obj, t: Translator, parent: Option<ParentRow>, emptyHash: Const)
      returns (r: Option<(seq<TableRow>, Cell)>)
    requires WellFormed(t) && t.HDict?
    ensures r == RecordOf(o, t, parent, emptyHash)
    ensures r.Some? ==> Proper(t, r.value.0, parent)
    decreases t, 2
  {
    var start: ParentRow := map[];
    if parent.Some? && parent.value != map[] && t.link.Parent? {
      if t.link.key !in parent.value {
        return None;
      }
      start := map[t.link.column := parent.value[t.link.key]];
    }
    var plain := PlainFields(o, t, start, emptyHash);
    if plain.None? {
      return None;
    }
    var keyed := KeyedFields(o, t, plain.value.1, plain.value.0, emptyHash);
    if keyed.None? {
      return None;
    }
    r := FormatResultsToHdict(o, keyed.value, t, start, plain.value.1, parent);
  }

  method PopulateHdictData(o: Obj, t: Translator, parent: Option<ParentRow>, emptyHash: Const)
      returns (r: Option<Converted>)
    requires WellFormed(t) && t.HDict? && !o.Null?
    ensures r == ConvertOf(o, t, parent, emptyHash)
    ensures r.Some? && r.value.rows.Some? ==> Proper(t, r.value.rows.value, parent)
    decreases t, 3
  {
    if !t.inList {
      var one := PopulateHdict(o, t, parent, emptyHash);
      return if one.None? then None else Some(Converted(Some(one.value.0), one.value.1));
    }
    if !o.Listing? {
      return None;
    }
    var rows: seq<TableRow>, last: Cell := [], None;
    LinkedVoid(t, []);
    hide Proper, RecordOf;
    for i := 0 to |o.elements|
      invariant Proper(t, rows, parent)
      invariant RecordsOf(o.elements, t, parent, i, emptyHash) == Some(Converted(Some(rows), last))
    {
      var one := PopulateHdict(o.elements[i], t, parent, emptyHash);
      if one.None? {
        RecordsFail(o.elements, t, parent, i + 1, |o.elements|, emptyHash);
        return None;
      }
      ProperBoth(t, rows, one.value.0, parent);
      rows := rows + one.value.0;
      last := one.value.1;
    }
    return Some(Converted(Some(rows), last));
  }

  // ----- the driver's tables

  type State = map<Name, set<seq<Cell>>>

  /** The tables of a root translator, with the rows of a conversion; rows of tables that the
      root does not list are dropped. */
  method MakeTmpState(deps: set<Name>, rows: seq<TableRow>) returns (state: State)
    ensures state.Keys == deps
    ensures forall x :: x in state ==> forall cells :: cells in state[x] <==> TableRow(x, cells) in rows
  {
    state := map x | x in deps :: {};
    for i := 0 to |rows|
      invariant state.Keys == deps
      invariant forall x :: x in state ==> forall cells :: cells in state[x] <==> TableRow(x, cells) in rows[..i]
    {
      assert rows[..i + 1] == rows[..i] + [rows[i]];
      var table := rows[i].table;
      if table in state {
        state := state[table := state[table] + {rows[i].cells}];
      }
    }
    assert rows[..|rows|] == rows;
  }

  /** The rows of an object, if it can be converted to rows. */
  function RowsOf(o: Obj, t: Translator, emptyHash: Const): Option<seq<TableRow>>
    requires !t.Value?
  {
    var c := ConvertOf(o, t, None, emptyHash);
    if c.None? then None else c.value.rows
  }

  /** One part after the other. */
  function Joined<T>(parts: seq<seq<T>>): seq<T> {
    if parts == [] then [] else Joined(parts[..|parts| - 1]) + parts[|parts| - 1]
  }

  lemma JoinedNone<T>()
    ensures Joined<T>([]) == []
  {
  }

  lemma JoinedMore<T>(parts: seq<seq<T>>, part: seq<T>)
    ensures Joined(parts + [part]) == Joined(parts) + part
  {
  }

  lemma ProperBoth(t: Translator, a: seq<TableRow>, b: seq<TableRow>, parent: Option<ParentRow>)
    requires Proper(t, a, parent) && Proper(t, b, parent)
    ensures Proper(t, a + b, parent)
  {
    hide Fits, Linked;
    LinkedUnion(t, a, b);
  }

  /** Convert objects with a root translator: all rows of all objects, in order, or an exception if
      one of them raises one or is null. */
  method ConvertObjs(objects: seq<Obj>, t: Translator, emptyHash: Const) returns (r: Option<seq<TableRow>>)
    requires WellFormed(t) && !t.Value?
    ensures r.Some? <==> forall i :: 0 <= i < |objects| ==> RowsOf(objects[i], t, emptyHash).Some?
    ensures r.Some? ==>
      r.value == Joined(seq(|objects|, i requires 0 <= i < |objects| => RowsOf(objects[i], t, emptyHash).value))
    ensures r.Some? ==> Proper(t, r.value, None)
  {
    var rows: seq<TableRow> := [];
    ghost var parts: seq<seq<TableRow>> := [];
    LinkedVoid(t, []);
    hide Proper, ConvertOf, Joined;
    JoinedNone<TableRow>();
    for i := 0 to |objects|
      invariant Proper(t, rows, None)
      invariant |parts| == i && rows == Joined(parts)
      invariant forall j :: 0 <= j < i ==> RowsOf(objects[j], t, emptyHash) == Some(parts[j])
    {
      var c := ConvertObj(objects[i], t, None, emptyHash);
      if c.None? || c.value.rows.None? {
        return None;
      }
      ProperBoth(t, rows, c.value.rows.value, None);
      JoinedMore(parts, c.value.rows.value);
      rows := rows + c.value.rows.value;
      parts := parts + [c.value.rows.value];
    }
    assert parts == seq(|objects|, i requires 0 <= i < |objects| => RowsOf(objects[i], t, emptyHash).value);
    return Some(rows);
  }

  /** Rows converted with a translator are of tables of its schema and as wide as the schema says;
      and those tables are the ones listed for the root, so that no row is dropped. */
  lemma RowsKeepToTheSchema(t: Translator, rows: seq<TableRow>, parent: Option<ParentRow>, row: TableRow)
    requires WellFormed(t) && Proper(t, rows, parent) && row in rows
    ensures GetSchema(t, map[]).Some?
    ensures var s := GetSchema(t, map[]).value;
      s.Keys == Tables(t) && row.table in s && |row.cells| == |s[row.table]|
  {
    SchemaExists(t, map[]);
    SchemaHas(t, map[]);
  }
}
