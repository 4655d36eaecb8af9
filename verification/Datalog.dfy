/** Terms, literals, rules and builtins: the data of congress/datalog/compile.py. */
module Datalog {
  /** The name of a variable or a table. */
  datatype Name = Name(text: string)

  /** The raw value of an object constant.  Its Python type is part of its identity. */
  datatype Const = Str(text: string) | Num(number: int)

  datatype Term = Var(name: Name) | Obj(value: Const)

  /** The names of the variables among some terms. */
  function VarNames(ts: seq<Term>): (vs: set<Name>)
    ensures forall x :: x in vs <==> Var(x) in ts
  {
    set t | t in ts && t.Var? :: t.name
  }

  /** What calling a builtin's code gives: an exception, or a value seen both as the list
      of its results and as a Python truth value. */
  datatype Outcome = Raised | Returned(values: seq<Const>, truthy: bool)

  datatype Builtin = Builtin(numInputs: nat, numOutputs: nat, code: seq<Const> -> Outcome)

  type Registry = map<Name, Builtin>

  datatype Literal = Literal(table: Name, args: seq<Term>, negated: bool) {
    function Vars(): set<Name> {
      VarNames(args)
    }

    predicate IsGround() {
      forall i :: 0 <= i < |args| ==> args[i].Obj?
    }

    function Complement(): Literal {
      Literal(table, args, !negated)
    }

    /** A literal without arguments is taken for a builtin whatever the builtin's arity. */
    predicate IsBuiltin(bs: Registry) {
      && table in bs
      && (|args| == 0 || |args| == bs[table].numInputs + bs[table].numOutputs)
    }
  }

  datatype Rule = Rule(head: Literal, body: seq<Literal>)

  /** A formula to insert or to delete. */
  datatype FormulaEvent = FormulaEvent(formula: Rule, insert: bool)

  /** The two tables whose truth is built in. */
  const TRUE := Name("true")
  const FALSE := Name("false")

  /** How the search treats a literal, in the order in which it asks. */
  datatype Kind = Negation | Truth | Falsity | Call | Lookup

  function KindOf(bs: Registry, lit: Literal): Kind {
    if lit.negated then Negation
    else if lit.table == TRUE then Truth
    else if lit.table == FALSE then Falsity
    else if lit.IsBuiltin(bs) then Call
    else Lookup
  }
}
