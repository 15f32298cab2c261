/**
 * A stand-in for the parts of Laravel's query builder and SQL grammar that
 * the core drives: the list of WHERE clauses a builder accumulates, how that
 * list is compiled to text, and what it means on a row.
 *
 * The core never sees Laravel's own code; this module states the behaviour it
 * relies on as definitions:
 *  - every compiled clause is its connective word (`and`/`or`), a space and
 *    the clause's own text (`compileWheresToArray`);
 *  - a list of compiled clauses is joined with single spaces and loses its
 *    leftmost `and ` or `or ` (`concatenateWhereClauses`, `removeLeadingBoolean`);
 *  - a nested group is that text in parentheses, and an empty nested group
 *    is never added (`whereNested`, `addNestedWhereQuery`);
 *  - a raw clause is spliced in as it is, without parentheses (`whereRaw`);
 *  - the database evaluates NOT before AND before OR.
 */
module Query {
  import opened Wrappers
  import opened Strings

  /** The connective a clause is joined to its predecessor with. */
  datatype Conn = And | Or

  function ConnWord(c: Conn): string
  {
    if c == And then "and" else "or"
  }

  function Flip(c: Conn): Conn
  {
    if c == And then Or else And
  }

  datatype Value = Int(i: int) | Text(s: string)

  datatype Op = Eq | Ne

  /** A basic comparison `where(column, op, value)`; the value is a bound parameter. */
  datatype Atom = Basic(column: string, op: Op, value: Value)

  datatype Clause = Clause(conn: Conn, body: Body)

  /**
   * What follows a clause's connective. `Not` and `Raw` are produced only by
   * the negation macro: a raw clause holds the clause list whose compiled text
   * is the raw SQL, and `Not` is that text's `not`/`NOT` keyword.
   */
  datatype Body =
    | Test(atom: Atom)
    | Nested(clauses: seq<Clause>)
    | Not(keyword: string, inner: Body)
    | Raw(clauses: seq<Clause>)

  /** A stored row; every column the scopes mention has a value (no NULLs). */
  type Row = map<string, Value>

  predicate Holds(a: Atom, row: Row)
  {
    a.column in row && (if a.op == Eq then row[a.column] == a.value else row[a.column] != a.value)
  }

  // ---------------------------------------------------------------- evaluation

  /** One NOT-free, AND/OR-free operand of the flat text, with its leading connective. */
  datatype Operand = Operand(conn: Conn, value: bool)

  /**
   * The operands a body contributes when its text follows connective `c`;
   * `negate` says whether an odd number of `not` keywords precede it.
   * A raw body is spliced, so its own clauses become operands of the
   * enclosing list, and a preceding `not` reaches only its first operand.
   */
  function BodyOperands(c: Conn, b: Body, negate: bool, row: Row): seq<Operand>
    decreases b
  {
    match b
    case Test(a) => [Operand(c, negate != Holds(a, row))]
    case Nested(cs) => [Operand(c, negate != Eval(cs, row))]
    case Not(_, inner) => BodyOperands(c, inner, !negate, row)
    case Raw(cs) =>
      if cs == [] then []
      else BodyOperands(c, cs[0].body, negate, row) + ListOperands(cs[1..], row)
  }

  function ListOperands(cs: seq<Clause>, row: Row): seq<Operand>
    decreases cs, 0
  {
    if cs == [] then []
    else
      assert cs decreases to cs[0];
      assert cs[0] decreases to cs[0].body;
      BodyOperands(cs[0].conn, cs[0].body, false, row) + ListOperands(cs[1..], row)
  }

  /** Whether `row` passes the WHERE clause list `cs`. An empty list filters nothing. */
  function Eval(cs: seq<Clause>, row: Row): bool
    decreases cs, 1
  {
    Prec(ListOperands(cs, row))
  }

  /** SQL precedence over a flat operand list: AND binds tighter than OR. */
  function Prec(ops: seq<Operand>): bool
  {
    if ops == [] then true else PrecFrom(false, ops[0].value, ops[1..])
  }

  /** `done`: some AND-run already held; `run`: the current AND-run so far. */
  function PrecFrom(done: bool, run: bool, rest: seq<Operand>): bool
    decreases |rest|
  {
    if rest == [] then done || run
    else if rest[0].conn == And then PrecFrom(done, run && rest[0].value, rest[1..])
    else PrecFrom(done || run, rest[0].value, rest[1..])
  }

  /** `PrecFrom` over a tail joined only by AND: one run, a conjunction. */
  lemma {:induction false} PrecFromAnd(done: bool, run: bool, rest: seq<Operand>)
    requires forall i :: 0 <= i < |rest| ==> rest[i].conn == And
    ensures PrecFrom(done, run, rest) == (done || (run && forall i :: 0 <= i < |rest| ==> rest[i].value))
    decreases |rest|
  {
    if rest != [] {
      PrecFromAnd(done, run && rest[0].value, rest[1..]);
      assert forall i :: 1 <= i < |rest| ==> rest[i] == rest[1..][i - 1];
    }
  }

  /** `PrecFrom` over a tail joined only by OR: one run per operand, a disjunction. */
  lemma {:induction false} PrecFromOr(done: bool, run: bool, rest: seq<Operand>)
    requires forall i :: 0 <= i < |rest| ==> rest[i].conn == Or
    ensures PrecFrom(done, run, rest) == (done || run || exists i :: 0 <= i < |rest| && rest[i].value)
    decreases |rest|
  {
    if rest != [] {
      PrecFromOr(done || run, rest[0].value, rest[1..]);
      assert forall i :: 1 <= i < |rest| ==> rest[i] == rest[1..][i - 1];
    }
  }

  /** Whether every operand after the first is joined with `c`. */
  predicate JoinedBy(ops: seq<Operand>, c: Conn)
  {
    forall i :: 1 <= i < |ops| ==> ops[i].conn == c
  }

  /** An operand list joined only by AND holds iff every operand holds. */
  lemma PrecOfConjunction(ops: seq<Operand>)
    requires JoinedBy(ops, And)
    ensures Prec(ops) == forall i :: 0 <= i < |ops| ==> ops[i].value
  {
    if ops != [] {
      PrecFromAnd(false, ops[0].value, ops[1..]);
      assert forall i :: 1 <= i < |ops| ==> ops[i] == ops[1..][i - 1];
    }
  }

  /** A non-empty operand list joined only by OR holds iff some operand holds. */
  lemma PrecOfDisjunction(ops: seq<Operand>)
    requires ops != [] && JoinedBy(ops, Or)
    ensures Prec(ops) == exists i :: 0 <= i < |ops| && ops[i].value
  {
    PrecFromOr(false, ops[0].value, ops[1..]);
    assert forall i :: 1 <= i < |ops| ==> ops[i] == ops[1..][i - 1];
  }

  /** A body that contributes exactly one operand: a comparison or a parenthesised group. */
  predicate Simple(b: Body)
  {
    b.Test? || b.Nested?
  }

  function SimpleValue(b: Body, row: Row): bool
    requires Simple(b)
  {
    if b.Test? then Holds(b.atom, row) else Eval(b.clauses, row)
  }

  /** A list of simple clauses contributes one operand per clause, in order. */
  lemma {:induction false} SimpleOperands(cs: seq<Clause>, row: Row)
    requires forall i :: 0 <= i < |cs| ==> Simple(cs[i].body)
    ensures |ListOperands(cs, row)| == |cs|
    ensures forall i :: 0 <= i < |cs| ==>
      ListOperands(cs, row)[i] == Operand(cs[i].conn, SimpleValue(cs[i].body, row))
    decreases cs
  {
    if cs != [] {
      SimpleOperands(cs[1..], row);
      assert forall i :: 1 <= i < |cs| ==> cs[i] == cs[1..][i - 1];
    }
  }

  /** Operands of a concatenation are the concatenated operands (the text is spliced). */
  lemma {:induction false} OperandsOfAppend(cs: seq<Clause>, ds: seq<Clause>, row: Row)
    ensures ListOperands(cs + ds, row) == ListOperands(cs, row) + ListOperands(ds, row)
    decreases cs
  {
    if cs == [] {
      assert cs + ds == ds;
    } else {
      assert (cs + ds)[0] == cs[0];
      assert (cs + ds)[1..] == cs[1..] + ds;
      OperandsOfAppend(cs[1..], ds, row);
    }
  }

  // ----------------------------------------------------------------- rendering

  /**
   * Laravel's `removeLeadingBoolean`, a `preg_replace('/and |or /i', '', s, 1)`:
   * the leftmost `and ` or `or `, in any case, is dropped.
   */
  function RemoveLeadingBoolean(s: string): string
    decreases |s|
  {
    if StartsWith(s, "and ", true) then s[4..]
    else if StartsWith(s, "or ", true) then s[3..]
    else if s == [] then s
    else [s[0]] + RemoveLeadingBoolean(s[1..])
  }

  /** Laravel's `concatenateWhereClauses(null, wheres)`. */
  function ConcatenateWhereClauses(wheres: seq<string>): string
  {
    "where " + RemoveLeadingBoolean(Join(wheres, " "))
  }

  function OpText(op: Op): string
  {
    if op == Eq then "=" else "!="
  }

  /** A basic comparison as the SQLite grammar writes it; the value becomes a `?` binding. */
  function RenderAtom(a: Atom): string
  {
    "\"" + a.column + "\" " + OpText(a.op) + " ?"
  }

  /** The SQL text of a body. */
  function RenderBody(b: Body): string
    decreases b
  {
    match b
    case Test(a) => RenderAtom(a)
    case Nested(cs) => "(" + RemoveLeadingBoolean(Join(CompileWheres(cs), " ")) + ")"
    case Not(k, inner) => k + " " + RenderBody(inner)
    case Raw(cs) => RemoveLeadingBoolean(Join(CompileWheres(cs), " "))
  }

  /** `compileWheresToArray`: each clause as its connective word, a space and its text. */
  function CompileWheres(cs: seq<Clause>): (r: seq<string>)
    decreases cs
  {
    if cs == [] then []
    else
      assert cs decreases to cs[0];
      assert cs[0] decreases to cs[0].body;
      [ConnWord(cs[0].conn) + " " + RenderBody(cs[0].body)] + CompileWheres(cs[1..])
  }

  function CompileWhere(c: Clause): string
  {
    ConnWord(c.conn) + " " + RenderBody(c.body)
  }

  lemma {:induction false} CompileWheresAt(cs: seq<Clause>)
    ensures |CompileWheres(cs)| == |cs|
    ensures forall i :: 0 <= i < |cs| ==> CompileWheres(cs)[i] == CompileWhere(cs[i])
    decreases cs
  {
    if cs != [] {
      CompileWheresAt(cs[1..]);
      assert forall i :: 1 <= i < |cs| ==> cs[i] == cs[1..][i - 1];
    }
  }

  /** The values bound to a body's `?` placeholders, in text order. */
  function BodyBindings(b: Body): seq<Value>
    decreases b
  {
    match b
    case Test(a) => [a.value]
    case Nested(cs) => Bindings(cs)
    case Not(_, inner) => BodyBindings(inner)
    case Raw(cs) => Bindings(cs)
  }

  /** `getBindings()` of a clause list: every placeholder's value, in text order. */
  function Bindings(cs: seq<Clause>): seq<Value>
    decreases cs
  {
    if cs == [] then []
    else
      assert cs decreases to cs[0];
      assert cs[0] decreases to cs[0].body;
      BodyBindings(cs[0].body) + Bindings(cs[1..])
  }

  // ------------------------------------------------------------ well-formedness

  /**
   * Text the database accepts: no empty group and no empty raw clause.
   * (`whereRaw('')` leaves a dangling `and` or `()`, a syntax error.)
   */
  predicate WellFormedBody(b: Body)
    decreases b
  {
    match b
    case Test(_) => true
    case Nested(cs) => cs != [] && WellFormed(cs)
    case Not(_, inner) => WellFormedBody(inner)
    case Raw(cs) => cs != [] && WellFormed(cs)
  }

  predicate WellFormed(cs: seq<Clause>)
    decreases cs
  {
    cs == [] ||
    (assert cs decreases to cs[0];
     assert cs[0] decreases to cs[0].body;
     WellFormedBody(cs[0].body) && WellFormed(cs[1..]))
  }

  /**
   * A clause list a scope callback builds with `where`, `orWhere` and nested
   * closures: comparisons and non-empty groups of such lists.
   */
  predicate PlainBody(b: Body)
    decreases b
  {
    match b
    case Test(_) => true
    case Nested(cs) => cs != [] && Plain(cs)
    case Not(_, _) => false
    case Raw(_) => false
  }

  predicate Plain(cs: seq<Clause>)
    decreases cs
  {
    cs == [] ||
    (assert cs decreases to cs[0];
     assert cs[0] decreases to cs[0].body;
     PlainBody(cs[0].body) && Plain(cs[1..]))
  }

  lemma {:induction false} PlainAt(cs: seq<Clause>)
    requires Plain(cs)
    ensures forall i :: 0 <= i < |cs| ==> PlainBody(cs[i].body) && Simple(cs[i].body)
    decreases cs
  {
    if cs != [] {
      PlainAt(cs[1..]);
      assert forall i :: 1 <= i < |cs| ==> cs[i] == cs[1..][i - 1];
    }
  }

  lemma {:induction false} PlainAppend(cs: seq<Clause>, ds: seq<Clause>)
    requires Plain(cs) && Plain(ds)
    ensures Plain(cs + ds)
    decreases cs
  {
    if cs == [] {
      assert cs + ds == ds;
    } else {
      assert (cs + ds)[0] == cs[0];
      assert (cs + ds)[1..] == cs[1..] + ds;
      PlainAppend(cs[1..], ds);
    }
  }

  // ------------------------------------------------------------------- builder

  /** `cs` nested as one group joined with `c`; nothing when `cs` is empty. */
  function Group(c: Conn, cs: seq<Clause>): seq<Clause>
  {
    if cs == [] then [] else [Clause(c, Nested(cs))]
  }

  /** A group holds exactly when its clauses do; an empty group is no condition. */
  lemma GroupMeaning(c: Conn, cs: seq<Clause>, row: Row)
    ensures Eval(Group(c, cs), row) == Eval(cs, row)
  {
    if cs != [] {
      assert ListOperands(Group(c, cs), row) == [Operand(c, Eval(cs, row))];
    }
  }

  /** Comparisons and groups joined by AND throughout (the first connective is dropped by rendering). */
  predicate Conjunctive(cs: seq<Clause>)
  {
    forall i :: 0 <= i < |cs| ==> Simple(cs[i].body) && (i > 0 ==> cs[i].conn == And)
  }

  /** A conjunctive list holds when each of its clauses holds. */
  lemma ConjunctiveMeaning(cs: seq<Clause>, row: Row)
    requires Conjunctive(cs)
    ensures Eval(cs, row) == forall i :: 0 <= i < |cs| ==> SimpleValue(cs[i].body, row)
  {
    SimpleOperands(cs, row);
    PrecOfConjunction(ListOperands(cs, row));
  }

  /** Appending an AND group to a conjunctive list conjoins the group's meaning. */
  lemma AndGroupMeaning(cs: seq<Clause>, group: seq<Clause>, row: Row)
    requires Conjunctive(cs)
    ensures Conjunctive(cs + Group(And, group))
    ensures Eval(cs + Group(And, group), row) == (Eval(cs, row) && Eval(group, row))
  {
    var ds := cs + Group(And, group);
    ConjunctiveMeaning(cs, row);
    ConjunctiveMeaning(ds, row);
    if group == [] {
      assert ds == cs;
    } else {
      assert ds[|cs|].body == Nested(group);
      assert forall i :: 0 <= i < |cs| ==> ds[i] == cs[i];
    }
  }

  /** The state of an Eloquent builder the core touches: its WHERE clauses. */
  class Builder {
    var wheres: seq<Clause>

    /** A fresh builder, as a nested closure receives it. */
    constructor()
      ensures wheres == []
    {
      wheres := [];
    }

    /** `clone $builder`: the clause list is copied by value. */
    method Clone() returns (c: Builder)
      ensures fresh(c) && c.wheres == wheres
    {
      c := new Builder();
      c.wheres := wheres;
    }

    /** `where(Closure)` after the closure filled `group`. */
    method Where(group: seq<Clause>)
      modifies this
      ensures wheres == old(wheres) + Group(And, group)
    {
      wheres := wheres + Group(And, group);
    }

    /** `orWhere(Closure)` after the closure filled `group`. */
    method OrWhere(group: seq<Clause>)
      modifies this
      ensures wheres == old(wheres) + Group(Or, group)
    {
      wheres := wheres + Group(Or, group);
    }

    /** `whereRaw(sql, bindings)`, where `clauses` is the clause list `sql` renders. */
    method WhereRaw(clauses: seq<Clause>)
      modifies this
      ensures wheres == old(wheres) + [Clause(And, Raw(clauses))]
    {
      wheres := wheres + [Clause(And, Raw(clauses))];
    }

    /** A scope callback run on this builder: it appends its clauses. */
    method Apply(scope: seq<Clause>)
      modifies this
      ensures wheres == old(wheres) + scope
    {
      wheres := wheres + scope;
    }
  }
}
