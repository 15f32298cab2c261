/**
 * What the `reverseWheres` text means. The raw clause a builder receives is
 * modelled by the clause list its text renders: every clause with its
 * connective flipped and its body behind a `not` keyword. The lemmas here
 * connect that list to the macro's string output, its bindings, and to the
 * negation of the original filter, which holds when the list is joined by
 * one connective throughout and fails for mixed lists.
 */
module Negation {
  import opened Strings
  import opened Query
  import GrammarMacro

  function Negated(c: Clause, keyword: string): Clause
  {
    Clause(Flip(c.conn), Not(keyword, c.body))
  }

  /** The clause list the macro's raw text renders, spelling `not` as `keyword`. */
  function NegateWheres(cs: seq<Clause>, keyword: string): (r: seq<Clause>)
    ensures |r| == |cs|
    decreases cs
  {
    if cs == [] then [] else [Negated(cs[0], keyword)] + NegateWheres(cs[1..], keyword)
  }

  lemma {:induction false} NegateWheresAt(cs: seq<Clause>, keyword: string)
    ensures forall i :: 0 <= i < |cs| ==> NegateWheres(cs, keyword)[i] == Negated(cs[i], keyword)
    decreases cs
  {
    if cs != [] {
      NegateWheresAt(cs[1..], keyword);
      assert forall i :: 1 <= i < |cs| ==> cs[i] == cs[1..][i - 1];
    }
  }

  /** Whether every clause after the first is joined with `c`. */
  predicate JoinedBy(cs: seq<Clause>, c: Conn)
  {
    forall i :: 1 <= i < |cs| ==> cs[i].conn == c
  }

  /** A non-empty list of comparisons and groups, joined by one connective throughout. */
  predicate Negatable(cs: seq<Clause>)
  {
    && cs != []
    && (forall i :: 0 <= i < |cs| ==> Simple(cs[i].body))
    && (JoinedBy(cs, And) || JoinedBy(cs, Or))
  }

  /**
   * The macro flips each compiled clause into the compiled form of its
   * negated clause, so its whole output is the text of the raw clause
   * the model stores.
   */
  lemma MacroRendersNegation(cs: seq<Clause>)
    ensures GrammarMacro.ReversedWheres(CompileWheres(cs)) == RenderBody(Raw(NegateWheres(cs, "not")))
  {
    var ns := NegateWheres(cs, "not");
    CompileWheresAt(cs);
    CompileWheresAt(ns);
    NegateWheresAt(cs, "not");
    forall i | 0 <= i < |cs|
      ensures GrammarMacro.FlipWhere(CompileWheres(cs)[i]) == CompileWheres(ns)[i]
    {
      FlipCompiled(cs[i]);
    }
    assert GrammarMacro.FlipAll(CompileWheres(cs)) == CompileWheres(ns);
  }

  /** One compiled clause flips into the compiled clause of its negation. */
  lemma FlipCompiled(c: Clause)
    ensures GrammarMacro.FlipWhere(CompileWhere(c)) == CompileWhere(Negated(c, "not"))
  {
    FlipText(c.conn, RenderBody(c.body));
  }

  lemma FlipText(c: Conn, text: string)
    ensures GrammarMacro.FlipWhere(ConnWord(c) + " " + text) == ConnWord(Flip(c)) + " " + ("not" + " " + text)
  {
    var w := ConnWord(c) + " " + text;
    if c == And {
      assert w[0] == 'a' && w[1] == 'n' && w[2] == 'd';
      assert w[3..] == " " + text;
      assert "or" + " " + ("not" + " " + text) == "or not" + (" " + text);
    } else {
      assert w[0] == 'o' && w[1] == 'r' && w[2] == ' ';
      assert w[2..] == " " + text;
      assert "and" + " " + ("not" + " " + text) == "and not" + (" " + text);
    }
  }

  /** The macro passes the bindings through unchanged, in their original order. */
  lemma {:induction false} NegationKeepsBindings(cs: seq<Clause>, keyword: string)
    ensures Bindings(NegateWheres(cs, keyword)) == Bindings(cs)
    decreases cs
  {
    if cs != [] {
      NegationKeepsBindings(cs[1..], keyword);
    }
  }

  /** Operands of a negated list of simple clauses: each flipped and negated. */
  lemma {:induction false} NegatedOperands(cs: seq<Clause>, keyword: string, row: Row)
    requires forall i :: 0 <= i < |cs| ==> Simple(cs[i].body)
    ensures |ListOperands(NegateWheres(cs, keyword), row)| == |cs|
    ensures forall i :: 0 <= i < |cs| ==>
      ListOperands(NegateWheres(cs, keyword), row)[i]
        == Operand(Flip(cs[i].conn), !SimpleValue(cs[i].body, row))
    decreases cs
  {
    if cs != [] {
      var ns := NegateWheres(cs, keyword);
      assert ns[0] == Negated(cs[0], keyword) && ns[1..] == NegateWheres(cs[1..], keyword);
      assert BodyOperands(ns[0].conn, ns[0].body, false, row)
        == BodyOperands(Flip(cs[0].conn), cs[0].body, true, row)
        == [Operand(Flip(cs[0].conn), !SimpleValue(cs[0].body, row))];
      NegatedOperands(cs[1..], keyword, row);
      assert forall i :: 1 <= i < |cs| ==> cs[i] == cs[1..][i - 1];
    }
  }

  /** The operands of a raw clause holding a negated list, spliced after connective `c`. */
  lemma RawNegationOperands(c: Conn, cs: seq<Clause>, keyword: string, row: Row)
    requires cs != [] && Simple(cs[0].body)
    ensures ListOperands([Clause(c, Raw(NegateWheres(cs, keyword)))], row)
      == [Operand(c, !SimpleValue(cs[0].body, row))] + ListOperands(NegateWheres(cs[1..], keyword), row)
  {
    var ns := NegateWheres(cs, keyword);
    var l := [Clause(c, Raw(ns))];
    assert l[0] == Clause(c, Raw(ns)) && l[1..] == [];
    assert ns[0] == Negated(cs[0], keyword) && ns[1..] == NegateWheres(cs[1..], keyword);
    calc {
      ListOperands(l, row);
      BodyOperands(c, Raw(ns), false, row) + ListOperands([], row);
      BodyOperands(c, ns[0].body, false, row) + ListOperands(ns[1..], row);
      BodyOperands(c, cs[0].body, true, row) + ListOperands(ns[1..], row);
    }
  }

  /** The raw negation's operands pair up with the list's: every value negated, every later connective flipped. */
  lemma RawNegationPairs(c: Conn, cs: seq<Clause>, keyword: string, row: Row)
    requires cs != [] && forall i :: 0 <= i < |cs| ==> Simple(cs[i].body)
    ensures var neg := ListOperands([Clause(c, Raw(NegateWheres(cs, keyword)))], row);
      var pos := ListOperands(cs, row);
      && |neg| == |pos| == |cs|
      && (forall i :: 0 <= i < |cs| ==> neg[i].value == !pos[i].value)
      && (forall i :: 1 <= i < |cs| ==> neg[i].conn == Flip(pos[i].conn))
  {
    SimpleOperands(cs, row);
    NegatedOperands(cs[1..], keyword, row);
    RawNegationOperands(c, cs, keyword, row);
    assert forall i :: 1 <= i < |cs| ==> cs[i] == cs[1..][i - 1];
  }

  /**
   * A raw clause holding the negation of a list joined by one connective
   * holds on exactly the rows the list rejects, whatever connective the raw
   * clause itself is given and however `not` is spelled.
   */
  lemma NegationMeaning(c: Conn, cs: seq<Clause>, keyword: string, row: Row)
    requires Negatable(cs)
    ensures Eval([Clause(c, Raw(NegateWheres(cs, keyword)))], row) == !Eval(cs, row)
  {
    var neg := ListOperands([Clause(c, Raw(NegateWheres(cs, keyword)))], row);
    var pos := ListOperands(cs, row);
    RawNegationPairs(c, cs, keyword, row);
    SimpleOperands(cs, row);
    if JoinedBy(cs, And) {
      assert Query.JoinedBy(pos, And) && Query.JoinedBy(neg, Or);
      PrecOfConjunction(pos);
      PrecOfDisjunction(neg);
    } else {
      assert Query.JoinedBy(pos, Or) && Query.JoinedBy(neg, And);
      PrecOfDisjunction(pos);
      PrecOfConjunction(neg);
    }
  }

  /** Comparisons `x = 1`, `y = 1`, `z = 1` for the counterexample below. */
  const SampleAtomA: Atom := Basic("x", Eq, Int(1))
  const SampleAtomB: Atom := Basic("y", Eq, Int(1))
  const SampleAtomC: Atom := Basic("z", Eq, Int(1))

  /**
   * With mixed connectives the flipped list is not the negation:
   * `x = 1 or y = 1 and z = 1` and its rewrite
   * `not x = 1 and not y = 1 or not z = 1` both hold when only `x = 1`.
   */
  lemma MixedConnectivesAreNotNegated()
    ensures var cs := [Clause(And, Test(SampleAtomA)), Clause(Or, Test(SampleAtomB)), Clause(And, Test(SampleAtomC))];
            var row: Row := map["x" := Int(1), "y" := Int(0), "z" := Int(0)];
            Eval(cs, row) && Eval([Clause(And, Raw(NegateWheres(cs, "not")))], row)
  {
    var cs := [Clause(And, Test(SampleAtomA)), Clause(Or, Test(SampleAtomB)), Clause(And, Test(SampleAtomC))];
    var row: Row := map["x" := Int(1), "y" := Int(0), "z" := Int(0)];
    assert Holds(SampleAtomA, row) && !Holds(SampleAtomB, row) && !Holds(SampleAtomC, row);
    SimpleOperands(cs, row);
    var pos := [Operand(And, true), Operand(Or, false), Operand(And, false)];
    assert ListOperands(cs, row) == pos;
    assert PrecFrom(false, true, pos[1..]) == PrecFrom(true, false, pos[2..]);
    NegatedOperands(cs[1..], "not", row);
    var ns := NegateWheres(cs, "not");
    RawNegationOperands(And, cs, "not", row);
    var neg := [Operand(And, false), Operand(And, true), Operand(Or, true)];
    assert ListOperands([Clause(And, Raw(ns))], row) == neg;
    assert PrecFrom(false, false, neg[1..]) == PrecFrom(false, false, neg[2..]);
  }
}
