/**
 * The three steps of the package's own "query onboarded users" example,
 * and what `onboarded()` and `onboarded(false)` select from its seven users.
 */
module OnboardedQuery {
  import opened Wrappers
  import opened Query
  import Negation
  import S = OnboardingStep
  import opened GetsOnboarded

  function Age(n: int): Atom { Basic("age", Eq, Int(n)) }
  function Name(s: string): Atom { Basic("name", Eq, Text(s)) }

  /** A users-table row with the two columns the example uses. */
  function Person(name: string, age: int): Row
  {
    map["name" := Text(name), "age" := Int(age)]
  }

  /** Required for everyone; complete at age 1, 2, 3 or 100 (four `orWhere` calls). */
  const Everyone: Scopes :=
    Scopes([Clause(Or, Test(Age(1))), Clause(Or, Test(Age(2))), Clause(Or, Test(Age(3))), Clause(Or, Test(Age(100)))], None)

  /** Required for john and joe; complete at age 3, 4 or 5. */
  const JohnOrJoe: Scopes :=
    Scopes([Clause(Or, Test(Age(3))), Clause(Or, Test(Age(4))), Clause(Or, Test(Age(5)))],
           Some([Clause(Or, Test(Name("john"))), Clause(Or, Test(Name("joe")))]))

  /** Required for robert at 100; its complete scope adds nothing. */
  const Robert100: Scopes :=
    Scopes([], Some([Clause(And, Test(Name("robert"))), Clause(And, Test(Age(100)))]))

  const ExampleScopes: seq<Scopes> := [Everyone, JohnOrJoe, Robert100]

  /** The seven inserted users. */
  const Users: seq<(string, int)> :=
    [("doesnt matter", 10), ("john", 10), ("john", 4), ("doesnt matter", 1),
     ("john", 3), ("robert", 100), ("robert", 101)]

  /** The onboarding rule the example's three steps express, written directly. */
  predicate Expected(name: string, age: int)
  {
    (age == 1 || age == 2 || age == 3 || age == 100)
    && (name == "john" || name == "joe" ==> age == 3 || age == 4 || age == 5)
  }

  /** How many users the clauses select, as `count()` would report. */
  function CountWhere(cs: seq<Clause>, users: seq<(string, int)>): (n: nat)
    ensures n <= |users|
  {
    if users == [] then 0
    else (if Eval(cs, Person(users[0].0, users[0].1)) then 1 else 0) + CountWhere(cs, users[1..])
  }

  function CountExpected(users: seq<(string, int)>): (n: nat)
    ensures n <= |users|
  {
    if users == [] then 0
    else (if Expected(users[0].0, users[0].1) then 1 else 0) + CountExpected(users[1..])
  }

  /** A non-empty list of comparisons joined by OR holds when one of them does. */
  lemma AnyOf(cs: seq<Clause>, row: Row)
    requires cs != [] && Negation.JoinedBy(cs, Or)
    requires forall i :: 0 <= i < |cs| ==> cs[i].body.Test?
    ensures Eval(cs, row) == exists i :: 0 <= i < |cs| && Holds(cs[i].body.atom, row)
  {
    SimpleOperands(cs, row);
    PrecOfDisjunction(ListOperands(cs, row));
  }

  lemma EveryoneMeaning(name: string, age: int)
    ensures S.Obligation(Everyone.complete, Everyone.required, Person(name, age))
      == (age == 1 || age == 2 || age == 3 || age == 100)
  {
    var cs := Everyone.complete;
    var row := Person(name, age);
    AnyOf(cs, row);
    if age == 1 {
      assert Holds(cs[0].body.atom, row);
    } else if age == 2 {
      assert Holds(cs[1].body.atom, row);
    } else if age == 3 {
      assert Holds(cs[2].body.atom, row);
    } else if age == 100 {
      assert Holds(cs[3].body.atom, row);
    } else {
      forall i | 0 <= i < |cs| ensures !Holds(cs[i].body.atom, row) {
        assert i == 0 || i == 1 || i == 2 || i == 3;
      }
    }
  }

  lemma JohnOrJoeMeaning(name: string, age: int)
    ensures S.Obligation(JohnOrJoe.complete, JohnOrJoe.required, Person(name, age))
      == (name == "john" || name == "joe" ==> age == 3 || age == 4 || age == 5)
  {
    var cs := JohnOrJoe.complete;
    var req := JohnOrJoe.required.value;
    var row := Person(name, age);
    AnyOf(cs, row);
    AnyOf(req, row);
    if name == "john" {
      assert Holds(req[0].body.atom, row);
    } else if name == "joe" {
      assert Holds(req[1].body.atom, row);
    } else {
      forall i | 0 <= i < |req| ensures !Holds(req[i].body.atom, row) {
        assert i == 0 || i == 1;
      }
    }
    if age == 3 {
      assert Holds(cs[0].body.atom, row);
    } else if age == 4 {
      assert Holds(cs[1].body.atom, row);
    } else if age == 5 {
      assert Holds(cs[2].body.atom, row);
    } else {
      forall i | 0 <= i < |cs| ensures !Holds(cs[i].body.atom, row) {
        assert i == 0 || i == 1 || i == 2;
      }
    }
  }

  lemma Robert100Meaning(name: string, age: int)
    ensures S.Obligation(Robert100.complete, Robert100.required, Person(name, age))
  {
    assert Eval([], Person(name, age));
  }

  /** Every required scope of the example is one the macro negates, and the steps add clauses. */
  lemma ExampleNegatable()
    ensures RequiredNegatable(ExampleScopes) && Combined(ExampleScopes) != []
  {
    assert Negation.Negatable(JohnOrJoe.required.value);
    assert Negation.Negatable(Robert100.required.value);
    CombinedEmpty(ExampleScopes);
    assert ExampleScopes[0].complete != [];
  }

  /** A user meets every step's obligation exactly when the rule calls them onboarded. */
  lemma ExampleMeetsAll(name: string, age: int)
    ensures MeetsAll(ExampleScopes, Person(name, age)) == Expected(name, age)
  {
    var row := Person(name, age);
    EveryoneMeaning(name, age);
    JohnOrJoeMeaning(name, age);
    Robert100Meaning(name, age);
    assert ExampleScopes[0] == Everyone && ExampleScopes[1] == JohnOrJoe && ExampleScopes[2] == Robert100;
    if Expected(name, age) {
      forall i | 0 <= i < |ExampleScopes|
        ensures S.Obligation(ExampleScopes[i].complete, ExampleScopes[i].required, row)
      {
        assert i == 0 || i == 1 || i == 2;
      }
    }
  }

  /** The steps' clauses select exactly the users the rule calls onboarded, and the negation the rest. */
  lemma ExampleMeaning(name: string, age: int)
    ensures Eval(Combined(ExampleScopes), Person(name, age)) == Expected(name, age)
    ensures Eval(NotOnboardedWheres([], Combined(ExampleScopes)), Person(name, age)) == !Expected(name, age)
  {
    var row := Person(name, age);
    ExampleNegatable();
    ExampleMeetsAll(name, age);
    CombinedMeaning([], ExampleScopes, row);
    assert [] + Combined(ExampleScopes) == Combined(ExampleScopes);
    NotOnboardedIsComplement(ExampleScopes, row);
  }

  /** Counting with clauses that agree with the rule counts the rule. */
  lemma {:induction false} CountAgrees(cs: seq<Clause>, negated: bool, users: seq<(string, int)>)
    requires forall i :: 0 <= i < |users| ==>
      Eval(cs, Person(users[i].0, users[i].1)) == (Expected(users[i].0, users[i].1) != negated)
    ensures CountWhere(cs, users) == if negated then |users| - CountExpected(users) else CountExpected(users)
  {
    if users != [] {
      assert forall i :: 1 <= i < |users| ==> users[i] == users[1..][i - 1];
      CountAgrees(cs, negated, users[1..]);
    }
  }

  /** `onboarded()` counts three of the seven users and `onboarded(false)` the other four. */
  lemma OnboardedCounts()
    ensures CountWhere(Combined(ExampleScopes), Users) == 3
    ensures CountWhere(NotOnboardedWheres([], Combined(ExampleScopes)), Users) == 4
  {
    var cs := Combined(ExampleScopes);
    var ns := NotOnboardedWheres([], cs);
    forall i | 0 <= i < |Users|
      ensures Eval(cs, Person(Users[i].0, Users[i].1)) == Expected(Users[i].0, Users[i].1)
      ensures Eval(ns, Person(Users[i].0, Users[i].1)) == !Expected(Users[i].0, Users[i].1)
    {
      ExampleMeaning(Users[i].0, Users[i].1);
    }
    CountAgrees(cs, false, Users);
    CountAgrees(ns, true, Users);
    ExpectedCount();
  }

  /** Three of the seven users are onboarded under the rule. */
  lemma ExpectedCount()
    ensures CountExpected(Users) == 3
  {
  }
}
