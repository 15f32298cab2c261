/**
 * One onboarding step: an attribute map (title, cta, link, …), the in-memory
 * callbacks `completeIf` / `requiredIf`, the query scopes `completeScope` /
 * `requiredScope`, and the user a copy of the step is bound to.
 */
module OnboardingStep {
  import opened Wrappers
  import opened Strings
  import opened Query
  import opened Entities
  import Negation

  /** The LogicException `applyScopes` throws: the step's title and the bound user's class. */
  datatype ScopeError = MissingScope(title: Option<string>, userClass: Option<string>)

  /** `array_merge` of two string-keyed arrays: the right-hand side wins. */
  function Merge(current: map<string, string>, given: map<string, string>): (r: map<string, string>)
    ensures r.Keys == current.Keys + given.Keys
    ensures forall k :: k in given ==> r[k] == given[k]
    ensures forall k :: k in current && k !in given ==> r[k] == current[k]
  {
    current + given
  }

  class OnboardingStep {
    var attributes: map<string, string>
    var completeIf: Option<Entity -> bool>
    var completeScope: Option<seq<Clause>>
    var requiredIf: Option<Entity -> bool>
    var requiredScope: Option<seq<Clause>>
    var user: Option<Entity>

    /** A step whose only attribute is its title, with no callbacks, scopes or user. */
    constructor(title: string)
      ensures attributes == map["title" := title]
      ensures completeIf.None? && completeScope.None? && requiredIf.None? && requiredScope.None?
      ensures user.None?
    {
      attributes := Merge(map[], map["title" := title]);
      completeIf, completeScope, requiredIf, requiredScope := None, None, None, None;
      user := None;
    }

    /** `clone $step`: a new object with the same attributes, callbacks, scopes and user. */
    method Copy() returns (c: OnboardingStep)
      ensures fresh(c)
      ensures c.attributes == attributes && c.user == user
      ensures c.completeIf == completeIf && c.completeScope == completeScope
      ensures c.requiredIf == requiredIf && c.requiredScope == requiredScope
    {
      c := new OnboardingStep("");
      c.attributes, c.user := attributes, user;
      c.completeIf, c.completeScope := completeIf, completeScope;
      c.requiredIf, c.requiredScope := requiredIf, requiredScope;
    }

    /** `attributes($given)`: a right-biased merge into the attribute map. */
    method Attributes(given: map<string, string>) returns (self: OnboardingStep)
      modifies this`attributes
      ensures self == this
      ensures attributes == Merge(old(attributes), given)
    {
      attributes := Merge(attributes, given);
      self := this;
    }

    method Cta(cta: string) returns (self: OnboardingStep)
      modifies this`attributes
      ensures self == this
      ensures attributes == old(attributes)["cta" := cta]
    {
      self := Attributes(map["cta" := cta]);
    }

    method Link(link: string) returns (self: OnboardingStep)
      modifies this`attributes
      ensures self == this
      ensures attributes == old(attributes)["link" := link]
    {
      self := Attributes(map["link" := link]);
    }

    method CompleteIf(callback: Entity -> bool) returns (self: OnboardingStep)
      modifies this`completeIf
      ensures self == this && completeIf == Some(callback)
    {
      completeIf := Some(callback);
      self := this;
    }

    method CompleteScope(scope: seq<Clause>) returns (self: OnboardingStep)
      modifies this`completeScope
      ensures self == this && completeScope == Some(scope)
    {
      completeScope := Some(scope);
      self := this;
    }

    method RequiredIf(callback: Entity -> bool) returns (self: OnboardingStep)
      modifies this`requiredIf
      ensures self == this && requiredIf == Some(callback)
    {
      requiredIf := Some(callback);
      self := this;
    }

    method RequiredScope(scope: seq<Clause>) returns (self: OnboardingStep)
      modifies this`requiredScope
      ensures self == this && requiredScope == Some(scope)
    {
      requiredScope := Some(scope);
      self := this;
    }

    method SetUser(u: Entity) returns (self: OnboardingStep)
      modifies this`user
      ensures self == this && user == Some(u)
    {
      user := Some(u);
      self := this;
    }

    /** Not complete unless a `completeIf` callback and a user are both present; then the callback decides. */
    function Complete(): (r: bool)
      reads this
      ensures completeIf.None? || user.None? ==> !r
      ensures completeIf.Some? && user.Some? ==> r == completeIf.value(user.value)
    {
      if completeIf.Some? && user.Some? then completeIf.value(user.value) else false
    }

    function Incomplete(): (r: bool)
      reads this
      ensures r != Complete()
    {
      !Complete()
    }

    /** Required unless a `requiredIf` callback and a user are both present; then the callback decides. */
    function Required(): (r: bool)
      reads this
      ensures requiredIf.None? || user.None? ==> r
      ensures requiredIf.Some? && user.Some? ==> r == requiredIf.value(user.value)
    {
      if requiredIf.Some? && user.Some? then requiredIf.value(user.value) else true
    }

    function Optional(): (r: bool)
      reads this
      ensures r != Required()
    {
      !Required()
    }

    /**
     * `attribute($key, $default)`: the stored value, or the default when the
     * key is absent. Values are strings, so `Arr::get`'s dot notation never
     * descends and the lookup is a plain one.
     */
    function Attribute(key: string, default: Option<string>): (r: Option<string>)
      reads this
      ensures key in attributes ==> r == Some(attributes[key])
      ensures key !in attributes ==> r == default
    {
      if key in attributes then Some(attributes[key]) else default
    }

    /** `__get($key)`: property reads default to null. */
    function Get(key: string): (r: Option<string>)
      reads this
      ensures r.Some? <==> key in attributes
      ensures r.Some? ==> r.value == attributes[key]
    {
      Attribute(key, None)
    }

    /**
     * `applyScopes($builder)`: throws when no complete scope is set, before
     * touching the builder; otherwise appends `StepScope` of the step's scopes.
     */
    method ApplyScopes(builder: Builder) returns (outcome: Outcome<ScopeError>)
      modifies builder
      ensures completeScope.None? ==> outcome == Fail(MissingScope(Get("title"), UserClass(user)))
      ensures completeScope.None? ==> builder.wheres == old(builder.wheres)
      ensures completeScope.Some? ==> outcome == Pass
      ensures completeScope.Some? ==>
        builder.wheres == old(builder.wheres) + StepScope(completeScope.value, requiredScope)
    {
      if completeScope.None? {
        return Fail(MissingScope(Get("title"), UserClass(user)));
      }
      if requiredScope.Some? {
        // the throwaway copy: requiredScope runs on it, and only its negation reaches the real builder
        var notRequired := new Builder();
        var dummy := notRequired.Clone();
        dummy.Apply(requiredScope.value);
        assert dummy.wheres == requiredScope.value;
        notRequired.WhereRaw(Negation.NegateWheres(dummy.wheres, "NOT"));
        assert notRequired.wheres == [Clause(And, Raw(Negation.NegateWheres(requiredScope.value, "NOT")))];
        var requiredAndComplete := new Builder();
        ApplyScope(requiredScope.value, requiredAndComplete);
        ApplyScope(completeScope.value, requiredAndComplete);
        assert requiredAndComplete.wheres == Group(And, requiredScope.value) + Group(And, completeScope.value);
        var group := new Builder();
        group.OrWhere(notRequired.wheres);
        assert group.wheres == Group(Or, notRequired.wheres);
        group.OrWhere(requiredAndComplete.wheres);
        assert group.wheres == Group(Or, [Clause(And, Raw(Negation.NegateWheres(requiredScope.value, "NOT")))])
          + Group(Or, Group(And, requiredScope.value) + Group(And, completeScope.value));
        builder.Where(group.wheres);
      } else {
        ApplyScope(completeScope.value, builder);
      }
      outcome := Pass;
    }
  }

  function UserClass(user: Option<Entity>): Option<string>
  {
    if user.Some? then Some(user.value.cls) else None
  }

  /** `applyScope`: the scope's clauses, nested as one AND group. */
  method ApplyScope(scope: seq<Clause>, builder: Builder)
    modifies builder
    ensures builder.wheres == old(builder.wheres) + Group(And, scope)
  {
    var query := new Builder();
    query.Apply(scope);
    assert query.wheres == scope;
    builder.Where(query.wheres);
  }

  /**
   * The clauses `applyScopes` appends for a step with complete scope
   * `complete`: the group `(complete)` without a required scope; with one,
   * `((not required) or ((required) and (complete)))`, where the negation is
   * the raw clause the older `reverseWheres` macro produces.
   */
  function StepScope(complete: seq<Clause>, required: Option<seq<Clause>>): (r: seq<Clause>)
    ensures |r| <= 1
    ensures r == [] <==> required.None? && complete == []
    ensures r != [] ==> r[0].conn == And && r[0].body.Nested?
  {
    if required.Some? then
      Group(And,
        Group(Or, [Clause(And, Raw(Negation.NegateWheres(required.value, "NOT")))])
        + Group(Or, Group(And, required.value) + Group(And, complete)))
    else Group(And, complete)
  }

  /** Whether a row meets a step's obligation: required (always, without a required scope) implies complete. */
  predicate Obligation(complete: seq<Clause>, required: Option<seq<Clause>>, row: Row)
  {
    (required.Some? ==> Eval(required.value, row)) ==> Eval(complete, row)
  }

  /**
   * The clauses a step adds hold exactly on the rows that meet its
   * obligation, provided the required scope is a list the macro negates
   * correctly (one connective throughout).
   */
  lemma StepScopeMeaning(complete: seq<Clause>, required: Option<seq<Clause>>, row: Row)
    requires required.Some? ==> Negation.Negatable(required.value)
    ensures Eval(StepScope(complete, required), row) == Obligation(complete, required, row)
  {
    if required.None? {
      GroupMeaning(And, complete, row);
    } else {
      var req := required.value;
      var raw := [Clause(And, Raw(Negation.NegateWheres(req, "NOT")))];
      var both := Group(And, req) + Group(And, complete);
      var inner := Group(Or, raw) + Group(Or, both);
      GroupMeaning(And, inner, row);
      Negation.NegationMeaning(And, req, "NOT", row);
      assert Conjunctive(Group(And, req));
      AndGroupMeaning(Group(And, req), complete, row);
      GroupMeaning(And, req, row);
      OrOfGroups(raw, both, row);
    }
  }

  /** Two non-empty lists, each nested and joined by OR, hold when either does. */
  lemma OrOfGroups(a: seq<Clause>, b: seq<Clause>, row: Row)
    requires a != [] && b != []
    ensures Eval(Group(Or, a) + Group(Or, b), row) == (Eval(a, row) || Eval(b, row))
  {
    var inner := Group(Or, a) + Group(Or, b);
    assert inner == [Clause(Or, Nested(a)), Clause(Or, Nested(b))];
    SimpleOperands(inner, row);
    PrecOfDisjunction(ListOperands(inner, row));
    assert ListOperands(inner, row)[0].value == Eval(a, row);
    assert ListOperands(inner, row)[1].value == Eval(b, row);
  }

  /** Appending a step's clauses keeps a conjunctive list conjunctive. */
  lemma StepScopeConjunctive(cs: seq<Clause>, complete: seq<Clause>, required: Option<seq<Clause>>)
    ensures Conjunctive(cs) ==> Conjunctive(cs + StepScope(complete, required))
  {
    if Conjunctive(cs) && StepScope(complete, required) != [] {
      var ds := cs + StepScope(complete, required);
      assert forall i :: 0 <= i < |cs| ==> ds[i] == cs[i];
    }
  }

  /** A required scope that adds no clause leaves the raw clause empty, which renders no SQL. */
  lemma EmptyRequiredScopeIsMalformed(complete: seq<Clause>)
    ensures !WellFormed(StepScope(complete, Some([])))
  {
    var raw := [Clause(And, Raw(Negation.NegateWheres([], "NOT")))];
    var inner := Group(Or, raw) + Group(Or, Group(And, []) + Group(And, complete));
    assert StepScope(complete, Some([])) == [Clause(And, Nested(inner))];
    assert inner[0] == Clause(Or, Nested(raw));
    assert !WellFormedBody(raw[0].body);
    assert !WellFormed(raw);
    assert !WellFormed(inner);
  }

  // ------------------------------------------------ the step's own reverseWheres

  /** Case-sensitive `Str::startsWith` against several needles. */
  predicate StartsWithAny(w: string, needles: seq<string>)
  {
    exists k :: 0 <= k < |needles| && StartsWith(w, needles[k], false)
  }

  /**
   * The rewrite of `registerBuilderMacros`: only the spellings `and`, `And`,
   * `AND` (`or`, `Or`, `OR`) are recognised, and the keyword is `NOT`.
   */
  function FlipWhereLegacy(w: string): (r: string)
    ensures StartsWithAny(w, ["and", "And", "AND"]) ==> |w| >= 3 && r == "or NOT" + w[3..]
    ensures !StartsWithAny(w, ["and", "And", "AND"]) && StartsWithAny(w, ["or", "Or", "OR"])
      ==> |w| >= 2 && r == "and NOT" + w[2..]
    ensures !StartsWithAny(w, ["and", "And", "AND"]) && !StartsWithAny(w, ["or", "Or", "OR"]) ==> r == w
  {
    if StartsWithAny(w, ["and", "And", "AND"]) then "or NOT" + w[3..]
    else if StartsWithAny(w, ["or", "Or", "OR"]) then "and NOT" + w[2..]
    else w
  }

  function FlipAllLegacy(wheres: seq<string>): (r: seq<string>)
    ensures |r| == |wheres|
    ensures forall k :: 0 <= k < |wheres| ==> r[k] == FlipWhereLegacy(wheres[k])
  {
    seq(|wheres|, k requires 0 <= k < |wheres| => FlipWhereLegacy(wheres[k]))
  }

  /** The macro's result: the case-sensitive `Str::replaceFirst('where ', '')` of the grammar's text. */
  function ReversedWheresLegacy(wheres: seq<string>): (sql: string)
    ensures sql == RemoveLeadingBoolean(Join(FlipAllLegacy(wheres), " "))
  {
    var concatenated := ConcatenateWhereClauses(FlipAllLegacy(wheres));
    RemoveFirstOfPrefix(concatenated, "where ", false);
    RemoveFirst(concatenated, "where ", false)
  }

  /** The step's macro renders the raw clause `ApplyScopes` stores: the negation spelt `NOT`. */
  lemma LegacyMacroRendersNegation(cs: seq<Clause>)
    ensures ReversedWheresLegacy(CompileWheres(cs)) == RenderBody(Raw(Negation.NegateWheres(cs, "NOT")))
  {
    var ns := Negation.NegateWheres(cs, "NOT");
    FlipAllLegacyNegates(cs);
    RawText(ns);
  }

  /** The text of a raw clause is its compiled clauses, joined, without the leading connective. */
  lemma RawText(ns: seq<Clause>)
    ensures RenderBody(Raw(ns)) == RemoveLeadingBoolean(Join(CompileWheres(ns), " "))
  {
  }

  /** Flipping every compiled clause compiles the negated list. */
  lemma FlipAllLegacyNegates(cs: seq<Clause>)
    ensures FlipAllLegacy(CompileWheres(cs)) == CompileWheres(Negation.NegateWheres(cs, "NOT"))
  {
    var ns := Negation.NegateWheres(cs, "NOT");
    CompileWheresAt(cs);
    CompileWheresAt(ns);
    Negation.NegateWheresAt(cs, "NOT");
    forall i | 0 <= i < |cs|
      ensures FlipWhereLegacy(CompileWheres(cs)[i]) == CompileWheres(ns)[i]
    {
      FlipCompiledLegacy(cs[i]);
    }
  }

  /** One compiled clause flips into the compiled clause of its negation. */
  lemma FlipCompiledLegacy(c: Clause)
    ensures FlipWhereLegacy(CompileWhere(c)) == CompileWhere(Negation.Negated(c, "NOT"))
  {
    FlipTextLegacy(c.conn, RenderBody(c.body));
  }

  lemma FlipTextLegacy(c: Conn, text: string)
    ensures FlipWhereLegacy(ConnWord(c) + " " + text) == ConnWord(Flip(c)) + " " + ("NOT" + " " + text)
  {
    var w := ConnWord(c) + " " + text;
    if c == And {
      assert StartsWith(w, ["and", "And", "AND"][0], false);
      assert w[3..] == " " + text;
      assert "or" + " " + ("NOT" + " " + text) == "or NOT" + (" " + text);
    } else {
      assert w[0] == 'o' && w[1] == 'r';
      assert !StartsWithAny(w, ["and", "And", "AND"]) by {
        forall k | 0 <= k < 3
          ensures !StartsWith(w, ["and", "And", "AND"][k], false)
        {
          assert w[0] != ["and", "And", "AND"][k][0];
        }
      }
      assert StartsWith(w, ["or", "Or", "OR"][0], false);
      assert w[2..] == " " + text;
      assert "and" + " " + ("NOT" + " " + text) == "and NOT" + (" " + text);
    }
  }
}
