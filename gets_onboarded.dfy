/**
 * The `onboarded` query scope: every step's scopes are applied to the
 * builder, and for `onboarded(false)` the negation of the resulting WHERE
 * list is added, as raw SQL, to a clone of the builder taken beforehand.
 */
module GetsOnboarded {
  import opened Wrappers
  import opened Query
  import opened Entities
  import opened OrderedMaps
  import Negation
  import S = OnboardingStep
  import R = OnboardingSteps
  import M = OnboardingManager

  /** The scopes a step contributes to a query: its complete scope and, if set, its required scope. */
  datatype Scopes = Scopes(complete: seq<Clause>, required: Option<seq<Clause>>)

  /** A step's two scope slots, as values. */
  datatype View = View(complete: Option<seq<Clause>>, required: Option<seq<Clause>>)

  /** The scope slots of every step, in order. */
  ghost function Views(steps: seq<S.OnboardingStep>): (r: seq<View>)
    reads steps
    ensures |r| == |steps|
    ensures forall i :: 0 <= i < |steps| ==> r[i] == View(steps[i].completeScope, steps[i].requiredScope)
  {
    seq(|steps|, i reads steps requires 0 <= i < |steps| => View(steps[i].completeScope, steps[i].requiredScope))
  }

  /** Whether every step has a complete scope. */
  predicate AllScoped(steps: seq<S.OnboardingStep>)
    reads steps
  {
    forall i :: 0 <= i < |steps| ==> steps[i].completeScope.Some?
  }

  /** The scopes of steps that all have a complete scope. */
  function ScopesOf(steps: seq<S.OnboardingStep>): (r: seq<Scopes>)
    reads steps
    requires AllScoped(steps)
    ensures |r| == |steps|
    ensures forall i :: 0 <= i < |steps| ==>
      r[i] == Scopes(steps[i].completeScope.value, steps[i].requiredScope)
  {
    seq(|steps|, i reads steps requires 0 <= i < |steps| && AllScoped(steps) =>
      Scopes(steps[i].completeScope.value, steps[i].requiredScope))
  }

  /**
   * The clauses the steps append to a builder, in order: one AND group per
   * step that adds anything.
   */
  function Combined(scopes: seq<Scopes>): seq<Clause>
    decreases |scopes|
  {
    if scopes == [] then []
    else
      var last := scopes[|scopes| - 1];
      Combined(scopes[..|scopes| - 1]) + S.StepScope(last.complete, last.required)
  }

  /** The combined clauses are AND groups, at most one per step. */
  lemma {:induction false} CombinedShape(scopes: seq<Scopes>)
    ensures |Combined(scopes)| <= |scopes|
    ensures forall i :: 0 <= i < |Combined(scopes)| ==> Combined(scopes)[i].conn == And && Combined(scopes)[i].body.Nested?
    decreases |scopes|
  {
    if scopes != [] {
      var init := scopes[..|scopes| - 1];
      var last := scopes[|scopes| - 1];
      CombinedShape(init);
      var head := Combined(init);
      var tail := S.StepScope(last.complete, last.required);
      assert Combined(scopes) == head + tail;
      assert forall i :: |head| <= i < |head + tail| ==> (head + tail)[i] == tail[i - |head|];
    }
  }

  /** The steps add no clause at all exactly when no step has a required scope and every complete scope is empty. */
  lemma {:induction false} CombinedEmpty(scopes: seq<Scopes>)
    ensures Combined(scopes) == [] <==> forall i :: 0 <= i < |scopes| ==> scopes[i].required.None? && scopes[i].complete == []
    decreases |scopes|
  {
    if scopes != [] {
      var init := scopes[..|scopes| - 1];
      var last := scopes[|scopes| - 1];
      CombinedEmpty(init);
      var tail := S.StepScope(last.complete, last.required);
      assert tail == [] <==> last.required.None? && last.complete == [];
      assert Combined(scopes) == Combined(init) + tail;
      assert forall i :: 0 <= i < |init| ==> init[i] == scopes[i];
    }
  }

  /** Each step's required scope, where it has one, is one the negation macro negates correctly. */
  predicate RequiredNegatable(scopes: seq<Scopes>)
  {
    forall i :: 0 <= i < |scopes| ==>
      scopes[i].required.Some? ==> Negation.Negatable(scopes[i].required.value)
  }

  /** Whether a row meets every step's obligation. */
  predicate MeetsAll(scopes: seq<Scopes>, row: Row)
  {
    forall i :: 0 <= i < |scopes| ==> S.Obligation(scopes[i].complete, scopes[i].required, row)
  }

  /**
   * After the steps' clauses are appended to a conjunctive base, a row
   * passes exactly when it passes the base and meets every step's obligation.
   */
  lemma {:induction false} CombinedMeaning(base: seq<Clause>, scopes: seq<Scopes>, row: Row)
    requires Conjunctive(base) && RequiredNegatable(scopes)
    ensures Conjunctive(base + Combined(scopes))
    ensures Eval(base + Combined(scopes), row) == (Eval(base, row) && MeetsAll(scopes, row))
    decreases |scopes|
  {
    if scopes == [] {
      assert base + Combined(scopes) == base;
    } else {
      var last := scopes[|scopes| - 1];
      var init := scopes[..|scopes| - 1];
      SplitLast(scopes, row);
      CombinedMeaning(base, init, row);
      assert base + Combined(scopes) == (base + Combined(init)) + S.StepScope(last.complete, last.required);
      StepScopeAppended(base + Combined(init), last.complete, last.required, row);
    }
  }

  /** The conditions on a list of steps, split into those on all but the last and those on the last. */
  lemma SplitLast(scopes: seq<Scopes>, row: Row)
    requires scopes != []
    ensures var last := scopes[|scopes| - 1];
      && MeetsAll(scopes, row) == (MeetsAll(scopes[..|scopes| - 1], row) && S.Obligation(last.complete, last.required, row))
      && (RequiredNegatable(scopes) ==>
            RequiredNegatable(scopes[..|scopes| - 1]) && (last.required.Some? ==> Negation.Negatable(last.required.value)))
  {
    var init := scopes[..|scopes| - 1];
    assert forall i :: 0 <= i < |init| ==> init[i] == scopes[i];
  }

  /** Appending one step's clauses to a conjunctive list conjoins the step's obligation. */
  lemma StepScopeAppended(prefix: seq<Clause>, complete: seq<Clause>, required: Option<seq<Clause>>, row: Row)
    requires Conjunctive(prefix)
    requires required.Some? ==> Negation.Negatable(required.value)
    ensures Conjunctive(prefix + S.StepScope(complete, required))
    ensures Eval(prefix + S.StepScope(complete, required), row) == (Eval(prefix, row) && S.Obligation(complete, required, row))
  {
    var inner := if required.Some? then
        Group(Or, [Clause(And, Raw(Negation.NegateWheres(required.value, "NOT")))])
        + Group(Or, Group(And, required.value) + Group(And, complete))
      else complete;
    assert S.StepScope(complete, required) == Group(And, inner);
    AndGroupMeaning(prefix, inner, row);
    GroupMeaning(And, inner, row);
    S.StepScopeMeaning(complete, required, row);
  }

  /** `clone $builder` followed by `whereRaw(reverseWheres($builder))`, as the scope adds them. */
  function NotOnboardedWheres(base: seq<Clause>, scoped: seq<Clause>): (r: seq<Clause>)
    ensures |r| == |base| + 1 && r[..|base|] == base
    ensures r[|base|].conn == And && r[|base|].body.Raw?
    ensures |r[|base|].body.clauses| == |base| + |scoped|
  {
    base + [Clause(And, Raw(Negation.NegateWheres(base + scoped, "not")))]
  }

  /**
   * With nothing on the base builder and at least one clause from the steps,
   * `onboarded(false)` selects exactly the rows `onboarded(true)` rejects.
   */
  lemma NotOnboardedIsComplement(scopes: seq<Scopes>, row: Row)
    requires RequiredNegatable(scopes) && Combined(scopes) != []
    ensures Eval(NotOnboardedWheres([], Combined(scopes)), row) == !Eval([] + Combined(scopes), row)
    ensures Eval(NotOnboardedWheres([], Combined(scopes)), row) == !MeetsAll(scopes, row)
  {
    var cs := Combined(scopes);
    CombinedShape(scopes);
    assert [] + cs == cs;
    assert Negation.Negatable(cs);
    Negation.NegationMeaning(And, cs, "not", row);
    CombinedMeaning([], scopes, row);
  }

  /**
   * When no step has a required scope and no complete scope adds a clause,
   * `onboarded(false)` on a builder without clauses of its own adds a raw
   * clause with no SQL in it.
   */
  lemma {:induction false} NoScopesNotOnboardedIsMalformed(scopes: seq<Scopes>)
    requires forall i :: 0 <= i < |scopes| ==> scopes[i].required.None? && scopes[i].complete == []
    ensures !WellFormed(NotOnboardedWheres([], Combined(scopes)))
  {
    CombinedEmpty(scopes);
    var r := NotOnboardedWheres([], Combined(scopes));
    assert r == [Clause(And, Raw([]))];
    assert !WellFormedBody(r[0].body);
  }

  // -------------------------------------------------------- the scope itself

  /** Where the first step without a complete scope sits, if any. */
  function FirstMissing(steps: seq<S.OnboardingStep>): (r: Option<nat>)
    reads steps
    ensures r.Some? ==> r.value < |steps| && steps[r.value].completeScope.None?
    ensures r.Some? ==> forall j :: 0 <= j < r.value ==> steps[j].completeScope.Some?
    ensures r.None? <==> AllScoped(steps)
    decreases |steps|
  {
    if steps == [] then None
    else if steps[0].completeScope.None? then Some(0)
    else
      var rest := FirstMissing(steps[1..]);
      assert forall i :: 1 <= i < |steps| ==> steps[i] == steps[1..][i - 1];
      if rest.Some? then Some(rest.value + 1) else None
  }

  /**
   * `->each(fn ($step) => $step->applyScopes($builder))`: each step's clauses
   * in order, stopping at the first step that throws.
   */
  method ApplyAll(steps: seq<S.OnboardingStep>, builder: Builder) returns (outcome: Outcome<S.ScopeError>)
    modifies builder
    ensures outcome.Pass? <==> FirstMissing(steps).None?
    ensures outcome.Pass? ==> builder.wheres == old(builder.wheres) + Combined(ScopesOf(steps))
    ensures outcome.Fail? ==>
      var k := FirstMissing(steps).value;
      && outcome.error == S.MissingScope(steps[k].Get("title"), S.UserClass(steps[k].user))
      && builder.wheres == old(builder.wheres) + Combined(ScopesOf(steps[..k]))
  {
    ghost var views := Views(steps);
    ghost var done: seq<Scopes> := [];
    var i := 0;
    while i < |steps|
      invariant 0 <= i <= |steps| && |done| == i && Collected(views, done)
      invariant builder.wheres == old(builder.wheres) + Combined(done)
    {
      ghost var next: seq<Scopes>;
      outcome, next := CollectStep(steps[i], builder, views, done, old(builder.wheres));
      if outcome.Fail? {
        assert Views(steps) == views;
        CollectedFromSteps(steps, done);
        PrefixScopes(steps, i, done);
        FirstMissingAt(steps, i);
        return;
      }
      done := next;
      i := i + 1;
    }
    assert Views(steps) == views;
    CollectedFromSteps(steps, done);
    PrefixScopes(steps, i, done);
    assert steps[..i] == steps;
    outcome := Pass;
  }

  /**
   * One turn of the loop: step `|done|` applies its scopes to a builder that
   * holds `start` and the scopes collected so far, and its scopes join them.
   */
  method CollectStep(step: S.OnboardingStep, builder: Builder, ghost views: seq<View>, ghost done: seq<Scopes>,
                     ghost start: seq<Clause>)
    returns (outcome: Outcome<S.ScopeError>, ghost next: seq<Scopes>)
    requires Collected(views, done) && |done| < |views|
    requires views[|done|] == View(step.completeScope, step.requiredScope)
    requires builder.wheres == start + Combined(done)
    modifies builder
    ensures outcome.Pass? <==> step.completeScope.Some?
    ensures outcome.Fail? ==> outcome.error == S.MissingScope(step.Get("title"), S.UserClass(step.user))
    ensures outcome.Fail? ==> builder.wheres == old(builder.wheres)
    ensures outcome.Pass? ==> |next| == |done| + 1 && Collected(views, next) && builder.wheres == start + Combined(next)
  {
    outcome := EachStep(step, builder);
    next := done;
    if outcome.Pass? {
      var scopes := Scopes(step.completeScope.value, step.requiredScope);
      CombinedSnoc(done, scopes);
      CollectedSnoc(views, done, scopes);
      next := done + [scopes];
    }
  }

  /** The closure handed to `each`: `$step->applyScopes($builder)`. */
  method EachStep(step: S.OnboardingStep, builder: Builder) returns (outcome: Outcome<S.ScopeError>)
    modifies builder
    ensures outcome.Pass? <==> step.completeScope.Some?
    ensures outcome.Fail? ==> outcome.error == S.MissingScope(step.Get("title"), S.UserClass(step.user))
    ensures outcome.Fail? ==> builder.wheres == old(builder.wheres)
    ensures outcome.Pass? ==> builder.wheres == old(builder.wheres) + S.StepScope(step.completeScope.value, step.requiredScope)
  {
    outcome := step.ApplyScopes(builder);
  }

  /** `done` holds the scopes of the first `|done|` views, each of which has a complete scope. */
  ghost predicate Collected(views: seq<View>, done: seq<Scopes>)
  {
    |done| <= |views| &&
    forall j :: 0 <= j < |done| ==> views[j].complete.Some? && done[j] == Scopes(views[j].complete.value, views[j].required)
  }

  lemma CollectedSnoc(views: seq<View>, done: seq<Scopes>, next: Scopes)
    requires Collected(views, done) && |done| < |views| && views[|done|].complete.Some?
    requires next == Scopes(views[|done|].complete.value, views[|done|].required)
    ensures Collected(views, done + [next])
  {
  }

  /** Scopes collected from the steps' views are the steps' own scopes. */
  lemma CollectedFromSteps(steps: seq<S.OnboardingStep>, done: seq<Scopes>)
    requires Collected(Views(steps), done)
    ensures |done| <= |steps|
    ensures forall j :: 0 <= j < |done| ==>
      steps[j].completeScope.Some? && done[j] == Scopes(steps[j].completeScope.value, steps[j].requiredScope)
  {
    var views := Views(steps);
    assert forall j :: 0 <= j < |done| ==> views[j] == View(steps[j].completeScope, steps[j].requiredScope);
  }

  /** The scopes collected pointwise for the first `i` steps are theirs. */
  lemma PrefixScopes(steps: seq<S.OnboardingStep>, i: nat, done: seq<Scopes>)
    requires i <= |steps| && |done| == i
    requires forall j :: 0 <= j < i ==>
      steps[j].completeScope.Some? && done[j] == Scopes(steps[j].completeScope.value, steps[j].requiredScope)
    ensures AllScoped(steps[..i]) && ScopesOf(steps[..i]) == done
  {
    assert forall j :: 0 <= j < i ==> steps[..i][j] == steps[j];
  }

  /** The first `i` steps have complete scopes and step `i` does not: it is the first missing one. */
  lemma FirstMissingAt(steps: seq<S.OnboardingStep>, i: nat)
    requires i < |steps| && steps[i].completeScope.None?
    requires forall j :: 0 <= j < i ==> steps[j].completeScope.Some?
    ensures FirstMissing(steps) == Some(i)
  {
  }

  /** One more step's clauses extend the combined clauses of the steps before it. */
  lemma CombinedSnoc(scopes: seq<Scopes>, next: Scopes)
    ensures Combined(scopes + [next]) == Combined(scopes) + S.StepScope(next.complete, next.required)
  {
    assert (scopes + [next])[..|scopes|] == scopes;
  }

  /** `$this->onboarding()->steps()`: a manager for the model, and its steps in order. */
  method OnboardingSteps(model: Entity, registry: R.OnboardingSteps) returns (steps: seq<S.OnboardingStep>)
    requires registry.Valid()
    modifies registry`stepsCache
    ensures R.CacheIdText(model) in registry.stepsCache && steps == Values(registry.stepsCache[R.CacheIdText(model)])
    ensures R.CacheIdText(model) in old(registry.stepsCache) ==> registry.stepsCache == old(registry.stepsCache)
    ensures R.CacheIdText(model) !in old(registry.stepsCache) ==>
      var entry := registry.stepsCache[R.CacheIdText(model)];
      && registry.stepsCache == old(registry.stepsCache)[R.CacheIdText(model) := entry]
      && R.BoundCopies(entry, registry.Definitions(model.cls), model)
      && Keys(entry) == Keys(registry.Definitions(model.cls))
      && R.Distinct(entry)
      && (forall i :: 0 <= i < |entry| ==> fresh(entry[i].value))
  {
    var manager := new M.OnboardingManager(model, registry);
    steps := manager.list;
  }

  /**
   * `User::onboarded($onboarded)` on `builder`, for the model instance
   * `model` the builder queries: the steps the registry holds for the model
   * are applied to the builder; for `onboarded(false)` a clone taken first
   * receives the raw negation of the builder's final WHERE list. A step
   * without a complete scope throws, and nothing is returned.
   */
  method ScopeOnboarded(builder: Builder, onboarded: bool, model: Entity, registry: R.OnboardingSteps)
    returns (r: Result<Builder, S.ScopeError>)
    requires registry.Valid()
    modifies builder, registry`stepsCache
    ensures R.CacheIdText(model) in registry.stepsCache
    ensures R.CacheIdText(model) in old(registry.stepsCache) ==> registry.stepsCache == old(registry.stepsCache)
    ensures R.CacheIdText(model) !in old(registry.stepsCache) ==>
      var entry := registry.stepsCache[R.CacheIdText(model)];
      && registry.stepsCache == old(registry.stepsCache)[R.CacheIdText(model) := entry]
      && R.BoundCopies(entry, registry.Definitions(model.cls), model)
      && Keys(entry) == Keys(registry.Definitions(model.cls))
      && R.Distinct(entry)
      && (forall i :: 0 <= i < |entry| ==> fresh(entry[i].value))
    ensures var steps := Values(registry.stepsCache[R.CacheIdText(model)]);
      && (r.Success? <==> AllScoped(steps))
      && (r.Failure? ==>
            var k := FirstMissing(steps).value;
            && r.error == S.MissingScope(steps[k].Get("title"), S.UserClass(steps[k].user))
            && builder.wheres == old(builder.wheres) + Combined(ScopesOf(steps[..k])))
      && (r.Success? ==> builder.wheres == old(builder.wheres) + Combined(ScopesOf(steps)))
      && (r.Success? && onboarded ==> r.value == builder)
      && (r.Success? && !onboarded ==>
            fresh(r.value) && r.value.wheres == NotOnboardedWheres(old(builder.wheres), Combined(ScopesOf(steps))))
  {
    var clone: Builder? := null;
    if !onboarded {
      clone := builder.Clone();
    }
    var steps := OnboardingSteps(model, registry);
    r := ApplyOnboarded(steps, builder, onboarded, clone);
  }

  /**
   * The body of the scope once the steps are known: apply them to `builder`;
   * for `onboarded(false)`, give `clone` (taken before) the raw negation of
   * the builder's final WHERE list and return it.
   */
  method ApplyOnboarded(steps: seq<S.OnboardingStep>, builder: Builder, onboarded: bool, clone: Builder?)
    returns (r: Result<Builder, S.ScopeError>)
    requires !onboarded ==> clone != null && clone != builder && clone.wheres == builder.wheres
    modifies builder, clone
    ensures r.Success? <==> AllScoped(steps)
    ensures r.Failure? ==>
      var k := FirstMissing(steps).value;
      && r.error == S.MissingScope(steps[k].Get("title"), S.UserClass(steps[k].user))
      && builder.wheres == old(builder.wheres) + Combined(ScopesOf(steps[..k]))
    ensures r.Success? ==> builder.wheres == old(builder.wheres) + Combined(ScopesOf(steps))
    ensures r.Success? && onboarded ==> r.value == builder
    ensures r.Success? && !onboarded ==>
      r.value == clone && clone.wheres == NotOnboardedWheres(old(builder.wheres), Combined(ScopesOf(steps)))
  {
    var outcome := ApplyAll(steps, builder);
    if outcome.Fail? {
      return Failure(outcome.error);
    }
    if !onboarded {
      ghost var cs := Combined(ScopesOf(steps));
      clone.WhereRaw(Negation.NegateWheres(builder.wheres, "not"));
      assert AllScoped(steps) && Combined(ScopesOf(steps)) == cs;
      return Success(clone);
    }
    return Success(builder);
  }

  // ------------------------------------------------------------- correction

  /**
   * The intended `onboarded(false)`: the base conditions kept as they are,
   * and the negation of the steps' clauses alone, in parentheses.
   */
  function NotOnboardedWheresFixed(base: seq<Clause>, scoped: seq<Clause>): (r: seq<Clause>)
    ensures |r| == |base| + 1 && r[..|base|] == base
    ensures r[|base|] == Clause(And, Nested([Clause(And, Raw(Negation.NegateWheres(scoped, "not")))]))
  {
    base + Group(And, [Clause(And, Raw(Negation.NegateWheres(scoped, "not")))])
  }

  /** The corrected clauses keep a conjunctive base filter and negate only the steps' part. */
  lemma NotOnboardedFixedMeaning(base: seq<Clause>, scopes: seq<Scopes>, row: Row)
    requires Conjunctive(base) && RequiredNegatable(scopes) && Combined(scopes) != []
    ensures Eval(NotOnboardedWheresFixed(base, Combined(scopes)), row) == (Eval(base, row) && !MeetsAll(scopes, row))
  {
    var cs := Combined(scopes);
    var raw := [Clause(And, Raw(Negation.NegateWheres(cs, "not")))];
    AndGroupMeaning(base, raw, row);
    CombinedShape(scopes);
    assert Negation.Negatable(cs);
    Negation.NegationMeaning(And, cs, "not", row);
    CombinedMeaning([], scopes, row);
    assert [] + cs == cs;
  }

  /**
   * `$builder->where(fn ($query) => $query->whereRaw(reverseWheres($scoped)))`,
   * where `$scoped` is a fresh builder the steps were applied to.
   */
  method WhereNotAll(steps: seq<S.OnboardingStep>, builder: Builder) returns (outcome: Outcome<S.ScopeError>)
    modifies builder
    ensures outcome.Pass? <==> AllScoped(steps)
    ensures outcome.Pass? ==> builder.wheres == NotOnboardedWheresFixed(old(builder.wheres), Combined(ScopesOf(steps)))
    ensures outcome.Fail? ==> outcome.error == S.MissingScope(
      steps[FirstMissing(steps).value].Get("title"), S.UserClass(steps[FirstMissing(steps).value].user))
    ensures outcome.Fail? ==> builder.wheres == old(builder.wheres)
  {
    var scoped;
    outcome, scoped := CollectScoped(steps);
    if outcome.Pass? {
      WhereNot(builder, scoped);
    }
  }

  /** `$scoped`: the clauses the steps give a fresh builder. */
  method CollectScoped(steps: seq<S.OnboardingStep>) returns (outcome: Outcome<S.ScopeError>, scoped: seq<Clause>)
    ensures outcome.Pass? <==> AllScoped(steps)
    ensures outcome.Pass? ==> scoped == Combined(ScopesOf(steps))
    ensures outcome.Fail? ==> outcome.error == S.MissingScope(
      steps[FirstMissing(steps).value].Get("title"), S.UserClass(steps[FirstMissing(steps).value].user))
  {
    var builder := new Builder();
    outcome := ApplyAll(steps, builder);
    scoped := builder.wheres;
  }

  /** The closure's nested query: `whereRaw` of the negation of `scoped`, in parentheses. */
  method WhereNot(builder: Builder, scoped: seq<Clause>)
    modifies builder
    ensures builder.wheres == NotOnboardedWheresFixed(old(builder.wheres), scoped)
  {
    var negation := new Builder();
    negation.WhereRaw(Negation.NegateWheres(scoped, "not"));
    assert negation.wheres == [Clause(And, Raw(Negation.NegateWheres(scoped, "not")))];
    builder.Where(negation.wheres);
  }

  /**
   * `onboarded(false)` as intended: the steps' clauses are collected on a
   * fresh builder and their negation is added to `builder` in parentheses.
   */
  method ScopeOnboardedFixed(builder: Builder, onboarded: bool, model: Entity, registry: R.OnboardingSteps)
    returns (r: Result<Builder, S.ScopeError>)
    requires registry.Valid()
    modifies builder, registry`stepsCache
    ensures R.CacheIdText(model) in registry.stepsCache
    ensures R.CacheIdText(model) in old(registry.stepsCache) ==> registry.stepsCache == old(registry.stepsCache)
    ensures R.CacheIdText(model) !in old(registry.stepsCache) ==>
      var entry := registry.stepsCache[R.CacheIdText(model)];
      && registry.stepsCache == old(registry.stepsCache)[R.CacheIdText(model) := entry]
      && R.BoundCopies(entry, registry.Definitions(model.cls), model)
      && Keys(entry) == Keys(registry.Definitions(model.cls))
      && R.Distinct(entry)
      && (forall i :: 0 <= i < |entry| ==> fresh(entry[i].value))
    ensures var steps := Values(registry.stepsCache[R.CacheIdText(model)]);
      && (r.Success? <==> AllScoped(steps))
      && (r.Failure? ==>
            var k := FirstMissing(steps).value;
            && r.error == S.MissingScope(steps[k].Get("title"), S.UserClass(steps[k].user))
            && builder.wheres == old(builder.wheres) + (if onboarded then Combined(ScopesOf(steps[..k])) else []))
      && (r.Success? ==> r.value == builder)
      && (r.Success? && onboarded ==> builder.wheres == old(builder.wheres) + Combined(ScopesOf(steps)))
      && (r.Success? && !onboarded ==>
            builder.wheres == NotOnboardedWheresFixed(old(builder.wheres), Combined(ScopesOf(steps))))
  {
    var steps := OnboardingSteps(model, registry);
    r := ApplyOnboardedFixed(steps, builder, onboarded);
  }

  /** The body of the corrected scope once the steps are known. */
  method ApplyOnboardedFixed(steps: seq<S.OnboardingStep>, builder: Builder, onboarded: bool)
    returns (r: Result<Builder, S.ScopeError>)
    modifies builder
    ensures r.Success? <==> AllScoped(steps)
    ensures r.Failure? ==>
      var k := FirstMissing(steps).value;
      && r.error == S.MissingScope(steps[k].Get("title"), S.UserClass(steps[k].user))
      && builder.wheres == old(builder.wheres) + (if onboarded then Combined(ScopesOf(steps[..k])) else [])
    ensures r.Success? ==> r.value == builder
    ensures r.Success? && onboarded ==> builder.wheres == old(builder.wheres) + Combined(ScopesOf(steps))
    ensures r.Success? && !onboarded ==>
      builder.wheres == NotOnboardedWheresFixed(old(builder.wheres), Combined(ScopesOf(steps)))
  {
    var outcome;
    if onboarded {
      outcome := ApplyAll(steps, builder);
    } else {
      outcome := WhereNotAll(steps, builder);
    }
    if outcome.Fail? {
      return Failure(outcome.error);
    }
    return Success(builder);
  }

  // ------------------------------------------------------- counterexample

  const Active: Atom := Basic("active", Eq, Int(1))
  const AgeOne: Atom := Basic("age", Eq, Int(1))

  /** A builder already restricted to `active = 1`. */
  const SampleBase: seq<Clause> := [Clause(And, Test(Active))]
  /** One step whose complete scope is `age = 1`. */
  const SampleScopes: seq<Scopes> := [Scopes([Clause(And, Test(AgeOne))], None)]
  /** An inactive user of age 5. */
  const SampleRow: Row := map["active" := Int(0), "age" := Int(5)]

  /** The sample row fails the base and the step, and the step adds one group. */
  lemma SampleFacts()
    ensures Combined(SampleScopes) == [Clause(And, Nested([Clause(And, Test(AgeOne))]))]
    ensures !Eval(SampleBase, SampleRow) && !Eval([Clause(And, Test(AgeOne))], SampleRow)
  {
    var inner := [Clause(And, Test(AgeOne))];
    assert SampleScopes[..0] == [];
    assert !Holds(Active, SampleRow) && !Holds(AgeOne, SampleRow);
    SimpleOperands(inner, SampleRow);
    SimpleOperands(SampleBase, SampleRow);
  }

  /** The raw negation of the sample's clauses, `not active = 1 or not (age = 1)`, and its two operands. */
  lemma SampleNegation()
    ensures Negation.NegateWheres(SampleBase + Combined(SampleScopes), "not")
      == [Clause(Or, Not("not", Test(Active))), Clause(Or, Not("not", Nested([Clause(And, Test(AgeOne))])))]
    ensures BodyOperands(And, Raw(Negation.NegateWheres(SampleBase + Combined(SampleScopes), "not")), false, SampleRow)
      == [Operand(And, true), Operand(Or, true)]
  {
    SampleFacts();
    var row := SampleRow;
    var inner := [Clause(And, Test(AgeOne))];
    var ns := Negation.NegateWheres(SampleBase + Combined(SampleScopes), "not");
    Negation.NegateWheresAt(SampleBase + Combined(SampleScopes), "not");
    assert ns == [Clause(Or, Not("not", Test(Active))), Clause(Or, Not("not", Nested(inner)))];
    assert ns[1..] == [Clause(Or, Not("not", Nested(inner)))];
    assert BodyOperands(Or, Not("not", Nested(inner)), false, row) == [Operand(Or, true)];
    assert ListOperands(ns[1..], row) == [Operand(Or, true)];
  }

  /**
   * `onboarded(false)` on the sample builder also selects the inactive user,
   * because the raw negation `not active = 1 or not (age = 1)` is spliced
   * after `active = 1 and` without parentheses.
   */
  lemma NotOnboardedLosesBase()
    ensures !Eval(SampleBase, SampleRow)
    ensures Eval(NotOnboardedWheres(SampleBase, Combined(SampleScopes)), SampleRow)
  {
    SampleFacts();
    SampleNegation();
    var row := SampleRow;
    var scoped := Combined(SampleScopes);
    var ns := Negation.NegateWheres(SampleBase + scoped, "not");
    var ops := [Operand(And, false), Operand(And, true), Operand(Or, true)];
    OperandsOfAppend(SampleBase, [Clause(And, Raw(ns))], row);
    assert ListOperands([Clause(And, Raw(ns))], row) == BodyOperands(And, Raw(ns), false, row);
    assert ListOperands(SampleBase, row) == [Operand(And, false)];
    assert ListOperands(NotOnboardedWheres(SampleBase, scoped), row) == ops;
    assert PrecFrom(false, false, ops[1..]) == PrecFrom(false, false, ops[2..]);
  }

  /** The corrected clauses reject the sample row, as the base filter demands. */
  lemma NotOnboardedFixedKeepsBase()
    ensures !Eval(NotOnboardedWheresFixed(SampleBase, Combined(SampleScopes)), SampleRow)
  {
    SampleFacts();
    assert Conjunctive(SampleBase);
    NotOnboardedFixedMeaning(SampleBase, SampleScopes, SampleRow);
  }
}
