/** A user's view of onboarding: their bound step copies and the folds over them. */
module OnboardingManager {
  import opened Wrappers
  import opened Entities
  import opened OrderedMaps
  import S = OnboardingStep
  import R = OnboardingSteps
  import Query

  /** `filter(incomplete)`: the steps, in order, that are not complete. */
  function Unfinished(steps: seq<S.OnboardingStep>): (r: seq<S.OnboardingStep>)
    reads steps
    ensures forall x :: x in r ==> x in steps && x.Incomplete()
    ensures forall i :: 0 <= i < |steps| && steps[i].Incomplete() ==> steps[i] in r
    ensures r == [] <==> forall i :: 0 <= i < |steps| ==> steps[i].Complete()
  {
    if steps == [] then []
    else
      var head := if steps[0].Incomplete() then [steps[0]] else [];
      head + Unfinished(steps[1..])
  }

  /** `filter(required and incomplete)`: the steps, in order, that are required but not complete. */
  function UnfinishedRequired(steps: seq<S.OnboardingStep>): (r: seq<S.OnboardingStep>)
    reads steps
    ensures forall x :: x in r ==> x in steps && x.Required() && x.Incomplete()
    ensures forall i :: 0 <= i < |steps| && steps[i].Required() && steps[i].Incomplete() ==> steps[i] in r
    ensures r == [] <==> forall i :: 0 <= i < |steps| ==> steps[i].Required() ==> steps[i].Complete()
  {
    if steps == [] then []
    else
      var head := if steps[0].Required() && steps[0].Incomplete() then [steps[0]] else [];
      head + UnfinishedRequired(steps[1..])
  }

  /** `first(incomplete)`: the position of the first step that is not complete. */
  function FirstUnfinished(steps: seq<S.OnboardingStep>): (r: Option<nat>)
    reads steps
    ensures r.Some? ==> r.value < |steps| && steps[r.value].Incomplete()
    ensures r.Some? ==> forall j :: 0 <= j < r.value ==> steps[j].Complete()
    ensures r.None? ==> forall j :: 0 <= j < |steps| ==> steps[j].Complete()
  {
    if steps == [] then None
    else if steps[0].Incomplete() then Some(0)
    else
      var rest := FirstUnfinished(steps[1..]);
      if rest.Some? then Some(rest.value + 1) else None
  }

  class OnboardingManager {
    /** The user's step copies, keyed by code (`steps()`). */
    const steps: OrderedMap<S.OnboardingStep>
    /** The same copies, in order. */
    const list: seq<S.OnboardingStep>

    /** `new OnboardingManager($user, $registry)`: the registry's steps for the user. */
    constructor(user: Entity, registry: R.OnboardingSteps)
      requires registry.Valid()
      modifies registry`stepsCache
      ensures list == Values(steps)
      ensures R.CacheIdText(user) in registry.stepsCache && steps == registry.stepsCache[R.CacheIdText(user)]
      ensures R.CacheIdText(user) in old(registry.stepsCache) ==> registry.stepsCache == old(registry.stepsCache)
      ensures R.CacheIdText(user) !in old(registry.stepsCache) ==>
        && registry.stepsCache == old(registry.stepsCache)[R.CacheIdText(user) := steps]
        && R.BoundCopies(steps, registry.Definitions(user.cls), user)
        && Keys(steps) == Keys(registry.Definitions(user.cls))
        && R.Distinct(steps)
        && (forall i :: 0 <= i < |steps| ==> fresh(steps[i].value))
    {
      var found := registry.Steps(user);
      steps := found;
      list := Values(found);
    }

    /** `finished()`: no step is incomplete. */
    function Finished(): (r: bool)
      reads list
      ensures r <==> forall i :: 0 <= i < |list| ==> list[i].Complete()
    {
      Unfinished(list) == []
    }

    /** `finishedRequired()`: no required step is incomplete. */
    function FinishedRequired(): (r: bool)
      reads list
      ensures r <==> forall i :: 0 <= i < |list| ==> list[i].Required() ==> list[i].Complete()
    {
      UnfinishedRequired(list) == []
    }

    /** `inProgress()`: some step is incomplete. */
    function InProgress(): (r: bool)
      reads list
      ensures r <==> exists i :: 0 <= i < |list| && list[i].Incomplete()
    {
      !Finished()
    }

    /** `nextUnfinishedStep()`: the first incomplete step, none when onboarding is finished. */
    function NextUnfinishedStep(): (r: Option<S.OnboardingStep>)
      reads list
      ensures r.None? <==> Finished()
      ensures r.Some? ==> r.value.Incomplete()
      ensures r.Some? ==> exists i :: 0 <= i < |list| && list[i] == r.value && (forall j :: 0 <= j < i ==> list[j].Complete())
    {
      var first := FirstUnfinished(list);
      if first.Some? then Some(list[first.value]) else None
    }
  }

  /** Finishing every step finishes every required step. */
  lemma FinishedIsFinishedRequired(m: OnboardingManager)
    ensures m.Finished() ==> m.FinishedRequired()
  {
  }

  // ------------------------------------------------------------ scenarios

  const Anyone: Entity := Entity(1, "User", None, map[])

  /** Callbacks that ignore the user. */
  function Always(u: Entity): bool { true }
  function Never(u: Entity): bool { false }

  /** A manager over a registry with nothing cached: its list is the class's definitions bound to the user, in order. */
  method FreshManager(user: Entity, registry: R.OnboardingSteps) returns (m: OnboardingManager)
    requires registry.stepsCache == map[] && registry.Valid()
    modifies registry`stepsCache
    ensures |m.list| == |registry.Definitions(user.cls)|
    ensures forall i :: 0 <= i < |m.list| ==> R.BoundCopy(m.list[i], registry.Definitions(user.cls)[i].value, user)
  {
    m := new OnboardingManager(user, registry);
  }

  /** Steps without a `completeIf` are never complete, and without a `requiredIf` always required. */
  method AllIncompleteScenario() returns (inProgress: bool, finished: bool, finishedRequired: bool)
    ensures inProgress && !finished && !finishedRequired
  {
    var registry := new R.OnboardingSteps();
    var first := registry.AddStep("Test Step", "User");
    var second := registry.AddStep("Another Test Step", "User");
    var m := FreshManager(Anyone, registry);
    assert m.list[0].Incomplete() && m.list[0].Required();
    inProgress, finished, finishedRequired := m.InProgress(), m.Finished(), m.FinishedRequired();
  }

  /** A step whose callback holds is complete. */
  method AllCompleteScenario() returns (inProgress: bool, finished: bool, finishedRequired: bool)
    ensures !inProgress && finished && finishedRequired
  {
    var registry := new R.OnboardingSteps();
    var step := registry.AddStep("Test Step", "User");
    step := step.CompleteIf(Always);
    var m := FreshManager(Anyone, registry);
    assert m.list[0].Complete();
    inProgress, finished, finishedRequired := m.InProgress(), m.Finished(), m.FinishedRequired();
  }

  /** A user step with the given callbacks. */
  method CallbackStep(registry: R.OnboardingSteps, code: string, complete: Entity -> bool, required: Entity -> bool)
    returns (step: S.OnboardingStep)
    requires registry.Valid()
    requires forall j :: 0 <= j < |registry.Definitions("User")| ==> registry.Definitions("User")[j].key != code
    modifies registry`steps
    ensures fresh(step) && registry.Valid()
    ensures registry.steps == old(registry.steps)["User" := old(registry.Definitions("User")) + [Entry(code, step)]]
    ensures step.completeIf == Some(complete) && step.requiredIf == Some(required)
  {
    ghost var before := registry.Definitions("User");
    step := registry.AddStep(code, "User");
    PutAbsent(before, code, step);
    step := step.CompleteIf(complete);
    step := step.RequiredIf(required);
  }

  /** A fresh registry with two user steps, `First Step` and `Second Step`, and the given callbacks. */
  method TwoCallbackSteps(c1: Entity -> bool, r1: Entity -> bool, c2: Entity -> bool, r2: Entity -> bool)
    returns (registry: R.OnboardingSteps)
    ensures fresh(registry) && registry.stepsCache == map[] && registry.Valid()
    ensures var d := registry.Definitions("User");
      && |d| == 2
      && d[0].value.completeIf == Some(c1) && d[0].value.requiredIf == Some(r1)
      && d[1].value.completeIf == Some(c2) && d[1].value.requiredIf == Some(r2)
  {
    registry := new R.OnboardingSteps();
    var first := CallbackStep(registry, "First Step", c1, r1);
    assert registry.stepsCache == map[];
    var second := CallbackStep(registry, "Second Step", c2, r2);
    assert registry.stepsCache == map[];
  }

  /** A complete required step followed by an incomplete optional one. */
  method OptionalStepScenario() returns (inProgress: bool, finished: bool, finishedRequired: bool)
    ensures inProgress && !finished && finishedRequired
  {
    var registry := TwoCallbackSteps(Always, Always, Never, Never);
    var m := FreshManager(Anyone, registry);
    assert m.list[0].Complete() && m.list[1].Incomplete() && m.list[1].Optional();
    assert forall i :: 0 <= i < |m.list| ==> m.list[i].Required() ==> m.list[i].Complete() by {
      forall i | 0 <= i < |m.list| ensures m.list[i].Required() ==> m.list[i].Complete() {
        assert i == 0 || i == 1;
      }
    }
    inProgress, finished, finishedRequired := m.InProgress(), m.Finished(), m.FinishedRequired();
  }

  /** A user step with a link and a completion callback. */
  method LinkedStep(registry: R.OnboardingSteps, code: string, link: string, complete: Entity -> bool)
    returns (step: S.OnboardingStep)
    requires registry.Valid()
    requires forall j :: 0 <= j < |registry.Definitions("User")| ==> registry.Definitions("User")[j].key != code
    modifies registry`steps
    ensures fresh(step) && registry.Valid()
    ensures registry.steps == old(registry.steps)["User" := old(registry.Definitions("User")) + [Entry(code, step)]]
    ensures step.completeIf == Some(complete) && step.attributes == map["title" := code, "link" := link]
  {
    ghost var before := registry.Definitions("User");
    step := registry.AddStep(code, "User");
    PutAbsent(before, code, step);
    step := step.Link(link);
    step := step.CompleteIf(complete);
  }

  /** Two linked steps `Step 1` and `Step 2` with the given completion callbacks. */
  method TwoLinkedSteps(c1: Entity -> bool, c2: Entity -> bool) returns (registry: R.OnboardingSteps)
    ensures fresh(registry) && registry.stepsCache == map[] && registry.Valid()
    ensures var d := registry.Definitions("User");
      && |d| == 2
      && d[0].value.completeIf == Some(c1) && d[1].value.completeIf == Some(c2)
      && d[1].value.attributes == map["title" := "Step 2", "link" := "/step-2"]
  {
    registry := new R.OnboardingSteps();
    var s1 := LinkedStep(registry, "Step 1", "/step-1", c1);
    assert registry.stepsCache == map[];
    var s2 := LinkedStep(registry, "Step 2", "/step-2", c2);
    assert registry.stepsCache == map[];
  }

  /** Of two steps, the first complete and the second not, the next one is the second. */
  lemma NextOfTwo(m: OnboardingManager)
    requires |m.list| == 2 && m.list[0].Complete() && m.list[1].Incomplete()
    ensures m.NextUnfinishedStep() == Some(m.list[1])
  {
    assert m.list[1..][0] == m.list[1];
  }

  /** The next unfinished step is the first incomplete one in registration order. */
  method NextStepScenario() returns (link: Option<string>)
    ensures link == Some("/step-2")
  {
    var registry := TwoLinkedSteps(Always, Never);
    var m := FreshManager(Anyone, registry);
    NextOfTwo(m);
    var next := m.NextUnfinishedStep();
    assert next.value.attributes == map["title" := "Step 2", "link" := "/step-2"];
    link := next.value.Get("link");
  }

  /** Once every step is complete there is no next step. */
  method NoNextStepScenario() returns (next: Option<S.OnboardingStep>)
    ensures next.None?
  {
    var registry := TwoLinkedSteps(Always, Always);
    var m := FreshManager(Anyone, registry);
    assert |m.list| == 2;
    assert forall i :: 0 <= i < |m.list| ==> m.list[i].Complete() by {
      forall i | 0 <= i < |m.list| ensures m.list[i].Complete() {
        assert i == 0 || i == 1;
      }
    }
    next := m.NextUnfinishedStep();
  }

  /** Joe is the user whose name is `joe`. */
  function IsJoe(u: Entity): bool
  {
    "name" in u.fields && u.fields["name"] == Query.Text("joe")
  }

  /** The completion callback receives the user the copies are bound to. */
  method CallbackSeesUserScenario() returns (finished: bool)
    ensures finished
  {
    var joe := Entity(1, "User", None, map["name" := Query.Text("joe")]);
    var registry := new R.OnboardingSteps();
    var step := registry.AddStep("Test Step", "User");
    step := step.CompleteIf(IsJoe);
    var m := FreshManager(joe, registry);
    assert IsJoe(joe) && m.list[0].completeIf == Some(IsJoe) && m.list[0].user == Some(joe);
    assert m.list[0].Complete();
    finished := m.Finished();
  }
}
