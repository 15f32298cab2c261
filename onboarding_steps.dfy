/**
 * The registry of step definitions per onboarded class, and the cache of
 * per-user copies of those definitions.
 */
module OnboardingSteps {
  import opened Wrappers
  import opened Strings
  import opened Entities
  import opened OrderedMaps
  import S = OnboardingStep

  // ------------------------------------------------------------ cache identity

  /**
   * `getCacheId` as written: connection name, table and key concatenated
   * for a stored model (a missing connection name is the empty string),
   * and the decimal object id for anything else. The three parts sit side
   * by side with no separator.
   */
  function CacheIdText(user: Entity): (id: string)
    ensures user.record.None? ==>
      && |id| > 0 && IsDigits(id) && DigitsValue(id) == user.oid
      && (id[0] == '0' ==> user.oid == 0 && id == "0")
    ensures user.record.Some? ==>
      var rec := user.record.value;
      && |id| > |rec.connection| + |rec.table|
      && id[..|rec.connection|] == rec.connection
      && id[|rec.connection|..|rec.connection| + |rec.table|] == rec.table
      && IsDigits(id[|rec.connection| + |rec.table|..])
      && DigitsValue(id[|rec.connection| + |rec.table|..]) == rec.key
      && (id[|rec.connection| + |rec.table|] == '0' ==> rec.key == 0 && |id| == |rec.connection| + |rec.table| + 1)
  {
    if user.record.Some? then
      var rec := user.record.value;
      var id := rec.connection + rec.table + NatToString(rec.key);
      assert id[|rec.connection| + |rec.table|..] == NatToString(rec.key);
      id
    else NatToString(user.oid)
  }

  /** Two unsaved objects share a cache id exactly when they are the same object. */
  lemma CacheIdTextObjects(a: Entity, b: Entity)
    requires a.record.None? && b.record.None?
    ensures CacheIdText(a) == CacheIdText(b) <==> a.oid == b.oid
  {
  }

  /** Within one connection and table, stored rows share a cache id exactly when they share a key. */
  lemma CacheIdTextSameTable(a: Entity, b: Entity)
    requires a.record.Some? && b.record.Some?
    requires a.record.value.connection == b.record.value.connection && a.record.value.table == b.record.value.table
    ensures CacheIdText(a) == CacheIdText(b) <==> a.record == b.record
  {
    var n := |a.record.value.connection| + |a.record.value.table|;
    if CacheIdText(a) == CacheIdText(b) {
      assert CacheIdText(a)[n..] == CacheIdText(b)[n..];
    }
  }

  /** A stored user on table `users1` with key 2, and another on table `users` with key 12. */
  const UsersOneKeyTwo: Entity := Entity(1, "User", Some(Record("", "users1", 2)), map[])
  const UsersKeyTwelve: Entity := Entity(2, "Company", Some(Record("", "users", 12)), map[])

  /** Those two different stored rows get the same cache id, `users12`. */
  lemma CacheIdTextCollides()
    ensures UsersOneKeyTwo.record != UsersKeyTwelve.record
    ensures CacheIdText(UsersOneKeyTwo) == CacheIdText(UsersKeyTwelve)
  {
    assert NatToString(2) == "2";
    assert NatToString(12) == NatToString(1) + [Digit(2)] == "12";
    assert "" + "users1" + "2" == "" + "users" + "12";
  }

  /**
   * A cache id that tells every stored row and every unsaved object apart:
   * each of connection name and table is preceded by its length and a
   * colon; unsaved objects are marked with `#`.
   */
  function CacheIdFixed(user: Entity): string
  {
    if user.record.Some? then
      var rec := user.record.value;
      NatToString(|rec.connection|) + ":" + (rec.connection + (NatToString(|rec.table|) + ":" + (rec.table + NatToString(rec.key))))
    else "#" + NatToString(user.oid)
  }

  /** Splitting a string at a colon that follows a run of digits. */
  lemma SplitAfterDigits(d1: string, r1: string, d2: string, r2: string)
    requires IsDigits(d1) && IsDigits(d2)
    requires d1 + ":" + r1 == d2 + ":" + r2
    ensures d1 == d2 && r1 == r2
  {
    FirstColon(d1, r1);
    FirstColon(d2, r2);
    var s := d1 + ":" + r1;
    assert d1 == s[..|d1|] == d2;
    assert r1 == s[|d1| + 1..] == r2;
  }

  /** After a run of digits, the first colon is the one that follows them. */
  lemma FirstColon(d: string, r: string)
    requires IsDigits(d)
    ensures (d + ":" + r)[|d|] == ':'
    ensures forall i :: 0 <= i < |d| ==> (d + ":" + r)[i] != ':'
  {
  }

  /** Unsaved objects' ids start with `#`, stored rows' ids with a digit. */
  lemma CacheIdFixedHead(user: Entity)
    ensures |CacheIdFixed(user)| > 0
    ensures CacheIdFixed(user)[0] == '#' <==> user.record.None?
  {
    if user.record.Some? {
      var rec := user.record.value;
      assert CacheIdFixed(user)[0] == NatToString(|rec.connection|)[0];
    }
  }

  /** Splitting a string after a prefix of known length. */
  lemma SplitAt(p1: string, r1: string, p2: string, r2: string)
    requires |p1| == |p2| && p1 + r1 == p2 + r2
    ensures p1 == p2 && r1 == r2
  {
    assert p1 == (p1 + r1)[..|p1|];
    assert p2 == (p2 + r2)[..|p2|];
    assert r1 == (p1 + r1)[|p1|..];
    assert r2 == (p2 + r2)[|p2|..];
  }

  /** The corrected id: two users share a cache entry exactly when they are the same stored row, or the same unsaved object. */
  lemma CacheIdFixedIdentifies(a: Entity, b: Entity)
    ensures CacheIdFixed(a) == CacheIdFixed(b) <==>
      (a.record.Some? && b.record == a.record) || (a.record.None? && b.record.None? && a.oid == b.oid)
  {
    CacheIdFixedHead(a);
    CacheIdFixedHead(b);
    if CacheIdFixed(a) == CacheIdFixed(b) {
      if a.record.Some? && b.record.Some? {
        var x, y := a.record.value, b.record.value;
        SplitAfterDigits(NatToString(|x.connection|), x.connection + (NatToString(|x.table|) + ":" + (x.table + NatToString(x.key))),
                         NatToString(|y.connection|), y.connection + (NatToString(|y.table|) + ":" + (y.table + NatToString(y.key))));
        SplitAt(x.connection, NatToString(|x.table|) + ":" + (x.table + NatToString(x.key)),
                y.connection, NatToString(|y.table|) + ":" + (y.table + NatToString(y.key)));
        SplitAfterDigits(NatToString(|x.table|), x.table + NatToString(x.key), NatToString(|y.table|), y.table + NatToString(y.key));
        SplitAt(x.table, NatToString(x.key), y.table, NatToString(y.key));
      } else if a.record.None? && b.record.None? {
        SplitAt("#", NatToString(a.oid), "#", NatToString(b.oid));
      }
    }
  }

  // ---------------------------------------------------------------- copies

  /** `copy` is `(clone $definition)->setUser($user)`. */
  ghost predicate BoundCopy(copy: S.OnboardingStep, definition: S.OnboardingStep, user: Entity)
    reads copy, definition
  {
    && copy.attributes == definition.attributes
    && copy.completeIf == definition.completeIf && copy.completeScope == definition.completeScope
    && copy.requiredIf == definition.requiredIf && copy.requiredScope == definition.requiredScope
    && copy.user == Some(user)
  }

  /** `(clone $definition)->setUser($user)`. */
  method BindCopy(definition: S.OnboardingStep, user: Entity) returns (bound: S.OnboardingStep)
    ensures fresh(bound) && BoundCopy(bound, definition, user)
  {
    var copy := definition.Copy();
    bound := copy.SetUser(user);
  }

  /** Entry by entry, under the same codes, `copies` holds bound copies of `definitions`. */
  ghost predicate BoundCopies(copies: OrderedMap<S.OnboardingStep>, definitions: OrderedMap<S.OnboardingStep>, user: Entity)
    reads set e | e in copies :: e.value, set e | e in definitions :: e.value
  {
    && |copies| == |definitions|
    && forall i :: 0 <= i < |copies| ==>
         copies[i].key == definitions[i].key && BoundCopy(copies[i].value, definitions[i].value, user)
  }

  /** No two entries share one step object. */
  predicate Distinct(steps: OrderedMap<S.OnboardingStep>)
  {
    forall i, j :: 0 <= i < j < |steps| ==> steps[i].value != steps[j].value
  }

  /**
   * The loop of `setStepsFor`: each definition's bound copy assigned under
   * its code. A class's codes are distinct, so every assignment appends.
   */
  method BindCopies(definitions: OrderedMap<S.OnboardingStep>, user: Entity) returns (copies: OrderedMap<S.OnboardingStep>)
    requires DistinctKeys(definitions)
    ensures BoundCopies(copies, definitions, user) && Distinct(copies)
    ensures Keys(copies) == Keys(definitions)
    ensures forall i :: 0 <= i < |copies| ==> fresh(copies[i].value)
  {
    copies := [];
    var i := 0;
    while i < |definitions|
      invariant 0 <= i <= |definitions| && |copies| == i
      invariant forall j :: 0 <= j < i ==>
        copies[j].key == definitions[j].key && BoundCopy(copies[j].value, definitions[j].value, user)
      invariant Distinct(copies)
      invariant forall j :: 0 <= j < i ==> fresh(copies[j].value)
    {
      var bound := BindCopy(definitions[i].value, user);
      PutAbsent(copies, definitions[i].key, bound);
      copies := Put(copies, definitions[i].key, bound);
      i := i + 1;
    }
  }

  class OnboardingSteps {
    /** Onboarded class name => step code => definition. */
    var steps: map<string, OrderedMap<S.OnboardingStep>>
    /** Cache id => step code => copy bound to that user. */
    var stepsCache: map<string, OrderedMap<S.OnboardingStep>>

    /** Every class's codes are distinct, as keys of a PHP array are. */
    ghost predicate Valid()
      reads this`steps
    {
      forall cls :: cls in steps ==> DistinctKeys(steps[cls])
    }

    constructor()
      ensures steps == map[] && stepsCache == map[]
      ensures Valid()
    {
      steps := map[];
      stepsCache := map[];
    }

    /** The definitions registered for a class, none when it has none (`isset` fails). */
    function Definitions(cls: string): (r: OrderedMap<S.OnboardingStep>)
      reads this`steps
      ensures cls in steps ==> r == steps[cls]
      ensures cls !in steps ==> r == []
    {
      if cls in steps then steps[cls] else []
    }

    /**
     * `addStep`: a new step titled with its code, stored under the class and
     * code; a code registered before keeps its place and loses its old step.
     */
    method AddStep(code: string, cls: string) returns (step: S.OnboardingStep)
      requires Valid()
      modifies this`steps
      ensures Valid()
      ensures fresh(step)
      ensures step.attributes == map["title" := code] && step.user.None?
      ensures step.completeIf.None? && step.completeScope.None?
      ensures step.requiredIf.None? && step.requiredScope.None?
      ensures steps == old(steps)[cls := Put(old(Definitions(cls)), code, step)]
    {
      step := new S.OnboardingStep(code);
      AddStepKeepsCodesDistinct(Definitions(cls), code, step);
      steps := steps[cls := Put(Definitions(cls), code, step)];
    }

    /** `getRawSteps`: the class's definitions; `None` is the undefined-index error for an unknown class. */
    function GetRawSteps(cls: string): (r: Option<OrderedMap<S.OnboardingStep>>)
      reads this`steps
      ensures r.Some? <==> cls in steps
      ensures r.Some? ==> r.value == steps[cls]
    {
      if cls in steps then Some(steps[cls]) else None
    }

    /**
     * `steps($user)`: the first call for a cache id fills the cache with
     * fresh copies of the user's class's definitions bound to the user, in
     * registration order; later calls for the same id return the very same
     * objects, whoever asks.
     */
    method Steps(user: Entity) returns (r: OrderedMap<S.OnboardingStep>)
      requires Valid()
      modifies this`stepsCache
      ensures CacheIdText(user) in stepsCache && r == stepsCache[CacheIdText(user)]
      ensures CacheIdText(user) in old(stepsCache) ==> stepsCache == old(stepsCache)
      ensures CacheIdText(user) !in old(stepsCache) ==>
        && stepsCache == old(stepsCache)[CacheIdText(user) := r]
        && BoundCopies(r, Definitions(user.cls), user)
        && Keys(r) == Keys(Definitions(user.cls))
        && Distinct(r)
        && (forall i :: 0 <= i < |r| ==> fresh(r[i].value))
    {
      r := StepsFor(user, CacheIdText(user));
    }

    /** `steps($user)` with the corrected cache id. */
    method StepsFixed(user: Entity) returns (r: OrderedMap<S.OnboardingStep>)
      requires Valid()
      modifies this`stepsCache
      ensures CacheIdFixed(user) in stepsCache && r == stepsCache[CacheIdFixed(user)]
      ensures CacheIdFixed(user) in old(stepsCache) ==> stepsCache == old(stepsCache)
      ensures CacheIdFixed(user) !in old(stepsCache) ==>
        && stepsCache == old(stepsCache)[CacheIdFixed(user) := r]
        && BoundCopies(r, Definitions(user.cls), user)
        && Keys(r) == Keys(Definitions(user.cls))
        && Distinct(r)
        && (forall i :: 0 <= i < |r| ==> fresh(r[i].value))
    {
      r := StepsFor(user, CacheIdFixed(user));
    }

    /** The body of `steps` once the id is known: look the id up, filling its entry on a miss. */
    method StepsFor(user: Entity, id: string) returns (r: OrderedMap<S.OnboardingStep>)
      requires Valid()
      modifies this`stepsCache
      ensures id in stepsCache && r == stepsCache[id]
      ensures id in old(stepsCache) ==> stepsCache == old(stepsCache)
      ensures id !in old(stepsCache) ==>
        && stepsCache == old(stepsCache)[id := r]
        && BoundCopies(r, Definitions(user.cls), user)
        && Keys(r) == Keys(Definitions(user.cls))
        && Distinct(r)
        && (forall i :: 0 <= i < |r| ==> fresh(r[i].value))
    {
      if id !in stepsCache {
        SetStepsFor(user, id);
      }
      r := stepsCache[id];
    }

    /** `setStepsFor`: the id's entry, started empty and filled by the loop. */
    method SetStepsFor(user: Entity, id: string)
      requires Valid()
      modifies this`stepsCache
      ensures id in stepsCache && stepsCache == old(stepsCache)[id := stepsCache[id]]
      ensures BoundCopies(stepsCache[id], Definitions(user.cls), user)
      ensures Keys(stepsCache[id]) == Keys(Definitions(user.cls))
      ensures Distinct(stepsCache[id])
      ensures forall i :: 0 <= i < |stepsCache[id]| ==> fresh(stepsCache[id][i].value)
    {
      assert DistinctKeys(Definitions(user.cls));
      stepsCache := stepsCache[id := []];
      var copies := BindCopies(Definitions(user.cls), user);
      stepsCache := stepsCache[id := copies];
    }
  }

  /** Registration keeps every class's codes distinct. */
  lemma AddStepKeepsCodesDistinct(before: OrderedMap<S.OnboardingStep>, code: string, step: S.OnboardingStep)
    requires DistinctKeys(before)
    ensures DistinctKeys(Put(before, code, step))
  {
    PutKeepsKeysDistinct(before, code, step);
  }

  // ------------------------------------------------------------ scenarios

  /** Registering a code twice for one class leaves one step, the later one. */
  method OncePerCodeScenario() returns (count: nat, letter: Option<string>)
    ensures count == 1 && letter == Some("b")
  {
    var registry := new OnboardingSteps();
    var first := registry.AddStep("Step", "User");
    first := first.Attributes(map["letter" := "a"]);
    var second := registry.AddStep("Step", "User");
    second := second.Attributes(map["letter" := "b"]);
    var steps := registry.Steps(Entity(1, "User", None, map[]));
    count := |steps|;
    letter := steps[0].value.Get("letter");
  }

  /** Steps are kept in registration order. */
  method RegistrationOrderScenario() returns (codes: seq<string>)
    ensures codes == ["step 1", "step 2"]
  {
    var registry := StepOneAndTwo();
    var steps := registry.Steps(Entity(1, "User", None, map[]));
    codes := Keys(steps);
  }

  /** A fresh registry with user steps `step 1` and `step 2`, registered in that order, and nothing cached. */
  method StepOneAndTwo() returns (registry: OnboardingSteps)
    ensures fresh(registry) && registry.stepsCache == map[] && registry.Valid()
    ensures Keys(registry.Definitions("User")) == ["step 1", "step 2"]
  {
    registry := new OnboardingSteps();
    var s1 := registry.AddStep("step 1", "User");
    var s2 := registry.AddStep("step 2", "User");
    assert Keys(registry.Definitions("User")) == ["step 1", "step 2"];
  }

  /** Steps are kept per class: another class's step does not show up. */
  method ClassScopingScenario() returns (userCodes: seq<string>, companyCodes: seq<string>)
    ensures userCodes == [] && companyCodes == ["step 3"]
  {
    var registry := new OnboardingSteps();
    var s3 := registry.AddStep("step 3", "Company");
    var user := registry.Steps(Entity(1, "User", None, map[]));
    var company := registry.Steps(Entity(2, "Company", None, map[]));
    userCodes, companyCodes := Keys(user), Keys(company);
  }

  /** Two users get separate copies: changing one user's copy leaves the other's alone. */
  method SeparateCopiesScenario() returns (first: Option<string>, second: Option<string>)
    ensures first == Some("b") && second == Some("x")
  {
    var registry := new OnboardingSteps();
    var definition := registry.AddStep("step 2", "User");
    definition := definition.Attributes(map["letter" := "b"]);
    var user1 := registry.Steps(Entity(1, "User", None, map[]));
    var user2 := registry.Steps(Entity(2, "User", None, map[]));
    var changed := user2[0].value.Attributes(map["letter" := "x"]);
    first := user1[0].value.Get("letter");
    second := user2[0].value.Get("letter");
  }

  /** Asking again for the same user returns the same objects, so a change made through one is seen through the other. */
  method SameUserScenario() returns (titleA: Option<string>, titleAgain: Option<string>, titleB: Option<string>)
    ensures titleA == Some("updated") && titleAgain == Some("updated") && titleB == Some("code")
  {
    var registry := new OnboardingSteps();
    var definition := registry.AddStep("code", "User");
    var userA := Entity(1, "User", None, map[]);
    var stepsA := registry.Steps(userA);
    var stepsB := registry.Steps(Entity(2, "User", None, map[]));
    var changed := stepsA[0].value.Attributes(map["title" := "updated"]);
    var stepsAgain := registry.Steps(userA);
    titleA := stepsA[0].value.Get("title");
    titleAgain := stepsAgain[0].value.Get("title");
    titleB := stepsB[0].value.Get("title");
  }

  /** A fresh registry with a `profile` step for users and a `billing` step for companies, and nothing cached. */
  method ProfileAndBilling() returns (registry: OnboardingSteps)
    ensures fresh(registry) && registry.stepsCache == map[] && registry.Valid()
    ensures Keys(registry.Definitions("User")) == ["profile"]
    ensures Keys(registry.Definitions("Company")) == ["billing"]
  {
    registry := new OnboardingSteps();
    var profile := registry.AddStep("profile", "User");
    assert registry.stepsCache == map[];
    var billing := registry.AddStep("billing", "Company");
    assert registry.stepsCache == map[];
  }

  /**
   * As written, the second stored user, of another class and another table,
   * gets the first user's cached copies: the first class's step, bound to
   * the first user.
   */
  method CollidingUsersScenario() returns (first: OrderedMap<S.OnboardingStep>, second: OrderedMap<S.OnboardingStep>)
    ensures second == first
    ensures Keys(second) == ["profile"] && second[0].value.user == Some(UsersOneKeyTwo)
  {
    var registry := ProfileAndBilling();
    CacheIdTextCollides();
    first := registry.Steps(UsersOneKeyTwo);
    second := registry.Steps(UsersKeyTwelve);
  }

  /** With the corrected id each of the two users gets its own class's step, bound to itself. */
  method CollidingUsersFixedScenario() returns (first: OrderedMap<S.OnboardingStep>, second: OrderedMap<S.OnboardingStep>)
    ensures Keys(first) == ["profile"] && first[0].value.user == Some(UsersOneKeyTwo)
    ensures Keys(second) == ["billing"] && second[0].value.user == Some(UsersKeyTwelve)
  {
    var registry := ProfileAndBilling();
    CacheIdFixedIdentifies(UsersOneKeyTwo, UsersKeyTwelve);
    first := registry.StepsFixed(UsersOneKeyTwo);
    second := registry.StepsFixed(UsersKeyTwelve);
  }
}
