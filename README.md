# laravel-onboard, modelled in Dafny

laravel-onboard lets an application declare onboarding steps for a class of
users, such as "complete your profile" or "invite a colleague". It asks
each user which steps they still have to finish, and it filters a users
query down to those who are (or are not) onboarded. This project models
the in-process core of the library and proves what each part promises.

- **OnboardingStep** (`onboarding_step.dfy`): a class with the step's
  attribute map, the `completeIf` / `requiredIf` callbacks (Dafny function
  values over the user), the `completeScope` / `requiredScope` query scopes,
  and the bound user.
  - The fluent setters update those fields and return the step.
  - `complete`, `required`, `incomplete`, `optional`, `attribute` and `__get`
    are reads.
  - `applyScopes` appends the clauses
    `((not required) or ((required) and (complete)))` to a builder, or throws
    when no complete scope is set.
  - The step's own older `reverseWheres` macro (case-sensitive `and`/`or`
    detection, keyword `NOT`) is modelled beside it.
- **OnboardingSteps** (`onboarding_steps.dfy`): the registry class.
  - One field maps class => code => definition.
  - The cache maps cache id => code => a copy bound to that user.
  - `steps($user)` fills the cache once per id with `(clone $definition)->setUser($user)`
    in registration order. Later calls return the same objects.
  - The cache id is a string, as `getCacheId` writes it: connection name,
    table and key side by side for a stored model, and the object id's
    digits otherwise. Ids that collide share one cache entry, even for
    different rows of different classes (see Findings).
  - A corrected id (`CacheIdFixed`) prefixes the connection name and the
    table with their lengths. `StepsFixed` is `steps` with that id.
- **OnboardingManager** (`onboarding_manager.dfy`): a user's bound steps and
  the pure folds `finished`, `finishedRequired`, `inProgress` and
  `nextUnfinishedStep` over them.
- **GrammarMacro** (`grammar_macro.dfy`): the `reverseWheres` grammar macro.
  - Its `foreach` over the compiled WHERE clauses turns `and …` into
    `or not …` and `or …` into `and not …`, ignoring case.
  - It then removes the first `where `.
- **GetsOnboarded** (`gets_onboarded.dfy`): the `onboarded` query scope.
  - It applies every bound step's `applyScopes` to the builder in order.
  - For `onboarded(false)`, it adds to a clone taken beforehand one raw
    clause with the macro's negation of the scoped builder.
- **Negation** (`negation.dfy`) states what the macro's text means. A raw
  clause holds the clause list its SQL renders: each clause with its
  connective flipped and its body behind `not`.
  - `MacroRendersNegation` proves that this list's text is exactly the
    macro's output.
  - `NegationKeepsBindings` proves that its bindings are the builder's own.
  - `NegationMeaning` proves it is the logical negation when the list is
    joined by one connective throughout.
  - `MixedConnectivesAreNotNegated` shows a mixed list where it is not.
- **OnboardedQuery** (`onboarded_query.dfy`): the package's own example of
  three steps and seven users. `onboarded()` selects 3 of the users and
  `onboarded(false)` selects the other 4.

Laravel's query builder is not part of this model. It is replaced by module
Query (`query.dfy`), which states these assumptions as definitions:
- A builder is its list of WHERE clauses.
- A clause is a connective (`and`/`or`) plus a basic comparison, a nested
  group or a raw SQL text.
- A compiled clause is its connective word, a space and its text.
- The grammar joins the compiled clauses with spaces and drops the first
  clause's leading connective (`concatenateWhereClauses`).
- A nested closure becomes `(…)`, and is not added at all when it adds no
  clause.
- `whereRaw` splices its text into the WHERE list without parentheses.
- SQL evaluates the flat text with NOT binding tighter than AND, and AND
  tighter than OR.
- Column values are never NULL.

`Eval` is that evaluator. `Strings` and `OrderedMaps` model the PHP string
helpers and ordered arrays the core uses. `Entities` models the onboarded
objects: object id, class, the stored row's identity if any, and field
values.

## Model

| member | source | states |
|---|---|---|
| OnboardingStep.Merge | src/OnboardingStep.php:147-152 | `array_merge` is right-biased: given keys take the given value, every other existing key keeps its value, and the key set is the union |
| OnboardingStep.OnboardingStep.constructor | src/OnboardingStep.php:26-29 | a new step's only attribute is `title`, set to the constructor argument; no callbacks, scopes or user |
| OnboardingStep.OnboardingStep.Copy | src/OnboardingSteps.php:54 | `clone $step` is a fresh object with the same attribute map, callbacks, scopes and user |
| OnboardingStep.OnboardingStep.Attributes | src/OnboardingStep.php:147-152 | the attribute map becomes the right-biased merge with the given map, and the same step is returned |
| OnboardingStep.OnboardingStep.Cta | src/OnboardingStep.php:31-36 | only the `cta` key changes, and the same step is returned |
| OnboardingStep.OnboardingStep.Link | src/OnboardingStep.php:38-43 | only the `link` key changes, and the same step is returned |
| OnboardingStep.OnboardingStep.CompleteIf | src/OnboardingStep.php:45-50 | stores the completion callback and returns the same step |
| OnboardingStep.OnboardingStep.CompleteScope | src/OnboardingStep.php:52-57 | stores the complete scope and returns the same step |
| OnboardingStep.OnboardingStep.RequiredIf | src/OnboardingStep.php:59-64 | stores the requirement callback and returns the same step |
| OnboardingStep.OnboardingStep.RequiredScope | src/OnboardingStep.php:66-71 | stores the required scope and returns the same step |
| OnboardingStep.OnboardingStep.SetUser | src/OnboardingStep.php:73-78 | binds the user and returns the same step |
| OnboardingStep.OnboardingStep.Complete | src/OnboardingStep.php:80-87 | false when no callback or no user is present; otherwise the callback's verdict on the user |
| OnboardingStep.OnboardingStep.Incomplete | src/OnboardingStep.php:89-92 | always the opposite of `complete` |
| OnboardingStep.OnboardingStep.Required | src/OnboardingStep.php:94-101 | true when no callback or no user is present; otherwise the callback's verdict on the user |
| OnboardingStep.OnboardingStep.Optional | src/OnboardingStep.php:103-106 | always the opposite of `required` |
| OnboardingStep.OnboardingStep.Attribute | src/OnboardingStep.php:142-145 | the stored value when the key is present, the default otherwise |
| OnboardingStep.OnboardingStep.Get | src/OnboardingStep.php:154-157 | a property read is present exactly when the key is, with the stored value |
| OnboardingStep.OnboardingStep.ApplyScopes | src/OnboardingStep.php:108-133 | without a complete scope: the exception carrying the title and user class, and the builder untouched; otherwise success, with exactly `StepScope` appended to the builder's clauses |
| OnboardingStep.ApplyScope | src/OnboardingStep.php:135-140 | appends the scope's clauses as one AND group (nothing when the scope adds none) |
| OnboardingStep.StepScope | src/OnboardingStep.php:113-132 | at most one clause, an AND group; empty exactly when there is no required scope and the complete scope adds nothing |
| OnboardingStep.StepScopeMeaning | src/OnboardingStep.php:113-132 | the appended clauses hold on a row exactly when "required implies complete" does, for any required scope that is one comparison list with one connective |
| OnboardingStep.StepScopeConjunctive | src/OnboardingStep.php:113-132 | appending a step's clauses keeps an AND-joined clause list AND-joined |
| OnboardingStep.EmptyRequiredScopeIsMalformed | src/OnboardingStep.php:117-123 | a required scope that adds no clause yields an empty raw clause, which is not valid SQL |
| OnboardingStep.FlipWhereLegacy | src/OnboardingStep.php:163-169 | a clause starting with `and`, `And` or `AND` becomes `or NOT` + the rest; failing that, `or`, `Or` or `OR` becomes `and NOT` + the rest; anything else is unchanged |
| OnboardingStep.FlipAllLegacy | src/OnboardingStep.php:163-169 | the walk keeps the number and order of the clauses and rewrites each one |
| OnboardingStep.ReversedWheresLegacy | src/OnboardingStep.php:159-172 | the output is the rewritten clauses joined, minus the leading connective |
| OnboardingStep.LegacyMacroRendersNegation | src/OnboardingStep.php:159-172 | for any clause list, the step's macro yields exactly the text of the negated list, spelt `NOT` |
| OnboardingStep.FlipTextLegacy | src/OnboardingStep.php:163-169 | one compiled clause is rewritten into the compiled form of its negated clause |
| OnboardingStep.FlipCompiledLegacy | src/OnboardingStep.php:163-169 | the macro rewrites a compiled clause into the compiled negated clause, spelt `NOT` |
| OnboardingStep.FlipAllLegacyNegates | src/OnboardingStep.php:163-169 | the walk rewrites the compiled list into the compiled negated list |
| GrammarMacro.FlipWhere | src/Grammar/GrammarMacro.php:20-28 | a clause starting with `and` in any case becomes `or not` + the text from index 3; failing that, `or` becomes `and not` + the text from index 2; anything else is unchanged; the rest of the text is copied verbatim |
| GrammarMacro.FlipAll | src/Grammar/GrammarMacro.php:20-28 | the number and order of the clauses are kept, and each is rewritten |
| GrammarMacro.ReversedWheres | src/Grammar/GrammarMacro.php:15-32 | removing the first `where ` from the grammar's text leaves the rewritten clauses joined, minus the first connective |
| GrammarMacro.ReverseWheres | src/Grammar/GrammarMacro.php:18-30 | the by-reference loop followed by the single replacement computes `ReversedWheres` |
| Negation.NegateWheres | src/Grammar/GrammarMacro.php:20-28 | the clause list the raw text stands for has one negated clause per original clause |
| Negation.NegateWheresAt | src/Grammar/GrammarMacro.php:20-28 | clause `i` of the negated list is clause `i` with its connective flipped and its body negated |
| Negation.MacroRendersNegation | src/Grammar/GrammarMacro.php:15-32 | for any clause list, the macro's output is exactly the text of the negated list |
| Negation.FlipCompiled | src/Grammar/GrammarMacro.php:20-28 | the macro rewrites each compiled clause into the compiled negated clause |
| Negation.FlipText | src/Grammar/GrammarMacro.php:23-26 | the same, for a connective word followed by any text |
| Negation.NegationKeepsBindings | src/GetsOnboarded.php:25-28 | the raw clause's placeholders take the scoped builder's bindings, in the same order |
| Negation.NegatedOperands | src/Grammar/GrammarMacro.php:20-28 | each negated comparison or group contributes one operand, with the flipped connective and the opposite value |
| Negation.RawNegationOperands | src/GetsOnboarded.php:25-28 | spliced in as a raw clause, the negated list's first operand takes the raw clause's own connective |
| Negation.RawNegationPairs | src/GetsOnboarded.php:25-28 | the raw clause's operands pair up with the original's: same count, opposite values, flipped connectives after the first |
| Negation.NegationMeaning | src/Grammar/GrammarMacro.php:15-32 | the raw clause holds exactly when the original list does not, for a non-empty list of comparisons and groups joined by one connective throughout |
| Negation.MixedConnectivesAreNotNegated | src/Grammar/GrammarMacro.php:20-28 | `x = 1 or y = 1 and z = 1` and its rewrite both hold on a row where only `x = 1`, so the rewrite does not negate mixed lists |
| OrderedMaps.Keys | src/OnboardingSteps.php:53 | the keys in insertion order |
| OrderedMaps.Values | src/OnboardingManager.php:20-23 | `array_values`: the values in insertion order |
| OrderedMaps.Find | src/OnboardingSteps.php:15 | the first position holding the key, or none when the key is absent |
| OrderedMaps.Get | src/OnboardingSteps.php:15 | the key's value when present, null exactly when absent |
| OrderedMaps.Put | src/OnboardingSteps.php:15 | after assignment the key maps to the new value and other keys are unchanged; an existing key keeps its place, and a new key is appended |
| OrderedMaps.FindAfterUpdate | src/OnboardingSteps.php:15 | overwriting a key's entry leaves it where it was |
| OrderedMaps.FindOtherAfterUpdate | src/OnboardingSteps.php:15 | overwriting one key's entry does not move or change another key |
| OrderedMaps.FindAfterAppend | src/OnboardingSteps.php:15 | appending a new key puts it last and leaves the other keys alone |
| OrderedMaps.PutKeepsKeysDistinct | src/OnboardingSteps.php:15 | assignment never creates a second entry for a key |
| OnboardingSteps.CacheIdText | src/OnboardingSteps.php:38-46 | an unsaved object's id is the canonical decimal digits of its object id (no leading zero unless it is 0); a stored row's id is its connection name, then its table, then the canonical decimal digits of its key |
| OnboardingSteps.CacheIdTextObjects | src/OnboardingSteps.php:45 | two unsaved objects share an id exactly when they have the same object id |
| OnboardingSteps.CacheIdTextSameTable | src/OnboardingSteps.php:41 | within one connection and table, two stored rows share an id exactly when they are the same row |
| OnboardingSteps.CacheIdTextCollides | src/OnboardingSteps.php:41 | two different stored rows, table `users1` key 2 and table `users` key 12, get the same id `users12` |
| OnboardingSteps.CacheIdFixedHead | src/OnboardingSteps.php:38-46 | a corrected id starts with `#` exactly when it is an unsaved object's |
| OnboardingSteps.CacheIdFixedIdentifies | src/OnboardingSteps.php:38-46 | with the corrected id, two users share a cache entry exactly when they are the same stored row, or the same unsaved object |
| OnboardingSteps.SplitAfterDigits | src/OnboardingSteps.php:38-46 | a run of digits followed by a colon is read back unambiguously, which makes the corrected id decodable |
| OnboardingSteps.BindCopy | src/OnboardingSteps.php:54 | `(clone $definition)->setUser($user)` is a fresh step equal to the definition except for the bound user |
| OnboardingSteps.BindCopies | src/OnboardingSteps.php:52-56 | the loop assigns one fresh bound copy per definition under its code; with distinct codes every assignment appends, so the copies keep the codes and their order, and no two entries share an object |
| OnboardingSteps.OnboardingSteps.constructor | src/OnboardingSteps.php:10-11 | no definitions and an empty cache, so every class's codes are distinct |
| OnboardingSteps.OnboardingSteps.Definitions | src/OnboardingSteps.php:52 | a class's definitions, or none when the class has no entry |
| OnboardingSteps.OnboardingSteps.AddStep | src/OnboardingSteps.php:13-16 | a fresh step titled with its code is stored under class and code, replacing any earlier one in place; other classes are unchanged, and each class's codes stay distinct |
| OnboardingSteps.OnboardingSteps.GetRawSteps | src/OnboardingSteps.php:18-21 | the class's definitions, or the undefined-index error when the class was never registered |
| OnboardingSteps.OnboardingSteps.Steps | src/OnboardingSteps.php:27-36 | for the user's id as `getCacheId` writes it: a cached id returns its stored copies, whoever they were made for, and changes nothing; a new id stores fresh distinct copies of the user's class's definitions, bound to the user, with the same codes in registration order, under that id only |
| OnboardingSteps.OnboardingSteps.StepsFixed | src/OnboardingSteps.php:27-36 | the same lookup under the corrected id |
| OnboardingSteps.OnboardingSteps.StepsFor | src/OnboardingSteps.php:29-35 | once the id is known: a hit returns the stored entry and changes nothing; a miss stores the bound copies under that id only |
| OnboardingSteps.OnboardingSteps.SetStepsFor | src/OnboardingSteps.php:48-57 | the id's entry is replaced by the bound copies of the class's definitions, and no other entry changes |
| OnboardingSteps.AddStepKeepsCodesDistinct | src/OnboardingSteps.php:13-16 | registration keeps a class's codes distinct |
| OrderedMaps.PutAbsent | src/OnboardingSteps.php:15 | assigning a key not yet present appends one entry at the end |
| OnboardingSteps.OncePerCodeScenario | tests/OnboardTest.php:47-55 | registering a code twice leaves one step, the later one |
| OnboardingSteps.RegistrationOrderScenario | tests/OnboardTest.php:58-78 | the steps come back in registration order |
| OnboardingSteps.ClassScopingScenario | tests/OnboardTest.php:64-70 | a step registered for another class does not appear |
| OnboardingSteps.SeparateCopiesScenario | tests/OnboardTest.php:80-84 | changing one user's copy leaves another user's copy alone |
| OnboardingSteps.CollidingUsersScenario | src/OnboardingSteps.php:29-35 | as written, after the `users1` row with key 2 asks for its steps, the `users` row with key 12, of another class, gets the very same copies: the other class's step, bound to the other user |
| OnboardingSteps.CollidingUsersFixedScenario | src/OnboardingSteps.php:29-35 | with the corrected id, each of those two users gets its own class's step, bound to itself |
| OnboardingSteps.SameUserScenario | tests/OnboardTest.php:88-104 | asking again for the same user returns the same objects; another user's copy keeps the old title |
| OnboardingManager.Unfinished | src/OnboardingManager.php:30-35 | the filtered steps are exactly the incomplete ones, and the filter is empty exactly when every step is complete |
| OnboardingManager.UnfinishedRequired | src/OnboardingManager.php:37-42 | the filtered steps are exactly the required incomplete ones, and the filter is empty exactly when every required step is complete |
| OnboardingManager.FirstUnfinished | src/OnboardingManager.php:44-49 | the position of an incomplete step with every earlier step complete, or none when all are complete |
| OnboardingManager.OnboardingManager.constructor | src/OnboardingManager.php:12-15 | the manager holds the registry's steps for the user, which the registry caches as `Steps` describes |
| OnboardingManager.OnboardingManager.Finished | src/OnboardingManager.php:30-35 | true exactly when every step is complete |
| OnboardingManager.OnboardingManager.FinishedRequired | src/OnboardingManager.php:37-42 | true exactly when every required step is complete |
| OnboardingManager.OnboardingManager.InProgress | src/OnboardingManager.php:25-28 | true exactly when some step is incomplete, that is, when not finished |
| OnboardingManager.OnboardingManager.NextUnfinishedStep | src/OnboardingManager.php:44-49 | null exactly when finished; otherwise an incomplete step whose predecessors are all complete |
| OnboardingManager.FinishedIsFinishedRequired | src/OnboardingManager.php:30-42 | finished implies finished-required |
| OnboardingManager.FreshManager | src/OnboardingManager.php:12-23 | with nothing cached, the manager's steps are bound copies of the class's definitions, in order |
| OnboardingManager.NextOfTwo | src/OnboardingManager.php:44-49 | of a complete step followed by an incomplete one, the next step is the second |
| OnboardingManager.AllIncompleteScenario | tests/OnboardTest.php:107-119 | with every step incomplete: in progress, not finished, not finished-required |
| OnboardingManager.AllCompleteScenario | tests/OnboardTest.php:121-131 | with every step complete: not in progress, finished, finished-required |
| OnboardingManager.OptionalStepScenario | tests/OnboardTest.php:133-145 | an incomplete optional step leaves the user finished-required but not finished |
| OnboardingManager.NextStepScenario | tests/OnboardTest.php:147-161 | the next step is the first incomplete one, whose link is `/step-2` |
| OnboardingManager.NoNextStepScenario | tests/OnboardTest.php:164-177 | with every step complete there is no next step |
| OnboardingManager.CallbackSeesUserScenario | tests/OnboardTest.php:193-208 | the completion callback receives the bound user |
| GetsOnboarded.Views | src/GetsOnboarded.php:20-22 | the scope slots of every step, in order |
| GetsOnboarded.ScopesOf | src/GetsOnboarded.php:20-22 | each step's complete and required scopes, in order |
| GetsOnboarded.CombinedShape | src/GetsOnboarded.php:20-22 | the steps append at most one AND group each |
| GetsOnboarded.CombinedEmpty | src/GetsOnboarded.php:20-22 | the steps append nothing exactly when no step has a required scope and every complete scope adds nothing |
| GetsOnboarded.CombinedMeaning | src/GetsOnboarded.php:20-22 | on an AND-joined base, the scoped builder holds on a row exactly when the base does and the row meets every step's obligation |
| GetsOnboarded.SplitLast | src/GetsOnboarded.php:20-22 | meeting every step's obligation splits into the earlier steps' and the last step's |
| GetsOnboarded.StepScopeAppended | src/OnboardingStep.php:108-133 | appending one step's clauses to an AND-joined list conjoins that step's obligation |
| GetsOnboarded.CombinedSnoc | src/GetsOnboarded.php:20-22 | one more step appends exactly its own clauses |
| GetsOnboarded.NotOnboardedWheres | src/GetsOnboarded.php:24-28 | the clone's clauses are the pre-scope clauses plus one raw AND clause whose list covers all of the scoped builder's clauses |
| GetsOnboarded.NotOnboardedIsComplement | src/GetsOnboarded.php:17-32 | on a builder with no clauses of its own, `onboarded(false)` holds on a row exactly when `onboarded()` does not, that is, when some step's obligation fails |
| GetsOnboarded.NoScopesNotOnboardedIsMalformed | src/GetsOnboarded.php:24-28 | on a builder with no clauses of its own, when no step has a required scope and every complete scope adds nothing, the raw clause is empty and not valid SQL |
| GetsOnboarded.FirstMissing | src/GetsOnboarded.php:20-22 | the first step without a complete scope, or none exactly when every step has one |
| GetsOnboarded.ApplyAll | src/GetsOnboarded.php:20-22 | success exactly when every step has a complete scope, with each step's clauses appended in step order; otherwise the first missing step's exception |
| GetsOnboarded.CollectStep | src/GetsOnboarded.php:20-22 | one iteration of `each`: that step's clauses are appended, or its exception is raised with the builder untouched |
| GetsOnboarded.EachStep | src/GetsOnboarded.php:20-22 | the closure given to `each` is `applyScopes` on the shared builder |
| GetsOnboarded.CollectedSnoc | src/GetsOnboarded.php:20-22 | collecting one more scoped step extends what has been collected |
| GetsOnboarded.CollectedFromSteps | src/GetsOnboarded.php:20-22 | the collected scopes are the steps' own |
| GetsOnboarded.PrefixScopes | src/GetsOnboarded.php:20-22 | scopes collected from the first `i` steps are those steps' scopes |
| GetsOnboarded.FirstMissingAt | src/GetsOnboarded.php:20-22 | a step without a complete scope, with every earlier step scoped, is the first missing one |
| GetsOnboarded.OnboardingSteps | src/OnboardingManager.php:20-23 | the model's steps, taken from the registry's cache: a hit changes nothing; a miss stores, under the model's id only, fresh distinct copies of its class's definitions bound to the model, with the same codes in registration order |
| GetsOnboarded.ScopeOnboarded | src/GetsOnboarded.php:17-32 | the steps are fetched as `OnboardingSteps` states; the scope fails exactly when a step lacks a complete scope, with the first such step's exception and the builder holding the earlier steps' clauses; otherwise the builder receives every step's clauses in order, `onboarded()` returns that builder, and `onboarded(false)` returns a fresh clone holding the pre-scope clauses plus the raw negation of the scoped builder |
| GetsOnboarded.ApplyOnboarded | src/GetsOnboarded.php:20-31 | the same, once the steps and the clone are known |
| GetsOnboarded.NotOnboardedWheresFixed | src/GetsOnboarded.php:24-28 | the corrected clauses: the base plus one AND group holding the negation of the steps' clauses |
| GetsOnboarded.NotOnboardedFixedMeaning | src/GetsOnboarded.php:24-28 | with the correction, `onboarded(false)` holds exactly when the base filter holds and some step's obligation fails |
| GetsOnboarded.WhereNotAll | src/GetsOnboarded.php:20-28 | the corrected `onboarded(false)` path: success exactly when every step is scoped, with the builder receiving the corrected clauses; on failure the builder is untouched |
| GetsOnboarded.CollectScoped | src/GetsOnboarded.php:20-22 | the steps' clauses, collected on a scratch builder: success exactly when every step is scoped, otherwise the first missing step's exception |
| GetsOnboarded.WhereNot | src/GetsOnboarded.php:24-28 | the nested `whereRaw` of the negation, in parentheses |
| GetsOnboarded.ScopeOnboardedFixed | src/GetsOnboarded.php:17-32 | the corrected scope: the same fetch and errors, the same builder returned, and the corrected clauses for `onboarded(false)` |
| GetsOnboarded.ApplyOnboardedFixed | src/GetsOnboarded.php:20-31 | the same, once the steps are known |
| GetsOnboarded.SampleFacts | src/GetsOnboarded.php:24-28 | the sample row fails both the base filter and the step |
| GetsOnboarded.SampleNegation | src/GetsOnboarded.php:24-28 | the raw clause for the sample is `not active = 1 or not (age = 1)`, and its two operands are true |
| GetsOnboarded.NotOnboardedLosesBase | src/GetsOnboarded.php:24-28 | as written, `onboarded(false)` on a builder filtered to `active = 1` selects a row with `active = 0` |
| GetsOnboarded.NotOnboardedFixedKeepsBase | src/GetsOnboarded.php:24-28 | the corrected clauses reject that row |
| OnboardedQuery.CountWhere | tests/OnboardTest.php:258-260 | a count never exceeds the number of users |
| OnboardedQuery.AnyOf | tests/OnboardTest.php:217-222 | a list of comparisons joined by `orWhere` holds when one of its comparisons does |
| OnboardedQuery.EveryoneMeaning | tests/OnboardTest.php:215-222 | the first step's obligation is age 1, 2, 3 or 100 |
| OnboardedQuery.JohnOrJoeMeaning | tests/OnboardTest.php:224-235 | the second step's obligation is "john or joe implies age 3, 4 or 5" |
| OnboardedQuery.Robert100Meaning | tests/OnboardTest.php:237-246 | the third step's empty complete scope meets its obligation on every row |
| OnboardedQuery.ExampleNegatable | tests/OnboardTest.php:215-246 | every required scope in the example is one the macro negates correctly, and the steps add clauses |
| OnboardedQuery.ExampleMeetsAll | tests/OnboardTest.php:215-256 | a user meets all three obligations exactly when the example's rule marks them complete |
| OnboardedQuery.ExampleMeaning | tests/OnboardTest.php:248-259 | `onboarded()` selects exactly the users the rule calls onboarded, and `onboarded(false)` exactly the others |
| OnboardedQuery.CountAgrees | tests/OnboardTest.php:258-260 | clauses that agree with the rule on every user count the rule's users, or the rest |
| OnboardedQuery.OnboardedCounts | tests/OnboardTest.php:248-259 | of the seven inserted users, `onboarded()` counts 3 and `onboarded(false)` counts 4 |
| Strings.Lower | src/Grammar/GrammarMacro.php:21 | ASCII lower-casing: same length, each capital letter A-Z lower-cased, every other character kept |
| Query.CompileWheresAt | src/Grammar/GrammarMacro.php:18 | the compiled array has one text per clause, in order |
| Query.PrecOfConjunction | src/Grammar/GrammarMacro.php:30 | an AND-joined operand list holds exactly when every operand holds |
| Query.PrecOfDisjunction | src/Grammar/GrammarMacro.php:30 | a non-empty OR-joined operand list holds exactly when some operand holds |
| Query.GroupMeaning | src/OnboardingStep.php:135-140 | a nested group holds exactly when its clauses do |
| OnboardingStep.OrOfGroups | src/OnboardingStep.php:116-128 | two non-empty clause lists, each nested as an OR group, hold exactly when either list does |
| Query.AndGroupMeaning | src/OnboardingStep.php:135-140 | appending an AND group to an AND-joined list conjoins the group's meaning |
| Query.Builder.Where | src/OnboardingStep.php:137-139 | `where(Closure)` appends the closure's clauses as one AND group |
| Query.Builder.OrWhere | src/OnboardingStep.php:116-128 | `orWhere(Closure)` appends the closure's clauses as one OR group |
| Query.Builder.WhereRaw | src/GetsOnboarded.php:25-28 | `whereRaw` appends one raw AND clause |
| Query.Builder.Clone | src/GetsOnboarded.php:19 | `clone $builder` is a fresh builder with the same clauses |
| Strings.RemoveFirst | src/Grammar/GrammarMacro.php:30 | only the first occurrence of the pattern is removed, and the text is unchanged when there is none |
| Strings.IndexOf | src/Grammar/GrammarMacro.php:30 | the first position where the pattern occurs, or none |
| Strings.NatToString | src/OnboardingSteps.php:41 | a non-empty string of decimal digits that denotes the number, with no leading zero unless the number is 0 |

## Left out

- Laravel's query builder, grammar and SQL engine are replaced by the
  assumptions listed above. In particular the model does not regroup a
  scope's clauses the way Eloquent's `callScope` does. So the theorems about
  `onboarded` assume a base builder whose clauses are AND-joined comparisons
  and groups, and the meaning theorems assume no NULL column values.
- Scope callbacks are modelled as the fixed list of clauses they append,
  which are comparisons and groups. A callback that inspects or removes
  clauses is not modelled.
- `completeIf` / `requiredIf` callbacks are total functions of the user.
  Exceptions and side effects inside them are not modelled. Their truthiness
  is a `bool`.
- `GetsOnboarded::onboarding()` resolves a manager through the service
  container. The model builds the manager from the registry directly.
- `OnboardFacade.php` and `OnboardServiceProvider.php` are not part of this
  model. Neither registers a macro; the next line says which macro the model
  assumes.
- `onboarded(false)` calls the builder macro `reverseWheres`, and the
  model takes it to be `GrammarMacro`'s (keyword `not`). In
  `src/OnboardingStep.php` alone, only the step's legacy macro is
  registered (lines 114 and 161), and only once a step with a required scope
  has been applied: then the raw clause spells `NOT`, and with no required
  scope no macro is registered at all. The meaning is the same either way,
  because `LegacyMacroRendersNegation` and `MacroRendersNegation` give the
  same negated clause list up to the keyword, and the meaning theorems do
  not depend on the keyword.
- Entities.Record: a stored key is a `nat`. String and UUID primary keys are
  not modelled. The cache-id findings hold for integer keys already.
- Users are `Entity` values. A step's bound user is the value passed in, so a
  callback cannot see later changes made to the live user object.
- The Collection wrapper around `steps()` is modelled as the ordered map and
  its value sequence. `filter`, `first` and `isEmpty` are the folds in
  `OnboardingManager`.
- Object identity is Dafny reference identity. `spl_object_id` is an
  abstract number on the entity, and the reuse of ids after garbage
  collection is not modelled.
- `attribute` is a plain map lookup. `Arr::get`'s dot notation never applies
  because attribute values are strings.
- `__get` covers attribute reads only. Attribute values are strings.
- The test-only APIs `setAttributes`, `title()`, `->code` and
  `getAttribute` do not appear in `src/OnboardingStep.php`. The scenarios
  use `attributes` and `title` instead.
- OnboardingStep.Merge: attribute keys are treated as strings throughout. PHP's `array_merge` renumbers integer keys, and PHP turns a key such as `'1'` into an integer, so `attributes(['1' => 'x'])` stores under key 0 and a second such call appends. Steps are configured with named keys (`title`, `cta`, `link`), so the model covers non-integer keys only.
- OnboardingStep.OnboardingStep.Attributes: inherits the limit of `Merge`, so it covers non-integer keys only.
- Strings.Lower: folds ASCII letters only, where `mb_strtolower` folds all of Unicode and can change the length. `FlipWhere` compares only the first two or three characters with ASCII `and`/`or`. No non-ASCII character lower-cases to those letters, so the decision and the copied text are the same.
- OnboardingSteps.OnboardingSteps.Steps: the isolation of one id's copies
  from the definitions and from other ids follows from the copies being
  fresh objects. It is shown by scenarios rather than by a general frame
  lemma over later mutations.
- OnboardingStep.OnboardingStep.ApplyScopes: covers only required scopes
  that add their clauses through query-builder calls. The required scope
  runs on `new Builder(clone $builder->getQuery())`
  (src/OnboardingStep.php:118-119), an Eloquent builder with no model set.
  So a required scope that calls `where`/`orWhere` with a closure, or a named
  model scope, fails there instead of adding clauses. The model promises
  `Pass` for every required clause list.
- OnboardingStep.OnboardingStep.ApplyScopes: for a step with no bound user
  and no complete scope, the model gives `MissingScope(title, None)`. The
  source's `get_class(null)` at src/OnboardingStep.php:111 instead raises a
  warning on PHP 7.2 and later, which Laravel turns into an `ErrorException`.
  Before 7.2 it names the step's own class. Steps obtained through the
  registry are always bound, so this arises only for steps used directly.
- GetsOnboarded.NotOnboardedIsComplement: stated for a builder with no
  clauses of its own. With a filtered builder the code as written is not a
  complement (see Findings).
- Negation.NegationMeaning: proved only for lists joined by one connective
  throughout. For mixed lists the rewrite is not a negation
  (`MixedConnectivesAreNotNegated`). Nested groups are not flipped.

## Findings

| source | as written | input that shows it | evidently intended | confidence | as-written member | corrected member |
|---|---|---|---|---|---|---|
| src/GetsOnboarded.php:24-28 | `onboarded(false)` appends the raw negation of the whole scoped WHERE list to the clone without parentheses. The negation also covers the builder's own filter, so a row failing that filter is selected | a builder filtered by `active = 1`, one step whose complete scope is `age = 1`, and the row `active = 0, age = 5` | the builder's filter, and not the negation of the steps' clauses | not executed | GetsOnboarded.NotOnboardedLosesBase | GetsOnboarded.NotOnboardedFixedMeaning |
| src/OnboardingSteps.php:41 | the cache id concatenates connection name, table and key with no separator, so distinct stored rows can share cached steps | connection `""`, table `users1`, key 2 against table `users`, key 12: both give `users12` | one cache entry per stored row | not executed | OnboardingSteps.CollidingUsersScenario | OnboardingSteps.CacheIdFixedIdentifies |
