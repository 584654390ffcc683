# Parallel steps: group entity and runner, modelled in Dafny

This project models the two pieces of sequential logic behind parallel steps in
the job runner.

* **The parallel-step group entity** (`ParallelStep` in the pipeline object
  model). It is a job step that owns two collections: an ordered list of child
  steps and an outputs dictionary, which ignores case in its keys when the
  entity itself creates it. Each collection is
  absent (`null`) until its getter first touches it. A clone copies only the
  non-empty collections. The `[OnSerializing]` hook collapses empty collections
  back to absent, so the encoded step never carries an empty container.
* **The parallel step runner** (`ParallelStepRunner`). For each child step, in
  list order, it:
  - starts the step's execution context;
  - binds `steps` to the step's scope;
  - builds a fresh environment context from three layers: global variables,
    then the existing `env` binding, then the evaluated action `env` block;
  - launches the step's unit of work.

  A failed `env` evaluation marks the step failed, and the step is launched
  anyway. Each unit classifies how `step.RunAsync()` ended: timeout, cancelled,
  failed, or returned normally. When a command result was set, the unit then
  merges it into the result. The drain loop looks each finished task up in a
  dictionary keyed by task and finalises the step it finds, in whatever order
  the units finish. When every launch returns its own task object, every
  step is finalised exactly once.

Files:

| file | module | contents |
|---|---|---|
| `wrappers.dfy` | `Wrappers` | `Option`, standing for `null` / `Nullable<T>` |
| `dictionary.dfy` | `Dictionaries` | `Dictionary<String, String>` with its comparer (ordinal or ignore-case): lookup, indexer set, `Add`, the copy constructor that takes a comparer |
| `parallel_step.dfy` | `Pipelines` | the entity: lazy getters, clone, `OnSerializing`, emitted members, encoding |
| `execution.dfy` | `Execution` | the execution-context fields the runner touches; `TaskResult`; `Start`, `Error`, `Complete` |
| `env_layering.dfy` | `EnvLayering` | the three-layer environment context, a reference "highest layer wins" definition, the `foreach` loops |
| `parallel_step_runner.dfy` | `Runner` | step preparation, outcome classification, the unit of work, the launch loop, the drain loop as written and keyed by position |

Modelling choices:

* **Value semantics.** Everything is an immutable value. A getter that
  materialises a collection returns the entity after the access together with
  the collection.
* **Launch order and completion order.** A launched unit owns its step's
  context until the drain loop finalises it. The model therefore applies the
  unit's effect at launch. "Which task finished next" is a nondeterministic
  choice (`:|`) among the outstanding tasks, so every property of the drain
  loop holds for every completion order.
* **Task identity is an input.** The task object launch `i` returns is
  `taskOf(i)`, a parameter. Two launches may return the same object: an
  `async Task` method that finishes without yielding returns one cached,
  completed task. The task-to-step dictionary is overwritten as at
  src/Runner.Worker/ParallelStepRunner.cs:124.
* **External collaborators are parameters.** The template evaluator
  (`Evaluator`), the step's own run logic (`StepLogic`) and
  `TaskResultUtil.MergeTaskResults` (`Merge`) are function-typed parameters.
  The merge rule is left uninterpreted.
* **Key policy.** Environment keys are case-sensitive, as in the non-Windows
  build (`CaseSensitiveDictionaryContextData`). The outputs dictionary that the
  `Outputs` getter (ParallelStep.cs:52) and the copy constructor (:28) create
  ignores case. A dictionary that arrived through deserialisation of the
  `m_outputs` data member (:80-81) keeps the default ordinal comparer, so it
  may hold keys that differ only in case. Case is folded by ordinal
  upper-casing of ASCII letters.

Behaviour of the code worth spelling out (lines of
src/Runner.Worker/ParallelStepRunner.cs):

* **Every step evaluates an `env` block.** The cast at :100 gives `null` for
  a step that is not an `IActionRunner`. The dereference `actionStep.Action`
  at :107 sits inside the `try` at :103-112, so such a step always takes the
  `catch` at :113-120: an error is recorded, the step is completed as failed,
  and it is still launched at :121. See `Runner.NonActionStepFails`.
* **The merge rule is delegated.** When a command result is set, the result
  becomes `MergeTaskResults(result, commandResult)` (:181-184). That function
  is not part of this model, so no order of results is assumed.
* **Two completions on env failure.** A step whose `env` evaluation failed is
  completed twice. The first `Complete(Failed)` happens before launch (:119).
  The drain loop's `CompleteStep` happens after the unit finishes (:135). The
  model counts completions, and `Runner.EnvFailureStillRuns` states that the
  count is two.
* **Encoding setup failure.** `EncodingUtil.SetEncoding` (:150) runs outside
  the `try`. If it throws, the unit's task faults: the step never runs,
  nothing is classified and nothing is merged. The drain loop still finalises
  the step. This is the `SetupFaulted` unit outcome.
* **Cloning can throw.** The copy constructor copies non-empty outputs into
  a new ignore-case dictionary (ParallelStep.cs:28). That constructor throws
  when two source keys are equal ignoring case, which a deserialised ordinal
  dictionary allows. `Pipelines.Clone` returns `None` for that exception,
  and `Pipelines.CaseVariantOutputsBreakClone` exhibits it.

## Model

| member | source | states |
|---|---|---|
| `Dictionaries.Find` | src/Sdk/DTPipelines/Pipelines/ParallelStep.cs:52 | The position found holds a key equal to the sought one under the comparer, and no earlier entry does. No position is found exactly when no entry has an equal key. |
| `Dictionaries.Get` | src/Sdk/DTPipelines/Pipelines/ParallelStep.cs:46-56 | A key reads a value exactly when some entry has a key equal to it under the comparer. It then reads that entry's value. |
| `Dictionaries.Set` | src/Sdk/DTPipelines/Pipelines/ParallelStep.cs:46-56 | Writing through the indexer makes the key read back the new value. Every key not equal to it under the comparer reads as before. The count grows by one exactly when no equal key was present. The comparer is kept. An existing entry keeps its position and its first spelling and takes only the new value. A new key is appended last, as written. |
| `Dictionaries.Add` | src/Sdk/DTPipelines/Pipelines/ParallelStep.cs:28 | `Add` fails exactly when an equal key is present. Otherwise it appends the pair last. |
| `Dictionaries.AddAllRebuilds` | src/Sdk/DTPipelines/Pipelines/ParallelStep.cs:28 | Adding entries one by one, when no two keys of the result are equal under the comparer, never fails and appends exactly those entries in order. |
| `Dictionaries.AddAllFails` | src/Sdk/DTPipelines/Pipelines/ParallelStep.cs:28 | Adding entries one by one fails when two keys of the result would be equal under the comparer. |
| `Dictionaries.CopyWith` | src/Sdk/DTPipelines/Pipelines/ParallelStep.cs:28 | The copy constructor with a comparer succeeds exactly when no two source keys are equal under the new comparer. It then holds the source's entries in the source's order, under the new comparer. |
| `Dictionaries.CopySameComparer` | src/Sdk/DTPipelines/Pipelines/ParallelStep.cs:26-29 | Copying a dictionary with its own comparer always succeeds and gives back the same dictionary. |
| `Dictionaries.CaseVariantsDoNotCopy` | src/Sdk/DTPipelines/Pipelines/ParallelStep.cs:28 | An ordinal dictionary holding both `a` and `A` is well formed, but copying it into an ignore-case dictionary throws. |
| `Dictionaries.FindByKey` | src/Sdk/DTPipelines/Pipelines/ParallelStep.cs:52 | Lookup depends only on the key as the comparer sees it: two keys equal under it find the same entry. |
| `Dictionaries.SpellingsShareEntry` | src/Sdk/DTPipelines/Pipelines/ParallelStep.cs:52 | Two keys equal under the comparer read the same value. A write under one is read back under the other. |
| `Pipelines.TypeOf` | src/Sdk/DTPipelines/Pipelines/ParallelStep.cs:32 | A step reports type `Parallel` exactly when it is a parallel group. A step of another variant reports its own type, which is never `Parallel`. |
| `Pipelines.Steps` | src/Sdk/DTPipelines/Pipelines/ParallelStep.cs:34-44 | The getter never yields null. On an absent list it stores an empty list and returns it. On a present list it returns that list and changes nothing. |
| `Pipelines.StepsGetterStable` | src/Sdk/DTPipelines/Pipelines/ParallelStep.cs:34-44 | After the first access, later accesses return the same stored list. |
| `Pipelines.Outputs` | src/Sdk/DTPipelines/Pipelines/ParallelStep.cs:46-56 | The getter never yields null. On absent outputs it stores an empty ignore-case dictionary. On present outputs it returns them and changes nothing. |
| `Pipelines.OutputsGetterStable` | src/Sdk/DTPipelines/Pipelines/ParallelStep.cs:46-56 | After the first access, later accesses return the same stored dictionary. |
| `Pipelines.AddStep` | src/Sdk/DTPipelines/Pipelines/ParallelStep.cs:22 | Appending through the getter puts the new child last, after the children the getter returned. The outputs are untouched. |
| `Pipelines.SetOutput` | src/Sdk/DTPipelines/Pipelines/ParallelStep.cs:46-56 | Writing an output through the getter stores the value under that key. Outputs under keys not equal to it under the dictionary's comparer are kept. The children are untouched. |
| `Pipelines.OnSerializing` | src/Sdk/DTPipelines/Pipelines/ParallelStep.cs:63-75 | A collection becomes absent exactly when it was absent or empty. A non-empty collection is kept unchanged. |
| `Pipelines.OnSerializingIdempotent` | src/Sdk/DTPipelines/Pipelines/ParallelStep.cs:63-75 | Running the hook twice gives the same entity as running it once. |
| `Pipelines.EmittedAfterNormalising` | src/Sdk/DTPipelines/Pipelines/ParallelStep.cs:63-81 | After the hook, the `Steps` member is written exactly when there is at least one child. The `Outputs` member is written exactly when there is at least one output. |
| `Pipelines.Encode` | src/Sdk/DTPipelines/Pipelines/ParallelStep.cs:77-81 | The encoding of any step, however deeply nested, contains no empty child list and no empty outputs object. |
| `Pipelines.EncodeGroup` | src/Sdk/DTPipelines/Pipelines/ParallelStep.cs:63-81 | A group's encoding carries the children exactly when the hook leaves them to be emitted; child `i` of the encoding is the encoding of child `i`. It carries the outputs exactly when the hook leaves them, as the dictionary's pairs in order. The encoding is compact. |
| `Pipelines.EncodeNormalised` | src/Sdk/DTPipelines/Pipelines/ParallelStep.cs:63-81 | Running the hook before serialising does not change the encoding. |
| `Pipelines.Clone` | src/Sdk/DTPipelines/Pipelines/ParallelStep.cs:58-61 | Cloning succeeds exactly when every non-empty outputs dictionary at every depth has no two keys equal ignoring case. A step of another variant is copied as it is. A parallel group becomes the group its copy constructor builds. |
| `Pipelines.CloneGroup` | src/Sdk/DTPipelines/Pipelines/ParallelStep.cs:15-30 | The copy constructor succeeds exactly under the same condition. The clone keeps the base fields. Its children are absent when the source has none or an empty list. Otherwise it has the same number of children in the same order, each the clone of the source child. Its outputs are absent when the source's are absent or empty. Otherwise they hold the source's entries in an ignore-case dictionary. |
| `Pipelines.CaseVariantOutputsBreakClone` | src/Sdk/DTPipelines/Pipelines/ParallelStep.cs:26-29 | A group whose deserialised outputs hold both `a` and `A` cannot be cloned. |
| `Pipelines.CloneIsNormalised` | src/Sdk/DTPipelines/Pipelines/ParallelStep.cs:15-30 | A clone never holds an empty collection, so the serialisation hook leaves it unchanged. |
| `Pipelines.CloneIdempotent` | src/Sdk/DTPipelines/Pipelines/ParallelStep.cs:58-61 | Cloning a clone succeeds and gives an equal step, at every nesting depth. |
| `Pipelines.CloneGroupIdempotent` | src/Sdk/DTPipelines/Pipelines/ParallelStep.cs:15-30 | Cloning a cloned group succeeds and gives an equal group. |
| `Pipelines.EncodeClone` | src/Sdk/DTPipelines/Pipelines/ParallelStep.cs:58-61 | A clone encodes exactly like its source, at every nesting depth. |
| `Pipelines.EncodeCloneGroup` | src/Sdk/DTPipelines/Pipelines/ParallelStep.cs:15-30 | A cloned group encodes exactly like its source group. |
| `Pipelines.CloneMutationsStayInClone` | src/Sdk/DTPipelines/Pipelines/ParallelStep.cs:18-29 | Appending a child to a clone puts it after the cloned children, or alone when the source had none. Writing an output to a clone stores it in an ignore-case dictionary. When the source's outputs are absent or ignore case, the other outputs read as in the source. |
| `Pipelines.CloneOutputsIgnoreCase` | src/Sdk/DTPipelines/Pipelines/ParallelStep.cs:26-29 | In a cloned outputs dictionary, keys that differ only in case address the same entry, the source entry whose key equals them ignoring case. |
| `Pipelines.GetterOutputsIgnoreCase` | src/Sdk/DTPipelines/Pipelines/ParallelStep.cs:52 | In an ignore-case outputs dictionary, including the one the getter creates, a write under one spelling is read back under another spelling that differs only in case. |
| `EnvLayering.StringLayer` | src/Runner.Worker/ParallelStepRunner.cs:79-82 | Global variables keep their keys. A null value becomes the empty string. |
| `EnvLayering.ResolveThree` | src/Runner.Worker/ParallelStepRunner.cs:78-111 | With three layers, a key takes its value from the action layer, else the outer `env` layer, else the global layer, else it is undefined. |
| `EnvLayering.EnvContextResolves` | src/Runner.Worker/ParallelStepRunner.cs:78-111 | A key is in the environment context exactly when some layer defines it. Its value is the one the highest defining layer gives. |
| `EnvLayering.ActionLayerOnTop` | src/Runner.Worker/ParallelStepRunner.cs:98-111 | The evaluated block is laid over exactly the two-layer context the evaluator saw. Its variables win, with null as the empty string. Other keys keep their values. |
| `EnvLayering.WriteAll` | src/Runner.Worker/ParallelStepRunner.cs:92-95 | A `foreach` of indexer writes yields the union of keys. The written layer's values win. |
| `EnvLayering.BuildEnvContext` | src/Runner.Worker/ParallelStepRunner.cs:78-111 | The three loops build exactly the layered environment context. |
| `Runner.Steps` | src/Runner.Worker/ParallelStepRunner.cs:30-40 | The runner's getter never yields null, so the argument check before the run always passes. An absent list becomes a stored empty list. No other field of the runner changes. |
| `Runner.StepsGetterStable` | src/Runner.Worker/ParallelStepRunner.cs:30-40 | Later accesses return the list the first access stored. |
| `Runner.PrepareStepEffects` | src/Runner.Worker/ParallelStepRunner.cs:62-120 | After preparation the context is started and bound to its `steps` scope, and other bindings are kept. `env` holds the layered context. On successful evaluation the result, errors and completions are unchanged and the action layer is on top. On failure the error is recorded, the result is `Failed`, there is one more completion, and `env` keeps the global and outer layers. |
| `Runner.Classify` | src/Runner.Worker/ParallelStepRunner.cs:152-178 | A normal return leaves the result as the step left it and records no error. Every exception records an error and sets a result. |
| `Runner.ClassifyOutcomes` | src/Runner.Worker/ParallelStepRunner.cs:156-178 | A cancellation is `Failed` with "The action has timed out." exactly when the step token is cancelled and the root token is not. Any other cancellation is `Canceled` with its own message. Any other exception is `Failed` with its message. `Canceled` arises only from such a cancellation, or from a normal return that left it. |
| `Runner.RunUnit` | src/Runner.Worker/ParallelStepRunner.cs:139-190 | If setup faults, the context is unchanged. Otherwise the classified error is appended. The result becomes the merge of the classified result with the command result when a command result is set, and the classified result when not. Nothing else in the context changes. |
| `Runner.CompleteStep` | src/Runner.Worker/ParallelStepRunner.cs:192-197 | Finalising with the defaults adds one completion and leaves the result, the result code and everything else unchanged. |
| `Runner.CompleteTimes` | src/Runner.Worker/ParallelStepRunner.cs:135 | Finalising a step `n` times adds `n` completions and changes nothing else. |
| `Runner.LastLaunch` | src/Runner.Worker/ParallelStepRunner.cs:124 | The dictionary entry for a task is the last launch that returned it: that launch returned the task and no later one did. There is no entry exactly when no launch returned it. |
| `Runner.Launch` | src/Runner.Worker/ParallelStepRunner.cs:62-125 | Steps are launched once each, in list order. The outstanding list holds the task each launch returned, in launch order. The dictionary has an entry exactly for the returned tasks, naming the last launch that returned each. Each step's context is what its own unit, given that step and its position, produces. |
| `Runner.IndexOf` | src/Runner.Worker/ParallelStepRunner.cs:130 | The index found holds the completed task, and no earlier position does. |
| `Runner.RemoveAtMultiset` | src/Runner.Worker/ParallelStepRunner.cs:131 | `RemoveAt` takes exactly one occurrence of the completed task out of the list, even when the list holds it twice. |
| `Runner.Drain` | src/Runner.Worker/ParallelStepRunner.cs:127-136 | The loop terminates in every completion order, even when the list holds one task twice. The finalisation order is a permutation of the steps the dictionary gives for the outstanding tasks, one per task. Each step ends completed once per such task, and steps no task names are untouched. |
| `Runner.LaunchedOwners` | src/Runner.Worker/ParallelStepRunner.cs:121-135 | After the launch loop, looking up the outstanding tasks names step `i` exactly as many times as there are launches whose task the dictionary maps to `i`. |
| `Runner.RunSteps` | src/Runner.Worker/ParallelStepRunner.cs:55-137 | Over any completion order, each step ends as its own preparation and unit left it, completed once per launch whose task the dictionary maps to it. When every launch returns its own task, that is exactly once. |
| `Runner.FreshTasksFinaliseOnce` | src/Runner.Worker/ParallelStepRunner.cs:121-135 | When no two launches return the same task, the dictionary names each step for exactly one outstanding task. |
| `Runner.SharedTaskMisfinalises` | src/Runner.Worker/ParallelStepRunner.cs:121-135 | When launches `i < j` return the same task, step `i` is never finalised, and the last launch that returned that task, at or after `j`, is finalised at least twice. |
| `Runner.DrainByPosition` | src/Runner.Worker/ParallelStepRunner.cs:127-136 | The drain loop with the step list kept alongside the task list: in every completion order, each listed step is finalised once per listing, even when two outstanding tasks are the same object. |
| `Runner.RunStepsByPosition` | src/Runner.Worker/ParallelStepRunner.cs:55-137 | With the drain loop keyed by position, whatever tasks the launches return and whatever the completion order, every step is finalised exactly once and ends as its own preparation and unit left it, plus one completion. |
| `Runner.EnvFailureStillRuns` | src/Runner.Worker/ParallelStepRunner.cs:100-124 | After a failed `env` evaluation the step is `Failed` before launch and its `env` keeps the global and outer layers. It still runs and is finalised, and it carries the error. It has been completed twice, and it stays `Failed` if its own run returns without changing the result. |
| `Runner.NonActionStepFails` | src/Runner.Worker/ParallelStepRunner.cs:100-107 | A step that is not an action runner always fails preparation with the null-reference error. |

## Left out

- **Real concurrency.** `Task.WhenAny` and parallel execution are replaced by a nondeterministic choice of the next finished task. No timing or interleaving is modelled.
- **Shared state while later steps are prepared.** A launched unit runs synchronously up to its first yielding `await` before the next step is prepared. The model gives every step the same global environment and `steps` scope. It thus assumes that no unit writes `ExecutionContext.Global.EnvironmentVariables` (read at ParallelStepRunner.cs:79) or `Global.StepsContext` (read at :68) while later steps are still being prepared.
- **Reference identity across serialisation.** `OnSerializing` sets an empty collection field to `null` (ParallelStep.cs:68, :73). A list or dictionary fetched through a getter while it was empty is then detached from the entity, and the next access creates a new one. `Pipelines.StepsGetterStable` and `Pipelines.OutputsGetterStable` speak of values and hold between serialisations only.
- **Trace and debug logging.** The `Trace` and `Debug` calls are diagnostics only.
- **Service plumbing.** `ServiceLocator` and `RunnerService` wiring are not modelled.
- **The unused template evaluator in `RunStepAsync`.** It is created and never used.
- **The template evaluator's `EvaluateStepEnvironment`.** It is the `Evaluator` parameter, returning variables or an error.
- **`step.RunAsync()`.** It is the `StepLogic` parameter. It reports how the run ended, the result slot and the command result it left, and both tokens' states at that moment.
- **`EncodingUtil.SetEncoding`.** Only the possibility that it throws is modelled (`SetupFaulted`).
- **Which units finish without yielding.** Whether `SetEncoding` and `step.RunAsync()` complete synchronously is outside the model. The task each launch returns is the `taskOf` parameter.
- **`StepsContext.GetScope`.** Its result is an opaque `StepsScope(scopeName)` value.
- **`TaskResultUtil.MergeTaskResults`.** It is not part of this model. It is the uninterpreted `Merge` parameter, and no ordering of results is assumed.
- **`ExecutionContext`.** Its implementation is not part of this model. `Start` sets a flag and `Error` appends a message. `Complete` applies a supplied result or result-code override and counts the call. Timeline records and defaulting a missing result are not modelled.
- **Expression-value names.** `ExpressionValues` is modelled as a map whose binding names (`steps`, `env`) are matched exactly. The comparer of the context's own dictionary type is not modelled.
- **Windows key policy.** The `OS_WINDOWS` variant with case-insensitive environment keys is not modelled. The model uses the case-sensitive policy.
- **Non-dictionary `env` binding.** If the existing `env` binding is not a dictionary, the source dereferences null outside the `try`. The model excludes this case with the precondition `OuterEnvIsDictionary`.
- **Repeated step objects.** Steps are identified by position. The same step object appearing twice in the list is not modelled.
- **The `JobStep` base copy constructor and other step variants.** These are not part of this model. Base fields and other steps' `Clone` are value copies.
- **Aliasing between a clone and its source.** This cannot arise with values. `Pipelines.CloneMutationsStayInClone` states what the clone holds after it is mutated. It does not state that distinct containers were allocated.
- **`OrdinalIgnoreCase` beyond ASCII.** Only ASCII letters are folded.
- **Serialisation mechanics.** Newtonsoft and DataContract details are not modelled. Deserialisation is modelled only in that it may leave an ordinal outputs dictionary. The model covers which members are emitted, and a structural encoding.
- **`ContinueOnError` and `Timeout` of the runner.** They are fixed tokens (ParallelStepRunner.cs:43, :46) that the launch and drain loops never read, so they are not modelled.

## Findings

| source | as written | input that shows it | evidently intended | confidence | as-written member | corrected member |
|---|---|---|---|---|---|---|
| src/Runner.Worker/ParallelStepRunner.cs:121-135 | Steps are found again through `Dictionary<Task, IStep>`, keyed by the task each `RunStepAsync` call returned; `stepTasksDictionary[stepTask] = step` overwrites an existing entry. | Two child steps whose units both finish without yielding, for example two nested `ParallelStepRunner`s with no steps when `SetEncoding` has nothing to await. Both calls return the one cached completed task, so the list holds it twice and the dictionary names only the second step. | Every launched step is finalised exactly once. | medium; not executed | `Runner.RunSteps`, `Runner.SharedTaskMisfinalises` | `Runner.RunStepsByPosition` |
