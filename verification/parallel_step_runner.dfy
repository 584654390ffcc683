/**
 * The parallel step runner: for every child step in list order it prepares
 * the step's execution context (start, `steps` binding, layered `env`
 * binding, evaluation of the action's `env` block) and launches the step's
 * unit of work; then it drains the outstanding units in whatever order they
 * finish, finalising each step as its unit completes.
 *
 * Concurrency is abstracted: a unit owns its step's context exclusively from
 * launch until the drain loop finalises it, so its effect on that context is
 * computed at launch, and "which unit finished next" is a nondeterministic
 * choice among the outstanding ones. The template evaluator, the step's own
 * run logic and the result-merge rule are parameters.
 */
module Runner {
  import opened Wrappers
  import opened Execution
  import EnvLayering

  /** An action's `env` block as written in the workflow, before evaluation. */
  datatype TemplateToken = TemplateToken(text: string)

  /** The `Action` of an action step; its `Environment` may be `null`. */
  datatype ActionDefinition = ActionDefinition(environment: Option<TemplateToken>)

  /** A step as the runner sees it. `action` is `None` for a step that is not an action runner. */
  datatype RunnerStep = RunnerStep(displayName: string, context: ExecutionContext, action: Option<ActionDefinition>)

  /** What evaluating an action's `env` block gives: the variables, or the exception's message. */
  datatype EnvEval = Evaluated(env: map<string, Option<string>>) | EvalFailed(message: string)

  /** How `step.RunAsync()` ended. The two flags are the step's and the job root's cancellation state when it ended. */
  datatype RunEnd =
    | Returned
    | Cancelled(stepTokenCancelled: bool, rootTokenCancelled: bool, message: string)
    | Threw(message: string)

  /**
   * What one unit of work did. `SetupFaulted`: the encoding setup before the
   * step threw, so the step never ran. `Ran`: the step ran and ended as `end`,
   * leaving `result` in the result slot and `commandResult` as the command result.
   */
  datatype UnitRun =
    | SetupFaulted
    | Ran(end: RunEnd, result: Option<TaskResult>, commandResult: Option<TaskResult>)

  /** The outcome classification of one run: the result slot, and the error recorded if any. */
  datatype Classified = Classified(result: Option<TaskResult>, error: Option<string>)

  /** The template evaluator's `EvaluateStepEnvironment`, given the action's block and the step's expression values. */
  type Evaluator = (Option<TemplateToken>, map<string, ContextData>) -> EnvEval

  /** A step's own run logic, given the step's position and its context as launched. */
  type StepLogic = (nat, ExecutionContext) -> UnitRun

  /** `TaskResultUtil.MergeTaskResults(current, command)`. */
  type Merge = (Option<TaskResult>, TaskResult) -> TaskResult

  /**
   * A task object. A unit that finishes without ever yielding returns the one
   * cached completed task, so two launches can return the same handle.
   */
  datatype TaskHandle = TaskHandle(serial: nat)

  /** The task the `i`-th launch returns. */
  type TaskOf = nat -> TaskHandle

  datatype ParallelStepRunner = ParallelStepRunner(steps: Option<seq<RunnerStep>>, displayName: string, condition: string)

  const TimeoutMessage: string := "The action has timed out."
  const NullReferenceMessage: string := "Object reference not set to an instance of an object."

  /**
   * The runner's `Steps` getter. It never yields `null`, so the argument
   * check at the head of the run always passes: the first access stores a new
   * empty list, later accesses hand back the stored list.
   */
  function Steps(runner: ParallelStepRunner): (r: (ParallelStepRunner, seq<RunnerStep>))
    ensures r.0.steps == Some(r.1)
    ensures runner.steps.None? ==> r.1 == []
    ensures runner.steps.Some? ==> r.0 == runner
    ensures r.0 == runner.(steps := r.0.steps)
  {
    match runner.steps
    case None => (runner.(steps := Some([])), [])
    case Some(xs) => (runner, xs)
  }

  /** Later accesses to `Steps` hand back what the first access stored. */
  lemma StepsGetterStable(runner: ParallelStepRunner)
    ensures Steps(Steps(runner).0) == Steps(runner)
  {
  }

  /** The existing `env` binding, when present, is a dictionary. */
  predicate OuterEnvIsDictionary(c: ExecutionContext) {
    "env" in c.expressionValues ==> c.expressionValues["env"].DictionaryData?
  }

  function OuterEnv(c: ExecutionContext): Option<EnvLayering.Layer>
    requires OuterEnvIsDictionary(c)
  {
    if "env" in c.expressionValues then Some(c.expressionValues["env"].entries) else None
  }

  /** The context after it is started and bound to `steps` and to the global and outer `env` layers. */
  function BoundContext(c: ExecutionContext, global: map<string, Option<string>>): (r: ExecutionContext)
    requires OuterEnvIsDictionary(c)
  {
    var env := EnvLayering.EnvContext(global, OuterEnv(c), None);
    Start(c).(expressionValues := c.expressionValues["steps" := StepsScope(c.scopeName)]["env" := DictionaryData(env)])
  }

  /** Evaluates the action's `env` block; a step that is not an action fails on the `null` action. */
  function EvaluateActionEnv(step: RunnerStep, values: map<string, ContextData>, eval: Evaluator): EnvEval {
    match step.action
    case None => EvalFailed(NullReferenceMessage)
    case Some(a) => eval(a.environment, values)
  }

  /**
   * Prepares one step before launch. The evaluator sees the `env` binding
   * already holding the global and outer layers; on success its variables are
   * laid on top. On failure the error is recorded and the context is
   * completed as failed, and the step is still launched afterwards.
   */
  function PrepareStep(step: RunnerStep, global: map<string, Option<string>>, eval: Evaluator): RunnerStep
    requires OuterEnvIsDictionary(step.context)
  {
    var bound := BoundContext(step.context, global);
    var context :=
      match EvaluateActionEnv(step, bound.expressionValues, eval)
      case Evaluated(vars) =>
        var env := EnvLayering.EnvContext(global, OuterEnv(step.context), Some(vars));
        bound.(expressionValues := bound.expressionValues["env" := DictionaryData(env)])
      case EvalFailed(message) =>
        Complete(Error(bound, message), Some(Failed), None);
    step.(context := context)
  }

  /**
   * After preparation the context is started and bound to its `steps` scope,
   * its `env` binding holds the layered environment context, and other
   * bindings are kept. A successful evaluation changes nothing else; a failed
   * one records the error and completes the context as failed.
   */
  lemma PrepareStepEffects(step: RunnerStep, global: map<string, Option<string>>, eval: Evaluator)
    requires OuterEnvIsDictionary(step.context)
    ensures var r := PrepareStep(step, global, eval);
            && r.displayName == step.displayName && r.action == step.action
            && r.context.started && r.context.scopeName == step.context.scopeName
            && r.context.resultCode == step.context.resultCode
            && r.context.commandResult == step.context.commandResult
    ensures var values := PrepareStep(step, global, eval).context.expressionValues;
            && values.Keys == step.context.expressionValues.Keys + {"steps", "env"}
            && values["steps"] == StepsScope(step.context.scopeName)
            && (forall k :: k in step.context.expressionValues && k != "steps" && k != "env" ==>
                  values[k] == step.context.expressionValues[k])
    ensures var r := PrepareStep(step, global, eval).context;
            var outcome := EvaluateActionEnv(step, BoundContext(step.context, global).expressionValues, eval);
            && r.expressionValues["env"] ==
                 DictionaryData(EnvLayering.EnvContext(global, OuterEnv(step.context),
                                                       if outcome.Evaluated? then Some(outcome.env) else None))
            && (outcome.Evaluated? ==>
                  && r.result == step.context.result
                  && r.errors == step.context.errors
                  && r.completions == step.context.completions)
            && (outcome.EvalFailed? ==>
                  && r.result == Some(Failed)
                  && r.errors == step.context.errors + [outcome.message]
                  && r.completions == step.context.completions + 1)
  {
  }

  /** The exception handling around `step.RunAsync()`. */
  function Classify(end: RunEnd, result: Option<TaskResult>): (r: Classified)
    ensures end.Returned? ==> r == Classified(result, None)
    ensures !end.Returned? ==> r.error.Some? && r.result.Some?
  {
    match end
    case Returned => Classified(result, None)
    case Cancelled(stepTokenCancelled, rootTokenCancelled, message) =>
      if stepTokenCancelled && !rootTokenCancelled then Classified(Some(Failed), Some(TimeoutMessage))
      else Classified(Some(Canceled), Some(message))
    case Threw(message) => Classified(Some(Failed), Some(message))
  }

  /**
   * A cancellation is a timeout, reported as a failure with the timeout
   * message, exactly when the step's own token was cancelled and the root's was
   * not; every other cancellation is reported as cancelled with its own
   * message, and every other exception as failed with its message.
   */
  lemma ClassifyOutcomes(end: RunEnd, result: Option<TaskResult>)
    ensures end.Cancelled? ==>
              ((Classify(end, result) == Classified(Some(Failed), Some(TimeoutMessage)))
               <==> (end.stepTokenCancelled && !end.rootTokenCancelled))
    ensures end.Cancelled? && !(end.stepTokenCancelled && !end.rootTokenCancelled) ==>
              Classify(end, result) == Classified(Some(Canceled), Some(end.message))
    ensures end.Threw? ==> Classify(end, result) == Classified(Some(Failed), Some(end.message))
    ensures Classify(end, result).result == Some(Canceled) <==>
              (end.Cancelled? && !(end.stepTokenCancelled && !end.rootTokenCancelled)) || (end.Returned? && result == Some(Canceled))
  {
  }

  /**
   * One unit of work, run on the launched step's context. If the setup before
   * the step faults, nothing else happens. Otherwise the run is classified,
   * its error recorded, and, only when a command result was set, the result
   * slot is replaced by the merge of the classified result with it. A unit
   * never starts, completes or rebinds its context.
   */
  function RunUnit(c: ExecutionContext, run: UnitRun, merge: Merge): (r: ExecutionContext)
    ensures run.SetupFaulted? ==> r == c
    ensures run.Ran? ==> r.commandResult == run.commandResult
    ensures run.Ran? && run.commandResult.None? ==> r.result == Classify(run.end, run.result).result
    ensures run.Ran? && run.commandResult.Some? ==>
              r.result == Some(merge(Classify(run.end, run.result).result, run.commandResult.value))
    ensures run.Ran? ==> r.errors == c.errors + (match Classify(run.end, run.result).error
                                                  case Some(e) => [e]
                                                  case None => [])
    ensures r == c.(result := r.result, commandResult := r.commandResult, errors := r.errors)
  {
    match run
    case SetupFaulted => c
    case Ran(end, result, commandResult) =>
      var classified := Classify(end, result);
      var logged := match classified.error
        case Some(e) => Error(c, e)
        case None => c;
      var ran := logged.(result := classified.result, commandResult := commandResult);
      if ran.commandResult.Some? then ran.(result := Some(merge(ran.result, ran.commandResult.value)))
      else ran
  }

  /** `CompleteStep(step)` as the drain loop calls it: no result override, no result code. */
  function CompleteStep(c: ExecutionContext): (r: ExecutionContext)
    ensures r.completions == c.completions + 1
    ensures r.result == c.result && r.resultCode == c.resultCode
    ensures r.(completions := c.completions) == c
  {
    Complete(c, None, None)
  }

  /** The context of step `i` when its unit has finished. */
  function UnitOutcome(step: RunnerStep, i: nat, global: map<string, Option<string>>,
                       eval: Evaluator, logic: StepLogic, merge: Merge): ExecutionContext
    requires OuterEnvIsDictionary(step.context)
  {
    var prepared := PrepareStep(step, global, eval).context;
    RunUnit(prepared, logic(i, prepared), merge)
  }


  /** `CompleteStep` applied `n` times: only the completion count moves. */
  function CompleteTimes(c: ExecutionContext, n: nat): (r: ExecutionContext)
    ensures r == c.(completions := c.completions + n)
  {
    if n == 0 then c else CompleteStep(CompleteTimes(c, n - 1))
  }

  /**
   * The step the task-to-step dictionary holds for task `t` after the first
   * `n` launches: each launch overwrites the entry of the task it returned,
   * so it is the last launch that returned `t`, if any did.
   */
  function LastLaunch(taskOf: TaskOf, n: nat, t: TaskHandle): (r: Option<nat>)
    ensures r.Some? ==> r.value < n && taskOf(r.value) == t && forall k :: r.value < k < n ==> taskOf(k) != t
    ensures r.None? ==> forall k :: 0 <= k < n ==> taskOf(k) != t
  {
    if n == 0 then None
    else if taskOf(n - 1) == t then Some(n - 1)
    else LastLaunch(taskOf, n - 1, t)
  }

  /** How many `k < m` satisfy `f`. */
  function CountBelow(f: nat -> bool, m: nat): nat {
    if m == 0 then 0 else CountBelow(f, m - 1) + (if f(m - 1) then 1 else 0)
  }

  /** Launch `k` of `n` returned a task that the dictionary maps to step `i`. */
  predicate LooksUp(taskOf: TaskOf, n: nat, k: nat, i: nat) {
    LastLaunch(taskOf, n, taskOf(k)) == Some(i)
  }

  /** How often the drain loop finalises step `i` of `n`: once per launched task that looks it up. */
  function Finalisations(taskOf: TaskOf, n: nat, i: nat): nat {
    CountBelow((k: nat) => LooksUp(taskOf, n, k, i), n)
  }

  /**
   * The launch loop: each step, in list order, is prepared and its unit
   * launched; `unit(i, step)` is the context step `i` is left in when its unit
   * finishes and `taskOf(i)` the task the launch returns. The task is appended
   * to the outstanding list and the dictionary entry for that task is set to
   * the step, replacing the entry of an earlier launch that returned the same
   * task.
   */
  method Launch(steps: seq<RunnerStep>, unit: (nat, RunnerStep) --> ExecutionContext, taskOf: TaskOf)
    returns (running: seq<TaskHandle>, taskSteps: map<TaskHandle, nat>, contexts: seq<ExecutionContext>)
    requires forall i :: 0 <= i < |steps| ==> unit.requires(i, steps[i])
    ensures |running| == |steps| && forall i :: 0 <= i < |steps| ==> running[i] == taskOf(i)
    ensures forall t :: t in taskSteps <==> LastLaunch(taskOf, |steps|, t).Some?
    ensures forall t :: t in taskSteps ==> Some(taskSteps[t]) == LastLaunch(taskOf, |steps|, t)
    ensures |contexts| == |steps|
    ensures forall i :: 0 <= i < |steps| ==> contexts[i] == unit(i, steps[i])
  {
    running, taskSteps, contexts := [], map[], [];
    var i := 0;
    while i < |steps|
      invariant 0 <= i <= |steps|
      invariant |running| == i && forall j :: 0 <= j < i ==> running[j] == taskOf(j)
      invariant forall t :: t in taskSteps <==> LastLaunch(taskOf, i, t).Some?
      invariant forall t :: t in taskSteps ==> Some(taskSteps[t]) == LastLaunch(taskOf, i, t)
      invariant |contexts| == i
      invariant forall j :: 0 <= j < i ==> contexts[j] == unit(j, steps[j])
    {
      var finished := unit(i, steps[i]);
      var task := taskOf(i);
      running := running + [task];
      taskSteps := taskSteps[task := i];
      contexts := contexts + [finished];
      i := i + 1;
    }
  }

  /** The first position of `t` in `s` (`IList.IndexOf`). */
  function IndexOf<T(==)>(s: seq<T>, t: T): (k: nat)
    requires t in s
    ensures k < |s| && s[k] == t
    ensures forall j :: 0 <= j < k ==> s[j] != t
  {
    if s[0] == t then 0 else 1 + IndexOf(s[1..], t)
  }

  /** `RemoveAt(index)` takes exactly one occurrence of the element at `index` out of the list. */
  lemma RemoveAtMultiset<T>(s: seq<T>, index: nat)
    requires index < |s|
    ensures multiset(s[..index] + s[index + 1..]) + multiset{s[index]} == multiset(s)
    ensures forall t :: t in s[..index] + s[index + 1..] ==> t in s
  {
    assert s == s[..index] + [s[index]] + s[index + 1..];
  }

  /** The steps the dictionary gives for the tasks, in list order. */
  ghost function OwnerList(tasks: seq<TaskHandle>, taskSteps: map<TaskHandle, nat>): (r: seq<nat>)
    requires forall t :: t in tasks ==> t in taskSteps
    ensures |r| == |tasks| && forall k :: 0 <= k < |tasks| ==> r[k] == taskSteps[tasks[k]]
  {
    seq(|tasks|, k requires 0 <= k < |tasks| => taskSteps[tasks[k]])
  }

  /** Removing a task from the list removes one occurrence of its step from the steps the list names. */
  lemma RemoveOwner(tasks: seq<TaskHandle>, taskSteps: map<TaskHandle, nat>, index: nat)
    requires forall t :: t in tasks ==> t in taskSteps
    requires index < |tasks|
    ensures forall t :: t in tasks[..index] + tasks[index + 1..] ==> t in tasks
    ensures multiset(OwnerList(tasks[..index] + tasks[index + 1..], taskSteps)) + multiset{taskSteps[tasks[index]]}
            == multiset(OwnerList(tasks, taskSteps))
  {
    var owners := OwnerList(tasks, taskSteps);
    RemoveAtMultiset(tasks, index);
    RemoveAtMultiset(owners, index);
    assert OwnerList(tasks[..index] + tasks[index + 1..], taskSteps) == owners[..index] + owners[index + 1..];
  }

  /** Finalising one more step keeps every context completed once per finalisation of its step. */
  lemma FinaliseStep(final: seq<ExecutionContext>, contexts: seq<ExecutionContext>, finalised: seq<nat>, step: nat)
    requires |final| == |contexts| && step < |contexts|
    requires forall i :: 0 <= i < |contexts| ==> final[i] == CompleteTimes(contexts[i], multiset(finalised)[i])
    ensures forall i :: 0 <= i < |contexts| ==>
              final[step := CompleteStep(final[step])][i] == CompleteTimes(contexts[i], multiset(finalised + [step])[i])
  {
  }

  /**
   * The drain loop: while tasks are outstanding, some outstanding task
   * finishes, the first occurrence of it is removed from the list, and the
   * step the dictionary gives for it is finalised. Whatever the completion
   * order, the loop ends after one pass per launched task, and each step is
   * finalised once for every outstanding task the dictionary maps to it.
   */
  method Drain(running: seq<TaskHandle>, taskSteps: map<TaskHandle, nat>, contexts: seq<ExecutionContext>)
    returns (final: seq<ExecutionContext>, finalised: seq<nat>)
    requires forall t :: t in running ==> t in taskSteps && taskSteps[t] < |contexts|
    ensures |final| == |contexts| && |finalised| == |running|
    ensures multiset(finalised) == multiset(OwnerList(running, taskSteps))
    ensures forall i :: 0 <= i < |contexts| ==> final[i] == CompleteTimes(contexts[i], multiset(finalised)[i])
  {
    var outstanding := running;
    final, finalised := contexts, [];
    while |outstanding| > 0
      invariant forall t :: t in outstanding ==> t in running
      invariant |finalised| + |outstanding| == |running|
      invariant multiset(finalised) + multiset(OwnerList(outstanding, taskSteps)) == multiset(OwnerList(running, taskSteps))
      invariant |final| == |contexts|
      invariant forall i :: 0 <= i < |contexts| ==> final[i] == CompleteTimes(contexts[i], multiset(finalised)[i])
      decreases |outstanding|
    {
      assert outstanding[0] in outstanding;
      var completed :| completed in outstanding;
      var index := IndexOf(outstanding, completed);
      RemoveOwner(outstanding, taskSteps, index);
      outstanding := outstanding[..index] + outstanding[index + 1..];
      var step := taskSteps[completed];
      FinaliseStep(final, contexts, finalised, step);
      final := final[step := CompleteStep(final[step])];
      finalised := finalised + [step];
    }
  }

  /**
   * The drain loop keyed by position instead of by task: `runningSteps` lists
   * each outstanding task's step and loses the same index as the task list.
   * Each entry of `runningSteps` is finalised exactly once, even when two
   * outstanding tasks are the same object.
   */
  method DrainByPosition(running: seq<TaskHandle>, runningSteps: seq<nat>, contexts: seq<ExecutionContext>)
    returns (final: seq<ExecutionContext>, finalised: seq<nat>)
    requires |runningSteps| == |running|
    requires forall k :: 0 <= k < |runningSteps| ==> runningSteps[k] < |contexts|
    ensures |final| == |contexts| && |finalised| == |running|
    ensures multiset(finalised) == multiset(runningSteps)
    ensures forall i :: 0 <= i < |contexts| ==> final[i] == CompleteTimes(contexts[i], multiset(finalised)[i])
  {
    var outstanding: seq<TaskHandle>, outstandingSteps: seq<nat> := running, runningSteps;
    final, finalised := contexts, [];
    while |outstanding| > 0
      invariant |outstandingSteps| == |outstanding|
      invariant forall x :: x in outstandingSteps ==> x < |contexts|
      invariant |finalised| + |outstanding| == |running|
      invariant multiset(finalised) + multiset(outstandingSteps) == multiset(runningSteps)
      invariant |final| == |contexts|
      invariant forall i :: 0 <= i < |contexts| ==> final[i] == CompleteTimes(contexts[i], multiset(finalised)[i])
      decreases |outstanding|
    {
      assert outstanding[0] in outstanding;
      var completed :| completed in outstanding;
      var index := IndexOf(outstanding, completed);
      var step := outstandingSteps[index];
      assert step in outstandingSteps;
      RemoveAtMultiset(outstandingSteps, index);
      outstanding := outstanding[..index] + outstanding[index + 1..];
      ghost var previous := outstandingSteps;
      outstandingSteps := outstandingSteps[..index] + outstandingSteps[index + 1..];
      assert forall x :: x in outstandingSteps ==> x in previous;
      FinaliseStep(final, contexts, finalised, step);
      final := final[step := CompleteStep(final[step])];
      finalised := finalised + [step];
    }
  }

  /** `0, 1, …, n - 1`: the step of each launch, in launch order. */
  function Positions(n: nat): (r: seq<nat>)
    ensures |r| == n && forall k :: 0 <= k < n ==> r[k] == k
  {
    if n == 0 then [] else Positions(n - 1) + [n - 1]
  }

  /** Every position below `n` occurs exactly once, and no other. */
  lemma {:induction false} PositionsOnce(n: nat)
    ensures forall i :: multiset(Positions(n))[i] == if 0 <= i < n then 1 else 0
  {
    if n > 0 {
      PositionsOnce(n - 1);
      assert Positions(n) == Positions(n - 1) + [n - 1];
      forall i
        ensures multiset(Positions(n))[i] == if 0 <= i < n then 1 else 0
      {
        assert multiset(Positions(n))[i] == multiset(Positions(n - 1))[i] + multiset([n - 1])[i];
      }
    }
  }

  /** The occurrences of `i` in a prefix of `owners`, counted by a predicate that holds exactly where `i` occurs. */
  lemma {:induction false} CountMatches(owners: seq<nat>, f: nat -> bool, m: nat, i: nat)
    requires m <= |owners|
    requires forall k :: 0 <= k < |owners| ==> (owners[k] == i <==> f(k))
    ensures multiset(owners[..m])[i] == CountBelow(f, m)
  {
    if m > 0 {
      CountMatches(owners, f, m - 1, i);
      assert owners[..m] == owners[..m - 1] + [owners[m - 1]];
    }
  }

  /**
   * After the launch loop, every outstanding task has a dictionary entry, and
   * looking each of them up names step `i` exactly `Finalisations(taskOf, n, i)`
   * times.
   */
  lemma LaunchedOwners(running: seq<TaskHandle>, taskSteps: map<TaskHandle, nat>, taskOf: TaskOf, n: nat)
    requires |running| == n && forall i :: 0 <= i < n ==> running[i] == taskOf(i)
    requires forall t :: t in taskSteps <==> LastLaunch(taskOf, n, t).Some?
    requires forall t :: t in taskSteps ==> Some(taskSteps[t]) == LastLaunch(taskOf, n, t)
    ensures forall t :: t in running ==> t in taskSteps && taskSteps[t] < n
    ensures forall x :: x in OwnerList(running, taskSteps) ==> x < n
    ensures forall i :: 0 <= i < n ==> multiset(OwnerList(running, taskSteps))[i] == Finalisations(taskOf, n, i)
  {
    forall k | 0 <= k < n
      ensures LastLaunch(taskOf, n, taskOf(k)).Some?
    {
    }
    var owners := OwnerList(running, taskSteps);
    forall i | 0 <= i < n
      ensures multiset(owners)[i] == Finalisations(taskOf, n, i)
    {
      CountMatches(owners, (k: nat) => LooksUp(taskOf, n, k, i), n, i);
      assert owners[..n] == owners;
    }
  }

  /** What the drain loop leaves after the launch loop, in terms of each step's launched context. */
  lemma DrainedAsWritten(running: seq<TaskHandle>, taskSteps: map<TaskHandle, nat>, contexts: seq<ExecutionContext>,
                         final: seq<ExecutionContext>, finalised: seq<nat>, taskOf: TaskOf)
    requires |running| == |contexts|
    requires forall t :: t in running ==> t in taskSteps && taskSteps[t] < |contexts|
    requires forall x :: x in OwnerList(running, taskSteps) ==> x < |contexts|
    requires forall i :: 0 <= i < |contexts| ==> multiset(OwnerList(running, taskSteps))[i] == Finalisations(taskOf, |contexts|, i)
    requires |final| == |contexts| && |finalised| == |running|
    requires multiset(finalised) == multiset(OwnerList(running, taskSteps))
    requires forall i :: 0 <= i < |contexts| ==> final[i] == CompleteTimes(contexts[i], multiset(finalised)[i])
    ensures forall k :: 0 <= k < |finalised| ==> finalised[k] < |contexts|
    ensures forall i :: 0 <= i < |contexts| ==> multiset(finalised)[i] == Finalisations(taskOf, |contexts|, i)
    ensures forall i :: 0 <= i < |contexts| ==> final[i] == CompleteTimes(contexts[i], Finalisations(taskOf, |contexts|, i))
    ensures (forall j, k :: 0 <= j < k < |contexts| ==> taskOf(j) != taskOf(k)) ==>
              forall i :: 0 <= i < |contexts| ==> final[i] == CompleteStep(contexts[i])
  {
    var owners := OwnerList(running, taskSteps);
    forall k | 0 <= k < |finalised|
      ensures finalised[k] < |contexts|
    {
      assert finalised[k] in multiset(owners);
    }
    FinalisedOnceWhenFresh(final, contexts, taskOf);
  }

  /**
   * `RunStepsAsync` as written: every step of the runner is launched once in
   * list order, `taskOf(i)` being the task launch `i` returns, and the drain
   * loop finalises steps through the task-to-step dictionary, in some
   * completion order. Step `i` ends with the context its own preparation and
   * unit produced, completed once for each launched task the dictionary maps
   * to it. When every launch returns its own task, that is exactly once.
   */
  method RunSteps(runner: ParallelStepRunner, global: map<string, Option<string>>,
                  eval: Evaluator, logic: StepLogic, merge: Merge, taskOf: TaskOf)
    returns (final: seq<ExecutionContext>, finalised: seq<nat>)
    requires runner.steps.Some? ==>
               forall i :: 0 <= i < |runner.steps.value| ==> OuterEnvIsDictionary(runner.steps.value[i].context)
    ensures var steps := Steps(runner).1;
            && |final| == |steps| && |finalised| == |steps|
            && (forall k :: 0 <= k < |finalised| ==> finalised[k] < |steps|)
            && (forall i :: 0 <= i < |steps| ==> multiset(finalised)[i] == Finalisations(taskOf, |steps|, i))
            && forall i :: 0 <= i < |steps| ==>
                 final[i] == CompleteTimes(UnitOutcome(steps[i], i, global, eval, logic, merge),
                                           Finalisations(taskOf, |steps|, i))
    ensures var steps := Steps(runner).1;
            (forall j, k :: 0 <= j < k < |steps| ==> taskOf(j) != taskOf(k)) ==>
              forall i :: 0 <= i < |steps| ==>
                final[i] == CompleteStep(UnitOutcome(steps[i], i, global, eval, logic, merge))
  {
    var (_, steps) := Steps(runner);
    var n := |steps|;
    var unit := (i: nat, step: RunnerStep) requires OuterEnvIsDictionary(step.context) =>
                  UnitOutcome(step, i, global, eval, logic, merge);
    var running, taskSteps, contexts := Launch(steps, unit, taskOf);
    LaunchedOwners(running, taskSteps, taskOf, n);
    final, finalised := Drain(running, taskSteps, contexts);
    DrainedAsWritten(running, taskSteps, contexts, final, finalised, taskOf);
  }

  /**
   * `RunStepsAsync` with the drain loop keyed by position: whatever tasks the
   * launches return and whatever the completion order, every step is
   * finalised exactly once and ends with the context its own preparation and
   * unit produced, completed once more.
   */
  method RunStepsByPosition(runner: ParallelStepRunner, global: map<string, Option<string>>,
                            eval: Evaluator, logic: StepLogic, merge: Merge, taskOf: TaskOf)
    returns (final: seq<ExecutionContext>, finalised: seq<nat>)
    requires runner.steps.Some? ==>
               forall i :: 0 <= i < |runner.steps.value| ==> OuterEnvIsDictionary(runner.steps.value[i].context)
    ensures var steps := Steps(runner).1;
            && |final| == |steps| && |finalised| == |steps|
            && (forall k :: 0 <= k < |finalised| ==> finalised[k] < |steps|)
            && (forall i :: 0 <= i < |steps| ==> multiset(finalised)[i] == 1)
            && forall i :: 0 <= i < |steps| ==>
                 final[i] == CompleteStep(UnitOutcome(steps[i], i, global, eval, logic, merge))
  {
    var (_, steps) := Steps(runner);
    var n := |steps|;
    var unit := (i: nat, step: RunnerStep) requires OuterEnvIsDictionary(step.context) =>
                  UnitOutcome(step, i, global, eval, logic, merge);
    var running, _, contexts := Launch(steps, unit, taskOf);
    var positions := Positions(n);
    final, finalised := DrainByPosition(running, positions, contexts);
    PositionsOnce(n);
    forall k | 0 <= k < |finalised|
      ensures finalised[k] < n
    {
      assert finalised[k] in multiset(positions);
    }
  }

  /** When every launch returns its own task, the dictionary names each step exactly once. */
  lemma FreshTasksFinaliseOnce(taskOf: TaskOf, n: nat)
    requires forall j, k :: 0 <= j < k < n ==> taskOf(j) != taskOf(k)
    ensures forall i :: 0 <= i < n ==> Finalisations(taskOf, n, i) == 1
  {
    forall i | 0 <= i < n
      ensures Finalisations(taskOf, n, i) == 1
    {
      forall k | 0 <= k < n
        ensures LooksUp(taskOf, n, k, i) <==> k == i
      {
        assert LastLaunch(taskOf, n, taskOf(k)).Some?;
      }
      CountExactlyOne((k: nat) => LooksUp(taskOf, n, k, i), n, i);
    }
  }

  /** With fresh tasks, a context completed once per finalisation is completed exactly once. */
  lemma FinalisedOnceWhenFresh(final: seq<ExecutionContext>, contexts: seq<ExecutionContext>, taskOf: TaskOf)
    requires |final| == |contexts|
    requires forall i :: 0 <= i < |contexts| ==> final[i] == CompleteTimes(contexts[i], Finalisations(taskOf, |contexts|, i))
    ensures (forall j, k :: 0 <= j < k < |contexts| ==> taskOf(j) != taskOf(k)) ==> forall i :: 0 <= i < |contexts| ==> final[i] == CompleteStep(contexts[i])
  {
    if forall j, k :: 0 <= j < k < |contexts| ==> taskOf(j) != taskOf(k) {
      FreshTasksFinaliseOnce(taskOf, |contexts|);
    }
  }

  /**
   * When two launches return the same task, the earlier one's step is never
   * finalised, and the step of the last launch that returned that task is
   * finalised at least twice.
   */
  lemma SharedTaskMisfinalises(taskOf: TaskOf, n: nat, i: nat, j: nat)
    requires i < j < n && taskOf(i) == taskOf(j)
    ensures Finalisations(taskOf, n, i) == 0
    ensures LastLaunch(taskOf, n, taskOf(i)).Some?
    ensures var last := LastLaunch(taskOf, n, taskOf(i)).value;
            last >= j && Finalisations(taskOf, n, last) >= 2
  {
    assert LastLaunch(taskOf, n, taskOf(i)).Some?;
    var last := LastLaunch(taskOf, n, taskOf(i)).value;
    forall k | 0 <= k < n
      ensures !LooksUp(taskOf, n, k, i)
    {
    }
    CountNone((k: nat) => LooksUp(taskOf, n, k, i), n);
    assert LooksUp(taskOf, n, i, last) && LooksUp(taskOf, n, j, last);
    CountTwo((k: nat) => LooksUp(taskOf, n, k, last), n, i, j);
  }

  lemma {:induction false} CountNone(f: nat -> bool, m: nat)
    requires forall k :: 0 <= k < m ==> !f(k)
    ensures CountBelow(f, m) == 0
  {
    if m > 0 {
      CountNone(f, m - 1);
    }
  }

  lemma {:induction false} CountExactlyOne(f: nat -> bool, m: nat, j: nat)
    requires j < m
    requires forall k :: 0 <= k < m ==> (f(k) <==> k == j)
    ensures CountBelow(f, m) == 1
  {
    if m - 1 == j {
      CountNone(f, j);
    } else {
      CountExactlyOne(f, m - 1, j);
    }
  }

  lemma {:induction false} CountTwo(f: nat -> bool, m: nat, i: nat, j: nat)
    requires i < j < m && f(i) && f(j)
    ensures CountBelow(f, m) >= 2
  {
    if m - 1 == j {
      CountAtLeastOne(f, j, i);
    } else {
      CountTwo(f, m - 1, i, j);
    }
  }

  lemma {:induction false} CountAtLeastOne(f: nat -> bool, m: nat, i: nat)
    requires i < m && f(i)
    ensures CountBelow(f, m) >= 1
  {
    if m - 1 != i {
      CountAtLeastOne(f, m - 1, i);
    }
  }

  /**
   * A step whose `env` block could not be evaluated, or that is not an action,
   * still runs and is finalised: it carries the evaluation error, has been
   * completed twice (once as failed before launch, once by the drain loop),
   * and stays failed unless its own run changes the result.
   */
  lemma EnvFailureStillRuns(step: RunnerStep, i: nat, global: map<string, Option<string>>,
                            eval: Evaluator, logic: StepLogic, merge: Merge)
    requires OuterEnvIsDictionary(step.context)
    requires EvaluateActionEnv(step, BoundContext(step.context, global).expressionValues, eval).EvalFailed?
    ensures var message := EvaluateActionEnv(step, BoundContext(step.context, global).expressionValues, eval).message;
            var prepared := PrepareStep(step, global, eval).context;
            var final := CompleteStep(UnitOutcome(step, i, global, eval, logic, merge));
            && prepared.result == Some(Failed)
            && prepared.expressionValues["env"] == DictionaryData(EnvLayering.EnvContext(global, OuterEnv(step.context), None))
            && final.errors[..|step.context.errors| + 1] == step.context.errors + [message]
            && final.completions == step.context.completions + 2
            && (logic(i, prepared) == Ran(Returned, prepared.result, None) ==> final.result == Some(Failed))
  {
  }

  /** A step that is not an action always takes the failure path. */
  lemma NonActionStepFails(step: RunnerStep, global: map<string, Option<string>>, eval: Evaluator)
    requires OuterEnvIsDictionary(step.context)
    requires step.action.None?
    ensures PrepareStep(step, global, eval).context.result == Some(Failed)
    ensures PrepareStep(step, global, eval).context.errors == step.context.errors + [NullReferenceMessage]
  {
  }
}
