/**
 * The parts of a step's execution context that the parallel step runner reads
 * and writes: expression values, the result slot, the command result, the
 * error log and the completion state.
 */
module Execution {
  import opened Wrappers

  datatype TaskResult = Succeeded | SucceededWithIssues | Failed | Canceled | Skipped | Abandoned

  /** Expression-context data, reduced to the shapes the runner handles. */
  datatype ContextData =
    | StringData(s: string)
      /** A case-sensitive dictionary context. */
    | DictionaryData(entries: map<string, ContextData>)
      /** The view of the shared steps context for one scope. */
    | StepsScope(scopeName: string)
    | OtherData(text: string)

  datatype ExecutionContext = ExecutionContext(
    scopeName: string,
    started: bool,
    expressionValues: map<string, ContextData>,
    result: Option<TaskResult>,
    resultCode: Option<string>,
    commandResult: Option<TaskResult>,
    errors: seq<string>,
    /** How many times `Complete` has been called on this context. */
    completions: nat)

  function Start(c: ExecutionContext): ExecutionContext {
    c.(started := true)
  }

  /** `Error(...)`: records an error against the step. */
  function Error(c: ExecutionContext, message: string): ExecutionContext {
    c.(errors := c.errors + [message])
  }

  /** `Complete(result, resultCode: code)`: a supplied override replaces the current value. */
  function Complete(c: ExecutionContext, result: Option<TaskResult>, resultCode: Option<string>): ExecutionContext {
    c.(result := if result.Some? then result else c.result,
       resultCode := if resultCode.Some? then resultCode else c.resultCode,
       completions := c.completions + 1)
  }
}
