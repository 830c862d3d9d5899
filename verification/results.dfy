/**
 Failures of the templating engine and the diagnostic context (render stack and
 render path) it keeps while rendering.
 */
module Results {
  import opened Values

  /** The two assertions the constructors make about their arguments. */
  datatype Check = SurrogateArgument | OverrideIsFn

  /** The reasons `assert-markup-error` is raised with. */
  datatype MarkupReason =
    | NoMatchingSpecialTag(name: string)
    | InvalidJsonMl(markup: Value)

  datatype Failure =
      /** A malformed markup report, with the render path and stack current when it was raised. */
    | MarkupError(reason: MarkupReason, path: seq<Value>, stack: seq<Value>)
      /** render-markup reached a value that is not a template, surrogate or reference. */
    | RenderingFailed(initial: Value, resolved: Value)
      /** A failed assertion on a constructor argument. */
    | AssertFailed(check: Check)
      /** `empty?` or `into-array` was given a value `seq` refuses. */
    | NotSeqable(offending: Value)
      /** make-surrogate called with more than four arguments. */
    | InvalidArity(count: nat)
      /** The fuel bounding the model's recursion ran out. */
    | OutOfFuel

  datatype Result<+T> = Ok(value: T) | Err(error: Failure) {
    predicate IsFailure() {
      Err?
    }

    function PropagateFailure<U>(): Result<U>
      requires Err?
    {
      Err(error)
    }

    function Extract(): T
      requires Ok?
    {
      value
    }
  }

  /** The two dynamically bound diagnostics: the render stack (markup frames, oldest
      first) and the render path (breadcrumbs, outermost first). */
  datatype Ctx = Ctx(stack: seq<Value>, path: seq<Value>)

  /** The outcome of a rendering call and the diagnostic context once it has returned. */
  datatype Rendered<+T> = Rendered(result: Result<T>, ctx: Ctx)

  /** A markup failure raised while the path extended `path` and the stack was `stack`. */
  predicate RaisedUnder(e: Failure, path: seq<Value>, stack: seq<Value>)
  {
    e.MarkupError? ==> path <= e.path && e.stack == stack
  }
}
