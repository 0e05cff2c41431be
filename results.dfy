/** Failures of the formatter: every exception the source can raise while rendering,
    and the value-or-failure type the model threads through its operations. */
module Results {

  /** One constructor per exception the renderer (or the directive splitter) can raise. */
  datatype Error =
    | NewlineInHoldSpace           // append(newlines != 0) inside a non-breakable element
    | PopFromEmptyList             // list.pop() on an empty hold-space or bullet stack
    | NoEnclosingBulletList        // bullet_char[-1] with no bullet list open
    | NotEnoughTitleChars          // section depth beyond the configured title_order
    | EmptyTitleChars              // sep_chars[-1] on an empty title_order entry
    | DirectiveWhileIndented       // a directive reached while the cursor is not at column 0
    | EmptyDirectiveBlock          // indented[0] on an empty directive block
    | UnknownVisit(kind: string)   // a node kind without a visit rule
    | UnknownDeparture(kind: string)

  /** A value or the exception that aborted the computation. */
  datatype Result<+T> = Ok(value: T) | Err(error: Error) {
    predicate IsFailure() { Err? }
    function PropagateFailure<U>(): Result<U> requires Err? { Err(error) }
    function Extract(): T requires Ok? { value }
  }

  datatype Option<+T> = None | Some(value: T)

  /** What a state-changing method of a translator reports: it returned, or it raised. */
  datatype Outcome = Pass | Fail(error: Error)

  /** `r` is what a method reports when its specification computes `spec`,
      and `now` is the state it leaves behind when it returns normally. */
  predicate Agrees<S(==)>(r: Outcome, spec: Result<S>, now: S) {
    && (r.Pass? <==> spec.Ok?)
    && (r.Pass? ==> now == spec.value)
    && (r.Fail? ==> r.error == spec.error)
  }
}
