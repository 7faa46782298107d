/** Compiler diagnostics: every pass modelled here only ever creates error reports. */
module Reports {
  import opened Wrappers

  datatype Stage = Semantic | Optimization

  datatype ReportType = Error

  datatype Report = Report(kind: ReportType, stage: Stage, line: int, column: int, message: string)

  /** `Report.newError(stage, line, column, message, null)`. */
  function NewError(stage: Stage, line: int, column: int, message: string): (r: Report)
    ensures r.kind == Error && r.stage == stage && r.message == message
    ensures r.line == line && r.column == column
  {
    Report(Error, stage, line, column, message)
  }

  /** The analysis passes visit nodes one at a time and stop at the first exception. Given
      each position's outcome, where a failed outcome carries over unchanged to the next
      position, a pass that has failed by position `k` ends with that same failure. */
  lemma {:induction false} FailureIsFinal<S>(outcome: int -> Result<S>, k: int, n: int)
    requires k <= n
    requires forall j :: k <= j < n && outcome(j).Err? ==> outcome(j + 1) == outcome(j)
    ensures outcome(k).Err? ==> outcome(n) == outcome(k)
    decreases n - k
  {
    if k < n && outcome(k).Err? {
      FailureIsFinal(outcome, k + 1, n);
    }
  }
}
