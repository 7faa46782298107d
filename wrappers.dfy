/** Failure-compatible wrappers used throughout the model.
    `Option` stands for a Java reference that may be null; `Result` for a computation that may
    throw: `Err` carries the name of the exception the Java code would raise. */
module Wrappers {

  datatype Option<+T> = None | Some(value: T) {
    predicate IsFailure() { None? }

    function PropagateFailure<U>(): Option<U>
      requires None?
    {
      None
    }

    function Extract(): T
      requires Some?
    {
      value
    }

    function GetOr(default: T): T {
      match this
      case Some(v) => v
      case None => default
    }
  }

  datatype Result<+T> = Ok(value: T) | Err(error: string) {
    predicate IsFailure() { Err? }

    function PropagateFailure<U>(): Result<U>
      requires Err?
    {
      Err(error)
    }

    function Extract(): T
      requires Ok?
    {
      value
    }
  }

  /** The outcome of running checks one after another, each of which may fail or give a value
      or nothing: the values given by the first `k`, in order, or the failure of the first one
      that fails among them. */
  function Gather<T>(checks: seq<Result<Option<T>>>, k: int): Result<seq<T>>
    requires 0 <= k <= |checks|
  {
    if k == 0 then Ok([])
    else
      var before :- Gather(checks, k - 1);
      var here :- checks[k - 1];
      Ok(before + (if here.Some? then [here.value] else []))
  }

  /** When the checks succeed, each gives at most one value, and the values are exactly those the
      checks give. */
  lemma {:induction false} GatherMention<T>(checks: seq<Result<Option<T>>>, k: int)
    requires 0 <= k <= |checks| && Gather(checks, k).Ok?
    ensures var vs := Gather(checks, k).value;
      |vs| <= k &&
      (forall i :: 0 <= i < k ==> checks[i].Ok?) &&
      (forall i :: 0 <= i < k && checks[i].value.Some? ==> checks[i].value.value in vs) &&
      (forall v :: v in vs ==> exists i :: 0 <= i < k && checks[i] == Ok(Some(v)))
  {
    if k > 0 {
      GatherMention(checks, k - 1);
      var before := Gather(checks, k - 1).value;
      var vs := Gather(checks, k).value;
      forall v | v in vs ensures exists i :: 0 <= i < k && checks[i] == Ok(Some(v)) {
        if v !in before {
          assert checks[k - 1] == Ok(Some(v));
        }
      }
    }
  }

  /** Once a check fails, the later ones do not matter. */
  lemma {:induction false} GatherStaysFailed<T>(checks: seq<Result<Option<T>>>, k: int)
    requires 0 <= k <= |checks| && Gather(checks, k).Err?
    ensures Gather(checks, |checks|) == Gather(checks, k)
    decreases |checks| - k
  {
    if k < |checks| {
      GatherStaysFailed(checks, k + 1);
    }
  }
}
