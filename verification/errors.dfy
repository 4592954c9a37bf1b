/** Error outcomes of the reference scripts.  Every Python exception or
    failed `assert` that aborts a script is one constructor here, so that a
    loader or packer returns `Err(...)` where the script would stop. */
module Errors {

  datatype Error =
    | WrongLineCount(expected: nat, got: nat)   // `assert len(lines) == N`
    | WrongLineLength(expected: nat, got: nat)  // `assert len(line) == N`
    | IndexOutOfRange                           // numpy / list IndexError
    | BadDigit                                  // `int(...)` raises ValueError
    | ShortHeader                               // `struct.unpack` on a short read
    | BadMagic(magic: nat)                      // magic-number check fails
    | Truncated                                 // `reshape` finds too few bits
    | WrongStreamLength(expected: nat, got: nat)
    | BadImageIndex(index: int)

  datatype Result<+T> = Ok(value: T) | Err(error: Error) {
    predicate IsFailure() { Err? }

    function PropagateFailure<U>(): Result<U>
      requires Err?
    {
      Err(error)
    }

    function Extract(): T
      requires Ok?
    {
      value
    }
  }

  datatype Option<+T> = None | Some(value: T)

  /** The values of a list of results, in order; the first error stops the
      list, as a loop or comprehension stops at its first exception. */
  function Collect<T>(rs: seq<Result<T>>): (res: Result<seq<T>>)
    ensures res.Ok? <==> forall k :: 0 <= k < |rs| ==> rs[k].Ok?
    ensures res.Ok? ==> |res.value| == |rs| && forall k :: 0 <= k < |rs| ==> rs[k] == Ok(res.value[k])
  {
    if |rs| == 0 then Ok([])
    else if rs[0].Err? then Err(rs[0].error)
    else
      var rest := Collect(rs[1..]);
      assert forall k :: 1 <= k < |rs| ==> rs[k] == rs[1..][k - 1];
      if rest.Err? then Err(rest.error) else Ok([rs[0].value] + rest.value)
  }

  /** `e` is the error of the first failing result, every earlier one succeeding:
      what a loop that stops at its first exception raises. */
  predicate FirstError<T>(rs: seq<Result<T>>, e: Error) {
    exists k :: 0 <= k < |rs| && rs[k].Err? && rs[k].error == e && forall j :: 0 <= j < k ==> rs[j].Ok?
  }

  /** A failed collection reports the error of its first failing result. */
  lemma {:induction false} CollectError<T>(rs: seq<Result<T>>)
    requires Collect(rs).Err?
    ensures FirstError(rs, Collect(rs).error)
  {
    if rs[0].Err? {
      assert Collect(rs).error == rs[0].error;
    } else {
      CollectError(rs[1..]);
      var k :| 0 <= k < |rs| - 1 && rs[1..][k].Err? && rs[1..][k].error == Collect(rs[1..]).error
               && forall j :: 0 <= j < k ==> rs[1..][j].Ok?;
      assert rs[k + 1] == rs[1..][k];
      assert forall j :: 1 <= j < k + 1 ==> rs[j] == rs[1..][j - 1];
    }
  }
}
