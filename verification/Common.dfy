/** Results, options and small arithmetic shared by the model's modules. */
module Common {

  datatype Option<+T> = None | Some(value: T)

  /** `Err` stands for the exception the source raises; `:-` passes it on. */
  datatype Result<+T, +E> = Ok(value: T) | Err(error: E) {

    predicate IsFailure() { Err? }

    function PropagateFailure<U>(): Result<U, E>
      requires Err?
    {
      Err(error)
    }

    function Extract(): T
      requires Ok?
    {
      value
    }
  }

  /** The greatest signed 64-bit integer. */
  const MAX_SIGNED_64: int := 9_223_372_036_854_775_807

  function Min(a: real, b: real): real { if a <= b then a else b }

  function Sum(xs: seq<real>): real {
    if xs == [] then 0.0 else xs[0] + Sum(xs[1..])
  }
}
