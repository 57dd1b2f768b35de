/** Shared value types and helpers: optional values, results, `Math.max`. */
module Wrappers {

  /** A value that may be absent: a React ref or state slot holding `null`. */
  datatype Option<T> = None | Some(value: T)

  /** The outcome of an operation that may throw in the source. */
  datatype Result<T, E> = Ok(value: T) | Err(error: E)

  /** `Math.max` on two integers. */
  function Max(a: int, b: int): (r: int)
    ensures r >= a && r >= b && (r == a || r == b)
  {
    if a >= b then a else b
  }
}

/** The two phases the timer alternates between. */
module Modes {

  datatype Mode = Focus | Break

  /** The phase that follows `m`: `mode === "focus" ? "break" : "focus"`. */
  function Next(m: Mode): (r: Mode)
    ensures r != m
  {
    if m == Focus then Break else Focus
  }

  /** Flipping twice returns to the starting phase. */
  lemma NextNext(m: Mode)
    ensures Next(Next(m)) == m
  {
  }
}
