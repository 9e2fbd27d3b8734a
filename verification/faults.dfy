/** The ways a benchmark can fail, and the wrappers that carry either a value or a failure. */
module Faults {

  /** One constructor per exception the engine raises, plus the end of an observation trace. */
  datatype Fault =
    | NoActionsAdded           // Run with nothing registered (ArgumentOutOfRangeException)
    | WindowTooLarge           // BatchesToWorkAcross above the t-table length (ArgumentOutOfRangeException)
    | WindowNotPositive        // BatchesToWorkAcross below 1, refused only by the corrected setter
    | EmptyWindow              // averaging an empty window (InvalidOperationException)
    | CriticalValueOutOfRange  // indexing past the end of the t-table (IndexOutOfRangeException)
    | ResultIndexOutOfRange    // BenchmarkResults indexer outside 0 .. Length-1
    | NoResults                // OrderBy(...).Last() over no results (InvalidOperationException)
    | TraceExhausted           // the clock observations ran out before a loop stopped

  datatype Outcome<+T> = Success(value: T) | Failure(fault: Fault)

  datatype Option<+T> = None | Some(value: T)

  function Min(a: int, b: int): int { if a <= b then a else b }

  function Max(a: int, b: int): int { if a >= b then a else b }
}

/** C#'s 32-bit `int`, with the unchecked wrap-around of `++`. */
module Int32 {

  const MIN: int := -0x8000_0000
  const MODULUS: int := 0x1_0000_0000

  newtype int32 = x: int | -0x8000_0000 <= x < 0x8000_0000

  /** n is representable: 32-bit arithmetic producing n does not overflow. */
  predicate InRange(n: int)
  {
    MIN <= n < -MIN
  }

  /** The 32-bit two's-complement value congruent to n. */
  function Wrap(n: int): (r: int32)
    ensures InRange(n) ==> r as int == n
    ensures (r as int - n) % MODULUS == 0
  {
    ((n - MIN) % MODULUS + MIN) as int32
  }

  /** A non-negative value never grows by wrapping, and one just past the top wraps to a negative one. */
  lemma WrapNonNegative(n: int)
    requires n >= 0
    ensures Wrap(n) as int <= n
    ensures -MIN <= n < MODULUS ==> Wrap(n) as int == n - MODULUS
  {
    if !InRange(n) {
      var q := (n - MIN) / MODULUS;
      assert q >= 1;
      assert Wrap(n) as int == n - q * MODULUS;
    }
  }

  /** Incrementing a wrapped counter wraps the incremented count. */
  lemma WrapSucc(n: int)
    ensures Wrap(Wrap(n) as int + 1) == Wrap(n + 1)
  {
    var q := (n - MIN) / MODULUS;
    assert Wrap(n) as int == n - q * MODULUS;
    assert (Wrap(n) as int + 1 - MIN) == (n + 1 - MIN) - q * MODULUS;
  }
}
