/**
 * Numbers as the dataset codec sees them. Floating-point parsing and formatting belong to
 * the .NET runtime, so they are not defined here: they are the four functions of a
 * `NumberFormat` value that every codec operation takes as a call-scoped policy (the
 * invariant culture of the original). Round trips are stated per value, as a
 * precondition on the lemmas that need them.
 */
module Numbers {
  import opened Wrappers
  import opened Text

  /** A C# `double`, seen by value: not-a-number, a finite value or an infinity. */
  datatype Double = NaN | Finite(value: real) | Infinity(negative: bool)

  /** A C# `int`. */
  newtype Int32 = x: int | -0x8000_0000 <= x < 0x8000_0000

  /**
   * The number syntax: `double.ToString()`, `double.TryParse(s, NumberStyles.Any, ...)`,
   * `int.ToString()` and `int.TryParse(s, NumberStyles.Any, ...)` under one culture.
   */
  datatype NumberFormat = NumberFormat(
    formatDouble: Double -> string,
    parseDouble: string -> Option<Double>,
    formatInt: Int32 -> string,
    parseInt: string -> Option<Int32>)

  /** `v` is written as one token and that token parses back to `v`. */
  predicate DoubleRoundTrips(nf: NumberFormat, v: Double) {
    IsWord(nf.formatDouble(v)) && nf.parseDouble(nf.formatDouble(v)) == Some(v)
  }

  /** `v` is written as one token and that token parses back to `v`. */
  predicate IntRoundTrips(nf: NumberFormat, v: Int32) {
    IsWord(nf.formatInt(v)) && nf.parseInt(nf.formatInt(v)) == Some(v)
  }

  /** The reader's lenient float policy: a token that does not parse becomes `NaN`. */
  function ParseDoubleOrNaN(nf: NumberFormat, token: string): Double {
    match nf.parseDouble(token)
    case Some(v) => v
    case None => NaN
  }

  /** The reader's lenient integer policy: a token that does not parse becomes -1. */
  function ParseIntOrMinusOne(nf: NumberFormat, token: string): Int32 {
    match nf.parseInt(token)
    case Some(v) => v
    case None => -1
  }
}
