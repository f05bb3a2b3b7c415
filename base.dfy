/**
 * Shared vocabulary of the model: optional values, the ValueError outcomes
 * the modelled code raises, and Python's int() applied to a float.
 */
module Base {

  datatype Option<+T> = None | Some(value: T)

  /** A value, or the ValueError the source raises instead of returning one. */
  datatype Result<+T> = Ok(value: T) | Err(error: Error)

  /** One variant per ValueError message raised by the modelled code. */
  datatype Error =
    | EmptyCharset                    // "Character set cannot be empty"
    | InvalidPreset(name: string)     // "Invalid preset '...'. Available: ..."
    | InvalidHexColor(spec: string)   // "Invalid hex color: ..."
    | UnknownColor(spec: string)      // "Unknown color: ..."
    | InvalidResolution(spec: string) // "Invalid resolution format: '...'"
    | EmptyGrid                       // "Character grid cannot be empty"
    | GridMismatch                    // "Color grid dimensions must match character grid"
    | NegativePadding                 // "Padding must be non-negative"

  /** max(0.0, min(1.0, b)): the clamp to the unit interval used by get_char and _interpolate_colors. */
  function Clamp01(b: real): (c: real)
    ensures 0.0 <= c <= 1.0
    ensures 0.0 <= b <= 1.0 ==> c == b
    ensures b < 0.0 ==> c == 0.0
    ensures b > 1.0 ==> c == 1.0
  {
    var m := if b < 1.0 then b else 1.0;
    if 0.0 < m then m else 0.0
  }

  /** Python's int(x) for a float x: truncation toward zero. */
  function TruncToInt(x: real): (n: int)
    ensures 0.0 <= x ==> n as real <= x < n as real + 1.0
    ensures x < 0.0 ==> n as real - 1.0 < x <= n as real
  {
    if x >= 0.0 then x.Floor else -((-x).Floor)
  }

  /** Scaling a non-negative e by a fraction t in [0, 1] stays within [0, e]. */
  lemma ScaleDown(e: real, t: real)
    requires 0.0 <= e && 0.0 <= t <= 1.0
    ensures 0.0 <= e * t <= e
  {
    assert e * t <= e * 1.0;
  }

  lemma TruncMonotone(x: real, y: real)
    requires 0.0 <= x <= y
    ensures TruncToInt(x) <= TruncToInt(y)
  {
  }

  /** Dividing by a non-zero m and multiplying back gives the original value. */
  lemma DivTimes(a: real, m: real)
    requires m != 0.0
    ensures (a / m) * m == a
  {
  }

  lemma TruncBetween(x: real, lo: int, hi: int)
    requires 0 <= lo && lo as real <= x <= hi as real
    ensures lo <= TruncToInt(x) <= hi
  {
  }

  lemma ClampMonotone(x: real, y: real)
    requires x <= y
    ensures Clamp01(x) <= Clamp01(y)
  {
  }
}
