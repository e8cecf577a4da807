/** Small JavaScript value idioms that the application code leans on. */
module Js {

  /** A value that may be absent: an optional record field, a parse that failed. */
  datatype Option<T> = None | Some(value: T)

  /**
   * The idiom `n || d` on a number `n` that may be NaN: NaN and 0 are falsy,
   * so both fall back to `d`. A failed `parseFloat` is `None`.
   */
  function Or(n: Option<real>, d: real): (r: real)
    ensures n.Some? && n.value != 0.0 ==> r == n.value
    ensures (n.None? || n.value == 0.0) ==> r == d
  {
    if n.Some? && n.value != 0.0 then n.value else d
  }

  /** `n || 0`: the fallback to zero, which a zero value reaches either way. */
  lemma {:induction false} OrZeroIsValueOrZero(n: Option<real>)
    ensures Or(n, 0.0) == (if n.Some? then n.value else 0.0)
  {
    if n.Some? && n.value == 0.0 {
      assert Or(n, 0.0) == 0.0;
    }
  }

  /** `Math.abs`. */
  function Abs(x: real): (r: real)
    ensures r >= 0.0
    ensures r == x || r == -x
  {
    if x < 0.0 then -x else x
  }
}
