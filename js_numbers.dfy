/**
 * The fragment of JavaScript's 32-bit integer operators that the simulator
 * uses, on the (integer) numbers it applies them to.
 */
module JsNumbers {

  const TWO_TO_32: int := 0x1_0000_0000

  function Pow2(k: nat): (r: nat)
    ensures r >= 1
  {
    if k == 0 then 1 else 2 * Pow2(k - 1)
  }

  /** ToUint32: the operand conversion of `>>>`, reduction modulo 2^32. */
  function ToUint32(x: int): (r: int)
    ensures 0 <= r < TWO_TO_32
    ensures 0 <= x < TWO_TO_32 ==> r == x
  {
    x % TWO_TO_32
  }

  /** `x >>> k` for a shift count below 32. */
  function UnsignedShiftRight(x: int, k: nat): (r: int)
    requires k < 32
    ensures 0 <= r
    ensures 0 <= x < TWO_TO_32 ==> r == x / Pow2(k)
  {
    var u, d := ToUint32(x), Pow2(k);
    DivisionOfNatural(u, d);
    u / d
  }

  lemma DivisionOfNatural(u: int, d: int)
    requires 0 <= u && 1 <= d
    ensures 0 <= u / d <= u
  {
  }

  /**
   * `x & (2^k - 1)` for k below 31. `&` works on the two's-complement
   * 32-bit value of x, whose low k bits are those of x itself, so the
   * result is the non-negative remainder of x modulo 2^k (Dafny's `%` is
   * Euclidean, which matches also for negative x).
   */
  function LowBits(x: int, k: nat): (r: int)
    requires k < 31
    ensures 0 <= r < Pow2(k)
  {
    x % Pow2(k)
  }
}
