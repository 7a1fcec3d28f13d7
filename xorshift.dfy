/** Marsaglia's xor128 generator as the dungeon builder uses it (class Random).
    JavaScript's `^` and `<<` work on the ToInt32 value of a number and `>>>` on its
    ToUint32 value; both depend only on the number modulo 2^32, so each state word is
    a `bv32` and every operation wraps exactly as in the source. */
module Xorshift {

  const TwoTo32: int := 0x1_0000_0000
  const TwoTo31: int := 0x8000_0000

  /** The four state words x, y, z, w. */
  datatype State = State(x: bv32, y: bv32, z: bv32, w: bv32)

  const Zero: State := State(0, 0, 0, 0)

  /** A JavaScript integer as a 32-bit word: its value modulo 2^32. */
  function Word(n: int): bv32
  {
    (n % TwoTo32) as bv32
  }

  /** The three fixed initial words: 31415926535, 8979323846 and 2643383279 taken modulo 2^32
      (31415926535 - 7 * 2^32, 8979323846 - 2 * 2^32, and 2643383279 itself). */
  const X0: bv32 := 1351155463
  const Y0: bv32 := 389389254
  const Z0: bv32 := 2643383279

  /** The state after `new Random(seed)`: three fixed words and the seed. */
  function Seeded(seed: int): State
  {
    State(X0, Y0, Z0, Word(seed))
  }

  /** The new fourth word of one draw: `(w ^ (w >>> 19)) ^ (t ^ (t >>> 8))` with `t = x ^ (x << 11)`. */
  function Mix(x: bv32, w: bv32): bv32
  {
    (w ^ (w >> 19)) ^ ((x ^ (x << 11)) ^ ((x ^ (x << 11)) >> 8))
  }

  /** One draw of `next()`: the words shift down and the last one is mixed. */
  function Step(s: State): State
  {
    State(s.y, s.z, s.w, Mix(s.x, s.w))
  }

  /** xor128 never falls into the all-zero state, its only fixed point, from any other
      state: when the three words that move down are zero, the mix of a nonzero word with
      zero keeps the lowest set bit of `x ^ (x << 11)` and then the highest set bit. */
  lemma StepNeverZero(s: State)
    ensures s != Zero ==> Step(s) != Zero
  {
  }

  /** The state after `n` draws. */
  function Steps(s: State, n: nat): (s': State)
    ensures s != Zero ==> s' != Zero
    decreases n
  {
    if n == 0 then s
    else
      StepNeverZero(s);
      Steps(Step(s), n - 1)
  }

  /** A 32-bit word read as a two's-complement signed integer (ToInt32). */
  function Signed(v: bv32): (n: int)
    ensures -TwoTo31 <= n < TwoTo31
    ensures n >= 0 <==> v as int < TwoTo31
  {
    var u := v as int;
    if u < TwoTo31 then u else u - TwoTo32
  }

  /** What `next()` returns once the state has moved to `s`: `Math.abs` of the signed fourth word. */
  function Output(s: State): (n: nat)
    ensures n <= TwoTo31
  {
    var v := Signed(s.w);
    if v < 0 then
      assert -v <= TwoTo31;
      -v
    else
      v
  }

  /** A draw is the absolute value of the signed fourth word; the one word whose absolute
      value does not fit 31 bits, -2^31, gives 2^31. */
  lemma OutputIsAbs(s: State)
    ensures Signed(s.w) >= 0 ==> Output(s) == Signed(s.w)
    ensures Signed(s.w) < 0 ==> Output(s) == -Signed(s.w)
    ensures Output(s) == TwoTo31 <==> s.w == 0x8000_0000
  {
  }

  /** `min + (n % (max + 1 - min))` for a draw `n >= 0`. JavaScript's `%` truncates, which
      agrees with Dafny's `%` on a non-negative dividend for either sign of divisor; a zero
      divisor (NaN in the source) is excluded. */
  function NextIntOf(n: nat, min: int, max: int): (v: int)
    requires max + 1 - min != 0
    ensures min <= max ==> min <= v <= max
    ensures max + 1 < min ==> min <= v < min + (min - max - 1)
  {
    min + n % (max + 1 - min)
  }

  /** A seeded generator is never all-zero, so by Steps no draw sequence reaches zero. */
  lemma SeededNonzero(seed: int)
    ensures Seeded(seed) != Zero
  {
  }

  class Random {
    var x: bv32
    var y: bv32
    var z: bv32
    var w: bv32

    function Current(): State
      reads this
    {
      State(x, y, z, w)
    }

    constructor (seed: int)
      ensures Current() == Seeded(seed)
    {
      x, y, z := X0, Y0, Z0;
      w := Word(seed);
    }

    /** One draw: the state advances by Step and the result is |signed w|. */
    method Next() returns (n: int)
      modifies this
      ensures Current() == Step(old(Current()))
      ensures n == Output(Current()) && 0 <= n <= TwoTo31
    {
      x, y, z, w := y, z, w, Mix(x, w);
      n := Output(Current());
    }

    /** A draw mapped into [min, max] (for min <= max); exactly one Step. */
    method NextInt(min: int, max: int) returns (v: int)
      requires max + 1 - min != 0
      modifies this
      ensures Current() == Step(old(Current()))
      ensures v == NextIntOf(Output(Current()), min, max)
      ensures min <= max ==> min <= v <= max
    {
      var n := Next();
      v := min + n % (max + 1 - min);
    }
  }
}
