/**
 * The two helpers of the predictor library: a counter that saturates at
 * both ends of a closed interval, and a fixed-width shift register of
 * branch outcomes.  The two-bit update that the table predictors write out
 * inline (`min(c + 1, 3)` / `max(c - 1, 0)`) is defined here once as well.
 */
module Utils {
  import opened Bits
  import opened Results

  function Min(a: int, b: int): int { if a <= b then a else b }

  function Max(a: int, b: int): int { if a >= b then a else b }

  // ---------------------------------------------------------------------
  // Saturating counter
  // ---------------------------------------------------------------------

  /**
   * The starting value of a counter: `init or minval`.  An absent `init`
   * and, because 0 is falsy, an `init` of 0 both give `minval`.
   */
  function InitialValue(minval: int, init: Option<int>): int
  {
    if init.None? || init.value == 0 then minval else init.value
  }

  /** The value after `increment`: one more, but never above `maxval`. */
  function Incremented(value: int, maxval: int): int
  {
    Min(value + 1, maxval)
  }

  /** The value after `decrement`: one less, but never below `minval`. */
  function Decremented(value: int, minval: int): int
  {
    Max(value - 1, minval)
  }

  /** The value after a run of operations; `true` increments, `false` decrements. */
  function Run(minval: int, maxval: int, value: int, ops: seq<bool>): int
    decreases |ops|
  {
    if ops == [] then value
    else
      var next := if ops[0] then Incremented(value, maxval) else Decremented(value, minval);
      Run(minval, maxval, next, ops[1..])
  }

  /** Within its bounds, increment adds exactly 1 below the maximum and is a no-op at it. */
  lemma IncrementedSteps(value: int, minval: int, maxval: int)
    requires minval <= value <= maxval
    ensures value < maxval ==> Incremented(value, maxval) == value + 1
    ensures value == maxval ==> Incremented(value, maxval) == value
    ensures minval <= Incremented(value, maxval) <= maxval
  {
  }

  /** Within its bounds, decrement subtracts exactly 1 above the minimum and is a no-op at it. */
  lemma DecrementedSteps(value: int, minval: int, maxval: int)
    requires minval <= value <= maxval
    ensures value > minval ==> Decremented(value, minval) == value - 1
    ensures value == minval ==> Decremented(value, minval) == value
    ensures minval <= Decremented(value, minval) <= maxval
  {
  }

  /** A counter that starts in its bounds stays there under any run of operations. */
  lemma {:induction false} RunStaysInRange(minval: int, maxval: int, value: int, ops: seq<bool>)
    requires minval <= value <= maxval
    ensures minval <= Run(minval, maxval, value, ops) <= maxval
    decreases |ops|
  {
    if ops != [] {
      var next := if ops[0] then Incremented(value, maxval) else Decremented(value, minval);
      RunStaysInRange(minval, maxval, next, ops[1..]);
    }
  }

  /** A freshly constructed counter lies in its bounds whenever the bounds are ordered. */
  lemma InitialValueInRange(minval: int, maxval: int, init: Option<int>)
    requires minval <= maxval
    requires init.None? || minval <= init.value <= maxval
    ensures minval <= InitialValue(minval, init) <= maxval
    ensures init == Some(0) ==> InitialValue(minval, init) == minval
  {
  }

  class SaturatingCounter {
    const minval: int
    const maxval: int
    var value: int

    ghost predicate Valid()
      reads this
    {
      minval <= value <= maxval
    }

    /** The source asserts that a given `init` lies between the bounds. */
    constructor (minval: int, maxval: int, init: Option<int>)
      requires init.None? || minval <= init.value <= maxval
      ensures this.minval == minval && this.maxval == maxval
      ensures value == InitialValue(minval, init)
      ensures minval <= maxval ==> Valid()
    {
      this.minval := minval;
      this.maxval := maxval;
      value := InitialValue(minval, init);
    }

    method Increment()
      modifies this
      ensures value == Incremented(old(value), maxval)
      ensures old(Valid()) ==> Valid()
      ensures old(Valid()) && old(value) < maxval ==> value == old(value) + 1
      ensures old(value) == maxval ==> value == old(value)
    {
      value := Min(value + 1, maxval);
    }

    method Decrement()
      modifies this
      ensures value == Decremented(old(value), minval)
      ensures old(Valid()) ==> Valid()
      ensures old(Valid()) && old(value) > minval ==> value == old(value) - 1
      ensures old(value) == minval ==> value == old(value)
    {
      value := Max(value - 1, minval);
    }
  }

  // ---------------------------------------------------------------------
  // Shift-register history
  // ---------------------------------------------------------------------

  /**
   * `((value << 1) | taken) & ((1 << length) - 1)`: the outcome shifted in
   * at the low end, the oldest bit dropped at the top.
   */
  function ShiftIn(value: nat, taken: bool, length: nat): (r: nat)
    ensures r == (2 * value + Bit(taken)) % Pow2(length)
    ensures r < Pow2(length)
    ensures length >= 1 ==> r % 2 == Bit(taken)
    ensures length >= 1 ==> r / 2 == value % Pow2(length - 1)
  {
    ShiftInArithmetic(value, Bit(taken), length);
    And(Or(Shl(value, 1), Bit(taken)), Mask(length))
  }

  lemma ShiftInArithmetic(value: nat, b: nat, length: nat)
    requires b <= 1
    ensures And(Or(Shl(value, 1), b), Mask(length)) == (2 * value + b) % Pow2(length)
    ensures length >= 1 ==> (2 * value + b) % Pow2(length) % 2 == b
    ensures length >= 1 ==> (2 * value + b) % Pow2(length) / 2 == value % Pow2(length - 1)
  {
    assert Pow2(1) == 2;
    assert Shl(value, 1) == value * Pow2(1);
    OrDisjoint(value, b, 1);
    AndMask(2 * value + b, length);
    if length >= 1 {
      var x, k := 2 * value + b, Pow2(length - 1);
      assert x / 2 == value && x % 2 == b;
      HalveThenDiv(x, k);
      assert Pow2(length) == 2 * k;
      var s := value % k;
      assert x % Pow2(length) == 2 * s + b;
      DivModUnique(2 * s + b, 2, s, b);
    }
  }

  class History {
    const length: nat
    var value: nat

    ghost predicate Valid()
      reads this
    {
      value < Pow2(length)
    }

    constructor (length: nat)
      ensures this.length == length && value == 0 && Valid()
    {
      this.length := length;
      value := 0;
    }

    method Update(taken: bool)
      modifies this
      ensures value == ShiftIn(old(value), taken, length)
      ensures Valid()
    {
      value := And(Or(Shl(value, 1), Bit(taken)), Mask(length));
    }
  }

  // ---------------------------------------------------------------------
  // Two-bit counters written out inline by the table predictors
  // ---------------------------------------------------------------------

  /**
   * `min(c + 1, 3)` on a taken branch, `max(c - 1, 0)` otherwise.  On a
   * counter in [0, 3] it stays in [0, 3], and it predicts taken (>= 2)
   * afterwards exactly when one misprediction is not enough to flip it:
   * after a taken outcome when c >= 1, after a not-taken outcome when c == 3.
   */
  function TwoBitUpdate(c: int, taken: bool): (r: int)
    ensures 0 <= c <= 3 ==> 0 <= r <= 3
    ensures 0 <= c <= 3 ==> ((r >= 2) <==> (if taken then c >= 1 else c == 3))
    ensures 0 <= c <= 3 ==> r == Run(0, 3, c, [taken])
  {
    if taken then Min(c + 1, 3) else Max(c - 1, 0)
  }

  /** A two-bit counter predicts taken. */
  predicate PredictsTaken(c: int)
  {
    c >= 2
  }

  /**
   * `_get_index` of the address-indexed predictors: the word address
   * (`branch_addr // 4`) modulo the table size.
   */
  function WordIndex(addr: nat, n: nat): (i: nat)
    requires n >= 1
    ensures i < n
  {
    (addr / 4) % n
  }

  /** Word-aligned addresses below 4n get slots 0, 1, 2, ... in order. */
  lemma WordIndexOfWord(k: nat, n: nat)
    requires k < n
    ensures WordIndex(4 * k, n) == k
  {
    DivModUnique(4 * k, 4, k, 0);
    DivModUnique(k, n, 0, k);
  }

  /** The byte offset within a word does not matter, and addresses 4n apart share a slot. */
  lemma WordIndexAliases(addr: nat, j: nat, n: nat)
    requires n >= 1 && j < 4
    ensures WordIndex(4 * (addr / 4) + j, n) == WordIndex(addr, n)
    ensures WordIndex(addr + 4 * n, n) == WordIndex(addr, n)
  {
    var w := addr / 4;
    DivModUnique(4 * w + j, 4, w, j);
    DivModUnique(addr + 4 * n, 4, w + n, addr % 4);
    DivModUnique(w + n, n, w / n + 1, w % n);
  }
}
