/**
 * GSkew: several tables of two-bit counters, each indexed by its own hash
 * of the (masked) address and the global history register, and a majority
 * vote over their predictions.
 */
module GSkew {
  import opened Bits
  import opened Utils
  import opened Results

  /** A history length the hash functions accept (`>> (n - 1)` needs n >= 1). */
  type Width = n: nat | n >= 1 witness 1

  // ---------------------------------------------------------------------
  // Hash functions
  // ---------------------------------------------------------------------

  /**
   * `H`: shift right by one and put bit 0 xor bit n-1 on top.  Values of n
   * bits stay within n bits.
   */
  function H(n: Width, v: nat): (r: nat)
    ensures v < Pow2(n) ==> r < Pow2(n)
  {
    HBound(n, v);
    Or(Shl(And(Xor(v, Shr(v, n - 1)), 1), n - 1), Shr(v, 1))
  }

  /** `Hinv` as written; the final mask keeps it within n bits for every v. */
  function Hinv(n: Width, v: nat): (r: nat)
    ensures r < Pow2(n)
  {
    MaskBound(Or(Shl(v, 1), Shr(Xor(v, Shl(v, 1)), n - 1)), n);
    And(Or(Shl(v, 1), Shr(Xor(v, Shl(v, 1)), n - 1)), Mask(n))
  }

  function H1(n: Width, addr: nat, ghr: nat): (r: nat)
    ensures addr < Pow2(n) && ghr < Pow2(n) ==> r < Pow2(n)
  {
    XorBound3(H(n, addr), Hinv(n, ghr), ghr, n);
    Xor(Xor(H(n, addr), Hinv(n, ghr)), ghr)
  }

  function H2(n: Width, addr: nat, ghr: nat): (r: nat)
    ensures addr < Pow2(n) && ghr < Pow2(n) ==> r < Pow2(n)
  {
    XorBound3(H(n, addr), Hinv(n, ghr), addr, n);
    Xor(Xor(H(n, addr), Hinv(n, ghr)), addr)
  }

  function H3(n: Width, addr: nat, ghr: nat): (r: nat)
    ensures addr < Pow2(n) && ghr < Pow2(n) ==> r < Pow2(n)
  {
    XorBound3(Hinv(n, addr), H(n, ghr), ghr, n);
    Xor(Xor(Hinv(n, addr), H(n, ghr)), ghr)
  }

  lemma XorBound3(a: nat, b: nat, c: nat, n: nat)
    ensures a < Pow2(n) && b < Pow2(n) && c < Pow2(n) ==> Xor(Xor(a, b), c) < Pow2(n)
  {
    if a < Pow2(n) && b < Pow2(n) && c < Pow2(n) {
      XorBound(a, b, n);
      XorBound(Xor(a, b), c, n);
    }
  }

  lemma HBound(n: Width, v: nat)
    ensures v < Pow2(n) ==> Or(Shl(And(Xor(v, Shr(v, n - 1)), 1), n - 1), Shr(v, 1)) < Pow2(n)
  {
    if v < Pow2(n) {
      var p := Pow2(n - 1);
      assert Pow2(n) == 2 * p;
      var top := And(Xor(v, Shr(v, n - 1)), 1);
      assert top <= 1 by {
        assert Mask(1) == 1 && Pow2(1) == 2;
        MaskBound(Xor(v, Shr(v, n - 1)), 1);
      }
      assert Or(Shl(top, n - 1), v / 2) == top * p + v / 2 by {
        OrDisjoint(top, v / 2, n - 1);
      }
      assert top * p <= p;
    }
  }

  // ---------------------------------------------------------------------
  // Hinv is not the inverse of H
  // ---------------------------------------------------------------------

  /**
   * As written, `bot` keeps two bits (bit n-1 of `v ^ (v << 1)` and the
   * bit above it), and the upper one is or'd into bit 1 of the result.
   * For n = 3: H(1) = 4 but Hinv(4) = 3.
   */
  lemma HinvNotInverse()
    ensures H(3, 1) == 4 && Hinv(3, 4) == 3
    ensures Hinv(3, H(3, 1)) != 1
  {
    assert Pow2(1) == 2 && Pow2(2) == 4 && Pow2(3) == 8;
    assert Xor(1, 0) == 1 && And(1, 1) == 1 && Or(4, 0) == 4;
    assert Xor(1, 2) == 3 && Xor(2, 4) == 6 && Xor(4, 8) == 12;
    assert Or(2, 0) == 2 && Or(4, 1) == 5 && Or(8, 3) == 11;
    assert And(1, 0) == 0 && And(2, 1) == 0 && And(5, 3) == 1 && And(11, 7) == 3;
  }

  /**
   * The inverse the name promises: shift left by one and put bit n-1 xor
   * bit n-2 at the bottom, keeping only that one bit.
   */
  function HinvFixed(n: Width, v: nat): (r: nat)
    ensures r < Pow2(n)
  {
    MaskBound(Or(Shl(v, 1), And(Shr(Xor(v, Shl(v, 1)), n - 1), 1)), n);
    And(Or(Shl(v, 1), And(Shr(Xor(v, Shl(v, 1)), n - 1), 1)), Mask(n))
  }

  /** H(v) is the new top bit (bit 0 xor bit n-1 of v) above v shifted right. */
  lemma HAsSum(n: Width, v: nat)
    requires v < Pow2(n)
    ensures H(n, v) == ((v % 2 + v / Pow2(n - 1)) % 2) * Pow2(n - 1) + v / 2
  {
    var p := Pow2(n - 1);
    assert Pow2(n) == 2 * p;
    var top := v / p;
    assert top <= 1 by { TopBit(v, p); }
    var t := (v % 2 + top) % 2;
    assert And(Xor(v, Shr(v, n - 1)), 1) == t by {
      assert Pow2(1) == 2 && Mask(1) == 1;
      AndMask(Xor(v, top), 1);
      XorLowBit(v, top);
    }
    assert Or(Shl(t, n - 1), v / 2) == t * p + v / 2 by {
      OrDisjoint(t, v / 2, n - 1);
    }
  }

  /** HinvFixed(w) is 2w plus the xor of bits n-1 of w and of 2w, cut to n bits. */
  lemma HinvFixedAsSum(n: Width, w: nat)
    ensures HinvFixed(n, w) == (2 * w + (w / Pow2(n - 1) % 2 + (2 * w) / Pow2(n - 1) % 2) % 2) % (2 * Pow2(n - 1))
  {
    assert Pow2(n) == 2 * Pow2(n - 1);
    assert Pow2(1) == 2 && Mask(1) == 1;
    XorShr(w, 2 * w, n - 1);
    var x := Xor(Shr(w, n - 1), Shr(2 * w, n - 1));
    AndMask(x, 1);
    XorLowBit(Shr(w, n - 1), Shr(2 * w, n - 1));
    var b := (w / Pow2(n - 1) % 2 + (2 * w) / Pow2(n - 1) % 2) % 2;
    assert And(Shr(Xor(w, Shl(w, 1)), n - 1), 1) == b;
    OrDisjoint(w, b, 1);
    AndMask(2 * w + b, n);
  }

  /** The top bit of a value below 2p, read off by dividing by p. */
  lemma TopBit(v: nat, p: nat)
    requires p > 0 && v < 2 * p
    ensures v / p <= 1
  {
    if v < p {
      DivModUnique(v, p, 0, v);
    } else {
      DivModUnique(v, p, 1, v - p);
    }
  }

  /** For every n of at least two bits, HinvFixed undoes H on n-bit values. */
  lemma HinvFixedInvertsH(n: Width, v: nat)
    requires n >= 2 && v < Pow2(n)
    ensures HinvFixed(n, H(n, v)) == v
  {
    HAsSum(n, v);
    HinvFixedOfSum(n, v, H(n, v));
  }

  /** HinvFixed maps the sum HAsSum gives back to v. */
  lemma HinvFixedOfSum(n: Width, v: nat, w: nat)
    requires n >= 2 && v < Pow2(n)
    requires w == ((v % 2 + v / Pow2(n - 1)) % 2) * Pow2(n - 1) + v / 2
    ensures HinvFixed(n, w) == v
  {
    HinvFixedAsSum(n, w);
    CutBack(Pow2(n - 1), Pow2(n - 2), v, w);
  }

  /** The arithmetic of the round trip, with H and HinvFixed unfolded and p == 2**(n-1). */
  lemma CutBack(p: nat, p': nat, v: nat, w: nat)
    requires p' >= 1 && p == 2 * p' && v < 2 * p
    requires w == ((v % 2 + v / p) % 2) * p + v / 2
    ensures (2 * w + (w / p % 2 + (2 * w) / p % 2) % 2) % (2 * p) == v
  {
    BottomBitBack(p, p', v, w);
    Recombine(p, v, (v % 2 + v / p) % 2, w);
  }

  /** The bit HinvFixed puts at the bottom of H(v) is bit 0 of v. */
  lemma BottomBitBack(p: nat, p': nat, v: nat, w: nat)
    requires p' >= 1 && p == 2 * p' && v < 2 * p
    requires w == ((v % 2 + v / p) % 2) * p + v / 2
    ensures (w / p % 2 + (2 * w) / p % 2) % 2 == v % 2
  {
    // Four cases: the top bit of v (v < p or not) and its bottom bit.
    if v < p {
      DivModUnique(v, p, 0, v);
      if v % 2 == 1 {
        assert w == p + v / 2;
        DivModUnique(w, p, 1, v / 2);
        DivModUnique(2 * w, p, 2, v - 1);
      } else {
        assert w == v / 2;
        DivModUnique(w, p, 0, v / 2);
        DivModUnique(2 * w, p, 0, v);
      }
    } else {
      DivModUnique(v, p, 1, v - p);
      if v % 2 == 1 {
        assert w == v / 2;
        DivModUnique(w, p, 0, v / 2);
        DivModUnique(2 * w, p, 1, v - 1 - p);
      } else {
        assert w == p + v / 2;
        DivModUnique(w, p, 1, v / 2);
        DivModUnique(2 * w, p, 3, v - p);
      }
    }
  }

  /** Shifting w == t * p + v / 2 back left and restoring bit 0 gives v modulo 2p. */
  lemma Recombine(p: nat, v: nat, t: nat, w: nat)
    requires v < 2 * p && w == t * p + v / 2
    ensures (2 * w + v % 2) % (2 * p) == v
  {
    assert 2 * w + v % 2 == t * (2 * p) + v;
    DivModUnique(2 * w + v % 2, 2 * p, t, v);
  }

  // ---------------------------------------------------------------------
  // The predictor
  // ---------------------------------------------------------------------

  /** Every hash maps an n-bit address and an n-bit history to a table slot. */
  ghost predicate HashesInRange(hashes: seq<(nat, nat) -> nat>, histlength: nat)
  {
    forall i: int, a: nat, g: nat | 0 <= i < |hashes| && a < Pow2(histlength) && g < Pow2(histlength) ::
      hashes[i](a, g) < Pow2(histlength)
  }

  /** `[hf.h1, hf.h2, hf.h3]` for `HashFunctions(histlength)`. */
  function DefaultHashes(n: Width): (hs: seq<(nat, nat) -> nat>)
    ensures |hs| == 3
    ensures forall a: nat, g: nat :: hs[0](a, g) == H1(n, a, g) && hs[1](a, g) == H2(n, a, g) && hs[2](a, g) == H3(n, a, g)
  {
    [(a, g) => H1(n, a, g), (a, g) => H2(n, a, g), (a, g) => H3(n, a, g)]
  }

  lemma DefaultHashesInRange(n: Width)
    ensures HashesInRange(DefaultHashes(n), n)
  {
    var hs := DefaultHashes(n);
    forall i: int, a: nat, g: nat | 0 <= i < |hs| && a < Pow2(n) && g < Pow2(n)
      ensures hs[i](a, g) < Pow2(n)
    {
      if i == 0 {
        assert hs[0](a, g) == H1(n, a, g);
      } else if i == 1 {
        assert hs[1](a, g) == H2(n, a, g);
      } else {
        assert hs[2](a, g) == H3(n, a, g);
      }
    }
  }

  class GSkewPredictor {
    const histlength: nat
    const hashes: seq<(nat, nat) -> nat>
    const npreds: nat
    /** `_tables`: row i is the table of hash i. */
    const tables: array2<int>
    var ghr: nat

    ghost predicate Valid()
      reads this, tables
    {
      && npreds == |hashes|
      && HashesInRange(hashes, histlength)
      && tables.Length0 == npreds
      && tables.Length1 == Pow2(histlength)
      && ghr < Pow2(histlength)
      && forall i, j :: 0 <= i < tables.Length0 && 0 <= j < tables.Length1 ==> 0 <= tables[i, j] <= 3
    }

    /**
     * Without hash functions the three of `HashFunctions(histlength)` are
     * used (they need histlength >= 1); given ones must map into the tables.
     */
    constructor (histlength: nat, hashFncs: Option<seq<(nat, nat) -> nat>>)
      requires hashFncs.None? ==> histlength >= 1
      requires hashFncs.Some? ==> HashesInRange(hashFncs.value, histlength)
      ensures Valid() && fresh(tables)
      ensures this.histlength == histlength && ghr == 0
      ensures hashes == if hashFncs.Some? then hashFncs.value else DefaultHashes(histlength)
      ensures forall i, j :: 0 <= i < tables.Length0 && 0 <= j < tables.Length1 ==> tables[i, j] == 3
    {
      this.histlength := histlength;
      var hs: seq<(nat, nat) -> nat>;
      if hashFncs.None? {
        hs := DefaultHashes(histlength);
        DefaultHashesInRange(histlength);
      } else {
        hs := hashFncs.value;
      }
      hashes := hs;
      npreds := |hs|;
      tables := new int[|hs|, Pow2(histlength)]((_, _) => 3);
      ghr := 0;
    }

    /** The slot table i uses: its hash of the masked address and the history. */
    function Slot(i: nat, addr: nat, g: nat): (s: nat)
      requires i < |hashes| && HashesInRange(hashes, histlength) && g < Pow2(histlength)
      ensures s < Pow2(histlength)
    {
      MaskBound(addr, histlength);
      hashes[i](And(addr, Mask(histlength)), g)
    }

    /** The number of tables among the first k that predict taken. */
    ghost function Votes(addr: nat, k: nat): (v: nat)
      requires Valid() && k <= npreds
      reads this, tables
      ensures v <= k
    {
      if k == 0 then 0
      else Votes(addr, k - 1) + (if PredictsTaken(tables[k - 1, Slot(k - 1, addr, ghr)]) then 1 else 0)
    }

    /**
     * `sum(predictions) >= npreds / 2`: taken when at least half of the
     * tables predict taken, i.e. two of the three default ones.
     */
    method Lookup(addr: nat) returns (p: bool)
      requires Valid()
      ensures p <==> 2 * Votes(addr, npreds) >= npreds
      ensures npreds == 3 ==> (p <==> Votes(addr, 3) >= 2)
    {
      var count := 0;
      for i := 0 to npreds
        invariant count == Votes(addr, i)
      {
        if tables[i, Slot(i, addr, ghr)] >= 2 {
          count := count + 1;
        }
      }
      p := 2 * count >= npreds;
    }

    /**
     * A squashed update is ignored.  A commit trains in every table the
     * counter at that table's slot, all slots computed with the GHR as it
     * was, and then shifts the outcome into the GHR.
     */
    method Update(addr: nat, taken: bool, squashed: bool)
      requires Valid()
      modifies this, tables
      ensures Valid()
      ensures squashed ==> ghr == old(ghr)
      ensures squashed ==>
        forall i, j :: 0 <= i < tables.Length0 && 0 <= j < tables.Length1 ==> tables[i, j] == old(tables[i, j])
      ensures !squashed ==> ghr == ShiftIn(old(ghr), taken, histlength)
      ensures !squashed ==>
        forall i, j :: 0 <= i < tables.Length0 && 0 <= j < tables.Length1 ==>
          tables[i, j] == if j == Slot(i, addr, old(ghr)) then TwoBitUpdate(old(tables[i, j]), taken)
                          else old(tables[i, j])
    {
      if squashed {
        return;
      }
      for i := 0 to npreds
        invariant ghr == old(ghr)
        invariant forall r, c :: 0 <= r < tables.Length0 && 0 <= c < tables.Length1 ==>
          tables[r, c] == if r < i && c == Slot(r, addr, ghr) then TwoBitUpdate(old(tables[r, c]), taken)
                          else old(tables[r, c])
      {
        var index := Slot(i, addr, ghr);
        if taken {
          tables[i, index] := Min(tables[i, index] + 1, 3);
        } else {
          tables[i, index] := Max(tables[i, index] - 1, 0);
        }
      }
      ghr := ShiftIn(ghr, taken, histlength);
    }
  }
}
