/**
 * GSelect: 2**(histlength + addrlength) two-bit counters indexed by the
 * addrlength low bits of the word address followed by the global history.
 */
module GSelect {
  import opened Bits
  import opened Utils

  /**
   * `_get_index`: `((addr >> 2) & addrmask) << histlength | ghr`.  With the
   * GHR inside its width the two fields do not overlap: the low histlength
   * bits are the GHR and the bits above them the address bits.
   */
  function Index(addr: nat, ghr: nat, histlength: nat, addrlength: nat): (i: nat)
    ensures ghr < Pow2(histlength) ==>
      && i == ((addr / 4) % Pow2(addrlength)) * Pow2(histlength) + ghr
      && i < Pow2(histlength + addrlength)
      && i % Pow2(histlength) == ghr
      && i / Pow2(histlength) == (addr / 4) % Pow2(addrlength)
  {
    IndexFields(addr, ghr, histlength, addrlength);
    Or(Shl(And(Shr(addr, 2), Mask(addrlength)), histlength), ghr)
  }

  lemma IndexFields(addr: nat, ghr: nat, histlength: nat, addrlength: nat)
    ensures ghr < Pow2(histlength) ==>
      var i := Or(Shl(And(Shr(addr, 2), Mask(addrlength)), histlength), ghr);
      && i == ((addr / 4) % Pow2(addrlength)) * Pow2(histlength) + ghr
      && i < Pow2(histlength + addrlength)
      && i % Pow2(histlength) == ghr
      && i / Pow2(histlength) == (addr / 4) % Pow2(addrlength)
  {
    if ghr < Pow2(histlength) {
      var a, ph, pa := (addr / 4) % Pow2(addrlength), Pow2(histlength), Pow2(addrlength);
      assert Pow2(2) == 4;
      AndMask(addr / 4, addrlength);
      assert And(Shr(addr, 2), Mask(addrlength)) == a;
      OrDisjoint(a, ghr, histlength);
      assert Or(Shl(a, histlength), ghr) == a * ph + ghr;
      DivModUnique(a * ph + ghr, ph, a, ghr);
      Pow2Add(histlength, addrlength);
      FieldBound(a, ghr, ph, pa);
    }
  }

  /** A field below pa above a field below ph fits below pa * ph. */
  lemma FieldBound(a: nat, g: nat, ph: nat, pa: nat)
    requires a < pa && g < ph
    ensures a * ph + g < ph * pa
  {
    assert (a + 1) * ph == a * ph + ph;
    assert (a + 1) * ph <= pa * ph;
  }

  class GSelectPredictor {
    const histlength: nat
    const addrlength: nat
    const table: array<int>
    var ghr: nat

    ghost predicate Valid()
      reads this, table
    {
      && table.Length == Pow2(histlength + addrlength)
      && ghr < Pow2(histlength)
      && forall i :: 0 <= i < table.Length ==> 0 <= table[i] <= 3
    }

    constructor (histlength: nat, addrlength: nat)
      ensures Valid() && fresh(table)
      ensures this.histlength == histlength && this.addrlength == addrlength && ghr == 0
      ensures table[..] == seq(Pow2(histlength + addrlength), _ => 3)
    {
      this.histlength := histlength;
      this.addrlength := addrlength;
      table := new int[Pow2(histlength + addrlength)](_ => 3);
      ghr := 0;
    }

    method Lookup(addr: nat) returns (p: bool)
      requires Valid()
      ensures p <==> PredictsTaken(table[Index(addr, ghr, histlength, addrlength)])
    {
      var index := Index(addr, ghr, histlength, addrlength);
      p := table[index] >= 2;
    }

    /**
     * A squashed update is ignored.  A commit trains the counter at the
     * index formed with the GHR as it was, then shifts the outcome into the
     * GHR, masked to histlength bits.
     */
    method Update(addr: nat, taken: bool, squashed: bool)
      requires Valid()
      modifies this, table
      ensures Valid()
      ensures squashed ==> table[..] == old(table[..]) && ghr == old(ghr)
      ensures !squashed ==>
        var i := Index(addr, old(ghr), histlength, addrlength);
        && table[..] == old(table[..])[i := TwoBitUpdate(old(table[i]), taken)]
        && ghr == ShiftIn(old(ghr), taken, histlength)
    {
      if squashed {
        return;
      }
      var index := Index(addr, ghr, histlength, addrlength);
      if taken {
        table[index] := Min(table[index] + 1, 3);
      } else {
        table[index] := Max(table[index] - 1, 0);
      }
      ghr := ShiftIn(ghr, taken, histlength);
    }
  }
}
