/**
 * GShare: 2**histlength two-bit counters indexed by the word address
 * exclusive-or'd with the global history register (GHR).
 */
module GShare {
  import opened Bits
  import opened Utils

  /** `_get_index`: `((addr // 4) ^ ghr) & mask`, the low histlength bits of the xor. */
  function Index(addr: nat, ghr: nat, histlength: nat): (i: nat)
    ensures i == Xor(addr / 4, ghr) % Pow2(histlength)
    ensures i < Pow2(histlength)
  {
    AndMask(Xor(addr / 4, ghr), histlength);
    And(Xor(addr / 4, ghr), Mask(histlength))
  }

  class GSharePredictor {
    const histlength: nat
    const table: array<int>
    var ghr: nat

    ghost predicate Valid()
      reads this, table
    {
      && table.Length == Pow2(histlength)
      && ghr < Pow2(histlength)
      && forall i :: 0 <= i < table.Length ==> 0 <= table[i] <= 3
    }

    constructor (histlength: nat)
      ensures Valid() && fresh(table)
      ensures this.histlength == histlength && ghr == 0
      ensures table[..] == seq(Pow2(histlength), _ => 3)
    {
      this.histlength := histlength;
      table := new int[Pow2(histlength)](_ => 3);
      ghr := 0;
    }

    method Lookup(addr: nat) returns (p: bool)
      requires Valid()
      ensures p <==> PredictsTaken(table[Index(addr, ghr, histlength)])
    {
      var index := Index(addr, ghr, histlength);
      p := table[index] >= 2;
    }

    /**
     * A squashed update is ignored.  A commit, conditional or not, trains
     * the counter selected with the GHR as it was before the commit, then
     * shifts the outcome into the GHR.
     */
    method Update(addr: nat, taken: bool, squashed: bool)
      requires Valid()
      modifies this, table
      ensures Valid()
      ensures squashed ==> table[..] == old(table[..]) && ghr == old(ghr)
      ensures !squashed ==>
        var i := Index(addr, old(ghr), histlength);
        && table[..] == old(table[..])[i := TwoBitUpdate(old(table[i]), taken)]
        && ghr == ShiftIn(old(ghr), taken, histlength)
    {
      if squashed {
        return;
      }
      var index := Index(addr, ghr, histlength);
      if taken {
        table[index] := Min(table[index] + 1, 3);
      } else {
        table[index] := Max(table[index] - 1, 0);
      }
      ghr := ShiftIn(ghr, taken, histlength);
    }
  }
}
