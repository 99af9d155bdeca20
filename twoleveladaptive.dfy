/**
 * Two-level adaptive training predictor: a per-address history register
 * table (PHRT) whose entry selects a two-bit counter of the global pattern
 * table (GPT).  The GPT index used by a lookup is kept in the branch's
 * record, and the commit trains that counter.
 */
module TwoLevelAdaptive {
  import opened Bits
  import opened Utils
  import opened Results
  import opened Ledger


  class TwoLevelAdaptivePredictor {
    const phrtsize: nat
    const histlength: nat
    const phrt: array<nat>
    const gpt: array<int>

    /** Every history register fits in histlength bits, so it always indexes the GPT. */
    ghost predicate Valid()
      reads this, phrt, gpt
    {
      && phrtsize >= 1
      && phrt.Length == phrtsize
      && gpt.Length == Pow2(histlength)
      && phrt != gpt as object
      && (forall i :: 0 <= i < phrt.Length ==> phrt[i] < gpt.Length)
      && (forall i :: 0 <= i < gpt.Length ==> 0 <= gpt[i] <= 3)
    }

    constructor (phrtsize: nat, histlength: nat)
      requires phrtsize >= 1
      ensures Valid() && fresh(phrt) && fresh(gpt)
      ensures this.phrtsize == phrtsize && this.histlength == histlength
      ensures phrt[..] == seq(phrtsize, _ => 0)
      ensures gpt[..] == seq(Pow2(histlength), _ => 0)
    {
      this.phrtsize := phrtsize;
      this.histlength := histlength;
      phrt := new nat[phrtsize](_ => 0);
      gpt := new int[Pow2(histlength)](_ => 0);
    }

    /**
     * Reads the history register of the address, stores it in the record
     * as `gpt_index` and predicts from that GPT counter; no table changes.
     */
    method Lookup(addr: nat, rec: Record) returns (p: bool, rec': Record)
      requires Valid()
      ensures var g := phrt[WordIndex(addr, phrtsize)];
        && rec' == rec.(gptIndex := Some(g))
        && g < gpt.Length
        && (p <==> PredictsTaken(gpt[g]))
    {
      var phrtIndex := WordIndex(addr, phrtsize);
      var gptIndex := phrt[phrtIndex];
      rec' := rec.(gptIndex := Some(gptIndex));
      p := gpt[gptIndex] >= 2;
    }

    /**
     * A squashed update and one for an unconditional branch are ignored.  A
     * commit trains the GPT counter whose index the lookup stored in the
     * record (not one recomputed from the current PHRT), then shifts the
     * outcome into this address's history register only.  The record must
     * be one this predictor's lookup filled in.
     */
    method Update(addr: nat, taken: bool, rec: Record, squashed: bool)
      requires Valid()
      requires !squashed && rec.conditional ==> rec.gptIndex.Some? && rec.gptIndex.value < gpt.Length
      modifies phrt, gpt
      ensures Valid()
      ensures squashed || !rec.conditional ==> phrt[..] == old(phrt[..]) && gpt[..] == old(gpt[..])
      ensures !squashed && rec.conditional ==>
        var g, i := rec.gptIndex.value, WordIndex(addr, phrtsize);
        && gpt[..] == old(gpt[..])[g := TwoBitUpdate(old(gpt[g]), taken)]
        && phrt[..] == old(phrt[..])[i := ShiftIn(old(phrt[i]), taken, histlength)]
    {
      if squashed || !rec.conditional {
        return;
      }
      var gptIndex := rec.gptIndex.value;
      if taken {
        gpt[gptIndex] := Min(gpt[gptIndex] + 1, 3);
      } else {
        gpt[gptIndex] := Max(gpt[gptIndex] - 1, 0);
      }
      var index := WordIndex(addr, phrtsize);
      phrt[index] := ShiftIn(phrt[index], taken, histlength);
    }
  }
}
