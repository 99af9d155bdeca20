/**
 * The local two-bit predictor: one two-bit counter per address slot,
 * starting at 3 (strongly taken), indexed by `(addr // 4) % ncounters`.
 */
module Local2Bit {
  import opened Utils
  import opened Ledger

  class Local2BitPredictor {
    const ncounters: nat
    const table: array<int>

    ghost predicate Valid()
      reads this, table
    {
      && ncounters >= 1
      && table.Length == ncounters
      && forall i :: 0 <= i < table.Length ==> 0 <= table[i] <= 3
    }

    constructor (ncounters: nat)
      requires ncounters >= 1
      ensures Valid() && fresh(table)
      ensures this.ncounters == ncounters
      ensures table[..] == seq(ncounters, _ => 3)
    {
      this.ncounters := ncounters;
      table := new int[ncounters](_ => 3);
    }

    method Lookup(addr: nat) returns (p: bool)
      requires Valid()
      ensures p <==> PredictsTaken(table[WordIndex(addr, ncounters)])
    {
      var index := WordIndex(addr, ncounters);
      p := table[index] >= 2;
    }

    /** A squashed update and one for an unconditional branch are ignored. */
    method Update(addr: nat, taken: bool, rec: Record, squashed: bool)
      requires Valid()
      modifies table
      ensures Valid()
      ensures squashed || !rec.conditional ==> table[..] == old(table[..])
      ensures !squashed && rec.conditional ==>
        var i := WordIndex(addr, ncounters);
        table[..] == old(table[..])[i := TwoBitUpdate(old(table[i]), taken)]
    {
      if squashed || !rec.conditional {
        return;
      }
      var index := WordIndex(addr, ncounters);
      if taken {
        table[index] := Min(table[index] + 1, 3);
      } else {
        table[index] := Max(table[index] - 1, 0);
      }
    }
  }

  /**
   * Four counters: addresses 0, 4, 8 and 12 use counters 0 to 3.  The first
   * lookup at 0 predicts taken (3), still after one not-taken commit (2),
   * and no longer after a second one (1).
   */
  method FourCounterScenario() returns (first: bool, second: bool, third: bool)
    ensures first && second && !third
  {
    WordIndexOfWord(0, 4);
    WordIndexOfWord(1, 4);
    WordIndexOfWord(2, 4);
    WordIndexOfWord(3, 4);
    var bp := new Local2BitPredictor(4);
    var rec := NewRecord(1, true);
    first := bp.Lookup(0);
    bp.Update(0, false, rec, false);
    assert bp.table[0] == 2;
    second := bp.Lookup(0);
    bp.Update(0, false, rec, false);
    assert bp.table[0] == 1;
    third := bp.Lookup(0);
  }
}
