/**
 * The older local two-bit predictor, built from `SaturatingCounter(0, 3)`
 * objects.  It has `size_in_bytes * 4` counters, all starting at 0, and,
 * unlike the newer version, it trains on every commit, conditional or not.
 */
module LegacyLocal2Bit {
  import opened Utils
  import opened Results
  import opened Ledger

  class LegacyLocal2BitPredictor {
    const table: seq<SaturatingCounter>

    ghost predicate Valid()
      reads this, table
    {
      && |table| >= 1
      && (forall i, j :: 0 <= i < j < |table| ==> table[i] != table[j])
      && forall i :: 0 <= i < |table| ==> table[i].minval == 0 && table[i].maxval == 3 && table[i].Valid()
    }

    /** The counter values. */
    ghost function Values(): (v: seq<int>)
      reads this, table
      ensures |v| == |table|
    {
      seq(|table|, i reads table requires 0 <= i < |table| => table[i].value)
    }

    constructor (sizeInBytes: nat)
      requires sizeInBytes >= 1
      ensures Valid()
      ensures |table| == sizeInBytes * 4
      ensures Values() == seq(sizeInBytes * 4, _ => 0)
    {
      var ncounters := sizeInBytes * 4;
      var t: seq<SaturatingCounter> := [];
      while |t| < ncounters
        invariant |t| <= ncounters
        invariant forall i, j :: 0 <= i < j < |t| ==> t[i] != t[j]
        invariant forall i :: 0 <= i < |t| ==> fresh(t[i])
        invariant forall i :: 0 <= i < |t| ==> t[i].minval == 0 && t[i].maxval == 3 && t[i].value == 0
      {
        var c := new SaturatingCounter(0, 3, None);
        t := t + [c];
      }
      table := t;
      new;
      assert Values() == seq(ncounters, _ => 0);
    }

    method Lookup(addr: nat) returns (p: bool)
      requires Valid()
      ensures p <==> PredictsTaken(Values()[WordIndex(addr, |table|)])
    {
      var index := WordIndex(addr, |table|);
      p := table[index].value >= 2;
    }

    /**
     * A squashed update is ignored; any other increments (taken) or
     * decrements (not taken) exactly the counter of this address, whatever
     * kind of branch the record is for.
     */
    method Update(addr: nat, taken: bool, rec: Record, squashed: bool)
      requires Valid()
      modifies table
      ensures Valid()
      ensures squashed ==> Values() == old(Values())
      ensures !squashed ==>
        var i := WordIndex(addr, |table|);
        Values() == old(Values())[i := TwoBitUpdate(old(Values())[i], taken)]
    {
      if squashed {
        return;
      }
      var index := WordIndex(addr, |table|);
      if taken {
        table[index].Increment();
      } else {
        table[index].Decrement();
      }
      assert Values() == old(Values())[index := TwoBitUpdate(old(Values())[index], taken)];
    }
  }

  /** Every counter starts at 0, so a new predictor's first lookup is not-taken anywhere. */
  method FirstLookupNotTaken(sizeInBytes: nat, addr: nat) returns (p: bool)
    requires sizeInBytes >= 1
    ensures !p
  {
    var bp := new LegacyLocal2BitPredictor(sizeInBytes);
    p := bp.Lookup(addr);
  }
}
