/**
 * The combining (tournament) predictor: two sub-predictors A and B and one
 * two-bit chooser counter per address slot.  A counter below 2 selects A,
 * 2 or more selects B; a commit on which exactly one of them was right
 * moves the counter toward that one.
 */
module Combining2Bit {
  import opened Utils
  import opened Ledger
  import opened Forwarding
  import opened Results

  /** The prediction the chooser counter c selects. */
  function Choose(c: int, pa: bool, pb: bool): bool
  {
    if c < 2 then pa else pb
  }

  /** The chooser counter after a commit with recorded predictions pa, pb. */
  function CombineStep(c: int, pa: bool, pb: bool, taken: bool): (r: int)
    ensures 0 <= c <= 3 ==> 0 <= r <= 3
    ensures pa == pb ==> r == c
  {
    if pa == taken && pb != taken then Max(c - 1, 0)
    else if pa != taken && pb == taken then Min(c + 1, 3)
    else c
  }

  /** A counter in [0, 3] stays there and moves by at most one, toward the right predictor. */
  lemma CombineStepBounds(c: int, pa: bool, pb: bool, taken: bool)
    requires 0 <= c <= 3
    ensures 0 <= CombineStep(c, pa, pb, taken) <= 3
    ensures pa == taken ==> CombineStep(c, pa, pb, taken) <= c
    ensures pb == taken ==> CombineStep(c, pa, pb, taken) >= c
    ensures c - 1 <= CombineStep(c, pa, pb, taken) <= c + 1
  {
  }

  /** A commit on which the selected predictor was right keeps it selected. */
  lemma CorrectChoiceSticks(c: int, pa: bool, pb: bool, taken: bool)
    requires 0 <= c <= 3 && Choose(c, pa, pb) == taken
    ensures Choose(CombineStep(c, pa, pb, taken), pa, pb) == taken
  {
  }

  /**
   * Hysteresis: from any counter, two commits on which only B was right
   * select B, and two on which only A was right select A.
   */
  lemma TwoWinsSwitch(c: int, pa: bool, pb: bool, taken: bool)
    requires 0 <= c <= 3 && pa != pb
    ensures var twice := CombineStep(CombineStep(c, pa, pb, taken), pa, pb, taken);
      Choose(twice, pa, pb) == taken
  {
  }

  /** The record a lookup and an unconditional branch fill: the sub-records and pa, pb. */
  predicate Filled(rec: Record)
  {
    rec.pa.Some? && rec.pb.Some? && |rec.subs| == 2
  }

  class Combining2BitPredictor {
    const ncounters: nat
    const init: int
    const table: array<int>

    ghost predicate Valid()
      reads this
    {
      ncounters >= 1 && table.Length == ncounters
    }

    /** Every counter in [0, 3]; it holds from the start when `init` does. */
    ghost predicate InRange()
      reads this, table
    {
      forall i :: 0 <= i < table.Length ==> 0 <= table[i] <= 3
    }

    constructor (ncounters: nat, init: int)
      requires ncounters >= 1
      ensures Valid() && fresh(table)
      ensures this.ncounters == ncounters && this.init == init
      ensures table[..] == seq(ncounters, _ => init)
      ensures 0 <= init <= 3 ==> InRange()
    {
      this.ncounters := ncounters;
      this.init := init;
      table := new int[ncounters](_ => init);
    }

    /**
     * `lookup`: both sub-predictors are consulted, each with a copy of the
     * record, and answer pa and pb; the record keeps both answers and the
     * counter selects one.
     */
    method Lookup(addr: nat, rec: Record, pa: bool, pb: bool)
      returns (p: bool, out: Record, calls: seq<SubCall>)
      requires Valid()
      ensures p == Choose(table[WordIndex(addr, ncounters)], pa, pb)
      ensures p == pa || p == pb
      ensures pa == pb ==> p == pa
      ensures out == rec.(subs := [rec, rec], pa := Some(pa), pb := Some(pb)) && Filled(out)
      ensures calls == [SubLookup(addr, rec), SubLookup(addr, rec)]
    {
      out := rec.(subs := [rec, rec]);
      var index := WordIndex(addr, ncounters);
      calls := [SubLookup(addr, out.subs[0]), SubLookup(addr, out.subs[1])];
      out := out.(pa := Some(pa), pb := Some(pb));
      if table[index] < 2 {
        p := pa;
      } else {
        p := pb;
      }
    }

    /** `uncond_branch`: both predictions are recorded as taken and the call is forwarded. */
    method UncondBranch(addr: nat, rec: Record) returns (out: Record, calls: seq<SubCall>)
      ensures out == rec.(subs := [rec, rec], pa := Some(true), pb := Some(true)) && Filled(out)
      ensures calls == [SubUncondBranch(addr, rec), SubUncondBranch(addr, rec)]
    {
      out := rec.(subs := [rec, rec]);
      out := out.(pa := Some(true), pb := Some(true));
      calls := [SubUncondBranch(addr, out.subs[0]), SubUncondBranch(addr, out.subs[1])];
    }

    /** `btb_update` and `squash` forward to both sub-predictors with their own sub-records. */
    function BtbUpdate(addr: nat, rec: Record): (calls: seq<SubCall>)
      requires Filled(rec)
      ensures |calls| == 2
      ensures calls[0] == SubBtbUpdate(addr, rec.subs[0]) && calls[1] == SubBtbUpdate(addr, rec.subs[1])
    {
      [SubBtbUpdate(addr, rec.subs[0]), SubBtbUpdate(addr, rec.subs[1])]
    }

    function Squash(rec: Record): (calls: seq<SubCall>)
      requires Filled(rec)
      ensures |calls| == 2
      ensures calls[0] == SubSquash(rec.subs[0]) && calls[1] == SubSquash(rec.subs[1])
    {
      [SubSquash(rec.subs[0]), SubSquash(rec.subs[1])]
    }

    /**
     * `update`: both sub-predictors get the update first, with the same
     * `squashed` flag.  A squashed update then stops; otherwise the slot's
     * counter takes one `CombineStep` with the recorded predictions.
     * Unconditional branches are not skipped, but their record has
     * pa == pb, so their counter stays.  Only the slot's counter changes.
     */
    method Update(addr: nat, taken: bool, rec: Record, squashed: bool) returns (calls: seq<SubCall>)
      requires Valid() && Filled(rec)
      modifies table
      ensures calls == [SubUpdate(addr, taken, rec.subs[0], squashed), SubUpdate(addr, taken, rec.subs[1], squashed)]
      ensures squashed || rec.pa == rec.pb ==> table[..] == old(table[..])
      ensures !squashed ==>
        var i := WordIndex(addr, ncounters);
        table[..] == old(table[..])[i := CombineStep(old(table[i]), rec.pa.value, rec.pb.value, taken)]
      ensures old(InRange()) ==> InRange()
    {
      calls := [SubUpdate(addr, taken, rec.subs[0], squashed), SubUpdate(addr, taken, rec.subs[1], squashed)];
      if squashed {
        return;
      }
      var pa, pb := rec.pa.value, rec.pb.value;
      var index := WordIndex(addr, ncounters);
      if pa == taken && pb != taken {
        table[index] := Max(table[index] - 1, 0);
      } else if pa != taken && pb == taken {
        table[index] := Min(table[index] + 1, 3);
      } else {
        // The source asserts this: with two booleans, "both right or both wrong" means equal.
        assert pa == pb;
      }
    }
  }
}
