/**
 * The multi-hybrid predictor: `npreds` sub-predictors and, per address
 * slot, one two-bit counter per sub-predictor.  A lookup follows the
 * lowest-numbered sub-predictor whose counter is 3.  On a commit, if some
 * sub-predictor at 3 was right, the wrong ones lose a point; otherwise the
 * right ones gain one.  Either way some counter of the slot stays at 3.
 */
module MultiHybrid {
  import opened Utils
  import opened Results
  import opened Ledger
  import opened Forwarding

  /** Some counter is 3. */
  predicate HasThree(counters: seq<int>)
  {
    exists i :: 0 <= i < |counters| && counters[i] == 3
  }

  /** Some predictor whose counter is 3 predicted the outcome. */
  predicate WinnerRight(counters: seq<int>, predictions: seq<bool>, taken: bool)
    requires |counters| == |predictions|
  {
    exists i :: 0 <= i < |counters| && counters[i] == 3 && predictions[i] == taken
  }

  /** The lowest index whose counter is 3: the predictor a lookup follows. */
  function Selected(counters: seq<int>): (i: nat)
    requires HasThree(counters)
    ensures i < |counters| && counters[i] == 3
    ensures forall j :: 0 <= j < i ==> counters[j] != 3
  {
    if counters[0] == 3 then 0
    else
      assert HasThree(counters[1..]) by {
        var k :| 0 <= k < |counters| && counters[k] == 3;
        assert counters[1..][k - 1] == 3;
      }
      1 + Selected(counters[1..])
  }

  /** One counter after a commit, given whether some predictor at 3 was right. */
  function Adjusted(c: int, p: bool, taken: bool, winnerRight: bool): int
  {
    if winnerRight then (if p != taken then Max(0, c - 1) else c)
    else (if p == taken then Min(3, c + 1) else c)
  }

  /** A slot's counters after a commit. */
  function HybridStep(counters: seq<int>, predictions: seq<bool>, taken: bool): (r: seq<int>)
    requires |counters| == |predictions|
    ensures |r| == |counters|
  {
    var w := WinnerRight(counters, predictions, taken);
    seq(|counters|, i requires 0 <= i < |counters| => Adjusted(counters[i], predictions[i], taken, w))
  }

  predicate InRange(counters: seq<int>)
  {
    forall i :: 0 <= i < |counters| ==> 0 <= counters[i] <= 3
  }

  /**
   * What a commit does: if some predictor at 3 was right, exactly the wrong
   * predictors drop by one (not below 0); otherwise exactly the right ones
   * rise by one (not above 3).  Counters stay in [0, 3].
   */
  lemma HybridStepMeaning(counters: seq<int>, predictions: seq<bool>, taken: bool)
    requires |counters| == |predictions| && InRange(counters)
    ensures InRange(HybridStep(counters, predictions, taken))
    ensures WinnerRight(counters, predictions, taken) ==> forall i :: 0 <= i < |counters| ==>
      HybridStep(counters, predictions, taken)[i] ==
        (if predictions[i] == taken then counters[i] else Max(0, counters[i] - 1))
    ensures !WinnerRight(counters, predictions, taken) ==> forall i :: 0 <= i < |counters| ==>
      HybridStep(counters, predictions, taken)[i] ==
        (if predictions[i] == taken then Min(3, counters[i] + 1) else counters[i])
  {
  }

  /** The invariant the source asserts after every commit: some counter of the slot is 3. */
  lemma HybridKeepsThree(counters: seq<int>, predictions: seq<bool>, taken: bool)
    requires |counters| == |predictions| && HasThree(counters)
    ensures HasThree(HybridStep(counters, predictions, taken))
  {
    var r := HybridStep(counters, predictions, taken);
    if WinnerRight(counters, predictions, taken) {
      var k :| 0 <= k < |counters| && counters[k] == 3 && predictions[k] == taken;
      assert r[k] == 3;
    } else {
      var k :| 0 <= k < |counters| && counters[k] == 3;
      assert predictions[k] != taken;
      assert r[k] == 3;
    }
  }

  /** A commit on which the selected predictor was right keeps it selected. */
  lemma CorrectSelectionSticks(counters: seq<int>, predictions: seq<bool>, taken: bool)
    requires |counters| == |predictions| && HasThree(counters) && InRange(counters)
    requires predictions[Selected(counters)] == taken
    ensures HasThree(HybridStep(counters, predictions, taken))
    ensures Selected(HybridStep(counters, predictions, taken)) == Selected(counters)
  {
    var s := Selected(counters);
    var r := HybridStep(counters, predictions, taken);
    assert WinnerRight(counters, predictions, taken);
    assert r[s] == 3;
    assert forall j :: 0 <= j < s ==> r[j] <= counters[j] < 3;
    SelectedIs(r, s);
  }

  /** Selected is the unique index at 3 with no 3 before it. */
  lemma {:induction false} SelectedIs(counters: seq<int>, s: nat)
    requires s < |counters| && counters[s] == 3
    requires forall j :: 0 <= j < s ==> counters[j] != 3
    ensures HasThree(counters) && Selected(counters) == s
  {
    if s > 0 {
      SelectedIs(counters[1..], s - 1);
    }
  }

  class MultiHybridPredictor {
    const npreds: nat
    const ncounters: nat
    /** `_table[index][i]`: the counter of sub-predictor i at the slot. */
    const table: array2<int>

    function Row(i: nat): (r: seq<int>)
      reads this, table
      requires i < table.Length0
      ensures |r| == table.Length1
      ensures forall j :: 0 <= j < table.Length1 ==> r[j] == table[i, j]
    {
      seq(table.Length1, j requires 0 <= j < table.Length1 reads table => table[i, j])
    }

    /** Counters in [0, 3], and every row has a 3 unless there are no sub-predictors. */
    ghost predicate Valid()
      reads this, table
    {
      && ncounters >= 1
      && table.Length0 == ncounters && table.Length1 == npreds
      && (forall i, j :: 0 <= i < ncounters && 0 <= j < npreds ==> 0 <= table[i, j] <= 3)
      && (npreds >= 1 ==> forall i :: 0 <= i < ncounters ==> HasThree(Row(i)))
    }

    constructor (npreds: nat, ncounters: nat)
      requires ncounters >= 1
      ensures Valid() && fresh(table)
      ensures this.npreds == npreds && this.ncounters == ncounters
      ensures forall i, j :: 0 <= i < ncounters && 0 <= j < npreds ==> table[i, j] == 3
    {
      this.npreds := npreds;
      this.ncounters := ncounters;
      table := new int[ncounters, npreds]((_, _) => 3);
      new;
      forall i | 0 <= i < ncounters && npreds >= 1
        ensures HasThree(Row(i))
      {
        assert Row(i)[0] == 3;
      }
    }

    /**
     * `lookup`: every sub-predictor is consulted with its own copy of the
     * record and gives one of `predictions`; the record keeps them all, and
     * the answer is that of the lowest-numbered predictor at 3.  The
     * source's final `assert False` is reached only when there are no
     * sub-predictors.
     */
    method Lookup(addr: nat, rec: Record, predictions: seq<bool>)
      returns (r: Result<bool, ()>, out: Record, calls: seq<SubCall>)
      requires Valid() && |predictions| == npreds
      ensures out == rec.(subs := seq(npreds, _ => rec), predictions := Some(predictions))
      ensures |calls| == npreds && forall i :: 0 <= i < npreds ==> calls[i] == SubLookup(addr, rec)
      ensures r.Ok? <==> npreds >= 1
      ensures r.Ok? ==> r.value == predictions[Selected(Row(WordIndex(addr, ncounters)))]
    {
      out := rec.(subs := seq(npreds, _ => rec));
      var index := WordIndex(addr, ncounters);
      calls := [];
      for i := 0 to npreds
        invariant |calls| == i && forall k :: 0 <= k < i ==> calls[k] == SubLookup(addr, rec)
      {
        calls := calls + [SubLookup(addr, out.subs[i])];
      }
      out := out.(predictions := Some(predictions));
      for i := 0 to npreds
        invariant forall k :: 0 <= k < i ==> table[index, k] != 3
      {
        if table[index, i] == 3 {
          SelectedIs(Row(index), i);
          return Ok(predictions[i]), out, calls;
        }
      }
      r := Err(());
    }

    /** `uncond_branch`: every prediction is recorded as taken and the call is forwarded. */
    method UncondBranch(addr: nat, rec: Record) returns (out: Record, calls: seq<SubCall>)
      ensures out == rec.(subs := seq(npreds, _ => rec), predictions := Some(seq(npreds, _ => true)))
      ensures |calls| == npreds && forall i :: 0 <= i < npreds ==> calls[i] == SubUncondBranch(addr, rec)
    {
      out := rec.(subs := seq(npreds, _ => rec));
      out := out.(predictions := Some(seq(npreds, _ => true)));
      calls := [];
      for i := 0 to npreds
        invariant |calls| == i && forall k :: 0 <= k < i ==> calls[k] == SubUncondBranch(addr, rec)
      {
        calls := calls + [SubUncondBranch(addr, out.subs[i])];
      }
    }

    /** `btb_update`: forwarded to every sub-predictor with its own sub-record. */
    method BtbUpdate(addr: nat, rec: Record) returns (calls: seq<SubCall>)
      requires |rec.subs| == npreds
      ensures |calls| == npreds && forall i :: 0 <= i < npreds ==> calls[i] == SubBtbUpdate(addr, rec.subs[i])
    {
      calls := [];
      for i := 0 to npreds
        invariant |calls| == i && forall k :: 0 <= k < i ==> calls[k] == SubBtbUpdate(addr, rec.subs[k])
      {
        calls := calls + [SubBtbUpdate(addr, rec.subs[i])];
      }
    }

    /** `squash`: forwarded to every sub-predictor with its own sub-record. */
    method Squash(rec: Record) returns (calls: seq<SubCall>)
      requires |rec.subs| == npreds
      ensures |calls| == npreds && forall i :: 0 <= i < npreds ==> calls[i] == SubSquash(rec.subs[i])
    {
      calls := [];
      for i := 0 to npreds
        invariant |calls| == i && forall k :: 0 <= k < i ==> calls[k] == SubSquash(rec.subs[k])
      {
        calls := calls + [SubSquash(rec.subs[i])];
      }
    }

    /** `any(c == 3 and p == taken ...)`. */
    method AnyWinnerRight(index: nat, predictions: seq<bool>, taken: bool) returns (b: bool)
      requires Valid() && index < ncounters && |predictions| == npreds
      ensures b == WinnerRight(Row(index), predictions, taken)
    {
      b := false;
      for i := 0 to npreds
        invariant b <==> exists k :: 0 <= k < i && table[index, k] == 3 && predictions[k] == taken
      {
        if table[index, i] == 3 && predictions[i] == taken {
          b := true;
        }
      }
      assert b <==> exists k :: 0 <= k < npreds && Row(index)[k] == 3 && predictions[k] == taken;
    }

    /** `any(c == 3 ...)` over a row. */
    method AnyThree(index: nat) returns (b: bool)
      requires Valid() && index < ncounters
      ensures b == HasThree(Row(index))
    {
      b := false;
      for i := 0 to npreds
        invariant b <==> exists k :: 0 <= k < i && table[index, k] == 3
      {
        if table[index, i] == 3 {
          b := true;
        }
      }
      assert b <==> exists k :: 0 <= k < npreds && Row(index)[k] == 3;
    }

    /**
     * `update`: every sub-predictor gets the update first.  A squashed
     * update or an unconditional branch then stops; a commit gives the
     * slot's row one `HybridStep`, in place.  The source's closing
     * assertion (some counter of the row is 3) fails only when there are
     * no sub-predictors.
     */
    method Update(addr: nat, taken: bool, rec: Record, squashed: bool)
      returns (calls: seq<SubCall>, r: Result<(), ()>)
      requires Valid()
      requires |rec.subs| == npreds && rec.predictions.Some? && |rec.predictions.value| == npreds
      modifies table
      ensures Valid()
      ensures |calls| == npreds && forall i :: 0 <= i < npreds ==>
        calls[i] == SubUpdate(addr, taken, rec.subs[i], squashed)
      ensures squashed || !rec.conditional ==> r.Ok? && unchanged(table)
      ensures !squashed && rec.conditional ==>
        var index := WordIndex(addr, ncounters);
        var row := HybridStep(old(Row(index)), rec.predictions.value, taken);
        forall i, j :: 0 <= i < ncounters && 0 <= j < npreds ==>
          table[i, j] == if i == index then row[j] else old(table[i, j])
      ensures r.Err? <==> !squashed && rec.conditional && npreds == 0
    {
      calls := [];
      for i := 0 to npreds
        invariant |calls| == i && forall k :: 0 <= k < i ==> calls[k] == SubUpdate(addr, taken, rec.subs[k], squashed)
      {
        calls := calls + [SubUpdate(addr, taken, rec.subs[i], squashed)];
      }
      if squashed || !rec.conditional {
        return calls, Ok(());
      }
      var index := WordIndex(addr, ncounters);
      var predictions := rec.predictions.value;
      ghost var before := Row(index);
      var winnerRight := AnyWinnerRight(index, predictions, taken);
      ghost var row := HybridStep(before, predictions, taken);
      for i := 0 to npreds
        invariant forall k :: 0 <= k < i ==> table[index, k] == row[k]
        invariant forall k :: i <= k < npreds ==> table[index, k] == before[k]
        invariant forall k, j :: 0 <= k < ncounters && 0 <= j < npreds && k != index ==>
          table[k, j] == old(table[k, j])
      {
        if winnerRight {
          if predictions[i] != taken {
            table[index, i] := Max(0, table[index, i] - 1);
          }
        } else {
          if predictions[i] == taken {
            table[index, i] := Min(3, table[index, i] + 1);
          }
        }
      }
      assert Row(index) == row;
      HybridStepMeaning(before, predictions, taken);
      if npreds >= 1 {
        HybridKeepsThree(before, predictions, taken);
      }
      assert forall k :: 0 <= k < ncounters && k != index ==> Row(k) == old(Row(k));
      var three := AnyThree(index);
      r := if three then Ok(()) else Err(());
    }
  }

  /**
   * Three predictors, one slot, all counters 3: predictor 0 alone right
   * leaves it at 3 and drops the others to 2; then the other two alone
   * right raise them back to 3.
   */
  lemma ThreePredictorScenario()
    ensures HybridStep([3, 3, 3], [true, false, false], true) == [3, 2, 2]
    ensures HybridStep([3, 2, 2], [false, true, true], true) == [3, 3, 3]
  {
    assert WinnerRight([3, 3, 3], [true, false, false], true) by {
      assert [3, 3, 3][0] == 3;
    }
    var c, p := [3, 2, 2], [false, true, true];
    assert !WinnerRight(c, p, true) by {
      forall i | 0 <= i < 3 && c[i] == 3
        ensures p[i] != true
      {
        assert i == 0;
      }
    }
  }
}
