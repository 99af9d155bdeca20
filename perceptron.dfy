/**
 * Perceptron predictors.  A perceptron holds `histlength + 1` integer
 * weights (a bias and one weight per history position); its output is the
 * dot product of the weights with `[1] + history`, where a history entry is
 * +1 (taken), -1 (not taken) or 0 (not yet filled).  It predicts taken when
 * the output is non-negative, and trains on a commit when the sign of the
 * output was wrong or its magnitude is below the threshold.
 *
 * `PerceptronPredictor` selects a perceptron by address and feeds it the
 * global history; in speculative mode it also keeps one queued +1/-1 per
 * prediction not yet committed.  `LocalPerceptronPredictor` does the same
 * with one history and one queue per perceptron.
 */
module Perceptron {
  import opened Utils
  import opened Results
  import opened Ledger

  // ---------------------------------------------------------------------
  // The perceptron arithmetic
  // ---------------------------------------------------------------------

  /** `np.dot` of two vectors of the same length. */
  function Dot(w: seq<int>, x: seq<int>): int
    requires |w| == |x|
  {
    if |w| == 0 then 0 else w[0] * x[0] + Dot(w[1..], x[1..])
  }

  /** `np.sign`. */
  function Sign(y: int): int
  {
    if y > 0 then 1 else if y < 0 then -1 else 0
  }

  function Abs(y: int): int
  {
    if y < 0 then -y else y
  }

  /** `np.clip(v, -clip, clip)`; `None` stands for the default `np.infty`. */
  function Clip(v: int, clip: Option<nat>): (r: int)
    ensures clip.None? ==> r == v
    ensures clip.Some? ==> -(clip.value as int) <= r <= clip.value
    ensures clip.Some? && -(clip.value as int) <= v <= clip.value ==> r == v
    ensures clip.Some? && v > clip.value ==> r == clip.value
    ensures clip.Some? && v < -(clip.value as int) ==> r == -(clip.value as int)
  {
    if clip.None? then v
    else if v > clip.value then clip.value
    else if v < -(clip.value as int) then -(clip.value as int)
    else v
  }

  /** The perceptron's input: the constant 1 for the bias, then the history. */
  function Input(history: seq<int>): seq<int>
  {
    [1] + history
  }

  /** `y = np.dot(weights, [1] + history)`. */
  function Output(w: seq<int>, history: seq<int>): int
    requires |w| == |history| + 1
  {
    Dot(w, Input(history))
  }

  /** The training condition of `update`. */
  predicate Trains(y: int, t: int, threshold: int)
  {
    Sign(y) != Sign(t) || Abs(y) < threshold
  }

  /** For an outcome of +1 or -1: train when the output has the wrong sign, is zero, or is too weak. */
  lemma TrainsMeaning(y: int, t: int, threshold: int)
    requires t == 1 || t == -1
    ensures Trains(y, t, threshold) <==> t * y <= 0 || Abs(y) < threshold
    ensures y == 0 ==> Trains(y, t, threshold)
  {
  }

  /** `np.clip(w + t * x, -clip, clip)`, element by element. */
  function Step(w: seq<int>, x: seq<int>, t: int, clip: Option<nat>): (r: seq<int>)
    requires |w| == |x|
    ensures |r| == |w|
    ensures forall i :: 0 <= i < |w| ==> r[i] == Clip(w[i] + t * x[i], clip)
  {
    if |w| == 0 then [] else [Clip(w[0] + t * x[0], clip)] + Step(w[1..], x[1..], t, clip)
  }

  /** The weights after `update(history, t)`. */
  function Trained(w: seq<int>, history: seq<int>, t: int, threshold: int, clip: Option<nat>): (r: seq<int>)
    requires |w| == |history| + 1
    ensures |r| == |w|
  {
    if Trains(Output(w, history), t, threshold) then Step(w, Input(history), t, clip) else w
  }

  predicate WithinClip(w: seq<int>, c: nat)
  {
    forall i :: 0 <= i < |w| ==> -(c as int) <= w[i] <= c
  }

  /**
   * A commit that trains puts every weight in `[-clip, clip]`; one that
   * does not leaves the weights as they were.
   */
  lemma TrainedWeights(w: seq<int>, history: seq<int>, t: int, threshold: int, clip: Option<nat>)
    requires |w| == |history| + 1
    ensures !Trains(Output(w, history), t, threshold) ==> Trained(w, history, t, threshold, clip) == w
    ensures Trains(Output(w, history), t, threshold) && clip.Some? ==>
      WithinClip(Trained(w, history, t, threshold, clip), clip.value)
    ensures clip.Some? && WithinClip(w, clip.value) ==>
      WithinClip(Trained(w, history, t, threshold, clip), clip.value)
  {
  }

  /** Adding t times x to the weights adds t * (x . x) to the dot product with x. */
  lemma {:induction false} DotStep(w: seq<int>, x: seq<int>, t: int)
    requires |w| == |x|
    ensures Dot(Step(w, x, t, None), x) == Dot(w, x) + t * Dot(x, x)
  {
    if |w| > 0 {
      var s := Step(w, x, t, None);
      assert s[1..] == Step(w[1..], x[1..], t, None);
      DotStep(w[1..], x[1..], t);
      assert (w[0] + t * x[0]) * x[0] == w[0] * x[0] + t * (x[0] * x[0]);
    }
  }

  /** A dot product of a vector with itself is a sum of squares. */
  lemma {:induction false} DotSelf(x: seq<int>)
    ensures Dot(x, x) >= 0
    ensures |x| > 0 && x[0] != 0 ==> Dot(x, x) >= 1
  {
    if |x| > 0 {
      DotSelf(x[1..]);
      assert x[0] * x[0] >= 0;
      if x[0] != 0 {
        assert x[0] * x[0] >= 1;
      }
    }
  }

  /**
   * Without clipping, a training step moves the output toward the outcome
   * t: t * y grows by `1 + sum(h_i^2)`, at least 1.
   */
  lemma TrainingMovesTowardOutcome(w: seq<int>, history: seq<int>, t: int)
    requires |w| == |history| + 1 && (t == 1 || t == -1)
    ensures t * Output(Step(w, Input(history), t, None), history) ==
            t * Output(w, history) + Dot(Input(history), Input(history))
    ensures t * Output(Step(w, Input(history), t, None), history) >= t * Output(w, history) + 1
  {
    var x := Input(history);
    DotStep(w, x, t);
    DotSelf(x);
    var y, d := Dot(w, x), Dot(x, x);
    assert t * (y + t * d) == t * y + (t * t) * d;
    assert t * t == 1;
  }

  /** +1 for taken, -1 for not taken. */
  function Outcome(taken: bool): int
  {
    if taken then 1 else -1
  }

  /** Entries of a history vector: +1, -1, or 0 before the register fills. */
  predicate IsHistory(h: seq<int>)
  {
    forall i :: 0 <= i < |h| ==> -1 <= h[i] <= 1
  }

  /** `temphist[-histlength:]`: the youngest n entries. */
  function LastN(s: seq<int>, n: nat): (r: seq<int>)
    requires n <= |s|
    ensures |r| == n
    ensures forall i :: 0 <= i < n ==> r[i] == s[|s| - n + i]
  {
    s[|s| - n..]
  }

  /** The result of `np.roll(h, -1)` followed by `h[-1] = t`. */
  function Shifted(h: seq<int>, t: int): (r: seq<int>)
    requires |h| >= 1
    ensures |r| == |h| && r[|r| - 1] == t
    ensures forall i :: 0 <= i < |h| - 1 ==> r[i] == h[i + 1]
  {
    h[1..] + [t]
  }

  class Perceptron {
    const length: nat
    const threshold: int
    const clip: Option<nat>
    /** `_weights`: the bias weight first. */
    var weights: seq<int>

    ghost predicate Valid()
      reads this
    {
      |weights| == length + 1
    }

    /** A new perceptron: bias weight 1, every other weight 0. */
    constructor (length: nat, threshold: int, clip: Option<nat>)
      ensures Valid()
      ensures this.length == length && this.threshold == threshold && this.clip == clip
      ensures weights == [1] + seq(length, _ => 0)
    {
      this.length := length;
      this.threshold := threshold;
      this.clip := clip;
      weights := [1] + seq(length, _ => 0);
    }

    /** `predict`: taken when the output is non-negative. */
    function Predict(history: seq<int>): bool
      reads this
      requires Valid() && |history| == length
    {
      Output(weights, history) >= 0
    }

    /** `update`: train toward the outcome t (+1 or -1) if the training condition holds. */
    method Update(history: seq<int>, t: int)
      requires Valid() && |history| == length
      modifies this
      ensures Valid()
      ensures weights == Trained(old(weights), history, t, threshold, clip)
    {
      var hist := [1] + history;
      var y := Dot(weights, hist);
      if Sign(y) != Sign(t) || Abs(y) < threshold {
        weights := Step(weights, hist, t, clip);
      }
    }
  }

  /** The IndexError a speculative-history operation raises on an empty list. */
  datatype HookError =
    | EmptySpecHistory   // `pop` or `[-1]` on an empty speculative history
    | UndefinedName      // `LocalPerceptronPredictor.squash` refers to an undefined `branch_addr`

  /** Whether every perceptron in the list is valid with this length, threshold and clip. */
  ghost predicate Perceptrons(table: seq<Perceptron>, histlength: nat, threshold: int, clip: Option<nat>)
    reads table
  {
    && (forall i, j :: 0 <= i < j < |table| ==> table[i] != table[j])
    && (forall i :: 0 <= i < |table| ==>
          table[i].Valid() && table[i].length == histlength &&
          table[i].threshold == threshold && table[i].clip == clip)
  }

  /** `nperceptrons` fresh perceptrons, as the list comprehension in the constructors builds them. */
  method NewPerceptrons(nperceptrons: nat, histlength: nat, threshold: int, clip: Option<nat>)
    returns (table: seq<Perceptron>)
    ensures |table| == nperceptrons
    ensures Perceptrons(table, histlength, threshold, clip)
    ensures forall i :: 0 <= i < |table| ==> fresh(table[i])
    ensures forall i :: 0 <= i < |table| ==> table[i].weights == [1] + seq(histlength, _ => 0)
  {
    table := [];
    while |table| < nperceptrons
      invariant |table| <= nperceptrons
      invariant Perceptrons(table, histlength, threshold, clip)
      invariant forall i :: 0 <= i < |table| ==> fresh(table[i])
      invariant forall i :: 0 <= i < |table| ==> table[i].weights == [1] + seq(histlength, _ => 0)
    {
      var p := new Perceptron(histlength, threshold, clip);
      table := table + [p];
    }
  }

  // ---------------------------------------------------------------------
  // The global perceptron predictor
  // ---------------------------------------------------------------------

  class PerceptronPredictor {
    const ledger: Ledger
    const nperceptrons: nat
    const histlength: nat
    const threshold: int
    const clip: Option<nat>
    const speculative: bool
    const table: seq<Perceptron>
    /** `_globalhistory`: the committed outcomes, oldest first. */
    var globalhistory: seq<int>
    /** `_spechistory`: one +1/-1 per prediction not yet committed, oldest first. */
    var spechistory: seq<int>

    /** Everything but the link between the queue and the ledger. */
    ghost predicate Shape()
      reads this, table
    {
      && |table| == nperceptrons >= 1 && histlength >= 1
      && Perceptrons(table, histlength, threshold, clip)
      && |globalhistory| == histlength && IsHistory(globalhistory)
      && IsHistory(spechistory) && (forall i :: 0 <= i < |spechistory| ==> spechistory[i] != 0)
      && (!speculative ==> spechistory == [])
    }

    /**
     * In speculative mode the queue holds exactly one entry per open
     * conditional record, so no `pop` or `[-1]` ever meets an empty list.
     */
    ghost predicate Valid()
      reads this, ledger, table
    {
      && ledger.Valid() && ledger.recordTrace == NONE
      && Shape()
      && (speculative ==> |spechistory| == |ConditionalKeys(ledger.histories)|)
    }

    /** The base class is set up without arguments, so nothing is ever traced. */
    constructor (nperceptrons: nat, histlength: nat, threshold: int, clip: Option<nat>, speculative: bool)
      requires nperceptrons >= 1 && histlength >= 1
      ensures Valid() && fresh(ledger)
      ensures ledger.histories == map[] && ledger.count == 0 && ledger.trace == [] && ledger.recordTrace == NONE
      ensures this.nperceptrons == nperceptrons && this.histlength == histlength
      ensures this.threshold == threshold && this.clip == clip && this.speculative == speculative
      ensures globalhistory == seq(histlength, _ => 0) && spechistory == []
      ensures forall i :: 0 <= i < |table| ==> fresh(table[i])
      ensures forall i :: 0 <= i < |table| ==> table[i].weights == [1] + seq(histlength, _ => 0)
    {
      ledger := new Ledger(NONE);
      this.nperceptrons := nperceptrons;
      this.histlength := histlength;
      this.threshold := threshold;
      this.clip := clip;
      this.speculative := speculative;
      var perceptrons := NewPerceptrons(nperceptrons, histlength, threshold, clip);
      table := perceptrons;
      globalhistory := seq(histlength, _ => 0);
      spechistory := [];
      new;
      assert ConditionalKeys(ledger.histories) == {};
    }

    /** The history a lookup feeds the perceptron. */
    function InputHistory(): (h: seq<int>)
      reads this
      requires |globalhistory| == histlength
      ensures |h| == histlength
      ensures !speculative ==> h == globalhistory
      ensures speculative && |spechistory| <= histlength ==>
        h == globalhistory[|spechistory|..] + spechistory
      ensures speculative && |spechistory| >= histlength ==>
        h == spechistory[|spechistory| - histlength..]
    {
      if speculative then LastN(globalhistory + spechistory, histlength) else globalhistory
    }

    /** `lookup`: the selected perceptron's prediction; queued when speculative. */
    method Lookup(addr: nat) returns (p: bool)
      requires Shape()
      modifies this
      ensures Shape()
      ensures p == table[WordIndex(addr, nperceptrons)].Predict(old(InputHistory()))
      ensures globalhistory == old(globalhistory)
      ensures spechistory == if speculative then old(spechistory) + [Outcome(p)] else old(spechistory)
    {
      var index := WordIndex(addr, nperceptrons);
      var hist := globalhistory;
      if speculative {
        var temphist := globalhistory + spechistory;
        hist := temphist[|temphist| - histlength..];
      }
      p := table[index].Predict(hist);
      if speculative {
        spechistory := spechistory + [if p then 1 else -1];
      }
    }

    /** `btb_update`: the youngest queued prediction of a conditional branch becomes not taken. */
    method BtbUpdate(rec: Record) returns (r: Result<(), HookError>)
      requires Shape()
      modifies this
      ensures Shape() && globalhistory == old(globalhistory)
      ensures r.Err? <==> rec.conditional && speculative && old(spechistory) == []
      ensures r.Err? ==> r.error == EmptySpecHistory && spechistory == old(spechistory)
      ensures r.Ok? ==> (spechistory ==
        if rec.conditional && speculative then old(spechistory)[|old(spechistory)| - 1 := -1]
        else old(spechistory))
    {
      if rec.conditional && speculative {
        if spechistory == [] {
          return Err(EmptySpecHistory);
        }
        spechistory := spechistory[|spechistory| - 1 := -1];
      }
      r := Ok(());
    }

    /** `squash`: drop the youngest queued prediction of a conditional branch. */
    method Squash(rec: Record) returns (r: Result<(), HookError>)
      requires Shape()
      modifies this
      ensures Shape() && globalhistory == old(globalhistory)
      ensures r.Err? <==> rec.conditional && speculative && old(spechistory) == []
      ensures r.Err? ==> r.error == EmptySpecHistory && spechistory == old(spechistory)
      ensures r.Ok? ==> (spechistory ==
        if rec.conditional && speculative then old(spechistory)[..|old(spechistory)| - 1]
        else old(spechistory))
    {
      if rec.conditional && speculative {
        if spechistory == [] {
          return Err(EmptySpecHistory);
        }
        spechistory := spechistory[..|spechistory| - 1];
      }
      r := Ok(());
    }

    /**
     * `update`: squashed updates and unconditional branches change nothing.
     * A commit trains the selected perceptron on the committed global
     * history, drops the oldest queued prediction, and shifts the outcome
     * into the global history.
     */
    method Update(addr: nat, taken: bool, rec: Record, squashed: bool) returns (r: Result<(), HookError>)
      requires Shape()
      modifies this, table[WordIndex(addr, nperceptrons)]
      ensures Shape()
      ensures forall j :: 0 <= j < |table| && j != WordIndex(addr, nperceptrons) ==>
        table[j].weights == old(table[j].weights)
      ensures squashed || !rec.conditional ==>
        r.Ok? && unchanged(this) && unchanged(table[WordIndex(addr, nperceptrons)])
      ensures !squashed && rec.conditional ==>
        var p := table[WordIndex(addr, nperceptrons)];
        p.weights == Trained(old(p.weights), old(globalhistory), Outcome(taken), threshold, clip)
      ensures r.Err? <==> !squashed && rec.conditional && speculative && old(spechistory) == []
      ensures r.Err? ==> (r.error == EmptySpecHistory &&
        globalhistory == old(globalhistory) && spechistory == old(spechistory))
      ensures r.Ok? && !squashed && rec.conditional ==>
        globalhistory == Shifted(old(globalhistory), Outcome(taken)) &&
        spechistory == if speculative then old(spechistory)[1..] else old(spechistory)
    {
      if squashed || !rec.conditional {
        return Ok(());
      }
      var index := WordIndex(addr, nperceptrons);
      var t := if taken then 1 else -1;
      table[index].Update(globalhistory, t);
      if speculative {
        if spechistory == [] {
          return Err(EmptySpecHistory);
        }
        spechistory := spechistory[1..];
      }
      globalhistory := globalhistory[1..] + [t];
      r := Ok(());
    }

    // -------------------------------------------------------------------
    // The `_base_*` entry points: ledger step, hook, closing ledger step
    // -------------------------------------------------------------------

    method BaseLookup(addr: nat, index: nat) returns (r: Result<(bool, nat), LedgerError>)
      requires Valid()
      modifies this, ledger
      ensures Valid() && globalhistory == old(globalhistory)
      ensures index != 0 ==> r == Err(KeyNotZero) && unchanged(this) && unchanged(ledger)
      ensures index == 0 ==> r.Ok? && r.value.1 == old(ledger.count) + 1
      ensures index == 0 ==> r.value.0 == table[WordIndex(addr, nperceptrons)].Predict(old(InputHistory()))
      ensures index == 0 ==>
        ledger.histories == old(ledger.histories)[r.value.1 := NewRecord(r.value.1, true)]
      ensures index == 0 ==>
        spechistory == if speculative then old(spechistory) + [Outcome(r.value.0)] else old(spechistory)
    {
      var res := ledger.Open(index, true);
      if res.Err? {
        return Err(res.error);
      }
      ConditionalKeysInsert(old(ledger.histories), res.value, NewRecord(res.value, true));
      var p := Lookup(addr);
      r := Ok((p, res.value));
    }

    method BaseUncondBranch(addr: nat, index: nat) returns (r: Result<(bool, nat), LedgerError>)
      requires Valid()
      modifies ledger
      ensures Valid()
      ensures index != 0 ==> r == Err(KeyNotZero) && unchanged(ledger)
      ensures index == 0 ==> r.Ok? && r.value == (false, old(ledger.count) + 1)
      ensures index == 0 ==>
        ledger.histories == old(ledger.histories)[r.value.1 := NewRecord(r.value.1, false)]
    {
      var res := ledger.Open(index, false);
      if res.Err? {
        return Err(res.error);
      }
      ConditionalKeysInsert(old(ledger.histories), res.value, NewRecord(res.value, false));
      r := Ok((false, res.value));
    }

    method BaseBtbUpdate(addr: nat, index: nat) returns (r: Result<(bool, nat), LedgerError>)
      requires Valid()
      modifies this
      ensures Valid() && globalhistory == old(globalhistory)
      ensures index == 0 ==> r == Err(ZeroKey) && unchanged(this)
      ensures index != 0 && index !in ledger.histories ==> r == Err(UnknownKey) && unchanged(this)
      ensures r.Ok? <==> index != 0 && index in ledger.histories
      ensures r.Ok? ==> r.value == (false, index)
      ensures r.Ok? && ledger.histories[index].conditional && speculative ==> old(spechistory) != []
      ensures r.Ok? ==> (spechistory ==
        if ledger.histories[index].conditional && speculative
        then old(spechistory)[|old(spechistory)| - 1 := -1]
        else old(spechistory))
    {
      var rec := ledger.Fetch(index);
      if rec.Err? {
        return Err(rec.error);
      }
      if rec.value.conditional && speculative {
        assert index in ConditionalKeys(ledger.histories);
      }
      var h := BtbUpdate(rec.value);
      assert h.Ok?;
      r := Ok((false, index));
    }

    method BaseUpdate(addr: nat, taken: bool, index: nat, squashed: bool)
      returns (r: Result<(), LedgerError>)
      requires Valid()
      modifies this, ledger, table[WordIndex(addr, nperceptrons)]
      ensures Valid() && ledger.count == old(ledger.count)
      ensures index == 0 ==> r == Err(ZeroKey) && unchanged(this) && unchanged(ledger)
      ensures index != 0 && index !in old(ledger.histories) ==>
        r == Err(UnknownKey) && unchanged(this) && unchanged(ledger)
      ensures r.Ok? <==> index != 0 && index in old(ledger.histories)
      ensures ledger.trace == old(ledger.trace)
      ensures r.Ok? ==> (ledger.histories ==
        if squashed then old(ledger.histories) else old(ledger.histories) - {index})
      ensures r.Ok? && !squashed && old(ledger.histories)[index].conditional && speculative ==>
        old(spechistory) != []
      ensures r.Ok? && !squashed && old(ledger.histories)[index].conditional ==>
        var p := table[WordIndex(addr, nperceptrons)];
        && p.weights == Trained(old(p.weights), old(globalhistory), Outcome(taken), threshold, clip)
        && globalhistory == Shifted(old(globalhistory), Outcome(taken))
        && spechistory == (if speculative then old(spechistory)[1..] else old(spechistory))
      ensures r.Ok? && (squashed || !old(ledger.histories)[index].conditional) ==>
        unchanged(this) && unchanged(table[WordIndex(addr, nperceptrons)])
    {
      var rec := ledger.Fetch(index);
      if rec.Err? {
        return Err(rec.error);
      }
      if !squashed && rec.value.conditional && speculative {
        assert index in ConditionalKeys(ledger.histories);
      }
      var h := Update(addr, taken, rec.value, squashed);
      assert h.Ok?;
      if !squashed {
        ConditionalKeysRemove(ledger.histories, index);
      }
      RecordSettingsMeaning(rec.value.conditional);
      ledger.Retire(index, addr, taken, squashed);
      r := Ok(());
    }

    method BaseSquash(index: nat) returns (r: Result<(), LedgerError>)
      requires Valid()
      modifies this, ledger
      ensures Valid() && globalhistory == old(globalhistory)
      ensures ledger.count == old(ledger.count) && ledger.trace == old(ledger.trace)
      ensures index == 0 ==> r == Err(ZeroKey) && unchanged(this) && unchanged(ledger)
      ensures index != 0 && index !in old(ledger.histories) ==>
        r == Err(UnknownKey) && unchanged(this) && unchanged(ledger)
      ensures r.Ok? <==> index != 0 && index in old(ledger.histories)
      ensures r.Ok? ==> ledger.histories == old(ledger.histories) - {index}
      ensures r.Ok? && old(ledger.histories)[index].conditional && speculative ==> old(spechistory) != []
      ensures r.Ok? ==> (spechistory ==
        if old(ledger.histories)[index].conditional && speculative
        then old(spechistory)[..|old(spechistory)| - 1]
        else old(spechistory))
    {
      var rec := ledger.Fetch(index);
      if rec.Err? {
        return Err(rec.error);
      }
      if rec.value.conditional && speculative {
        assert index in ConditionalKeys(ledger.histories);
      }
      var h := Squash(rec.value);
      assert h.Ok?;
      ConditionalKeysRemove(ledger.histories, index);
      ledger.Discard(index);
      r := Ok(());
    }

    /**
     * A conditional branch predicted, redirected by the BTB and then
     * squashed leaves no trace: the queue, the global history, the weights
     * and the open records are as before.
     */
    method PredictThenRewind(addr: nat)
      requires Valid()
      modifies this, ledger
      ensures Valid()
      ensures spechistory == old(spechistory) && globalhistory == old(globalhistory)
      ensures ledger.histories == old(ledger.histories)
      ensures forall j :: 0 <= j < |table| ==> table[j].weights == old(table[j].weights)
    {
      var looked := BaseLookup(addr, 0);
      var key := looked.value.1;
      var redirected := BaseBtbUpdate(addr, key);
      var squashed := BaseSquash(key);
    }
  }

  // ---------------------------------------------------------------------
  // The local perceptron predictor
  // ---------------------------------------------------------------------

  class LocalPerceptronPredictor {
    const nperceptrons: nat
    const histlength: nat
    const threshold: int
    const clip: Option<nat>
    const speculative: bool
    const table: seq<Perceptron>
    /** `_histories`: the committed outcomes of each slot, oldest first. */
    var histories: seq<seq<int>>
    /** `_spechistory`: the queued predictions of each slot, oldest first. */
    var spechistory: seq<seq<int>>

    ghost predicate Valid()
      reads this, table
    {
      && |table| == nperceptrons >= 1 && histlength >= 1
      && Perceptrons(table, histlength, threshold, clip)
      && |histories| == nperceptrons && |spechistory| == nperceptrons
      && (forall i :: 0 <= i < nperceptrons ==> |histories[i]| == histlength && IsHistory(histories[i]))
      && (forall i :: 0 <= i < nperceptrons ==> IsHistory(spechistory[i]))
      && (!speculative ==> forall i :: 0 <= i < nperceptrons ==> spechistory[i] == [])
    }

    constructor (nperceptrons: nat, histlength: nat, threshold: int, clip: Option<nat>, speculative: bool)
      requires nperceptrons >= 1 && histlength >= 1
      ensures Valid()
      ensures this.nperceptrons == nperceptrons && this.histlength == histlength
      ensures this.threshold == threshold && this.clip == clip && this.speculative == speculative
      ensures histories == seq(nperceptrons, _ => seq(histlength, _ => 0))
      ensures spechistory == seq(nperceptrons, _ => [])
      ensures forall i :: 0 <= i < |table| ==> fresh(table[i])
      ensures forall i :: 0 <= i < |table| ==> table[i].weights == [1] + seq(histlength, _ => 0)
    {
      this.nperceptrons := nperceptrons;
      this.histlength := histlength;
      this.threshold := threshold;
      this.clip := clip;
      this.speculative := speculative;
      var perceptrons := NewPerceptrons(nperceptrons, histlength, threshold, clip);
      table := perceptrons;
      histories := seq(nperceptrons, _ => seq(histlength, _ => 0));
      spechistory := seq(nperceptrons, _ => []);
    }

    /** The history a lookup at slot i feeds its perceptron. */
    function InputHistory(i: nat): (h: seq<int>)
      reads this
      requires i < |histories| && i < |spechistory| && |histories[i]| == histlength
      ensures |h| == histlength
      ensures !speculative ==> h == histories[i]
    {
      if speculative then LastN(histories[i] + spechistory[i], histlength) else histories[i]
    }

    /** `lookup`: the slot's perceptron on the slot's history; queued at that slot when speculative. */
    method Lookup(addr: nat) returns (p: bool)
      requires Valid()
      modifies this
      ensures Valid() && histories == old(histories)
      ensures var i := WordIndex(addr, nperceptrons);
        && p == table[i].Predict(old(InputHistory(i)))
        && spechistory == if speculative then old(spechistory)[i := old(spechistory)[i] + [Outcome(p)]]
                          else old(spechistory)
    {
      var index := WordIndex(addr, nperceptrons);
      var hist := histories[index];
      if speculative {
        var temphist := histories[index] + spechistory[index];
        hist := temphist[|temphist| - histlength..];
      }
      p := table[index].Predict(hist);
      if speculative {
        spechistory := spechistory[index := spechistory[index] + [if p then 1 else -1]];
      }
    }

    /** `btb_update`: the youngest queued prediction at the branch's slot becomes not taken. */
    method BtbUpdate(addr: nat, rec: Record) returns (r: Result<(), HookError>)
      requires Valid()
      modifies this
      ensures Valid() && histories == old(histories)
      ensures var i := WordIndex(addr, nperceptrons);
        && (r.Err? <==> rec.conditional && speculative && old(spechistory)[i] == [])
        && (r.Err? ==> r.error == EmptySpecHistory && spechistory == old(spechistory))
        && (r.Ok? ==> (spechistory ==
              if rec.conditional && speculative
              then old(spechistory)[i := old(spechistory)[i][|old(spechistory)[i]| - 1 := -1]]
              else old(spechistory)))
    {
      if rec.conditional && speculative {
        var index := WordIndex(addr, nperceptrons);
        if spechistory[index] == [] {
          return Err(EmptySpecHistory);
        }
        var q := spechistory[index];
        spechistory := spechistory[index := q[|q| - 1 := -1]];
      }
      r := Ok(());
    }

    /**
     * `squash`: for a conditional branch in speculative mode the source
     * computes the slot from a name it never defined, so the call fails;
     * otherwise it does nothing.
     */
    method Squash(rec: Record) returns (r: Result<(), HookError>)
      requires Valid()
      ensures r.Err? <==> rec.conditional && speculative
      ensures r.Err? ==> r.error == UndefinedName
    {
      if rec.conditional && speculative {
        return Err(UndefinedName);
      }
      r := Ok(());
    }

    /**
     * `update`: squashed updates and unconditional branches change nothing.
     * A commit trains the slot's perceptron on the slot's committed
     * history, drops the slot's oldest queued prediction and shifts the
     * outcome into the slot's history; other slots are untouched.
     */
    method Update(addr: nat, taken: bool, rec: Record, squashed: bool) returns (r: Result<(), HookError>)
      requires Valid()
      modifies this, table[WordIndex(addr, nperceptrons)]
      ensures Valid()
      ensures forall j :: 0 <= j < |table| && j != WordIndex(addr, nperceptrons) ==>
        table[j].weights == old(table[j].weights)
      ensures squashed || !rec.conditional ==>
        r.Ok? && unchanged(this) && unchanged(table[WordIndex(addr, nperceptrons)])
      ensures var i := WordIndex(addr, nperceptrons);
        && (!squashed && rec.conditional ==>
              table[i].weights == Trained(old(table[i].weights), old(histories[i]), Outcome(taken), threshold, clip))
        && (r.Err? <==> !squashed && rec.conditional && speculative && old(spechistory)[i] == [])
        && (r.Err? ==> (r.error == EmptySpecHistory &&
              histories == old(histories) && spechistory == old(spechistory)))
        && (r.Ok? && !squashed && rec.conditional ==>
              histories == old(histories)[i := Shifted(old(histories)[i], Outcome(taken))] &&
              spechistory == if speculative then old(spechistory)[i := old(spechistory)[i][1..]]
                             else old(spechistory))
    {
      if squashed || !rec.conditional {
        return Ok(());
      }
      var index := WordIndex(addr, nperceptrons);
      var t := if taken then 1 else -1;
      table[index].Update(histories[index], t);
      if speculative {
        if spechistory[index] == [] {
          return Err(EmptySpecHistory);
        }
        spechistory := spechistory[index := spechistory[index][1..]];
      }
      histories := histories[index := histories[index][1..] + [t]];
      r := Ok(());
    }
  }
}
