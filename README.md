# Branch-prediction engine: a Dafny model

This project models the predictor library of an external branch-prediction
engine for a cycle-level CPU simulator. The simulator asks the engine for a
prediction on every branch (`lookup`, `uncond_branch`), redirects it when the
branch target buffer misses (`btb_update`), and later either commits the
branch outcome (`update`) or throws the speculative path away (`squash`).

The model covers these parts:

- **The history ledger of the base predictor** (`ledger.dfy`). Each in-flight
  branch gets a fresh key and a record. The record stays open until the branch
  is committed or squashed. Committed outcomes are traced according to a
  two-bit recording policy.
- **The two helpers** (`utils.dfy`): a saturating counter and a shift-register
  history. Python's unbounded `&`, `|`, `^`, `<<` and `>>` on non-negative
  integers are modelled in `bits.dfy`, with lemmas that tie them to `%`, `/`
  and `+`.
- **The table predictors**:
  - the local two-bit predictor, both the current version and the older one
    built from counter objects;
  - GShare;
  - GSelect;
  - the two-level adaptive predictor;
  - GSkew, with its hash functions and majority vote.
- **The perceptron predictors** (`perceptron.dfy`): the perceptron itself, the
  global-history predictor, and the local-history predictor. Both predictors
  have an optional speculative history.
- **The meta-predictors**: the combining (tournament) predictor and the
  multi-hybrid predictor. A list of `SubCall` values (`forwarding.dfy`) stands
  for the calls they forward to their sub-predictors.

Objects whose fields the source updates in place are classes:

- tables are `array`/`array2`;
- histories and queues are `seq` fields that the methods reassign;
- the ledger's dictionary is a `map`.

A method's contract states its new state as a function of the old one. The
properties the source relies on are lemmas or invariants in `Valid()`.

The following are parameters:

- I/O;
- the sub-predictors' answers to the meta-predictors;
- user-supplied hash functions.

Most failing assertions and failing list operations in the source are `Err`
results, not preconditions. The few that became preconditions are listed,
member by member, under "Left out".

## Model

| member | source | states |
|---|---|---|
| Bits.AndMask | bp_eval/bpredict/utils.py:45 | `x & (2**n - 1)` is `x mod 2**n` |
| Bits.MaskBound | bp_eval/bpredict/predictors/gskew.py:34 | a value masked to n bits is below `2**n` |
| Bits.XorBound | bp_eval/bpredict/predictors/gskew.py:37 | the xor of two n-bit values is an n-bit value |
| Bits.OrBound | bp_eval/bpredict/predictors/gskew.py:30 | the or of two n-bit values is an n-bit value |
| Bits.OrDisjoint | bp_eval/bpredict/predictors/gselect.py:54-55 | or-ing a value below `2**k` into a multiple of `2**k` is addition |
| Bits.XorShr | bp_eval/bpredict/predictors/gskew.py:29 | shifting right distributes over xor |
| Utils.InitialValueInRange | bp_eval/bpredict/utils.py:24-28 | a counter starts within its bounds; an `init` of 0 gives `minval` (0 is falsy) |
| Utils.IncrementedSteps | bp_eval/bpredict/utils.py:30-31 | increment adds exactly 1 below `maxval`, does nothing at `maxval`, and stays in bounds |
| Utils.DecrementedSteps | bp_eval/bpredict/utils.py:33-34 | decrement subtracts exactly 1 above `minval`, does nothing at `minval`, and stays in bounds |
| Utils.RunStaysInRange | bp_eval/bpredict/utils.py:24-34 | after any sequence of increments and decrements the value is still in `[minval, maxval]` |
| Utils.SaturatingCounter.constructor | bp_eval/bpredict/utils.py:24-28 | requires a given `init` to be within the bounds (the source's assertion); the value is `init or minval` |
| Utils.SaturatingCounter.Increment | bp_eval/bpredict/utils.py:30-31 | new value is `min(value + 1, maxval)`; +1 below the maximum, unchanged at it; bounds kept |
| Utils.SaturatingCounter.Decrement | bp_eval/bpredict/utils.py:33-34 | new value is `max(value - 1, minval)`; -1 above the minimum, unchanged at it; bounds kept |
| Utils.ShiftIn | bp_eval/bpredict/utils.py:44-45 | the shift-in is `(2*value + taken) mod 2**length`, below `2**length`; for length >= 1 its low bit is `taken` and the rest is the old value without its top bit |
| Utils.ShiftInArithmetic | bp_eval/bpredict/utils.py:45 | the bitwise shift-or-mask equals the arithmetic form |
| Utils.History.constructor | bp_eval/bpredict/utils.py:40-42 | a history starts at 0, below `2**length` |
| Utils.History.Update | bp_eval/bpredict/utils.py:44-45 | the new value is the shift-in of the outcome; it stays below `2**length` |
| Utils.TwoBitUpdate | bp_eval/bpredict/predictors/local2bit.py:45-48 | a two-bit counter stays in [0, 3]; it predicts taken afterwards exactly when one wrong outcome cannot flip it; it agrees with a saturating counter on [0, 3] |
| Utils.WordIndex | bp_eval/bpredict/predictors/local2bit.py:50-51 | the word-address slot is inside the table |
| Utils.WordIndexOfWord | bp_eval/bpredict/predictors/local2bit.py:50-51 | word-aligned addresses below 4n get slots 0, 1, 2, ... |
| Utils.WordIndexAliases | bp_eval/bpredict/predictors/local2bit.py:50-51 | the byte offset within a word is ignored; addresses 4n bytes apart share a slot |
| Ledger.RecordsBits | bp_eval/bpredict/basepredictor.py:80-83 | a policy records conditional branches iff bit 0 is set, and unconditional ones iff bit 1 is set |
| Ledger.RecordSettingsMeaning | bp_eval/bpredict/basepredictor.py:22-26 | NONE records nothing; CONDITIONAL records only conditional branches; UNCONDITIONAL records only unconditional ones; ALL records everything |
| Ledger.Traced | bp_eval/bpredict/basepredictor.py:78-84 | a commit the policy asks for appends exactly `(addr, taken)`; anything else leaves the trace unchanged |
| Ledger.ConditionalKeysInsert | bp_eval/bpredict/basepredictor.py:53-55 | opening a record adds its key to the open conditional keys iff it is conditional, and the count grows by one accordingly |
| Ledger.ConditionalKeysRemove | bp_eval/bpredict/basepredictor.py:87-88 | deleting a record removes exactly its key; the count drops by one iff it was conditional |
| Ledger.Ledger.constructor | bp_eval/bpredict/basepredictor.py:40-45 | the ledger starts with no records, a count of 0 and an empty trace |
| Ledger.Ledger.NextKey | bp_eval/bpredict/basepredictor.py:47-49 | keys are 1, 2, 3, ...; a new key is never 0, never open, and above every open key |
| Ledger.Ledger.Open | bp_eval/bpredict/basepredictor.py:51-55 | a non-zero key is refused and nothing changes; otherwise exactly one fresh record is inserted under the next key |
| Ledger.Ledger.Fetch | bp_eval/bpredict/basepredictor.py:75-76 | key 0 and unknown keys are errors; otherwise it returns the stored record |
| Ledger.Ledger.Retire | bp_eval/bpredict/basepredictor.py:78-88 | a commit traces per the policy and deletes exactly this record; a squashed update keeps it and the trace |
| Ledger.Ledger.Discard | bp_eval/bpredict/basepredictor.py:94 | exactly this record is deleted |
| Ledger.BasePredictor.constructor | bp_eval/bpredict/basepredictor.py:40-45 | empty ledger with the given recording policy |
| Ledger.BasePredictor.BaseLookup | bp_eval/bpredict/basepredictor.py:51-57 | key must be 0; returns `(True, new key)` with the default hook and opens one conditional record |
| Ledger.BasePredictor.BaseUncondBranch | bp_eval/bpredict/basepredictor.py:59-65 | key must be 0; returns `(False, new key)` and opens one unconditional record |
| Ledger.BasePredictor.BaseBtbUpdate | bp_eval/bpredict/basepredictor.py:67-71 | key must be non-zero and open; returns `(False, key)` |
| Ledger.BasePredictor.BaseUpdate | bp_eval/bpredict/basepredictor.py:73-88 | error iff the key is 0 or unknown; otherwise trace per policy, and delete the record iff not squashed |
| Ledger.BasePredictor.BaseSquash | bp_eval/bpredict/basepredictor.py:90-94 | error iff the key is 0 or unknown; otherwise exactly that record is deleted and the trace is unchanged |
| Local2Bit.Local2BitPredictor.constructor | bp_eval/bpredict/predictors/local2bit.py:29-33 | `ncounters` counters, all 3 |
| Local2Bit.Local2BitPredictor.Lookup | bp_eval/bpredict/predictors/local2bit.py:35-37 | predicts taken iff the address's counter is at least 2; nothing changes |
| Local2Bit.Local2BitPredictor.Update | bp_eval/bpredict/predictors/local2bit.py:39-48 | squashed updates and unconditional branches change nothing; a commit moves only the address's counter one step toward the outcome, saturating in [0, 3] |
| Local2Bit.FourCounterScenario | bp_eval/bpredict/predictors/local2bit.py:35-51 | with 4 counters, address 0 predicts taken, still taken after one not-taken commit, and not taken after a second one |
| LegacyLocal2Bit.LegacyLocal2BitPredictor.constructor | bp_eval/bpredict/local2bit.py:32-36 | `4 * size_in_bytes` distinct `SaturatingCounter(0, 3)` objects, all at 0 |
| LegacyLocal2Bit.LegacyLocal2BitPredictor.Lookup | bp_eval/bpredict/local2bit.py:38-40 | predicts taken iff the address's counter is at least 2 |
| LegacyLocal2Bit.LegacyLocal2BitPredictor.Update | bp_eval/bpredict/local2bit.py:42-50 | a squashed update changes nothing; any other update (conditional or not) increments or decrements only the address's counter |
| LegacyLocal2Bit.FirstLookupNotTaken | bp_eval/bpredict/local2bit.py:36-40 | a new predictor predicts not taken at every address |
| GShare.Index | bp_eval/bpredict/predictors/gshare.py:49-50 | the index is `(addr div 4) xor ghr` reduced mod `2**histlength`, so it is in the table |
| GShare.GSharePredictor.constructor | bp_eval/bpredict/predictors/gshare.py:25-31 | `2**histlength` counters, all 3; GHR 0 |
| GShare.GSharePredictor.Lookup | bp_eval/bpredict/predictors/gshare.py:33-35 | predicts from the counter at the xor index; no state changes |
| GShare.GSharePredictor.Update | bp_eval/bpredict/predictors/gshare.py:37-47 | a squashed update changes nothing; any commit trains only the counter indexed with the old GHR, then shifts the outcome into the GHR, which stays in range |
| GSelect.Index | bp_eval/bpredict/predictors/gselect.py:53-55 | with the GHR in range, the index is the address field above the GHR field: low bits = GHR, high bits = `(addr div 4) mod 2**addrlength`, below the table size |
| GSelect.IndexFields | bp_eval/bpredict/predictors/gselect.py:53-55 | the shift-or of the two fields equals their arithmetic concatenation |
| GSelect.GSelectPredictor.constructor | bp_eval/bpredict/predictors/gselect.py:25-35 | `2**(histlength + addrlength)` counters, all 3; GHR 0 |
| GSelect.GSelectPredictor.Lookup | bp_eval/bpredict/predictors/gselect.py:37-39 | predicts from the counter at the concatenated index |
| GSelect.GSelectPredictor.Update | bp_eval/bpredict/predictors/gselect.py:41-51 | a squashed update changes nothing; a commit trains only the counter indexed with the old GHR, then shifts the GHR |
| TwoLevelAdaptive.TwoLevelAdaptivePredictor.constructor | bp_eval/bpredict/predictors/twoleveladaptive.py:32-42 | `phrtsize` history registers at 0; `2**histlength` pattern counters at 0 |
| TwoLevelAdaptive.TwoLevelAdaptivePredictor.Lookup | bp_eval/bpredict/predictors/twoleveladaptive.py:44-52 | the address's history register is the pattern index; it is stored in the record as `gpt_index`, lies inside the pattern table, and its counter gives the prediction |
| TwoLevelAdaptive.TwoLevelAdaptivePredictor.Update | bp_eval/bpredict/predictors/twoleveladaptive.py:54-68 | squashed and unconditional updates change nothing; a commit trains the counter whose index the lookup recorded, then shifts the outcome into this address's register only |
| GSkew.H | bp_eval/bpredict/predictors/gskew.py:28-30 | H maps n-bit values to n-bit values |
| GSkew.Hinv | bp_eval/bpredict/predictors/gskew.py:32-34 | Hinv (as written) always gives an n-bit value |
| GSkew.H1 | bp_eval/bpredict/predictors/gskew.py:36-37 | for n-bit inputs, h1 is a slot of a `2**n` table |
| GSkew.H2 | bp_eval/bpredict/predictors/gskew.py:39-40 | for n-bit inputs, h2 is a slot of a `2**n` table |
| GSkew.H3 | bp_eval/bpredict/predictors/gskew.py:42-43 | for n-bit inputs, h3 is a slot of a `2**n` table |
| GSkew.HBound | bp_eval/bpredict/predictors/gskew.py:29-30 | the top bit and the shifted value fit in n bits |
| GSkew.HAsSum | bp_eval/bpredict/predictors/gskew.py:28-30 | H(v) puts bit 0 xor bit n-1 on top of `v div 2` |
| GSkew.HinvNotInverse | bp_eval/bpredict/predictors/gskew.py:32-34 | for n = 3, `H(1) = 4` but `Hinv(4) = 3`, so Hinv does not invert H |
| GSkew.HinvFixed | bp_eval/bpredict/predictors/gskew.py:32-34 | the corrected Hinv (bottom bit masked to one bit) gives an n-bit value |
| GSkew.HinvFixedInvertsH | bp_eval/bpredict/predictors/gskew.py:28-34 | for n >= 2 and every n-bit v, the corrected Hinv undoes H |
| GSkew.DefaultHashes | bp_eval/bpredict/predictors/gskew.py:56-58 | the default hash list is `[h1, h2, h3]` of `HashFunctions(histlength)` |
| GSkew.DefaultHashesInRange | bp_eval/bpredict/predictors/gskew.py:56-58 | each default hash maps n-bit address and history into the tables |
| GSkew.GSkewPredictor.constructor | bp_eval/bpredict/predictors/gskew.py:52-64 | one table of `2**histlength` counters at 3 per hash; the default hashes when none are given; GHR 0 |
| GSkew.GSkewPredictor.Slot | bp_eval/bpredict/predictors/gskew.py:69 | table i's slot for the masked address and the GHR is inside the table |
| GSkew.GSkewPredictor.Lookup | bp_eval/bpredict/predictors/gskew.py:66-72 | predicts taken iff at least half of the tables vote taken (two of three for the defaults) |
| GSkew.GSkewPredictor.Update | bp_eval/bpredict/predictors/gskew.py:74-85 | a squashed update changes nothing; a commit trains, in every table, only the counter at its slot under the old GHR, then shifts the GHR |
| Perceptron.Clip | bp_eval/bpredict/predictors/perceptron.py:50 | no clip is the identity; a clip c puts the value in `[-c, c]`, leaves values inside it unchanged, and maps values outside to the nearer end |
| Perceptron.Step | bp_eval/bpredict/predictors/perceptron.py:49-50 | weight i becomes `clip(w[i] + t * x[i])`, for every i |
| Perceptron.TrainsMeaning | bp_eval/bpredict/predictors/perceptron.py:48 | for an outcome ±1, training happens iff the output has the wrong sign, is zero, or is weaker than the threshold |
| Perceptron.TrainedWeights | bp_eval/bpredict/predictors/perceptron.py:46-50 | no training leaves the weights unchanged; any training step, or clipped weights to start with, leaves all weights within the clip |
| Perceptron.DotStep | bp_eval/bpredict/predictors/perceptron.py:49 | adding `t * x` to the weights adds `t * (x . x)` to the dot product with x |
| Perceptron.DotSelf | bp_eval/bpredict/predictors/perceptron.py:46-47 | `x . x >= 0`, and it is at least 1 when `x[0] != 0` (the bias input is 1) |
| Perceptron.TrainingMovesTowardOutcome | bp_eval/bpredict/predictors/perceptron.py:46-50 | without clipping, a training step raises `t * y` by `1 + sum(h_i^2)`; every step moves the output toward the outcome |
| Perceptron.LastN | bp_eval/bpredict/predictors/perceptron.py:81 | `temphist[-n:]` holds the n youngest entries, in order |
| Perceptron.Shifted | bp_eval/bpredict/predictors/perceptron.py:115-116 | roll left by one and set the last entry: the same length, the outcome last, the rest shifted one place |
| Perceptron.Perceptron.constructor | bp_eval/bpredict/predictors/perceptron.py:31-35 | weights are bias 1 and `length` zeros |
| Perceptron.Perceptron.Update | bp_eval/bpredict/predictors/perceptron.py:42-50 | the weights are replaced by the clipped training step iff the training condition holds; otherwise they are unchanged |
| Perceptron.NewPerceptrons | bp_eval/bpredict/predictors/perceptron.py:66-67 | n distinct, fresh perceptrons with the given parameters, each at its initial weights |
| Perceptron.PerceptronPredictor.constructor | bp_eval/bpredict/predictors/perceptron.py:59-73 | zero global history; empty queue; fresh perceptrons; an empty ledger that records nothing (the base class gets no arguments) |
| Perceptron.PerceptronPredictor.InputHistory | bp_eval/bpredict/predictors/perceptron.py:78-81 | the history a lookup uses: the committed history, or, when speculative, the youngest `histlength` entries of the committed history followed by the queue |
| Perceptron.PerceptronPredictor.Lookup | bp_eval/bpredict/predictors/perceptron.py:75-88 | predicts with the address's perceptron on that history; when speculative it appends ±1 for the prediction; the committed history and the weights are unchanged |
| Perceptron.PerceptronPredictor.BtbUpdate | bp_eval/bpredict/predictors/perceptron.py:90-93 | for a conditional branch in speculative mode, the youngest queued entry becomes -1; on an empty queue this is an error and nothing changes |
| Perceptron.PerceptronPredictor.Squash | bp_eval/bpredict/predictors/perceptron.py:95-101 | for a conditional branch in speculative mode, the youngest queued entry is dropped; on an empty queue this is an error |
| Perceptron.PerceptronPredictor.Update | bp_eval/bpredict/predictors/perceptron.py:103-116 | squashed and unconditional updates change nothing. A commit trains only the address's perceptron, on the committed history, then drops the oldest queued entry and shifts the outcome in. An empty queue makes the pop fail after the training |
| Perceptron.PerceptronPredictor.BaseLookup | bp_eval/bpredict/basepredictor.py:51-57 | the ledger step plus the perceptron lookup; the queue holds one entry per open conditional record |
| Perceptron.PerceptronPredictor.BaseUncondBranch | bp_eval/bpredict/basepredictor.py:59-65 | opens an unconditional record; the queue invariant is kept |
| Perceptron.PerceptronPredictor.BaseBtbUpdate | bp_eval/bpredict/basepredictor.py:67-71 | for an open key the queue is non-empty when needed, so the hook never fails; the invariant is kept |
| Perceptron.PerceptronPredictor.BaseUpdate | bp_eval/bpredict/basepredictor.py:73-88 | for an open key the hook never fails. A commit of a conditional branch trains and pops the queue, and the record is deleted iff the update is not squashed. Nothing is ever traced |
| Perceptron.PerceptronPredictor.BaseSquash | bp_eval/bpredict/basepredictor.py:90-94 | for an open key the hook never fails; the youngest queued entry goes with a conditional record, and the record is deleted |
| Perceptron.PerceptronPredictor.PredictThenRewind | bp_eval/bpredict/predictors/perceptron.py:75-101 | lookup, then BTB redirect, then squash of one branch: the queue, history, weights and open records return to what they were |
| Perceptron.LocalPerceptronPredictor.constructor | bp_eval/bpredict/predictors/perceptron.py:129-143 | one zero history and one empty queue per perceptron |
| Perceptron.LocalPerceptronPredictor.InputHistory | bp_eval/bpredict/predictors/perceptron.py:148-151 | the slot's history, with the slot's queue when speculative, cut to `histlength` |
| Perceptron.LocalPerceptronPredictor.Lookup | bp_eval/bpredict/predictors/perceptron.py:145-158 | predicts with the slot's perceptron on the slot's history; only the slot's queue grows, and only when speculative |
| Perceptron.LocalPerceptronPredictor.BtbUpdate | bp_eval/bpredict/predictors/perceptron.py:160-164 | only the slot's youngest queued entry becomes -1; on an empty slot queue this is an error |
| Perceptron.LocalPerceptronPredictor.Squash | bp_eval/bpredict/predictors/perceptron.py:166-173 | fails (undefined name) exactly for a conditional branch in speculative mode; otherwise does nothing |
| Perceptron.LocalPerceptronPredictor.Update | bp_eval/bpredict/predictors/perceptron.py:175-188 | a commit trains only the slot's perceptron on the slot's history, pops the slot's queue (error if it is empty) and shifts the slot's history; other slots are untouched |
| Combining2Bit.CombineStep | bp_eval/bpredict/predictors/combining2bit.py:94-102 | a counter in [0, 3] stays in [0, 3]; when both predictions agree it is unchanged (which way it moves otherwise is stated by the lemmas below) |
| Combining2Bit.CombineStepBounds | bp_eval/bpredict/predictors/combining2bit.py:93-99 | a counter in [0, 3] stays there, moves by at most one, and never moves away from a right predictor |
| Combining2Bit.CorrectChoiceSticks | bp_eval/bpredict/predictors/combining2bit.py:54-57 | if the selected predictor was right, it is still selected after the commit |
| Combining2Bit.TwoWinsSwitch | bp_eval/bpredict/predictors/combining2bit.py:94-99 | when the predictions differ, two commits of the same outcome select the right predictor, from any counter |
| Combining2Bit.Combining2BitPredictor.constructor | bp_eval/bpredict/predictors/combining2bit.py:28-33 | `ncounters` counters, all `init`; all in [0, 3] when `init` is |
| Combining2Bit.Combining2BitPredictor.Lookup | bp_eval/bpredict/predictors/combining2bit.py:35-57 | forwards a lookup to A and B with copies of the record; records pa and pb; returns pa below 2 and pb otherwise |
| Combining2Bit.Combining2BitPredictor.UncondBranch | bp_eval/bpredict/predictors/combining2bit.py:59-74 | records `pa = pb = True` and forwards to both |
| Combining2Bit.Combining2BitPredictor.BtbUpdate | bp_eval/bpredict/predictors/combining2bit.py:76-78 | forwards to A and B with their own sub-records |
| Combining2Bit.Combining2BitPredictor.Squash | bp_eval/bpredict/predictors/combining2bit.py:104-106 | forwards to A and B with their own sub-records |
| Combining2Bit.Combining2BitPredictor.Update | bp_eval/bpredict/predictors/combining2bit.py:80-102 | forwards first, with the same squashed flag. A squashed update, or pa == pb (e.g. any unconditional branch), leaves the counters unchanged. Otherwise only the slot's counter takes one step. The source's `assert pa == pb` always holds, and [0, 3] is kept |
| MultiHybrid.Selected | bp_eval/bpredict/predictors/multihybrid.py:57-59 | the lowest index whose counter is 3 |
| MultiHybrid.HybridStep | bp_eval/bpredict/predictors/multihybrid.py:90-110 | one counter per sub-predictor comes out (what each becomes is stated by HybridStepMeaning) |
| MultiHybrid.HybridStepMeaning | bp_eval/bpredict/predictors/multihybrid.py:98-110 | if some predictor at 3 was right, exactly the wrong predictors drop (not below 0); otherwise exactly the right ones rise (not above 3); [0, 3] is kept |
| MultiHybrid.HybridKeepsThree | bp_eval/bpredict/predictors/multihybrid.py:112 | a row with a counter at 3 still has one after the commit |
| MultiHybrid.CorrectSelectionSticks | bp_eval/bpredict/predictors/multihybrid.py:98-103 | if the selected predictor was right, it stays selected |
| MultiHybrid.MultiHybridPredictor.constructor | bp_eval/bpredict/predictors/multihybrid.py:31-37 | `ncounters` rows of `npreds` counters, all 3 |
| MultiHybrid.MultiHybridPredictor.Lookup | bp_eval/bpredict/predictors/multihybrid.py:39-61 | forwards to every sub-predictor and records all predictions; returns the first predictor at 3; the `assert False` fallthrough happens iff there are no sub-predictors |
| MultiHybrid.MultiHybridPredictor.UncondBranch | bp_eval/bpredict/predictors/multihybrid.py:63-72 | records all-True predictions and forwards to every sub-predictor |
| MultiHybrid.MultiHybridPredictor.BtbUpdate | bp_eval/bpredict/predictors/multihybrid.py:75-77 | forwards to every sub-predictor with its own sub-record |
| MultiHybrid.MultiHybridPredictor.Squash | bp_eval/bpredict/predictors/multihybrid.py:115-117 | forwards to every sub-predictor with its own sub-record |
| MultiHybrid.MultiHybridPredictor.AnyWinnerRight | bp_eval/bpredict/predictors/multihybrid.py:98 | the `any(...)` loop decides whether some predictor at 3 was right |
| MultiHybrid.MultiHybridPredictor.AnyThree | bp_eval/bpredict/predictors/multihybrid.py:112 | the `any(...)` loop decides whether the row has a 3 |
| MultiHybrid.MultiHybridPredictor.Update | bp_eval/bpredict/predictors/multihybrid.py:79-112 | forwards to all first. Squashed and unconditional updates change nothing. A commit replaces only the slot's row, in place, by HybridStep. Every counter stays in [0, 3] and every row keeps a 3. The closing assertion fails iff there are no sub-predictors |
| MultiHybrid.ThreePredictorScenario | bp_eval/bpredict/predictors/multihybrid.py:90-110 | `[3,3,3]` with only predictor 0 right gives `[3,2,2]`; then with only 1 and 2 right it gives `[3,3,3]` |

## Left out

- The engine's process and socket plumbing is not part of this model; it is I/O. This covers `bp_eval/bpredict/runner.py` and `src/cpu/pred/external_bp.cc`.
- The statistics parser, the evaluation notebook and the benchmark scripts and tests are not part of this model. They are text parsing, floats, concurrency and external binaries.
- The thread id `tid` is ignored by every predictor, so it is not a parameter.
- `BasePredictor.reset_trace` is left out. It assigns to a read-only property and so always fails.
- Utils.SaturatingCounter.constructor: the source's assertion that a given `init` lies between the bounds is a precondition, not an `Err`. Its only caller, the older local predictor, passes no `init`.
- GSkew.GSkewPredictor.constructor: `histlength` 0 with the default hash functions is excluded. The source builds such a predictor, but its first lookup or update fails on a negative shift count (`v >> (n - 1)` with n = 0).
- Zero-sized tables are excluded by the constructors. Every `_get_index` of a table with no entries divides by zero. This covers `ncounters`, `phrtsize`, `nperceptrons` and `size_in_bytes` of 0.
- The perceptron predictors require `histlength >= 1`. With 0, every commit fails at `history[-1] = t`.
- Perceptron weights and the threshold are integers. The source computes in floating point. With ±1/0 inputs and integer parameters the values are the same. A fractional threshold θ behaves like the integer ⌈θ⌉. A fractional clip is not modelled. `clip=np.infty` is `None`.
- The hooks of the table predictors and of the local perceptron take the record by value. Only `BasePredictor` and `PerceptronPredictor` are composed with the ledger's `_base_*` steps. The others' `_base_*` wrappers are the same ledger steps around the hooks shown here.
- Writes a hook makes into its record are returned as a new record: the two-level `gpt_index`, and the meta-predictors' `pa`/`pb`/`predictions` and sub-records. They are not stored back into the ledger.
- Sub-records are independent values. The aliasing of the source's shallow `dict.copy()` is not modelled. Nor are writes a sub-predictor makes into its sub-record.
- The sub-predictors of the meta-predictors are not objects. Their lookup answers are parameters, and every forwarded call is returned as a `SubCall` value in call order. What a sub-predictor does with the call is not modelled.
- Combining2Bit.Combining2BitPredictor.Update: requires a record filled by this predictor's lookup or uncond_branch. A foreign record makes the source raise KeyError; that path is not modelled. The same holds for its `BtbUpdate`/`Squash`.
- MultiHybrid.MultiHybridPredictor.Update: requires a record with one sub-record and one prediction per sub-predictor, as this predictor's lookup fills it. A foreign record makes the source raise KeyError or IndexError; that path is not modelled. The same holds for its `BtbUpdate`/`Squash`.
- TwoLevelAdaptive.TwoLevelAdaptivePredictor.Update: requires, for a committed conditional branch, the `gpt_index` this predictor's lookup stored. Without it the source raises KeyError; that path is not modelled.
- GSkew.GSkewPredictor.constructor: user-supplied hash functions must map n-bit inputs into the tables. An out-of-range hash makes the source raise IndexError; that is not modelled.
- Perceptron.LocalPerceptronPredictor.Squash: the failing path (undefined `branch_addr`) is an `Err` result. No slot is invented for it.
- The invariant "each slot's queue holds one entry per open conditional record at that slot" is not stated for the local perceptron predictor. The ledger's records do not carry the branch address.

## Findings

| source | as written | input that shows it | evidently intended | confidence | as-written member | corrected member |
|---|---|---|---|---|---|---|
| bp_eval/bpredict/predictors/gskew.py:33-34 | `bot = (v ^ (v << 1)) >> (n - 1)` keeps two bits, and the upper one is or'd into bit 1 of the result, so `Hinv` is not the inverse of `H` | n = 3, v = 1: `H(1) = 4`, `Hinv(4) = 3` | `bot` masked to one bit (`& 1`), so that `Hinv(H(v)) == v` for every n-bit v | not executed | GSkew.HinvNotInverse | GSkew.HinvFixedInvertsH |

The GSkew predictor keeps the program's `h1`–`h3`, built from `Hinv` as written. The hashes only select table slots. What the predictor needs from them, the range bound, holds for both versions. A corrected `Hinv` would change which slots the program uses.
