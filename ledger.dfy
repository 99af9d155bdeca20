/**
 * The history ledger every predictor inherits: it hands out a fresh key per
 * in-flight branch, keeps one record per key until the branch is committed
 * (a non-squashed update) or squashed, and optionally appends committed
 * outcomes to a trace according to a bit-flag policy.
 *
 * The source's `_base_*` entry points run a ledger step, call an
 * overridable hook with the record, and run a closing ledger step.  The
 * ledger steps are the methods of `Ledger`; `BasePredictor` puts them
 * together with the default hooks, and the speculative perceptron
 * (perceptron.dfy) puts them together with its own hooks.
 */
module Ledger {
  import opened Bits
  import opened Results

  /**
   * The per-branch record (a dict in the source).  Besides the fields the
   * ledger writes (`_index`, `conditional`) it carries the payloads the
   * predictors store in it: the two-level predictor's `gpt_index`, the
   * combining predictor's `pa`/`pb`, the multi-hybrid predictor's
   * `predictions`, and the meta-predictors' sub-records (`A`, `B` or
   * `histories`), kept here as independent values.
   */
  datatype Record = Record(
    key: nat,
    conditional: bool,
    gptIndex: Option<nat>,
    pa: Option<bool>,
    pb: Option<bool>,
    predictions: Option<seq<bool>>,
    subs: seq<Record>)

  /** The record `_base_lookup` / `_base_uncond_branch` create. */
  function NewRecord(key: nat, conditional: bool): (r: Record)
    ensures r.key == key && r.conditional == conditional && r.subs == []
    ensures r.gptIndex.None? && r.pa.None? && r.pb.None? && r.predictions.None?
  {
    Record(key, conditional, None, None, None, None, [])
  }

  /** The assertion or lookup a `_base_*` call fails on. */
  datatype LedgerError =
    | KeyNotZero   // lookup / uncond_branch given a key other than 0
    | ZeroKey      // btb_update / update / squash given key 0
    | UnknownKey   // a key that is not (or no longer) in the ledger

  // RecordSettings
  const NONE: nat := 0
  const CONDITIONAL: nat := 1
  const UNCONDITIONAL: nat := 2
  const ALL: nat := 3

  /** `(cond and policy & CONDITIONAL) or (not cond and policy & UNCONDITIONAL)`. */
  predicate Records(policy: nat, conditional: bool)
  {
    if conditional then And(policy, CONDITIONAL) != 0 else And(policy, UNCONDITIONAL) != 0
  }

  /** Bit 0 of the policy records conditional branches, bit 1 unconditional ones. */
  lemma RecordsBits(policy: nat, conditional: bool)
    ensures Records(policy, conditional) <==>
      (if conditional then policy % 2 == 1 else (policy / 2) % 2 == 1)
  {
    assert Mask(1) == 1;
    AndMask(policy, 1);
    if policy != 0 {
      assert And(policy, 2) == 2 * And(policy / 2, 1);
      AndMask(policy / 2, 1);
    }
  }

  /** What the four named settings record. */
  lemma RecordSettingsMeaning(conditional: bool)
    ensures !Records(NONE, conditional)
    ensures Records(CONDITIONAL, conditional) <==> conditional
    ensures Records(UNCONDITIONAL, conditional) <==> !conditional
    ensures Records(ALL, conditional)
  {
    RecordsBits(NONE, conditional);
    RecordsBits(CONDITIONAL, conditional);
    RecordsBits(UNCONDITIONAL, conditional);
    RecordsBits(ALL, conditional);
  }

  /** The trace after a resolved branch. */
  function Traced(trace: seq<(nat, bool)>, policy: nat, addr: nat, taken: bool,
                  conditional: bool, squashed: bool): (t: seq<(nat, bool)>)
    ensures !squashed && Records(policy, conditional) ==> t == trace + [(addr, taken)]
    ensures squashed || !Records(policy, conditional) ==> t == trace
  {
    if !squashed && Records(policy, conditional) then trace + [(addr, taken)] else trace
  }

  /** The keys of the open conditional records. */
  function ConditionalKeys(m: map<nat, Record>): set<nat>
  {
    set k | k in m && m[k].conditional
  }

  lemma ConditionalKeysInsert(m: map<nat, Record>, k: nat, r: Record)
    requires k !in m
    ensures ConditionalKeys(m[k := r]) == ConditionalKeys(m) + (if r.conditional then {k} else {})
    ensures |ConditionalKeys(m[k := r])| == |ConditionalKeys(m)| + (if r.conditional then 1 else 0)
  {
    assert ConditionalKeys(m[k := r]) == ConditionalKeys(m) + (if r.conditional then {k} else {});
  }

  lemma ConditionalKeysRemove(m: map<nat, Record>, k: nat)
    requires k in m
    ensures ConditionalKeys(m - {k}) == ConditionalKeys(m) - {k}
    ensures |ConditionalKeys(m - {k})| == |ConditionalKeys(m)| - (if m[k].conditional then 1 else 0)
  {
    assert ConditionalKeys(m - {k}) == ConditionalKeys(m) - {k};
  }

  class Ledger {
    /** `_base_histories`: the open records by key. */
    var histories: map<nat, Record>
    /** `_base_history_cnt`: the last key handed out. */
    var count: nat
    /** `_record_trace`: the recording policy (a `RecordSettings` value). */
    const recordTrace: nat
    /** `_trace`: the recorded `(addr, taken)` pairs. */
    var trace: seq<(nat, bool)>

    /** Every open key is non-zero, already handed out, and stored in its record. */
    ghost predicate Valid()
      reads this
    {
      forall k | k in histories :: 1 <= k <= count && histories[k].key == k
    }

    constructor (recordTrace: nat)
      ensures Valid() && this.recordTrace == recordTrace
      ensures histories == map[] && count == 0 && trace == []
    {
      this.recordTrace := recordTrace;
      histories := map[];
      count := 0;
      trace := [];
    }

    /** `_next_key`: 1 first, then one more each time; never 0, never an open key. */
    method NextKey() returns (key: nat)
      requires Valid()
      modifies this
      ensures Valid()
      ensures key == old(count) + 1 && count == key
      ensures key != 0 && key !in histories
      ensures forall k | k in histories :: k < key
      ensures histories == old(histories) && trace == old(trace)
    {
      count := count + 1;
      key := count;
    }

    /**
     * The ledger step of `_base_lookup` (conditional) and
     * `_base_uncond_branch` (unconditional): check the key is 0, take the
     * next key and insert a fresh record under it.
     */
    method Open(index: nat, conditional: bool) returns (r: Result<nat, LedgerError>)
      requires Valid()
      modifies this
      ensures Valid() && trace == old(trace)
      ensures index != 0 ==> r == Err(KeyNotZero) && unchanged(this)
      ensures index == 0 ==> r.Ok? && r.value == old(count) + 1 && count == r.value
      ensures index == 0 ==> r.value != 0 && r.value !in old(histories)
      ensures index == 0 ==> histories == old(histories)[r.value := NewRecord(r.value, conditional)]
    {
      if index != 0 {
        return Err(KeyNotZero);
      }
      var key := NextKey();
      histories := histories[key := NewRecord(key, conditional)];
      r := Ok(key);
    }

    /** `self._base_histories[index]` after `assert index != 0`. */
    method Fetch(index: nat) returns (r: Result<Record, LedgerError>)
      ensures index == 0 <==> r == Err(ZeroKey)
      ensures index != 0 && index !in histories <==> r == Err(UnknownKey)
      ensures r.Ok? <==> index != 0 && index in histories
      ensures r.Ok? ==> r.value == histories[index]
    {
      if index == 0 {
        return Err(ZeroKey);
      }
      if index !in histories {
        return Err(UnknownKey);
      }
      r := Ok(histories[index]);
    }

    /**
     * The ledger part of `_base_update`: a commit (not squashed) appends
     * `(addr, taken)` to the trace if the policy asks for this kind of
     * branch and deletes exactly this record; a squashed update keeps it.
     */
    method Retire(index: nat, addr: nat, taken: bool, squashed: bool)
      requires Valid() && index in histories
      modifies this
      ensures Valid() && count == old(count)
      ensures trace == Traced(old(trace), recordTrace, addr, taken,
                              old(histories)[index].conditional, squashed)
      ensures histories == if squashed then old(histories) else old(histories) - {index}
    {
      var cond := histories[index].conditional;
      if !squashed {
        if (cond && And(recordTrace, CONDITIONAL) != 0) || (!cond && And(recordTrace, UNCONDITIONAL) != 0) {
          trace := trace + [(addr, taken)];
        }
        histories := histories - {index};
      }
    }

    /** The ledger part of `_base_squash`: delete exactly this record. */
    method Discard(index: nat)
      requires Valid() && index in histories
      modifies this
      ensures Valid() && count == old(count) && trace == old(trace)
      ensures histories == old(histories) - {index}
    {
      histories := histories - {index};
    }
  }

  /**
   * `BasePredictor` used on its own: the ledger with the default hooks,
   * where `lookup` predicts taken and the other hooks do nothing.
   */
  class BasePredictor {
    const ledger: Ledger

    ghost predicate Valid()
      reads this, ledger
    {
      ledger.Valid()
    }

    constructor (recordTrace: nat)
      ensures Valid() && fresh(ledger)
      ensures ledger.recordTrace == recordTrace
      ensures ledger.histories == map[] && ledger.count == 0 && ledger.trace == []
    {
      ledger := new Ledger(recordTrace);
    }

    /** The default `lookup` hook. */
    function Lookup(addr: nat, rec: Record): bool
    {
      true
    }

    /** `_base_lookup`: a new conditional record; returns `(pred or False, key)`. */
    method BaseLookup(addr: nat, index: nat) returns (r: Result<(bool, nat), LedgerError>)
      requires Valid()
      modifies ledger
      ensures Valid() && ledger.trace == old(ledger.trace)
      ensures index != 0 ==> r == Err(KeyNotZero) && unchanged(ledger)
      ensures index == 0 ==> r.Ok? && r.value == (true, old(ledger.count) + 1)
      ensures index == 0 ==> r.value.1 !in old(ledger.histories)
      ensures index == 0 ==>
        ledger.histories == old(ledger.histories)[r.value.1 := NewRecord(r.value.1, true)]
    {
      var res := ledger.Open(index, true);
      if res.Err? {
        return Err(res.error);
      }
      var key := res.value;
      var pred := Lookup(addr, ledger.histories[key]);
      r := Ok((pred, key));
    }

    /** `_base_uncond_branch`: a new unconditional record; always returns `(False, key)`. */
    method BaseUncondBranch(addr: nat, index: nat) returns (r: Result<(bool, nat), LedgerError>)
      requires Valid()
      modifies ledger
      ensures Valid() && ledger.trace == old(ledger.trace)
      ensures index != 0 ==> r == Err(KeyNotZero) && unchanged(ledger)
      ensures index == 0 ==> r.Ok? && r.value == (false, old(ledger.count) + 1)
      ensures index == 0 ==> r.value.1 !in old(ledger.histories)
      ensures index == 0 ==>
        ledger.histories == old(ledger.histories)[r.value.1 := NewRecord(r.value.1, false)]
    {
      var res := ledger.Open(index, false);
      if res.Err? {
        return Err(res.error);
      }
      r := Ok((false, res.value));
    }

    /** `_base_btb_update`: needs an open key; returns `(False, index)` and leaves the ledger alone. */
    method BaseBtbUpdate(addr: nat, index: nat) returns (r: Result<(bool, nat), LedgerError>)
      requires Valid()
      ensures index == 0 ==> r == Err(ZeroKey)
      ensures index != 0 && index !in ledger.histories ==> r == Err(UnknownKey)
      ensures index != 0 && index in ledger.histories ==> r == Ok((false, index))
    {
      var rec := ledger.Fetch(index);
      if rec.Err? {
        return Err(rec.error);
      }
      r := Ok((false, index));
    }

    /** `_base_update`: trace and delete on a commit, keep the record when squashed. */
    method BaseUpdate(addr: nat, taken: bool, index: nat, squashed: bool)
      returns (r: Result<(), LedgerError>)
      requires Valid()
      modifies ledger
      ensures Valid() && ledger.count == old(ledger.count)
      ensures index == 0 ==> r == Err(ZeroKey) && unchanged(ledger)
      ensures index != 0 && index !in old(ledger.histories) ==> r == Err(UnknownKey) && unchanged(ledger)
      ensures r.Ok? <==> index != 0 && index in old(ledger.histories)
      ensures r.Ok? ==> ledger.trace == Traced(old(ledger.trace), ledger.recordTrace, addr, taken,
                                               old(ledger.histories)[index].conditional, squashed)
      ensures r.Ok? ==> ledger.histories ==
                        (if squashed then old(ledger.histories) else old(ledger.histories) - {index})
    {
      var rec := ledger.Fetch(index);
      if rec.Err? {
        return Err(rec.error);
      }
      ledger.Retire(index, addr, taken, squashed);
      r := Ok(());
    }

    /** `_base_squash`: delete exactly this record. */
    method BaseSquash(index: nat) returns (r: Result<(), LedgerError>)
      requires Valid()
      modifies ledger
      ensures Valid() && ledger.count == old(ledger.count) && ledger.trace == old(ledger.trace)
      ensures index == 0 ==> r == Err(ZeroKey) && unchanged(ledger)
      ensures index != 0 && index !in old(ledger.histories) ==> r == Err(UnknownKey) && unchanged(ledger)
      ensures r.Ok? <==> index != 0 && index in old(ledger.histories)
      ensures r.Ok? ==> ledger.histories == old(ledger.histories) - {index}
    {
      var rec := ledger.Fetch(index);
      if rec.Err? {
        return Err(rec.error);
      }
      ledger.Discard(index);
      r := Ok(());
    }
  }
}
