/**
 * How the meta-predictors talk to their sub-predictors.  Every call a
 * meta-predictor makes on a sub-predictor is returned as a `SubCall`
 * value, together with the sub-record the sub-predictor is handed; the
 * answers of the sub-predictors' lookups are parameters of the
 * meta-predictor's lookup.
 */
module Forwarding {
  import opened Ledger

  datatype SubCall =
    | SubLookup(addr: nat, rec: Record)
    | SubUncondBranch(addr: nat, rec: Record)
    | SubBtbUpdate(addr: nat, rec: Record)
    | SubUpdate(addr: nat, taken: bool, rec: Record, squashed: bool)
    | SubSquash(rec: Record)
}
