/** Properties that are looked into on demand only. */
module Verdicts {
  datatype Verdict = Holds | Fails

  /** Such a property is quantified over k only to be looked into where Looking is mentioned. */
  predicate Looking(k: nat) { true }
}
