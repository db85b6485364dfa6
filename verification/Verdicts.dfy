/** What the logs say about a trace: src/dlt/corroborate.py. */
module Verdicts {
  datatype Verdict = Corroborated | Partial | Contradicted | Unverifiable

  /** The logs show something the trace does not explain. */
  predicate IsDiscrepancy(v: Verdict) { v in {Partial, Contradicted} }
}
