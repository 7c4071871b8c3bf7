/** The names the harness, the sweep and its readers share (tools/sweep_verdict.py, tools/sweep_filing.py). */
module Verdicts {

  /** The label of the unmutated control. */
  const CONTROL := "__control__"

  /** The verdicts the harness writes. */
  predicate Known(verdict: string) {
    verdict in {"SURVIVED", "KILLED", "HUNG", "ERROR", "control-green", "control-red"}
  }

  predicate ControlVerdict(verdict: string) {
    verdict == "control-green" || verdict == "control-red"
  }

  /** No test held the mutation. */
  predicate Unheld(verdict: string) {
    verdict == "SURVIVED" || verdict == "HUNG"
  }
}
