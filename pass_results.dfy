/** What each pass of the validator reports: `{ status, issues }`, and the
    possibility that the pass never returns because `JSON.parse` threw. */
module PassResults {
  datatype Status = Skip | Pass | Fail

  datatype PassResult = PassResult(status: Status, issues: nat)

  /** A pass whose input is missing: `{ status: 'skip', issues: 0 }`. */
  const Skipped := PassResult(Skip, 0)

  /** A pass that ran: it passes exactly when it found nothing. */
  function Verdict(issues: nat): (r: PassResult)
    ensures r.issues == issues
    ensures r.status != Skip
    ensures r.status == Pass <==> issues == 0
  {
    PassResult(if issues == 0 then Pass else Fail, issues)
  }

  /** A pass either completes or dies on an uncaught exception, which ends
      the whole process with exit code 1. */
  datatype PassRun = Completed(result: PassResult) | Crashed
}
