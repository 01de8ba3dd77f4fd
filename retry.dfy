/**
 * The retry loop of the openFDA and preprint connectors: up to `MAX_RETRIES` attempts of
 * the same request, the first answer ending the loop. A retryable status and an exception
 * both move on to the next attempt (the back-off sleeps between them are not modelled).
 */
module Retry {
  import opened Wrappers

  /** `MAX_RETRIES` */
  const MaxRetries: nat := 2

  /** The first answer among attempts `attempt`, ..., `MaxRetries`; `None` when every one fails. */
  function FirstAnswer<R>(attempts: nat -> Option<R>, attempt: nat): Option<R>
    decreases MaxRetries + 1 - attempt
  {
    if attempt > MaxRetries then None
    else if attempts(attempt).Some? then attempts(attempt)
    else FirstAnswer(attempts, attempt + 1)
  }

  /** `for attempt in range(1, MAX_RETRIES + 1)`, stopping at the first answer. */
  method Retried<R>(attempts: nat -> Option<R>) returns (r: Option<R>)
    ensures r == FirstAnswer(attempts, 1)
  {
    var attempt := 1;
    while attempt <= MaxRetries
      invariant 1 <= attempt <= MaxRetries + 1
      invariant FirstAnswer(attempts, attempt) == FirstAnswer(attempts, 1)
    {
      var answer := attempts(attempt);
      if answer.Some? {
        return answer;
      }
      attempt := attempt + 1;
    }
    r := None;
  }

  /**
   * The first attempt's answer is used when there is one, else the second's; with both
   * failing there is no answer. No attempt after the second is made.
   */
  lemma FirstAnswerSpec<R>(attempts: nat -> Option<R>)
    ensures attempts(1).Some? ==> FirstAnswer(attempts, 1) == attempts(1)
    ensures attempts(1).None? && attempts(2).Some? ==> FirstAnswer(attempts, 1) == attempts(2)
    ensures attempts(1).None? && attempts(2).None? ==> FirstAnswer(attempts, 1) == None
    ensures forall other: nat -> Option<R> | other(1) == attempts(1) && other(2) == attempts(2) ::
      FirstAnswer(other, 1) == FirstAnswer(attempts, 1)
  {
    assert FirstAnswer(attempts, 3) == None;
    forall other: nat -> Option<R> | other(1) == attempts(1) && other(2) == attempts(2)
      ensures FirstAnswer(other, 1) == FirstAnswer(attempts, 1)
    {
      assert FirstAnswer(other, 3) == None;
    }
  }
}
