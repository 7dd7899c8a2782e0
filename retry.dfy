/**
 * The bounded retry primitive behind every wait of the provider: probe the
 * service until a probe says the condition holds, a probe reports a permanent
 * error, or the attempt budget runs out.
 */
module Retrying {
  import opened Wrappers
  import opened Model
  import opened Remote

  /** What one probe concludes from an answer: the condition holds, not yet, or a permanent error. */
  datatype Probe = Done | Again | Failed(err: Error)

  /** The outcome of a retry loop: whether the condition was reached, the error that stopped it, and how many probes it made. */
  datatype Retried = Retried(succ: bool, err: Option<Error>, attempts: nat)

  // Classifying answers.

  /** A describe answer showing the awaited state: the table ACTIVE, or (when waiting for deletion) not found. */
  predicate Reached(exist: bool, a: Answer) {
    if exist then a.Accept? && a.table.tableStatus == ActiveStatus
    else a.Reject? && IsAwsError(a.err, ResourceNotFound)
  }

  /** A describe answer that means "not yet": not found while waiting for existence, a table not yet ACTIVE, or a table still there while waiting for deletion. */
  predicate Pending(exist: bool, a: Answer) {
    if exist then (a.Reject? && IsAwsError(a.err, ResourceNotFound)) || (a.Accept? && a.table.tableStatus != ActiveStatus)
    else a.Accept?
  }

  /**
   * A describe answer while waiting for the table to exist (or to be gone):
   * the awaited state is done, not-found is "not yet" (or done, when waiting
   * for deletion), any other rejection is permanent, and a table that exists
   * is "not yet" unless ACTIVE while waiting for existence.
   */
  function WaitProbe(exist: bool, a: Answer): (p: Probe)
    ensures p.Done? <==> Reached(exist, a)
    ensures p.Again? <==> Pending(exist, a)
    ensures p.Failed? <==> a.Reject? && !IsAwsError(a.err, ResourceNotFound)
    ensures p.Failed? ==> p.err == a.err
  {
    match a
    case Reject(e) =>
      if IsAwsError(e, ResourceNotFound) then (if exist then Again else Done) else Failed(e)
    case Accept(_, desc) =>
      if exist && desc.tableStatus != ActiveStatus then Again
      else if exist then Done
      else Again
  }

  /** An UpdateTable answer: success is done; not-found and in-use are "not yet"; anything else is permanent. */
  function UpdateProbe(a: Answer): (p: Probe)
    ensures p.Done? <==> a.Accept?
    ensures p.Again? <==> a.Reject? && (IsAwsError(a.err, ResourceNotFound) || IsAwsError(a.err, ResourceInUse))
    ensures p.Failed? ==> p.err == a.err
  {
    match a
    case Reject(e) =>
      if IsAwsError(e, ResourceNotFound) || IsAwsError(e, ResourceInUse) then Again else Failed(e)
    case Accept(_, _) => Done
  }

  /** A DeleteTable answer: success or not-found is done; in-use is "not yet"; anything else is permanent. */
  function DeleteProbe(a: Answer): (p: Probe)
    ensures p.Done? <==> a.Accept? || IsAwsError(a.err, ResourceNotFound)
    ensures p.Again? <==> a.Reject? && IsAwsError(a.err, ResourceInUse)
    ensures p.Failed? ==> p.err == a.err
  {
    match a
    case Reject(e) =>
      if IsAwsError(e, ResourceNotFound) then Done
      else if IsAwsError(e, ResourceInUse) then Again
      else Failed(e)
    case Accept(_, _) => Done
  }

  /** Which of the probes above a retry loop applies. */
  datatype Probing = Await(exist: bool) | Updating | Deleting

  function Classify(how: Probing, a: Answer): Probe {
    match how
    case Await(exist) => WaitProbe(exist, a)
    case Updating => UpdateProbe(a)
    case Deleting => DeleteProbe(a)
  }

  /**
   * The retry loop against the answers `script(at)`, `script(at + 1)`, …:
   * at most `budget` probes, stopping at the first that is not `Again`.
   */
  function Retry(script: nat -> Answer, at: nat, budget: nat, how: Probing): (r: Retried)
    ensures r.attempts <= budget
    ensures !(r.succ && r.err.Some?)
    ensures r.succ || r.err.Some? ==> r.attempts > 0
    decreases budget
  {
    if budget == 0 then Retried(false, None, 0)
    else
      match Classify(how, script(at))
      case Done => Retried(true, None, 1)
      case Failed(e) => Retried(false, Some(e), 1)
      case Again =>
        var rest := Retry(script, at + 1, budget - 1, how);
        rest.(attempts := rest.attempts + 1)
  }

  /** `n` attempts of the same call from position `at` on, each with the answer the script gives it. */
  function Attempts(script: nat -> Answer, at: nat, req: Request, n: nat): (ex: seq<Exchange>)
    ensures |ex| == n
    ensures forall i :: 0 <= i < n ==> ex[i] == Exchange(req, script(at + i))
  {
    seq(n, i requires 0 <= i < n => Exchange(req, script(at + i)))
  }

  /** Every answer at positions `from` up to (not including) `to` is classified `Again`. */
  predicate AllAgain(script: nat -> Answer, how: Probing, from: nat, to: int) {
    forall p :: from <= p < to ==> Classify(how, script(p)).Again?
  }

  /**
   * Every probe but the last said `Again`; the loop succeeded exactly when the
   * last probe said `Done`, failed with exactly the error of a last `Failed`
   * probe, and otherwise used its whole budget.
   */
  lemma {:induction false} RetryMeaning(script: nat -> Answer, at: nat, budget: nat, how: Probing)
    ensures var r := Retry(script, at, budget, how);
      && AllAgain(script, how, at, at + r.attempts - 1)
      && (r.succ <==> r.attempts > 0 && Classify(how, script(at + r.attempts - 1)).Done?)
      && (r.err.Some? <==> r.attempts > 0 && Classify(how, script(at + r.attempts - 1)).Failed?)
      && (r.err.Some? ==> r.err.value == Classify(how, script(at + r.attempts - 1)).err)
      && (!r.succ && r.err.None? ==>
            r.attempts == budget && (budget > 0 ==> Classify(how, script(at + budget - 1)).Again?))
    decreases budget
  {
    if budget > 0 && Classify(how, script(at)).Again? {
      RetryMeaning(script, at + 1, budget - 1, how);
    }
  }

  /** A probe that never reaches the condition makes the loop give up after exactly `budget` probes, without error. */
  lemma {:induction false} RetryExhausted(script: nat -> Answer, at: nat, budget: nat, how: Probing)
    requires AllAgain(script, how, at, at + budget)
    ensures Retry(script, at, budget, how) == Retried(false, None, budget)
    decreases budget
  {
    if budget > 0 {
      assert Classify(how, script(at)).Again?;
      RetryExhausted(script, at + 1, budget - 1, how);
    }
  }

  /** The first probe that is not `Again`, at attempt `j + 1` within the budget, ends the loop there with its verdict. */
  lemma {:induction false} RetryStopsAt(script: nat -> Answer, at: nat, budget: nat, how: Probing, j: nat)
    requires j < budget
    requires AllAgain(script, how, at, at + j)
    requires !Classify(how, script(at + j)).Again?
    ensures var r := Retry(script, at, budget, how);
      && r.attempts == j + 1
      && r.succ == Classify(how, script(at + j)).Done?
      && r.err == (if Classify(how, script(at + j)).Failed? then Some(Classify(how, script(at + j)).err) else None)
    decreases j
  {
    if j > 0 {
      assert Classify(how, script(at)).Again?;
      RetryStopsAt(script, at + 1, budget - 1, how, j - 1);
    }
  }
}
