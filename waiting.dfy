/** What a wait for a table state concludes from the describe answers it sees. */
module Waiting {
  import opened Wrappers
  import opened Model
  import opened Remote
  import opened Retrying
  import opened Protocol

  /**
   * A wait describes the table until the awaited state shows: every answer but
   * the last was "not yet"; it succeeds exactly when the last answer shows the
   * awaited state; and it fails either with the permanent error of the last
   * answer or, having used its whole budget, with the timeout error naming the
   * table and the state it did not reach.
   */
  lemma {:induction false} WaitRunMeaning(script: nat -> Answer, at: nat, name: string, exist: bool, b: Budgets)
    ensures var w := WaitRun(script, at, name, exist, b);
      && (forall p :: at <= p < at + |w.ex| - 1 ==> Pending(exist, script(p)))
      && (w.err.None? <==> |w.ex| > 0 && Reached(exist, script(at + |w.ex| - 1)))
      && (w.err.Some? ==>
            || (|w.ex| > 0 && script(at + |w.ex| - 1).Reject?
                && !IsAwsError(script(at + |w.ex| - 1).err, ResourceNotFound)
                && w.err == Some(script(at + |w.ex| - 1).err))
            || (|w.ex| == b.long && w.err == Some(Failure(TimeoutMessage(name, exist)))))
  {
    var c := Await(exist);
    RetryMeaning(script, at, b.long, c);
    var d := Retry(script, at, b.long, c);
    forall p | at <= p < at + d.attempts - 1 ensures Pending(exist, script(p)) {
      assert Classify(c, script(p)).Again?;
    }
    if d.attempts > 0 {
      var last := script(at + d.attempts - 1);
      assert Classify(c, last) == WaitProbe(exist, last);
    }
  }

  /** A wait that returns no error ended on a describe showing the awaited state. */
  lemma {:induction false} WaitSucceeded(script: nat -> Answer, at: nat, name: string, exist: bool, b: Budgets)
    ensures var w := WaitRun(script, at, name, exist, b);
      w.err.None? ==> |w.ex| > 0 && Reached(exist, script(at + |w.ex| - 1))
  {
    var c := Await(exist);
    RetryMeaning(script, at, b.long, c);
    var d := Retry(script, at, b.long, c);
    if d.succ {
      var last := script(at + d.attempts - 1);
      assert Classify(c, last) == WaitProbe(exist, last);
    }
  }

  /** When every answer within the budget is "not yet", the wait makes the whole budget of describes and times out. */
  lemma {:induction false} WaitTimesOut(script: nat -> Answer, at: nat, name: string, exist: bool, b: Budgets)
    requires forall p :: at <= p < at + b.long ==> Pending(exist, script(p))
    ensures WaitRun(script, at, name, exist, b) ==
              Run(Some(Failure(TimeoutMessage(name, exist))), Attempts(script, at, DescribeTable(name), b.long))
  {
    var c := Await(exist);
    assert AllAgain(script, c, at, at + b.long) by {
      forall p | at <= p < at + b.long ensures Classify(c, script(p)).Again? {
        assert Pending(exist, script(p));
      }
    }
    RetryExhausted(script, at, b.long, c);
  }

  /** When the `j + 1`-th answer is the first to show the awaited state, the wait succeeds after exactly `j + 1` describes. */
  lemma {:induction false} WaitReachedAt(script: nat -> Answer, at: nat, name: string, exist: bool, b: Budgets, j: nat)
    requires j < b.long
    requires forall p :: at <= p < at + j ==> Pending(exist, script(p))
    requires Reached(exist, script(at + j))
    ensures WaitRun(script, at, name, exist, b) == Run(None, Attempts(script, at, DescribeTable(name), j + 1))
  {
    var c := Await(exist);
    assert AllAgain(script, c, at, at + j) by {
      forall p | at <= p < at + j ensures Classify(c, script(p)).Again? {
        assert Pending(exist, script(p));
      }
    }
    assert Classify(c, script(at + j)).Done?;
    RetryStopsAt(script, at, b.long, c, j);
  }
}
