/**
 * The DynamoDB table provider: Create, Get, Update and Delete of a table
 * resource against the service, and the retry and wait loops they share.
 * Each operation is proved to make exactly the calls, and return exactly the
 * result, that its run in module Protocol describes.
 */
module Provider {
  import opened Wrappers
  import opened Model
  import opened IndexHashSet
  import opened Requests
  import opened Remote
  import opened Retrying
  import opened Protocol
  import opened Sequencing

  class TableProvider {
    /** The service the provider talks to. */
    const remote: FakeDynamoDB
    /** Reads the table name out of a resource identifier (an ARN); it may fail. */
    const parse: string -> Result<string, Error>
    /** The attempt budgets of the two retry loops. */
    const budgets: Budgets

    constructor (remote: FakeDynamoDB, parse: string -> Result<string, Error>, budgets: Budgets)
      ensures this.remote == remote && this.parse == parse && this.budgets == budgets
    {
      this.remote := remote;
      this.parse := parse;
      this.budgets := budgets;
    }

    /**
     * Sends `req` up to `budget` times, classifying each answer as `how` says,
     * until an answer says done or reports a permanent error.
     */
    method RetryUntil(req: Request, how: Probing, budget: nat) returns (succ: bool, err: Option<Error>)
      modifies remote
      ensures var d := Retry(remote.script, |old(remote.log)|, budget, how);
        && succ == d.succ && err == d.err
        && remote.log == old(remote.log) + Attempts(remote.script, |old(remote.log)|, req, d.attempts)
    {
      ghost var at := |remote.log|;
      succ, err := false, None;
      var k := 0;
      while k < budget && !succ && err.None?
        invariant 0 <= k <= budget
        invariant remote.log == old(remote.log) + Attempts(remote.script, at, req, k)
        invariant succ ==> err.None?
        invariant !succ && err.None? ==> AllAgain(remote.script, how, at, at + k)
        invariant succ || err.Some? ==>
          && k > 0 && AllAgain(remote.script, how, at, at + k - 1)
          && Classify(how, remote.script(at + k - 1)) == (if succ then Done else Failed(err.value))
        decreases budget - k
      {
        var a := remote.Call(req);
        assert Attempts(remote.script, at, req, k + 1) == Attempts(remote.script, at, req, k) + [Exchange(req, a)];
        k := k + 1;
        match Classify(how, a) {
          case Done => succ := true;
          case Failed(e) => err := Some(e);
          case Again =>
        }
      }
      if succ || err.Some? {
        RetryStopsAt(remote.script, at, budget, how, k - 1);
      } else {
        RetryExhausted(remote.script, at, budget, how);
      }
    }

    /** Describes the table until it is ACTIVE (`exist`) or gone (`!exist`), on the long budget. */
    method WaitForTableState(name: string, exist: bool) returns (err: Option<Error>)
      modifies remote
      ensures var r := WaitRun(remote.script, |old(remote.log)|, name, exist, budgets);
        err == r.err && remote.log == old(remote.log) + r.ex
    {
      var succ, e := RetryUntil(DescribeTable(name), Await(exist), budgets.long);
      if e.Some? {
        return e;
      }
      if !succ {
        return Some(Failure(TimeoutMessage(name, exist)));
      }
      return None;
    }

    /** Sends one UpdateTable request, retried on the short budget while the table is missing or busy, then waits for ACTIVE. */
    method UpdateTable(name: string, update: UpdateTableInput) returns (err: Option<Error>)
      modifies remote
      ensures var r := UpdateTableRun(remote.script, |old(remote.log)|, name, update, budgets);
        err == r.err && remote.log == old(remote.log) + r.ex
    {
      var succ, e := RetryUntil(Request.UpdateTable(update), Updating, budgets.short);
      if e.Some? {
        return e;
      }
      if !succ {
        return Some(Failure(NotUpdatedMessage(name)));
      }
      err := WaitForTableState(name, true);
    }

    /**
     * Creates the table under its declared name, or the generated one when it
     * has none; on success waits for it to become ACTIVE and returns its ARN.
     */
    method Create(t: Table, generatedName: string) returns (id: string, err: Option<Error>)
      modifies remote
      ensures var c := CreateRun(remote.script, |old(remote.log)|, t, generatedName, budgets);
        id == c.id && err == c.err && remote.log == old(remote.log) + c.ex
    {
      var name := RemoteName(t, generatedName);
      var a := remote.Call(CreateTable(CreateRequest(t, name)));
      if a.Reject? {
        return "", Some(a.err);
      }
      var arn := a.arn;
      err := WaitForTableState(name, true);
      if err.Some? {
        return "", err;
      }
      return arn, None;
    }

    /** Reads the table an identifier names back into a declared table; an identifier the parser reports not found is an absent table. */
    method Get(id: string) returns (table: Option<Table>, err: Option<Error>)
      modifies remote
      ensures var r := GetRun(remote.script, |old(remote.log)|, parse, id);
        table == r.table && err == r.err && remote.log == old(remote.log) + r.ex
    {
      match parse(id)
      case Err(e) =>
        if IsAwsError(e, ResourceNotFound) {
          return None, None;
        }
        return None, Some(e);
      case Ok(name) =>
        var a := remote.Call(DescribeTable(name));
        if a.Reject? {
          return None, Some(a.err);
        }
        match ReadBack(a.table)
        case Err(e) =>
          return None, Some(e);
        case Ok(t) =>
          return Some(t), None;
    }

    /**
     * The `k`-th UpdateTable request of an update, sent after the first `k`
     * steps succeeded: the update's run now covers `k + 1` steps, and when this
     * one fails it is the run of all of them.
     */
    method IssueStep(name: string, update: UpdateTableInput, ghost step: (nat, UpdateTableInput) -> Run,
                     ghost start: seq<Exchange>, ghost steps: seq<UpdateTableInput>, ghost k: nat)
      returns (err: Option<Error>)
      requires k < |steps| && steps[k] == update
      requires var s := Chain(step, |start|, steps[..k]);
        && s.err.None? && remote.log == start + s.ex
        && step(|start| + |s.ex|, update) == UpdateTableRun(remote.script, |start| + |s.ex|, name, update, budgets)
      modifies remote
      ensures var s := Chain(step, |start|, steps[..k + 1]);
        err == s.err && remote.log == start + s.ex
      ensures err.Some? ==> Chain(step, |start|, steps) == Chain(step, |start|, steps[..k + 1])
    {
      ghost var s := Chain(step, |start|, steps[..k]);
      ghost var u := UpdateTableRun(remote.script, |start| + |s.ex|, name, update, budgets);
      ghost var before := remote.log;
      err := UpdateTable(name, update);
      ChainExtend(step, |start|, steps, k, s, u, start, before, remote.log);
    }

    /** Sends the UpdateTable requests of `steps` in order, each as UpdateTable does, until one fails. */
    method IssueSteps(name: string, steps: seq<UpdateTableInput>, ghost step: (nat, UpdateTableInput) -> Run)
      returns (err: Option<Error>)
      requires forall p: nat, u :: step(p, u) == UpdateTableRun(remote.script, p, name, u, budgets)
      modifies remote
      ensures var r := Chain(step, |old(remote.log)|, steps);
        err == r.err && remote.log == old(remote.log) + r.ex
    {
      ghost var start := remote.log;
      ghost var at := |start|;
      assert steps[..0] == [];
      err := None;
      for k := 0 to |steps|
        invariant err.None?
        invariant var s := Chain(step, at, steps[..k]);
          s.err.None? && remote.log == start + s.ex
      {
        err := IssueStep(name, steps[k], step, start, steps, k);
        if err.Some? {
          ghost var whole := Chain(step, at, steps);
          assert err == whole.err && remote.log == start + whole.ex;
          return;
        }
      }
      assert steps[..|steps|] == steps;
    }

    /**
     * Carries out the steps of a plan, the first error ending them, then
     * (when they all succeed and the plan asks for it) a last wait for ACTIVE.
     */
    method RunPlan(name: string, steps: seq<UpdateTableInput>, finalWait: bool,
                   ghost step: (nat, UpdateTableInput) -> Run, ghost wait: nat -> Run)
      returns (err: Option<Error>)
      requires forall p: nat, u :: step(p, u) == UpdateTableRun(remote.script, p, name, u, budgets)
      requires forall p: nat :: wait(p) == WaitRun(remote.script, p, name, true, budgets)
      modifies remote
      ensures var r := Finish(step, wait, |old(remote.log)|, steps, finalWait);
        err == r.err && remote.log == old(remote.log) + r.ex
    {
      ghost var start := remote.log;
      ghost var at := |start|;
      ghost var s := Chain(step, at, steps);
      err := IssueSteps(name, steps, step);
      if err.None? && finalWait {
        assert |remote.log| == at + |s.ex|;
        ghost var before := remote.log;
        err := WaitForTableState(name, true);
        ghost var w := WaitRun(remote.script, |before|, name, true, budgets);
        assert remote.log == start + (s.ex + w.ex);
        FinishWaited(step, wait, at, steps, s, w);
      } else {
        assert err == s.err && remote.log == start + s.ex;
        assert Finish(step, wait, at, steps, finalWait) == s;
      }
    }

    /**
     * Updates the table an identifier names, one change per UpdateTable
     * request: the throughput when a capacity changed, then (when the index
     * list changed) each new index, each index whose capacities changed, each
     * removed index, and a last wait for ACTIVE. The first error ends it.
     */
    method Update(id: string, oldTable: Table, newTable: Table, changed: set<Field>) returns (err: Option<Error>)
      modifies remote
      ensures var r := UpdateRun(remote.script, |old(remote.log)|, parse, id, oldTable, newTable, changed, budgets);
        err == r.err && remote.log == old(remote.log) + r.ex
    {
      match parse(id)
      case Err(e) =>
        return Some(e);
      case Ok(name) =>
        var oldSet, newSet := Empty, Empty;
        if IndexesChanged(changed) {
          newSet := NewGlobalSecondaryIndexHashSet(newTable.globalSecondaryIndexes);
          oldSet := NewGlobalSecondaryIndexHashSet(oldTable.globalSecondaryIndexes);
        }
        var plan := PlanFromSets(name, newTable, changed, oldSet, newSet);
        assert plan == UpdatePlan(name, oldTable, newTable, changed);
        err := RunPlan(name, plan.steps, plan.finalWait, UpdateStep(remote.script, name, budgets), ActiveWait(remote.script, name, budgets));
    }

    /** Deletes the table an identifier names, retried on the long budget while it is busy, then waits until it is gone. */
    method Delete(id: string) returns (err: Option<Error>)
      modifies remote
      ensures var r := DeleteRun(remote.script, |old(remote.log)|, parse, id, budgets);
        err == r.err && remote.log == old(remote.log) + r.ex
    {
      match parse(id)
      case Err(e) =>
        return Some(e);
      case Ok(name) =>
        var succ, e := RetryUntil(DeleteTable(name), Deleting, budgets.long);
        if e.Some? {
          return e;
        }
        if !succ {
          return Some(Failure(NotDeletedMessage(name)));
        }
        err := WaitForTableState(name, false);
    }
  }
}
