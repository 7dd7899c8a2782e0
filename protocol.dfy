/**
 * What each provider operation does to the service, as pure functions of the
 * service's answers: the calls it makes, in order, each with its answer, and
 * the error it returns.
 * The provider's methods are proved to behave exactly as these say.
 */
module Protocol {
  import opened Wrappers
  import opened Model
  import opened Requests
  import opened Remote
  import opened Retrying

  /** The attempt budgets of the two retry profiles: short for eventual-consistency races, long for provisioning. */
  datatype Budgets = Budgets(short: nat, long: nat)

  /** What an operation did: the error it returns, and its exchanges with the service (each call with its answer), oldest first. */
  datatype Run = Run(err: Option<Error>, ex: seq<Exchange>)

  /** What Create did: the identifier it returns, its error, and its exchanges. */
  datatype Created = Created(id: string, err: Option<Error>, ex: seq<Exchange>)

  /** What Get did: the table it read back (None when absent or on error), its error, and its exchanges. */
  datatype Read = Read(table: Option<Table>, err: Option<Error>, ex: seq<Exchange>)

  // Error messages.

  function TimeoutMessage(name: string, exist: bool): string {
    "DynamoDB table '" + name + "' did not become " + (if exist then "active" else "deleted")
  }

  function NotUpdatedMessage(name: string): string {
    "DynamoDB table '" + name + "' could not be updated"
  }

  function NotDeletedMessage(name: string): string {
    "DynamoDB table '" + name + "' could not be deleted"
  }

  // The operations, answer by answer. `at` is the position of the operation's first call.

  /** Waiting for a table to become active (or to be gone): describe it until it is, on the long budget. */
  function WaitRun(script: nat -> Answer, at: nat, name: string, exist: bool, b: Budgets): (r: Run)
    ensures |r.ex| <= b.long
    ensures forall i :: 0 <= i < |r.ex| ==> r.ex[i] == Exchange(DescribeTable(name), script(at + i))
  {
    var d := Retry(script, at, b.long, Await(exist));
    var ex := Attempts(script, at, DescribeTable(name), d.attempts);
    if d.err.Some? then Run(d.err, ex)
    else if !d.succ then Run(Some(Failure(TimeoutMessage(name, exist))), ex)
    else Run(None, ex)
  }

  /** One UpdateTable request, retried on the short budget while the table is missing or busy, then a wait for ACTIVE. */
  function UpdateTableRun(script: nat -> Answer, at: nat, name: string, update: UpdateTableInput, b: Budgets): Run {
    var d := Retry(script, at, b.short, Updating);
    var ex := Attempts(script, at, UpdateTable(update), d.attempts);
    if d.err.Some? then Run(d.err, ex)
    else if !d.succ then Run(Some(Failure(NotUpdatedMessage(name))), ex)
    else
      var w := WaitRun(script, at + d.attempts, name, true, b);
      Run(w.err, ex + w.ex)
  }

  /**
   * Steps carried out one after another from position `at`, each by `step`
   * from the position where the previous one ended, stopping at the first
   * step that fails.
   */
  function Chain(step: (nat, UpdateTableInput) -> Run, at: nat, steps: seq<UpdateTableInput>): Run
    decreases |steps|
  {
    if steps == [] then Run(None, [])
    else
      var r := Chain(step, at, steps[..|steps| - 1]);
      if r.err.Some? then r
      else
        var u := step(at + |r.ex|, steps[|steps| - 1]);
        Run(u.err, r.ex + u.ex)
  }

  /** The step after a prefix that succeeded extends the prefix's run by that step's run. */
  lemma {:induction false} ChainNext(step: (nat, UpdateTableInput) -> Run, at: nat, steps: seq<UpdateTableInput>, n: nat)
    requires n < |steps|
    requires Chain(step, at, steps[..n]).err.None?
    ensures var r := Chain(step, at, steps[..n]);
      var u := step(at + |r.ex|, steps[n]);
      Chain(step, at, steps[..n + 1]) == Run(u.err, r.ex + u.ex)
  {
    assert steps[..n + 1][..n] == steps[..n];
  }

  /**
   * The step after a prefix that succeeded, seen on the transcript: a
   * transcript that held the prefix's exchanges and then got the step's holds
   * those of the longer prefix, and when the step fails that is the whole run.
   */
  lemma {:induction false} ChainExtend(step: (nat, UpdateTableInput) -> Run, at: nat, steps: seq<UpdateTableInput>, k: nat,
                                       s: Run, u: Run, start: seq<Exchange>, before: seq<Exchange>, after: seq<Exchange>)
    requires k < |steps| && s == Chain(step, at, steps[..k]) && s.err.None?
    requires u == step(at + |s.ex|, steps[k])
    requires before == start + s.ex && after == before + u.ex
    ensures var next := Chain(step, at, steps[..k + 1]);
      next == Run(u.err, s.ex + u.ex) && after == start + next.ex
    ensures u.err.Some? ==> Chain(step, at, steps) == Run(u.err, s.ex + u.ex)
  {
    ChainNext(step, at, steps, k);
    assert after == start + (s.ex + u.ex);
    if u.err.Some? {
      ChainStops(step, at, steps, k + 1);
    }
  }

  /** Once a prefix of the steps fails, the later steps are never carried out: the whole run is the prefix's run. */
  lemma {:induction false} ChainStops(step: (nat, UpdateTableInput) -> Run, at: nat, steps: seq<UpdateTableInput>, n: nat)
    requires n <= |steps|
    requires Chain(step, at, steps[..n]).err.Some?
    ensures Chain(step, at, steps) == Chain(step, at, steps[..n])
    decreases |steps|
  {
    if n < |steps| {
      var init := steps[..|steps| - 1];
      assert init[..n] == steps[..n];
      ChainStops(step, at, init, n);
    } else {
      assert steps[..n] == steps;
    }
  }

  /** One update step of the named table, as a function of its position and its request. */
  function UpdateStep(script: nat -> Answer, name: string, b: Budgets): (nat, UpdateTableInput) -> Run {
    (p: nat, u: UpdateTableInput) => UpdateTableRun(script, p, name, u, b)
  }

  /** A sequence of UpdateTable requests, each issued as above, stopping at the first error. */
  function StepsRun(script: nat -> Answer, at: nat, name: string, steps: seq<UpdateTableInput>, b: Budgets): Run {
    Chain(UpdateStep(script, name, b), at, steps)
  }

  /** Create: one CreateTable request, never retried, then a wait for ACTIVE; the ARN is returned only on success. */
  function CreateRun(script: nat -> Answer, at: nat, t: Table, generatedName: string, b: Budgets): Created {
    var name := RemoteName(t, generatedName);
    var first := Exchange(CreateTable(CreateRequest(t, name)), script(at));
    match script(at)
    case Reject(e) => Created("", Some(e), [first])
    case Accept(arn, _) =>
      var w := WaitRun(script, at + 1, name, true, b);
      if w.err.Some? then Created("", w.err, [first] + w.ex)
      else Created(arn, None, [first] + w.ex)
  }

  /**
   * Get: an identifier that names no table (the parser reports not-found) is
   * an absent table; otherwise one DescribeTable, whose answer is read back.
   */
  function GetRun(script: nat -> Answer, at: nat, parse: string -> Result<string, Error>, id: string): Read {
    match parse(id)
    case Err(e) =>
      if IsAwsError(e, ResourceNotFound) then Read(None, None, []) else Read(None, Some(e), [])
    case Ok(name) =>
      var ex := [Exchange(DescribeTable(name), script(at))];
      match script(at)
      case Reject(e) => Read(None, Some(e), ex)
      case Accept(_, desc) =>
        match ReadBack(desc)
        case Err(e) => Read(None, Some(e), ex)
        case Ok(t) => Read(Some(t), None, ex)
  }

  /** The final wait of an update, for ACTIVE, as a function of its position. */
  function ActiveWait(script: nat -> Answer, name: string, b: Budgets): nat -> Run {
    (p: nat) => WaitRun(script, p, name, true, b)
  }

  /** Steps carried out by `step` until one fails, then, when they all succeed and `finalWait` is set, a `wait` from where they ended. */
  function Finish(step: (nat, UpdateTableInput) -> Run, wait: nat -> Run, at: nat, steps: seq<UpdateTableInput>, finalWait: bool): Run {
    var s := Chain(step, at, steps);
    if s.err.None? && finalWait then
      var w := wait(at + |s.ex|);
      Run(w.err, s.ex + w.ex)
    else s
  }

  /** When every step succeeds and a final wait is asked for, the run is the steps' exchanges followed by the wait's, ending as the wait ends. */
  lemma {:induction false} FinishWaited(step: (nat, UpdateTableInput) -> Run, wait: nat -> Run, at: nat, steps: seq<UpdateTableInput>,
                                        s: Run, w: Run)
    requires s == Chain(step, at, steps) && s.err.None?
    requires w == wait(at + |s.ex|)
    ensures Finish(step, wait, at, steps, true) == Run(w.err, s.ex + w.ex)
  {
  }

  /** Carrying out a plan: its UpdateTable requests in order, then one more wait when the plan asks for it. */
  function PlanRun(script: nat -> Answer, at: nat, name: string, plan: Plan, b: Budgets): Run {
    Finish(UpdateStep(script, name, b), ActiveWait(script, name, b), at, plan.steps, plan.finalWait)
  }

  /** Update: carry out the plan of the change for the table the identifier names. */
  function UpdateRun(script: nat -> Answer, at: nat, parse: string -> Result<string, Error>, id: string,
                     oldTable: Table, newTable: Table, changed: set<Field>, b: Budgets): Run
  {
    match parse(id)
    case Err(e) => Run(Some(e), [])
    case Ok(name) => PlanRun(script, at, name, UpdatePlan(name, oldTable, newTable, changed), b)
  }

  /** Delete: DeleteTable retried on the long budget while the table is busy, then a wait until it is gone. */
  function DeleteRun(script: nat -> Answer, at: nat, parse: string -> Result<string, Error>, id: string, b: Budgets): Run {
    match parse(id)
    case Err(e) => Run(Some(e), [])
    case Ok(name) =>
      var d := Retry(script, at, b.long, Deleting);
      var ex := Attempts(script, at, DeleteTable(name), d.attempts);
      if d.err.Some? then Run(d.err, ex)
      else if !d.succ then Run(Some(Failure(NotDeletedMessage(name))), ex)
      else
        var w := WaitRun(script, at + d.attempts, name, false, b);
        Run(w.err, ex + w.ex)
  }
}
