/**
 * The discipline of an update, stated on the exchanges with the service: the
 * updates the service accepts are exactly the planned ones, in plan order, and
 * after each accepted update no other update is sent until the table has been
 * seen ACTIVE.
 */
module Sequencing {
  import opened Wrappers
  import opened Model
  import opened Requests
  import opened Remote
  import opened Retrying
  import opened Protocol
  import opened Waiting

  /** An UpdateTable call the service accepted. */
  predicate AcceptedUpdate(e: Exchange) {
    e.req.UpdateTable? && e.answer.Accept?
  }

  /** A describe showing the table ACTIVE. */
  predicate ActiveDescribe(e: Exchange) {
    e.req.DescribeTable? && e.answer.Accept? && e.answer.table.tableStatus == ActiveStatus
  }

  /** The updates the service accepted, in the order it accepted them. */
  function Accepted(ex: seq<Exchange>): seq<UpdateTableInput> {
    if ex == [] then []
    else (if AcceptedUpdate(ex[0]) then [ex[0].req.update] else []) + Accepted(ex[1..])
  }

  /** The last update the service accepted has not yet been followed by a describe showing the table ACTIVE. */
  function Unconfirmed(ex: seq<Exchange>): bool
    decreases |ex|
  {
    if ex == [] then false
    else if AcceptedUpdate(ex[|ex| - 1]) then true
    else if ActiveDescribe(ex[|ex| - 1]) then false
    else Unconfirmed(ex[..|ex| - 1])
  }

  /** No update is sent while an update the service accepted is still unconfirmed. */
  predicate Serialized(ex: seq<Exchange>)
    decreases |ex|
  {
    ex == [] ||
    (Serialized(ex[..|ex| - 1]) && (ex[|ex| - 1].req.UpdateTable? ==> !Unconfirmed(ex[..|ex| - 1])))
  }

  lemma {:induction false} AcceptedConcat(a: seq<Exchange>, b: seq<Exchange>)
    ensures Accepted(a + b) == Accepted(a) + Accepted(b)
    decreases |a|
  {
    if a != [] {
      assert (a + b)[1..] == a[1..] + b;
      AcceptedConcat(a[1..], b);
    } else {
      assert a + b == b;
    }
  }

  lemma {:induction false} AcceptedNone(ex: seq<Exchange>)
    requires forall i :: 0 <= i < |ex| ==> !AcceptedUpdate(ex[i])
    ensures Accepted(ex) == []
    decreases |ex|
  {
    if ex != [] {
      AcceptedNone(ex[1..]);
    }
  }

  /** The exchanges end on a describe showing ACTIVE, or there are none. */
  predicate EndsActive(ex: seq<Exchange>) {
    |ex| > 0 ==> ActiveDescribe(ex[|ex| - 1])
  }

  /** Exchanges without an accepted update leave nothing unconfirmed. */
  lemma {:induction false} NoneUnconfirmed(ex: seq<Exchange>)
    requires forall i :: 0 <= i < |ex| ==> !AcceptedUpdate(ex[i])
    ensures !Unconfirmed(ex)
    decreases |ex|
  {
    if ex != [] {
      NoneUnconfirmed(ex[..|ex| - 1]);
    }
  }

  /** After exchanges that leave nothing unconfirmed, only the later exchanges decide. */
  lemma {:induction false} UnconfirmedAfter(p: seq<Exchange>, q: seq<Exchange>)
    requires !Unconfirmed(p)
    ensures Unconfirmed(p + q) == Unconfirmed(q)
    decreases |q|
  {
    if q == [] {
      assert p + q == p;
    } else {
      assert (p + q)[..|p + q| - 1] == p + q[..|q| - 1];
      assert (p + q)[|p + q| - 1] == q[|q| - 1];
      UnconfirmedAfter(p, q[..|q| - 1]);
    }
  }

  /** Appending exchanges that send no update keeps the discipline. */
  lemma {:induction false} SerializedNoUpdates(p: seq<Exchange>, q: seq<Exchange>)
    requires Serialized(p)
    requires forall i :: 0 <= i < |q| ==> !q[i].req.UpdateTable?
    ensures Serialized(p + q)
    decreases |q|
  {
    if q == [] {
      assert p + q == p;
    } else {
      assert (p + q)[..|p + q| - 1] == p + q[..|q| - 1];
      SerializedNoUpdates(p, q[..|q| - 1]);
    }
  }

  /** Exchanges in which only the last update can have been accepted keep the discipline. */
  lemma {:induction false} SerializedUntilAccepted(ex: seq<Exchange>)
    requires forall i :: 0 <= i < |ex| - 1 ==> !AcceptedUpdate(ex[i])
    ensures Serialized(ex)
    decreases |ex|
  {
    if ex != [] {
      var init := ex[..|ex| - 1];
      SerializedUntilAccepted(init);
      NoneUnconfirmed(init);
    }
  }

  /** Exchanges that keep the discipline and leave nothing unconfirmed can be followed by any that keep it. */
  lemma {:induction false} SerializedConcat(p: seq<Exchange>, u: seq<Exchange>)
    requires Serialized(p) && Serialized(u)
    requires !Unconfirmed(p)
    ensures Serialized(p + u)
    decreases |u|
  {
    if u == [] {
      assert p + u == p;
    } else {
      var init := u[..|u| - 1];
      assert (p + u)[..|p + u| - 1] == p + init;
      assert (p + u)[|p + u| - 1] == u[|u| - 1];
      SerializedConcat(p, init);
      UnconfirmedAfter(p, init);
    }
  }

  /** Exchanges followed by a non-empty continuation ending on ACTIVE end on ACTIVE. */
  lemma {:induction false} EndsActiveAfter(p: seq<Exchange>, u: seq<Exchange>)
    requires |u| > 0 && EndsActive(u)
    ensures |p + u| > 0 && EndsActive(p + u)
  {
    assert (p + u)[|p + u| - 1] == u[|u| - 1];
  }

  /** Exchanges that keep the discipline and end on ACTIVE (or are empty) can be followed by any that keep it. */
  lemma {:induction false} ConfirmedThenSerialized(p: seq<Exchange>, u: seq<Exchange>)
    requires Serialized(p) && EndsActive(p) && Serialized(u)
    ensures Serialized(p + u)
  {
    SerializedConcat(p, u);
  }

  /** A step of request `u` gets at most `u` accepted, and exactly `u` when it succeeds. */
  predicate AcceptsOnly(r: Run, u: UpdateTableInput) {
    && (Accepted(r.ex) == [] || Accepted(r.ex) == [u])
    && (r.err.None? ==> Accepted(r.ex) == [u])
  }

  /** A step that succeeds ends on a describe showing ACTIVE. */
  predicate ConfirmedWhenDone(r: Run) {
    r.err.None? ==> |r.ex| > 0 && EndsActive(r.ex)
  }

  /** The UpdateTable attempts of one step: only the last can have been accepted, and it was exactly when the retry succeeded. */
  lemma {:induction false} UpdateAttempts(script: nat -> Answer, at: nat, budget: nat, u: UpdateTableInput)
    ensures var d := Retry(script, at, budget, Updating);
      var ex := Attempts(script, at, UpdateTable(u), d.attempts);
      && Accepted(ex) == (if d.succ then [u] else [])
      && (forall i :: 0 <= i < |ex| && AcceptedUpdate(ex[i]) ==> i == |ex| - 1)
  {
    var d := Retry(script, at, budget, Updating);
    RetryMeaning(script, at, budget, Updating);
    var ex := Attempts(script, at, UpdateTable(u), d.attempts);
    forall i | 0 <= i < d.attempts - 1 ensures !AcceptedUpdate(ex[i]) {
      assert UpdateProbe(script(at + i)).Again?;
    }
    if d.attempts > 0 {
      var n := d.attempts - 1;
      assert ex == ex[..n] + [ex[n]];
      AcceptedNone(ex[..n]);
      AcceptedConcat(ex[..n], [ex[n]]);
      assert Accepted([ex[n]]) == (if AcceptedUpdate(ex[n]) then [u] else []);
      assert AcceptedUpdate(ex[n]) <==> d.succ;
    }
  }

  /** The UpdateTable attempts of one step keep the discipline. */
  lemma {:induction false} UpdateAttemptsSerialized(script: nat -> Answer, at: nat, budget: nat, u: UpdateTableInput)
    ensures Serialized(Attempts(script, at, UpdateTable(u), Retry(script, at, budget, Updating).attempts))
  {
    UpdateAttempts(script, at, budget, u);
    SerializedUntilAccepted(Attempts(script, at, UpdateTable(u), Retry(script, at, budget, Updating).attempts));
  }

  /** A wait sends no update, and a wait for an ACTIVE table that succeeds ends on a describe showing ACTIVE. */
  lemma {:induction false} WaitExchanges(script: nat -> Answer, at: nat, name: string, b: Budgets)
    ensures var w := WaitRun(script, at, name, true, b);
      && (forall i :: 0 <= i < |w.ex| ==> w.ex[i].req == DescribeTable(name) && !w.ex[i].req.UpdateTable?)
      && Accepted(w.ex) == []
      && ConfirmedWhenDone(w)
  {
    var w := WaitRun(script, at, name, true, b);
    AcceptedNone(w.ex);
    WaitRunMeaning(script, at, name, true, b);
  }

  /** A step made of attempts `exU`, then (when an attempt succeeded) the wait `w`; it fails when none succeeded. */
  predicate AttemptsThenWait(r: Run, exU: seq<Exchange>, w: Run, succ: bool) {
    && (succ ==> r == Run(w.err, exU + w.ex))
    && (!succ ==> r.ex == exU && r.err.Some?)
  }

  /** An update step is its UpdateTable attempts, then (when one was accepted) the wait for ACTIVE. */
  lemma {:induction false} UpdateStepShape(script: nat -> Answer, at: nat, name: string, u: UpdateTableInput, b: Budgets)
    ensures var d := Retry(script, at, b.short, Updating);
      AttemptsThenWait(UpdateTableRun(script, at, name, u, b), Attempts(script, at, UpdateTable(u), d.attempts),
                       WaitRun(script, at + d.attempts, name, true, b), d.succ)
  {
  }

  /** Attempts accepting the update only when they succeed, then a wait accepting nothing, accept only that update. */
  lemma {:induction false} AttemptsThenWaitAccepted(r: Run, exU: seq<Exchange>, w: Run, succ: bool, u: UpdateTableInput)
    requires AttemptsThenWait(r, exU, w, succ)
    requires Accepted(exU) == (if succ then [u] else [])
    requires Accepted(w.ex) == []
    ensures AcceptsOnly(r, u)
  {
    if succ {
      AcceptedConcat(exU, w.ex);
      assert Accepted(r.ex) == [u] + [];
    }
  }

  /** Attempts that only send the update, then a wait that only describes, send nothing else. */
  lemma {:induction false} AttemptsThenWaitCalls(r: Run, exU: seq<Exchange>, w: Run, succ: bool, u: UpdateTableInput, name: string)
    requires AttemptsThenWait(r, exU, w, succ)
    requires forall i :: 0 <= i < |exU| ==> exU[i].req == UpdateTable(u)
    requires forall i :: 0 <= i < |w.ex| ==> w.ex[i].req == DescribeTable(name)
    ensures forall i :: 0 <= i < |r.ex| ==> r.ex[i].req == UpdateTable(u) || r.ex[i].req == DescribeTable(name)
  {
    forall i | 0 <= i < |r.ex| ensures r.ex[i].req == UpdateTable(u) || r.ex[i].req == DescribeTable(name) {
      if i >= |exU| {
        assert r.ex[i] == w.ex[i - |exU|];
      }
    }
  }

  /** Attempts keeping the discipline, then a wait sending no update, keep it. */
  lemma {:induction false} AttemptsThenWaitSerialized(r: Run, exU: seq<Exchange>, w: Run, succ: bool)
    requires AttemptsThenWait(r, exU, w, succ)
    requires Serialized(exU)
    requires forall i :: 0 <= i < |w.ex| ==> !w.ex[i].req.UpdateTable?
    ensures Serialized(r.ex)
  {
    if succ {
      SerializedNoUpdates(exU, w.ex);
    }
  }

  /** Attempts, then a wait that ends on ACTIVE when it succeeds, end on ACTIVE when the step succeeds. */
  lemma {:induction false} AttemptsThenWaitEndsActive(r: Run, exU: seq<Exchange>, w: Run, succ: bool)
    requires AttemptsThenWait(r, exU, w, succ)
    requires ConfirmedWhenDone(w)
    ensures ConfirmedWhenDone(r)
  {
    if succ && w.err.None? {
      EndsActiveAfter(exU, w.ex);
    }
  }

  /** One update step sends only that update and describes of the table. */
  lemma {:induction false} UpdateStepCalls(script: nat -> Answer, at: nat, name: string, u: UpdateTableInput, b: Budgets)
    ensures var r := UpdateTableRun(script, at, name, u, b);
      forall i :: 0 <= i < |r.ex| ==> r.ex[i].req == UpdateTable(u) || r.ex[i].req == DescribeTable(name)
  {
    var d := Retry(script, at, b.short, Updating);
    var exU := Attempts(script, at, UpdateTable(u), d.attempts);
    var w := WaitRun(script, at + d.attempts, name, true, b);
    UpdateStepShape(script, at, name, u, b);
    AttemptsThenWaitCalls(UpdateTableRun(script, at, name, u, b), exU, w, d.succ, u, name);
  }

  /** The service accepts the update of one step at most once and, when the step succeeds, exactly once. */
  lemma {:induction false} UpdateStepAccepted(script: nat -> Answer, at: nat, name: string, u: UpdateTableInput, b: Budgets)
    ensures AcceptsOnly(UpdateTableRun(script, at, name, u, b), u)
  {
    var d := Retry(script, at, b.short, Updating);
    var exU := Attempts(script, at, UpdateTable(u), d.attempts);
    var w := WaitRun(script, at + d.attempts, name, true, b);
    UpdateStepShape(script, at, name, u, b);
    UpdateAttempts(script, at, b.short, u);
    WaitExchanges(script, at + d.attempts, name, b);
    AttemptsThenWaitAccepted(UpdateTableRun(script, at, name, u, b), exU, w, d.succ, u);
  }

  /** One update step keeps the discipline: nothing is sent after its update is accepted but describes. */
  lemma {:induction false} UpdateStepSerialized(script: nat -> Answer, at: nat, name: string, u: UpdateTableInput, b: Budgets)
    ensures Serialized(UpdateTableRun(script, at, name, u, b).ex)
  {
    var d := Retry(script, at, b.short, Updating);
    var exU := Attempts(script, at, UpdateTable(u), d.attempts);
    var w := WaitRun(script, at + d.attempts, name, true, b);
    UpdateStepShape(script, at, name, u, b);
    UpdateAttemptsSerialized(script, at, b.short, u);
    WaitExchanges(script, at + d.attempts, name, b);
    AttemptsThenWaitSerialized(UpdateTableRun(script, at, name, u, b), exU, w, d.succ);
  }

  /** An update step that succeeds ends on a describe showing the table ACTIVE. */
  lemma {:induction false} UpdateStepEndsActive(script: nat -> Answer, at: nat, name: string, u: UpdateTableInput, b: Budgets)
    ensures ConfirmedWhenDone(UpdateTableRun(script, at, name, u, b))
  {
    var d := Retry(script, at, b.short, Updating);
    var exU := Attempts(script, at, UpdateTable(u), d.attempts);
    var w := WaitRun(script, at + d.attempts, name, true, b);
    UpdateStepShape(script, at, name, u, b);
    WaitExchanges(script, at + d.attempts, name, b);
    AttemptsThenWaitEndsActive(UpdateTableRun(script, at, name, u, b), exU, w, d.succ);
  }

  /** Exchanges accepting some steps, then at most the next step, accept a prefix of the longer steps. */
  lemma {:induction false} AcceptedStep(exP: seq<Exchange>, exQ: seq<Exchange>, init: seq<UpdateTableInput>, u: UpdateTableInput)
    requires Accepted(exP) == init
    requires Accepted(exQ) == [] || Accepted(exQ) == [u]
    ensures Accepted(exP + exQ) <= init + [u]
    ensures Accepted(exQ) == [u] ==> Accepted(exP + exQ) == init + [u]
  {
    AcceptedConcat(exP, exQ);
    if Accepted(exQ) == [] {
      assert Accepted(exP + exQ) == init;
    }
  }

  /** Steps that each accept only their own request accept the steps in order: a prefix of them, and all when none fails. */
  lemma {:induction false} ChainAccepted(step: (nat, UpdateTableInput) -> Run, at: nat, steps: seq<UpdateTableInput>)
    requires forall p: nat, u: UpdateTableInput :: AcceptsOnly(step(p, u), u)
    ensures var r := Chain(step, at, steps);
      && Accepted(r.ex) <= steps
      && (r.err.None? ==> Accepted(r.ex) == steps)
    decreases |steps|
  {
    if steps != [] {
      var init, u := steps[..|steps| - 1], steps[|steps| - 1];
      assert steps == init + [u];
      ChainAccepted(step, at, init);
      var p := Chain(step, at, init);
      if p.err.None? {
        var q := step(at + |p.ex|, u);
        assert AcceptsOnly(q, u);
        AcceptedStep(p.ex, q.ex, init, u);
      }
    }
  }

  /** Steps that each end on ACTIVE when they succeed do so together, unless they make no call. */
  lemma {:induction false} ChainEndsActive(step: (nat, UpdateTableInput) -> Run, at: nat, steps: seq<UpdateTableInput>)
    requires forall p: nat, u: UpdateTableInput :: ConfirmedWhenDone(step(p, u))
    ensures var r := Chain(step, at, steps);
      r.err.None? ==> EndsActive(r.ex)
  {
    if steps != [] {
      var p := Chain(step, at, steps[..|steps| - 1]);
      if p.err.None? {
        var q := step(at + |p.ex|, steps[|steps| - 1]);
        assert ConfirmedWhenDone(q);
        if q.err.None? {
          EndsActiveAfter(p.ex, q.ex);
        }
      }
    }
  }

  /** Steps that each keep the discipline, and end on ACTIVE when they succeed, keep it together. */
  lemma {:induction false} ChainSerialized(step: (nat, UpdateTableInput) -> Run, at: nat, steps: seq<UpdateTableInput>)
    requires forall p: nat, u: UpdateTableInput :: Serialized(step(p, u).ex) && ConfirmedWhenDone(step(p, u))
    ensures Serialized(Chain(step, at, steps).ex)
    decreases |steps|
  {
    if steps != [] {
      var init := steps[..|steps| - 1];
      ChainSerialized(step, at, init);
      var p := Chain(step, at, init);
      if p.err.None? {
        ChainEndsActive(step, at, init);
        var q := step(at + |p.ex|, steps[|steps| - 1]);
        assert Serialized(q.ex);
        ConfirmedThenSerialized(p.ex, q.ex);
      }
    }
  }

  /** Every update step accepts only its own request, keeps the discipline, and ends on ACTIVE when it succeeds. */
  lemma {:induction false} UpdateStepFacts(script: nat -> Answer, name: string, b: Budgets)
    ensures forall p: nat, u: UpdateTableInput ::
      var r := UpdateStep(script, name, b)(p, u);
      AcceptsOnly(r, u) && Serialized(r.ex) && ConfirmedWhenDone(r)
  {
    forall p: nat, u: UpdateTableInput
      ensures var r := UpdateStep(script, name, b)(p, u);
        AcceptsOnly(r, u) && Serialized(r.ex) && ConfirmedWhenDone(r)
    {
      UpdateStepAccepted(script, p, name, u, b);
      UpdateStepSerialized(script, p, name, u, b);
      UpdateStepEndsActive(script, p, name, u, b);
    }
  }

  /**
   * A sequence of update steps: the service accepts the steps in order, a
   * prefix of them in any case and all of them when no step fails.
   */
  lemma {:induction false} StepsRunAccepted(script: nat -> Answer, at: nat, name: string, steps: seq<UpdateTableInput>, b: Budgets)
    ensures var r := StepsRun(script, at, name, steps, b);
      && Accepted(r.ex) <= steps
      && (r.err.None? ==> Accepted(r.ex) == steps)
  {
    UpdateStepFacts(script, name, b);
    ChainAccepted(UpdateStep(script, name, b), at, steps);
  }

  /** A sequence of update steps that succeeds ends on a describe showing ACTIVE, or makes no call. */
  lemma {:induction false} StepsRunEndsActive(script: nat -> Answer, at: nat, name: string, steps: seq<UpdateTableInput>, b: Budgets)
    ensures var r := StepsRun(script, at, name, steps, b);
      r.err.None? ==> EndsActive(r.ex)
  {
    UpdateStepFacts(script, name, b);
    ChainEndsActive(UpdateStep(script, name, b), at, steps);
  }

  /** A sequence of update steps keeps the discipline: no update is sent while an accepted one is unconfirmed. */
  lemma {:induction false} StepsRunSerialized(script: nat -> Answer, at: nat, name: string, steps: seq<UpdateTableInput>, b: Budgets)
    ensures Serialized(StepsRun(script, at, name, steps, b).ex)
  {
    UpdateStepFacts(script, name, b);
    ChainSerialized(UpdateStep(script, name, b), at, steps);
  }

  /** The run of a plan: its steps `s`, then (when they succeed and the plan asks for it) the final wait `w`. */
  predicate FinishedBy(r: Run, s: Run, w: Run, finalWait: bool) {
    r == (if s.err.None? && finalWait then Run(w.err, s.ex + w.ex) else s)
  }

  /** A final wait that gets no update accepted leaves the accepted updates as the steps left them. */
  lemma {:induction false} FinishAccepted(r: Run, s: Run, w: Run, finalWait: bool, steps: seq<UpdateTableInput>)
    requires FinishedBy(r, s, w, finalWait)
    requires Accepted(s.ex) <= steps && (s.err.None? ==> Accepted(s.ex) == steps)
    requires Accepted(w.ex) == []
    ensures Accepted(r.ex) <= steps && (r.err.None? ==> Accepted(r.ex) == steps)
  {
    if s.err.None? && finalWait {
      AcceptedConcat(s.ex, w.ex);
      assert Accepted(s.ex + w.ex) == Accepted(s.ex) + [];
    }
  }

  /** A final wait that sends no update keeps the discipline of the steps. */
  lemma {:induction false} FinishSerialized(r: Run, s: Run, w: Run, finalWait: bool)
    requires FinishedBy(r, s, w, finalWait)
    requires Serialized(s.ex)
    requires forall i :: 0 <= i < |w.ex| ==> !w.ex[i].req.UpdateTable?
    ensures Serialized(r.ex)
  {
    if s.err.None? && finalWait {
      SerializedNoUpdates(s.ex, w.ex);
    }
  }

  /** Steps and a final wait that each end on ACTIVE when they succeed do so together. */
  lemma {:induction false} FinishEndsActive(r: Run, s: Run, w: Run, finalWait: bool)
    requires FinishedBy(r, s, w, finalWait)
    requires s.err.None? ==> EndsActive(s.ex)
    requires ConfirmedWhenDone(w)
    ensures r.err.None? ==> EndsActive(r.ex)
  {
    if s.err.None? && finalWait && w.err.None? {
      EndsActiveAfter(s.ex, w.ex);
    }
  }

  /** A plan run is its steps, then (when they succeed and the plan asks for it) the final wait. */
  lemma {:induction false} PlanRunFinished(script: nat -> Answer, at: nat, name: string, plan: Plan, b: Budgets)
    ensures var s := StepsRun(script, at, name, plan.steps, b);
      FinishedBy(PlanRun(script, at, name, plan, b), s, WaitRun(script, at + |s.ex|, name, true, b), plan.finalWait)
  {
  }

  /**
   * Carrying out a plan: the updates the service accepts are a prefix of the
   * plan's steps, and all of them when the run succeeds.
   */
  lemma {:induction false} PlanRunAccepted(script: nat -> Answer, at: nat, name: string, plan: Plan, b: Budgets)
    ensures var r := PlanRun(script, at, name, plan, b);
      && Accepted(r.ex) <= plan.steps
      && (r.err.None? ==> Accepted(r.ex) == plan.steps)
  {
    var s := StepsRun(script, at, name, plan.steps, b);
    var w := WaitRun(script, at + |s.ex|, name, true, b);
    StepsRunAccepted(script, at, name, plan.steps, b);
    WaitExchanges(script, at + |s.ex|, name, b);
    PlanRunFinished(script, at, name, plan, b);
    FinishAccepted(PlanRun(script, at, name, plan, b), s, w, plan.finalWait, plan.steps);
  }

  /** Carrying out a plan keeps the discipline: no update is sent while an accepted one is unconfirmed. */
  lemma {:induction false} PlanRunSerialized(script: nat -> Answer, at: nat, name: string, plan: Plan, b: Budgets)
    ensures Serialized(PlanRun(script, at, name, plan, b).ex)
  {
    var s := StepsRun(script, at, name, plan.steps, b);
    var w := WaitRun(script, at + |s.ex|, name, true, b);
    StepsRunSerialized(script, at, name, plan.steps, b);
    WaitExchanges(script, at + |s.ex|, name, b);
    PlanRunFinished(script, at, name, plan, b);
    FinishSerialized(PlanRun(script, at, name, plan, b), s, w, plan.finalWait);
  }

  /** Carrying out a plan successfully ends on a describe showing ACTIVE, or makes no call. */
  lemma {:induction false} PlanRunEndsActive(script: nat -> Answer, at: nat, name: string, plan: Plan, b: Budgets)
    ensures var r := PlanRun(script, at, name, plan, b);
      r.err.None? ==> EndsActive(r.ex)
  {
    var s := StepsRun(script, at, name, plan.steps, b);
    var w := WaitRun(script, at + |s.ex|, name, true, b);
    StepsRunEndsActive(script, at, name, plan.steps, b);
    WaitExchanges(script, at + |s.ex|, name, b);
    PlanRunFinished(script, at, name, plan, b);
    FinishEndsActive(PlanRun(script, at, name, plan, b), s, w, plan.finalWait);
  }
}
