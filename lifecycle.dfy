/**
 * What the provider's operations promise about a table's lifecycle, stated on
 * their runs: Create hands out an identifier only for a table it saw become
 * ACTIVE, Get reads back what Create declared, Delete returns only once the
 * table is gone, and an Update that changes nothing sends nothing.
 */
module Lifecycle {
  import opened Wrappers
  import opened Model
  import opened Requests
  import opened Remote
  import opened Retrying
  import opened Protocol
  import opened Waiting

  // Create.

  /**
   * Create sends exactly one CreateTable request, for the declared table under
   * its declared name, or the generated one when it has none, and nothing but describes of that name after it; each
   * call got the answer the service gave at its position. It returns an
   * identifier exactly when it fails with no error, and then the identifier is
   * the ARN the CreateTable answer carried and the last describe showed the
   * table ACTIVE. A rejected CreateTable ends it at once.
   */
  lemma {:induction false} CreateOutcome(script: nat -> Answer, at: nat, t: Table, generatedName: string, b: Budgets)
    ensures var c := CreateRun(script, at, t, generatedName, b);
      var name := RemoteName(t, generatedName);
      && 1 <= |c.ex| <= b.long + 1
      && c.ex[0] == Exchange(CreateTable(CreateRequest(t, name)), script(at))
      && (t.tableName.Some? ==> c.ex[0].req.input.tableName == t.tableName.value)
      && (t.tableName.None? ==> c.ex[0].req.input.tableName == generatedName)
      && (forall i :: 1 <= i < |c.ex| ==> c.ex[i] == Exchange(DescribeTable(name), script(at + i)))
      && (c.err.Some? ==> c.id == "")
      && (c.err.None? <==> script(at).Accept? && |c.ex| > 1 && Reached(true, script(at + |c.ex| - 1)))
      && (c.err.None? ==> c.id == script(at).arn)
      && (script(at).Reject? ==> c.err == Some(script(at).err) && |c.ex| == 1)
  {
    var name := RemoteName(t, generatedName);
    if script(at).Accept? {
      var w := WaitRun(script, at + 1, name, true, b);
      WaitRunMeaning(script, at + 1, name, true, b);
      var c := CreateRun(script, at, t, generatedName, b);
      assert c.ex == [c.ex[0]] + w.ex;
      forall i | 1 <= i < |c.ex| ensures c.ex[i] == Exchange(DescribeTable(name), script(at + i)) {
        assert c.ex[i] == w.ex[i - 1];
      }
    }
  }

  /**
   * A create the service accepts, whose table is first not found and then
   * ACTIVE, returns the ARN after two describes.
   */
  lemma {:induction false} CreateAfterOneNotFound(script: nat -> Answer, at: nat, t: Table, generatedName: string, b: Budgets,
                                                  arn: string, created: TableDescription)
    requires b.long >= 2
    requires script(at) == Accept(arn, created)
    requires Pending(true, script(at + 1)) && Reached(true, script(at + 2))
    ensures var c := CreateRun(script, at, t, generatedName, b);
      && c.id == arn && c.err.None?
      && |c.ex| == 3
      && c.ex[1].req == DescribeTable(RemoteName(t, generatedName))
      && c.ex[2].req == DescribeTable(RemoteName(t, generatedName))
  {
    var name := RemoteName(t, generatedName);
    WaitReachedAt(script, at + 1, name, true, b, 1);
  }

  // Get.

  /**
   * Get reports an absent table (no table, no error) exactly when the
   * identifier's parser reports it not found; it describes the table once when
   * the identifier parses, and a rejected describe, not-found included, is
   * returned as an error. It returns a table only without an error.
   */
  lemma {:induction false} GetOutcome(script: nat -> Answer, at: nat, parse: string -> Result<string, Error>, id: string)
    ensures var r := GetRun(script, at, parse, id);
      && (r.table.None? && r.err.None? <==> parse(id).Err? && IsAwsError(parse(id).error, ResourceNotFound))
      && (r.table.Some? ==> r.err.None?)
      && (parse(id).Err? ==> r.ex == [])
      && (parse(id).Ok? ==> r.ex == [Exchange(DescribeTable(parse(id).value), script(at))])
      && (parse(id).Ok? && script(at).Reject? ==> r.err == Some(script(at).err))
  {
  }

  /**
   * Reading a table back right after it was created: when the describe shows
   * the table as its CreateTable request declared it, Get returns the declared
   * table under its remote name.
   */
  lemma {:induction false} GetAfterCreate(script: nat -> Answer, at: nat, parse: string -> Result<string, Error>, id: string,
                                          t: Table, name: string, arn: string, status: string)
    requires parse(id) == Ok(name)
    requires script(at) == Accept(arn, DescribedAsCreated(CreateRequest(t, name), status))
    ensures GetRun(script, at, parse, id) == Read(Some(AsReadBack(t, name)), None, [Exchange(DescribeTable(name), script(at))])
  {
    ReadBackCreated(t, name, status);
  }

  // Delete.

  /**
   * Delete sends DeleteTable requests for the named table (retried while it is
   * in use, on the long budget) and then describes of it (on the long budget
   * again); each call got the answer the service gave at its position.
   */
  lemma {:induction false} DeleteCalls(script: nat -> Answer, at: nat, parse: string -> Result<string, Error>, id: string, b: Budgets)
    requires parse(id).Ok?
    ensures var r := DeleteRun(script, at, parse, id, b);
      var name := parse(id).value;
      && |r.ex| <= 2 * b.long
      && (forall i :: 0 <= i < |r.ex| ==> r.ex[i].answer == script(at + i))
      && (forall i :: 0 <= i < |r.ex| ==> r.ex[i].req == DeleteTable(name) || r.ex[i].req == DescribeTable(name))
  {
    var name := parse(id).value;
    var d := Retry(script, at, b.long, Deleting);
    var ex := Attempts(script, at, DeleteTable(name), d.attempts);
    if d.err.None? && d.succ {
      var w := WaitRun(script, at + d.attempts, name, false, b);
      var r := DeleteRun(script, at, parse, id, b);
      assert r.ex == ex + w.ex;
      forall i | 0 <= i < |r.ex|
        ensures r.ex[i].answer == script(at + i)
        ensures r.ex[i].req == DeleteTable(name) || r.ex[i].req == DescribeTable(name)
      {
        if i >= |ex| {
          assert r.ex[i] == w.ex[i - |ex|];
        }
      }
    }
  }

  /**
   * Delete returns no error only once the table is gone: it began with a
   * DeleteTable request, and its last call was a describe that found no table.
   */
  lemma {:induction false} DeleteConfirmed(script: nat -> Answer, at: nat, parse: string -> Result<string, Error>, id: string, b: Budgets)
    requires parse(id).Ok?
    ensures var r := DeleteRun(script, at, parse, id, b);
      var name := parse(id).value;
      r.err.None? ==>
        && |r.ex| >= 2
        && r.ex[0].req == DeleteTable(name)
        && r.ex[|r.ex| - 1] == Exchange(DescribeTable(name), script(at + |r.ex| - 1))
        && Reached(false, script(at + |r.ex| - 1))
  {
    var name := parse(id).value;
    var d := Retry(script, at, b.long, Deleting);
    var ex := Attempts(script, at, DeleteTable(name), d.attempts);
    if d.err.None? && d.succ {
      var w := WaitRun(script, at + d.attempts, name, false, b);
      WaitSucceeded(script, at + d.attempts, name, false, b);
      var r := DeleteRun(script, at, parse, id, b);
      assert r.ex == ex + w.ex;
      if w.err.None? {
        assert r.ex[|r.ex| - 1] == w.ex[|w.ex| - 1];
      }
    }
  }

  /** An identifier that does not parse is returned as the error, and nothing is sent. */
  lemma {:induction false} DeleteUnparsable(script: nat -> Answer, at: nat, parse: string -> Result<string, Error>, id: string, b: Budgets)
    requires parse(id).Err?
    ensures DeleteRun(script, at, parse, id, b) == Run(Some(parse(id).error), [])
  {
  }

  /**
   * A DeleteTable rejection other than not-found and in-use, after `j`
   * in-use answers, is returned as it is: the `j + 1` DeleteTable requests
   * are all that is sent, and no describe follows.
   */
  lemma {:induction false} DeleteRejected(script: nat -> Answer, at: nat, parse: string -> Result<string, Error>, id: string,
                                          b: Budgets, name: string, j: nat)
    requires parse(id) == Ok(name)
    requires j < b.long
    requires forall p :: at <= p < at + j ==> script(p).Reject? && IsAwsError(script(p).err, ResourceInUse)
    requires script(at + j).Reject?
    requires !IsAwsError(script(at + j).err, ResourceNotFound) && !IsAwsError(script(at + j).err, ResourceInUse)
    ensures var r := DeleteRun(script, at, parse, id, b);
      && r == Run(Some(script(at + j).err), Attempts(script, at, DeleteTable(name), j + 1))
      && forall i :: 0 <= i < |r.ex| ==> r.ex[i].req != DescribeTable(name)
  {
    assert AllAgain(script, Deleting, at, at + j) by {
      forall p | at <= p < at + j ensures Classify(Deleting, script(p)).Again? {
      }
    }
    RetryStopsAt(script, at, b.long, Deleting, j);
  }

  /**
   * A table in use at every one of the long budget's DeleteTable attempts is
   * reported as not deleted after exactly that many requests, and no describe
   * follows.
   */
  lemma {:induction false} DeleteExhausted(script: nat -> Answer, at: nat, parse: string -> Result<string, Error>, id: string,
                                           b: Budgets, name: string)
    requires parse(id) == Ok(name)
    requires forall p :: at <= p < at + b.long ==> script(p).Reject? && IsAwsError(script(p).err, ResourceInUse)
    ensures DeleteRun(script, at, parse, id, b) ==
              Run(Some(Failure(NotDeletedMessage(name))), Attempts(script, at, DeleteTable(name), b.long))
  {
    assert AllAgain(script, Deleting, at, at + b.long) by {
      forall p | at <= p < at + b.long ensures Classify(Deleting, script(p)).Again? {
      }
    }
    RetryExhausted(script, at, b.long, Deleting);
  }

  /**
   * Deleting a table that is already gone: the DeleteTable answer is
   * not-found, which counts as deleted, and the one describe that follows
   * finds no table, so Delete succeeds after exactly these two calls.
   */
  lemma {:induction false} DeleteOfAbsentTable(script: nat -> Answer, at: nat, parse: string -> Result<string, Error>, id: string,
                                               b: Budgets, name: string)
    requires b.long >= 1
    requires parse(id) == Ok(name)
    requires script(at) == Reject(AwsError(ResourceNotFound)) && script(at + 1) == Reject(AwsError(ResourceNotFound))
    ensures DeleteRun(script, at, parse, id, b) ==
              Run(None, [Exchange(DeleteTable(name), script(at)), Exchange(DescribeTable(name), script(at + 1))])
  {
    RetryStopsAt(script, at, b.long, Deleting, 0);
    WaitReachedAt(script, at + 1, name, false, b, 0);
    assert Attempts(script, at, DeleteTable(name), 1) == [Exchange(DeleteTable(name), script(at))];
    assert Attempts(script, at + 1, DescribeTable(name), 1) == [Exchange(DescribeTable(name), script(at + 1))];
  }

  // Update.

  /**
   * One UpdateTable request whose answer, after `j` not-found or in-use
   * answers, is any other rejection: that error is returned, the `j + 1`
   * UpdateTable requests are all that is sent, and no wait follows.
   */
  lemma {:induction false} UpdateTableRejected(script: nat -> Answer, at: nat, name: string, update: UpdateTableInput,
                                               b: Budgets, j: nat)
    requires j < b.short
    requires forall p :: at <= p < at + j ==>
      script(p).Reject? && (IsAwsError(script(p).err, ResourceNotFound) || IsAwsError(script(p).err, ResourceInUse))
    requires script(at + j).Reject?
    requires !IsAwsError(script(at + j).err, ResourceNotFound) && !IsAwsError(script(at + j).err, ResourceInUse)
    ensures var r := UpdateTableRun(script, at, name, update, b);
      && r == Run(Some(script(at + j).err), Attempts(script, at, UpdateTable(update), j + 1))
      && forall i :: 0 <= i < |r.ex| ==> r.ex[i].req != DescribeTable(name)
  {
    assert AllAgain(script, Updating, at, at + j) by {
      forall p | at <= p < at + j ensures Classify(Updating, script(p)).Again? {
      }
    }
    RetryStopsAt(script, at, b.short, Updating, j);
  }

  /**
   * One UpdateTable request answered not-found or in-use at every attempt of
   * the short budget: the table is reported as not updated after exactly that
   * many requests, and no wait follows.
   */
  lemma {:induction false} UpdateTableExhausted(script: nat -> Answer, at: nat, name: string, update: UpdateTableInput, b: Budgets)
    requires forall p :: at <= p < at + b.short ==>
      script(p).Reject? && (IsAwsError(script(p).err, ResourceNotFound) || IsAwsError(script(p).err, ResourceInUse))
    ensures UpdateTableRun(script, at, name, update, b) ==
              Run(Some(Failure(NotUpdatedMessage(name))), Attempts(script, at, UpdateTable(update), b.short))
  {
    assert AllAgain(script, Updating, at, at + b.short) by {
      forall p | at <= p < at + b.short ensures Classify(Updating, script(p)).Again? {
      }
    }
    RetryExhausted(script, at, b.short, Updating);
  }

  /** An update whose change touches neither a capacity nor the index list sends nothing and succeeds. */
  lemma {:induction false} UpdateWithoutChange(script: nat -> Answer, at: nat, parse: string -> Result<string, Error>, id: string,
                                               oldTable: Table, newTable: Table, changed: set<Field>, b: Budgets)
    requires parse(id).Ok?
    requires !CapacityChanged(changed) && !IndexesChanged(changed)
    ensures UpdateRun(script, at, parse, id, oldTable, newTable, changed, b) == Run(None, [])
  {
    var name := parse(id).value;
    assert UpdatePlan(name, oldTable, newTable, changed) == Plan([], false);
    assert Chain(UpdateStep(script, name, b), at, []) == Run(None, []);
  }

  /**
   * An update of the capacities alone, accepted at once and ACTIVE at the
   * first describe: exactly one UpdateTable request, carrying the new
   * throughput, then one describe.
   */
  lemma {:induction false} UpdateOfCapacityOnly(script: nat -> Answer, at: nat, parse: string -> Result<string, Error>, id: string,
                                                oldTable: Table, newTable: Table, changed: set<Field>, b: Budgets,
                                                name: string, arn: string, accepted: TableDescription)
    requires b.short >= 1 && b.long >= 1
    requires parse(id) == Ok(name)
    requires CapacityChanged(changed) && !IndexesChanged(changed)
    requires script(at) == Accept(arn, accepted) && Reached(true, script(at + 1))
    ensures UpdateRun(script, at, parse, id, oldTable, newTable, changed, b) ==
              Run(None, [Exchange(UpdateTable(ThroughputUpdate(name, newTable)), script(at)),
                         Exchange(DescribeTable(name), script(at + 1))])
  {
    var u := ThroughputUpdate(name, newTable);
    assert UpdatePlan(name, oldTable, newTable, changed) == Plan([u], false);
    RetryStopsAt(script, at, b.short, Updating, 0);
    WaitReachedAt(script, at + 1, name, true, b, 0);
    assert Attempts(script, at, UpdateTable(u), 1) == [Exchange(UpdateTable(u), script(at))];
    assert Attempts(script, at + 1, DescribeTable(name), 1) == [Exchange(DescribeTable(name), script(at + 1))];
    var r := UpdateTableRun(script, at, name, u, b);
    assert [u][..0] == [];
    assert Chain(UpdateStep(script, name, b), at, [u]) == Run(r.err, [] + r.ex);
  }
}
