# DynamoDB table provider and prefixing writer, modelled in Dafny

This project models two pieces of the Lumi (Pulumi) repository.

**The DynamoDB table resource provider** (`lib/aws/provider/dynamodb/table.go`)
reconciles a declared table with the DynamoDB control plane:

- `Check` validates a declared table and reports every violated limit.
- `Create` sends one CreateTable request and waits for the table to become
  ACTIVE.
- `Get` describes the table and maps the description back into a declared
  table. This includes decoding the HASH/RANGE key schema (`getHashRangeKeys`).
- `Update` serialises its changes into one UpdateTable request per change:
  - the throughput first;
  - then index creations, index capacity updates and index deletions, computed
    from a set of indexes keyed by name (`newGlobalSecondaryIndexHashSet`,
    `HashKey`, `HashValue`);
  - each change is sent by `updateTable`, which retries and then waits for
    ACTIVE.
- `Delete` retries DeleteTable while the table is busy, then waits for it to be
  gone.
- All the waits go through `waitForTableState`, a bounded poll over
  DescribeTable.

**The prefixing writer** of the integration-test harness
(`pkg/testing/integration/lumiprogram.go`) wraps another writer:

- It cuts what it is given after every newline.
- It writes each non-empty piece preceded by a fixed prefix.
- It returns the number of piece bytes the wrapped writer took.

## How the model is built

**The service** is a class, `Remote.FakeDynamoDB`:

- It answers the k-th call ever made with `script(k)`.
- It records every call with its answer in a transcript, `log`.
- Any behaviour of the real service is one choice of script. Examples are a
  table that stays CREATING, eventual-consistency not-found answers, and
  permanent errors.

**Runs.** Module `Protocol` states, as pure functions of the script, what each
operation does: the calls it makes in order with their answers, and the error it
returns. These functions are `WaitRun`, `UpdateTableRun`, `CreateRun`, `GetRun`,
`UpdateRun` and `DeleteRun`. The methods of `Provider.TableProvider` carry the
source's loops. Each method is proved to extend the service's transcript by
exactly its run, and to return exactly the run's result.

**What is proved about the runs:**

- Modules `Waiting`, `Sequencing` and `Lifecycle` prove what the runs promise:
  - the convergence wait's verdicts;
  - the update discipline: updates are accepted in plan order, and none is sent
    while an accepted one has not been confirmed ACTIVE;
  - abort on the first error;
  - the create, read and delete outcomes.
- Module `Requests` builds the requests and the ordered update plan, and proves
  that the plan is shaped as the source orders it.
- Module `IndexHashSet` proves that the index diff partitions the names.
- Module `Validate` holds `Check` as a method with loops, proved equal to a
  rule-by-rule list of failures. That list is empty exactly when the table is
  valid.

**The prefixing writer** is a class, `Prefixing.Prefixer`:

- It wraps a `Prefixing.Sink`. The sink's `data` field is the byte sequence it
  has taken, and `room` is how many more bytes it takes.
- `Write` is proved equal to `Emit`, the function that says what a write sends
  and returns.
- Lemmas prove the following about `Emit`:
  - the wrapped writer receives the framed stream cut at its room;
  - removing the prefixes gives the input back;
  - one prefix goes before every line;
  - the count is the length of the input when nothing fails, and on a failure
    it is the number of input bytes that were passed on.

### Behaviour of the code worth noting

- **Get.** A "not found" error from parsing the identifier is the absent
  outcome. Any error from DescribeTable is returned, not-found included
  (table.go:248-258).
- **Delete.** DeleteTable is retried on the *long* budget (table.go:475).
- **updateTable.** Retries not-found as well as in-use (table.go:510).
- **Update.** There is one wait for ACTIVE after every UpdateTable request,
  inside `updateTable`. When the index list changed there is one more wait after
  the last index request (table.go:459-461).

## Model

| member | source | states |
|---|---|---|
| Validate.Utf8Width | lib/aws/provider/dynamodb/table.go:75-80 | one character takes one to four bytes of UTF-8, and exactly one when it is ASCII |
| Validate.Utf8Length | lib/aws/provider/dynamodb/table.go:75-80 | Go's `len` of a string: its UTF-8 byte count, at least its character count and at most four times it, equal to it exactly when the string is ASCII |
| Validate.Utf8LengthUniform | lib/aws/provider/dynamodb/table.go:100-105 | a string whose characters all take `w` bytes is `w` bytes per character long |
| Validate.NameLimitsCountBytes | lib/aws/provider/dynamodb/table.go:74-84 | the limits are on bytes: a table name of two 'é' (four bytes) passes the minimum of 3, and an attribute name of 200 'é' (400 bytes) fails the maximum of 255 |
| Validate.Check | lib/aws/provider/dynamodb/table.go:71-153 | the returned failures are exactly `Failures(t)`: the table name's length limits in UTF-8 bytes (only when a name is given), both capacities, each attribute's name length and type, the index count, then each index's name length and capacities, in that order, one failure per failed rule; the error result is always nil |
| Validate.CheckAttributes | lib/aws/provider/dynamodb/table.go:99-118 | the attribute loop appends each attribute's failures (name too short or too long in UTF-8 bytes, type not S/N/B) in attribute order to what was there |
| Validate.CheckIndex | lib/aws/provider/dynamodb/table.go:128-148 | one index's failures: name too short, too long (in UTF-8 bytes), read capacity below 1, write capacity below 1, in that order |
| Validate.CheckIndexes | lib/aws/provider/dynamodb/table.go:127-149 | the index loop appends each index's failures (name length in UTF-8 bytes, capacities) in index order |
| Validate.AttributesFailuresEmptyIff | lib/aws/provider/dynamodb/table.go:99-118 | the attributes give no failure exactly when every attribute is valid: name of 1 to 255 UTF-8 bytes, type S, N or B |
| Validate.IndexesFailuresEmptyIff | lib/aws/provider/dynamodb/table.go:127-149 | the indexes give no failure exactly when every index is valid: name of 3 to 255 UTF-8 bytes, capacities at least 1 |
| Validate.FailuresEmptyIffValid | lib/aws/provider/dynamodb/table.go:71-153 | Check reports nothing exactly when every rule holds (name of 3 to 255 UTF-8 bytes if given, capacities at least 1, attribute names of 1 to 255 UTF-8 bytes with type S, N or B, at most 5 indexes, each index valid) |
| Validate.AttributesFailuresCover | lib/aws/provider/dynamodb/table.go:99-118 | every invalid attribute (name length in UTF-8 bytes out of range, or bad type) contributes at least one failure |
| Validate.IndexesFailuresCover | lib/aws/provider/dynamodb/table.go:127-149 | every invalid index (name length in UTF-8 bytes out of range, or a capacity below 1) contributes at least one failure |
| Validate.FailuresCoverEveryInvalidPart | lib/aws/provider/dynamodb/table.go:71-153 | validation does not stop at the first violation: there are at least as many failures as invalid parts (name by its UTF-8 length, each capacity, each attribute, the index count, each index) |
| KeySchema.GetHashRangeKeys | lib/aws/provider/dynamodb/table.go:304-319 | the decoding loop returns the decoded keys, or the fatal error at the first entry whose role is neither HASH nor RANGE, or when no HASH entry was seen |
| KeySchema.DecodeKeySchemaOf | lib/aws/provider/dynamodb/table.go:175-186 | the HASH-first schema built for a hash key and an optional range key decodes back to the same pair |
| KeySchema.DecodeFromMeaning | lib/aws/provider/dynamodb/table.go:307-316 | over known roles, decoding yields the last HASH entry's name and the last RANGE entry's name (or the keys given when there is none) |
| KeySchema.DecodeKeysMeaning | lib/aws/provider/dynamodb/table.go:304-319 | decoding succeeds exactly when every entry is HASH or RANGE and one is HASH, and then returns the last of each; otherwise the error is fatal |
| KeySchema.UnknownRoleFails | lib/aws/provider/dynamodb/table.go:313-315 | any entry of another role makes decoding fail fatally |
| IndexHashSet.Add | lib/aws/provider/dynamodb/table.go:587-589 | adding an index keeps the set well formed and stores the index under its name, replacing an index of that name |
| IndexHashSet.NewGlobalSecondaryIndexHashSet | lib/aws/provider/dynamodb/table.go:582-591 | the loop builds the set of the list, adding the indexes in order; an absent list gives the empty set |
| IndexHashSet.HashSetOfMeaning | lib/aws/provider/dynamodb/table.go:582-591 | an absent list gives no keys; otherwise the keys are exactly the index names of the list, and each holds the last index of that name |
| IndexHashSet.AddAllKeys | lib/aws/provider/dynamodb/table.go:587-589 | adding a list adds exactly the list's names to the keys |
| IndexHashSet.AddAllKeeps | lib/aws/provider/dynamodb/table.go:587-589 | a key the list does not name keeps its index |
| IndexHashSet.AddAllLastWins | lib/aws/provider/dynamodb/table.go:587-589 | a name holds the last index of that name in the list |
| IndexHashSet.DiffPartition | lib/aws/provider/dynamodb/table.go:368-370 | the diff's adds are exactly the names only in the new set, its deletes exactly those only in the old set, its updates exactly those in both whose (read, write) change key differs; adds and updates carry the new definitions, deletes the old ones; no name is listed twice in a part |
| IndexHashSet.DiffAdds | lib/aws/provider/dynamodb/table.go:372-373 | the added indexes are named exactly by the names only the new set has, each is the new set's definition of its name, and no name is listed twice |
| IndexHashSet.DiffUpdates | lib/aws/provider/dynamodb/table.go:419-420 | the updated indexes are named exactly by the names in both sets whose (read, write) capacities differ, each is the new set's definition, and no name is listed twice |
| IndexHashSet.DiffDeletes | lib/aws/provider/dynamodb/table.go:441-442 | the deleted indexes are named exactly by the names only the old set has, each is the old set's definition, and no name is listed twice |
| IndexHashSet.UnchangedIndexNotInDiff | lib/aws/provider/dynamodb/table.go:576-581 | an index in both sets with the same capacities appears in no part of the diff |
| Requests.IndexesOfDefinitions | lib/aws/provider/dynamodb/table.go:276-291 | reading back the index definitions a create sends gives the same indexes, in order |
| Requests.ReadBackCreated | lib/aws/provider/dynamodb/table.go:260-301 | reading back a description that holds what the CreateTable request asked for gives the declared table (under its remote name, attributes in order, no index list when there is no index) |
| Requests.AddStepsBlock | lib/aws/provider/dynamodb/table.go:372-417 | each index creation request names the table, creates exactly one index of the added names and carries the full new attribute list |
| Requests.CapacityStepsBlock | lib/aws/provider/dynamodb/table.go:419-439 | each index capacity request names the table and updates exactly one index of the updated names, with no attributes |
| Requests.DeleteStepsBlock | lib/aws/provider/dynamodb/table.go:441-457 | each index deletion request names the table and deletes exactly one index of the deleted names, with no attributes |
| Requests.PlanBlocks | lib/aws/provider/dynamodb/table.go:352-457 | the plan is a throughput block (one request exactly when a capacity changed), then the creation, capacity and deletion blocks, all empty unless the index list changed |
| Requests.UpdatePlanShape | lib/aws/provider/dynamodb/table.go:352-462 | the plan is ordered throughput, creations, capacity updates, deletions; each request makes one change; a throughput request is planned exactly when a capacity changed and carries the new capacities; the final wait is planned exactly when the index list changed |
| Requests.UpdatePlanIndexes | lib/aws/provider/dynamodb/table.go:367-457 | when the index list changed, the index requests name exactly the indexes of the diff: creations the new ones, capacity updates the reprovisioned ones, deletions the removed ones |
| Retrying.WaitProbe | lib/aws/provider/dynamodb/table.go:534-553 | a describe answer is done exactly when it shows the awaited state (ACTIVE, or not-found while waiting for deletion), "not yet" exactly when it is pending, and a permanent failure exactly for a rejection other than not-found |
| Retrying.UpdateProbe | lib/aws/provider/dynamodb/table.go:507-517 | an UpdateTable answer is done exactly when accepted, "not yet" exactly for not-found or in-use, and otherwise fails with its error |
| Retrying.DeleteProbe | lib/aws/provider/dynamodb/table.go:477-490 | a DeleteTable answer is done when accepted or not-found, "not yet" exactly for in-use, and otherwise fails with its error |
| Retrying.Retry | lib/aws/provider/dynamodb/table.go:532-557 | the retry loop makes at most its budget of probes, never both succeeds and fails, and makes at least one probe when it succeeds or fails |
| Retrying.RetryMeaning | lib/aws/provider/dynamodb/table.go:532-557 | every probe but the last said "not yet"; the loop succeeds exactly when the last probe said done, fails with exactly the last probe's error, and otherwise spent its whole budget |
| Retrying.RetryExhausted | lib/aws/provider/dynamodb/table.go:555-558 | when every probe says "not yet", the loop gives up after its whole budget with no error and no success |
| Retrying.RetryStopsAt | lib/aws/provider/dynamodb/table.go:505-521 | the first probe that is not "not yet" ends the loop at that attempt with its verdict |
| Protocol.WaitRun | lib/aws/provider/dynamodb/table.go:531-568 | a wait makes at most the long budget of calls, each a describe of the named table answered as the service answers at that position |
| Protocol.ChainExtend | lib/aws/provider/dynamodb/table.go:414-416 | a transcript holding a prefix of the steps and then the next step holds the longer prefix, and a failing step ends the whole run there |
| Protocol.ChainStops | lib/aws/provider/dynamodb/table.go:454-456 | once a step fails no later step is carried out: the whole run is the failed prefix's run |
| Waiting.WaitRunMeaning | lib/aws/provider/dynamodb/table.go:531-568 | every describe but the last was "not yet"; the wait succeeds exactly when the last one shows the awaited state, and otherwise fails with that answer's permanent error or, after the whole budget, with the timeout error naming the table and "active" or "deleted" |
| Waiting.WaitSucceeded | lib/aws/provider/dynamodb/table.go:531-567 | a wait with no error made at least one describe, and its last describe showed the awaited state |
| Waiting.WaitTimesOut | lib/aws/provider/dynamodb/table.go:558-566 | when every answer within the budget is "not yet", the wait makes the whole budget of describes and reports that the table did not become active or deleted |
| Waiting.WaitReachedAt | lib/aws/provider/dynamodb/table.go:539-553 | when the (j+1)-th answer is the first to show the awaited state, the wait succeeds after exactly j+1 describes |
| Sequencing.UpdateAttempts | lib/aws/provider/dynamodb/table.go:505-518 | among the UpdateTable attempts of one step only the last can be accepted, and it is exactly when the retry succeeded |
| Sequencing.UpdateStepCalls | lib/aws/provider/dynamodb/table.go:504-529 | one step sends only its own UpdateTable request and describes of the table |
| Sequencing.UpdateStepAccepted | lib/aws/provider/dynamodb/table.go:504-529 | the service accepts a step's update at most once, and exactly once when the step succeeds |
| Sequencing.UpdateStepSerialized | lib/aws/provider/dynamodb/table.go:504-529 | after a step's update is accepted, only describes follow |
| Sequencing.UpdateStepEndsActive | lib/aws/provider/dynamodb/table.go:525-528 | a step that succeeds ends on a describe showing the table ACTIVE |
| Sequencing.ChainAccepted | lib/aws/provider/dynamodb/table.go:352-457 | steps that each accept only their own request accept a prefix of the steps in order, and all of them when none fails |
| Sequencing.ChainSerialized | lib/aws/provider/dynamodb/table.go:348-349 | steps that each keep the discipline and end on ACTIVE keep the discipline together |
| Sequencing.ChainEndsActive | lib/aws/provider/dynamodb/table.go:348-349 | steps that each end on ACTIVE when they succeed do so together, unless they make no call |
| Sequencing.StepsRunAccepted | lib/aws/provider/dynamodb/table.go:352-457 | a sequence of update steps gets a prefix of its requests accepted, in order, and all of them when it succeeds |
| Sequencing.StepsRunSerialized | lib/aws/provider/dynamodb/table.go:341-349 | no update is sent while an accepted update has not been seen ACTIVE |
| Sequencing.StepsRunEndsActive | lib/aws/provider/dynamodb/table.go:348-349 | a sequence of steps that succeeds ends on a describe showing ACTIVE, or makes no call |
| Sequencing.FinishAccepted | lib/aws/provider/dynamodb/table.go:459-461 | the final wait gets nothing accepted, so the accepted updates are those of the steps |
| Sequencing.FinishSerialized | lib/aws/provider/dynamodb/table.go:459-461 | the final wait keeps the discipline of the steps |
| Sequencing.FinishEndsActive | lib/aws/provider/dynamodb/table.go:459-461 | the steps and the final wait together end on ACTIVE when they succeed |
| Sequencing.PlanRunAccepted | lib/aws/provider/dynamodb/table.go:352-463 | the updates the service accepts during an update are a prefix of the plan, in plan order, and the whole plan when the update succeeds |
| Sequencing.PlanRunSerialized | lib/aws/provider/dynamodb/table.go:341-349 | an update never sends an UpdateTable request while an accepted one has not been seen ACTIVE |
| Sequencing.PlanRunEndsActive | lib/aws/provider/dynamodb/table.go:352-463 | an update that succeeds ends on a describe showing ACTIVE, or made no call at all |
| Provider.TableProvider.constructor | lib/aws/provider/dynamodb/table.go:61-68 | the provider holds the given service, identifier parser and retry budgets |
| Provider.TableProvider.RetryUntil | lib/aws/provider/dynamodb/table.go:505-518 | the loop sends the request once per probe, as the retry function says, and returns its success and error; the transcript grows by exactly those attempts |
| Provider.TableProvider.WaitForTableState | lib/aws/provider/dynamodb/table.go:531-568 | returns the wait run's error and extends the transcript by exactly its describes |
| Provider.TableProvider.UpdateTable | lib/aws/provider/dynamodb/table.go:504-529 | returns the step run's error (the retry's error, "could not be updated" on an exhausted budget, else the wait's) and extends the transcript by exactly its exchanges |
| Provider.TableProvider.Create | lib/aws/provider/dynamodb/table.go:157-244 | returns the identifier and error of the create run and extends the transcript by exactly its exchanges |
| Provider.TableProvider.Get | lib/aws/provider/dynamodb/table.go:247-302 | returns the table and error of the get run and extends the transcript by exactly its exchanges |
| Provider.TableProvider.IssueStep | lib/aws/provider/dynamodb/table.go:414-416 | one more UpdateTable request extends the run of the steps so far to one more step; when it fails, that is the run of all the steps |
| Provider.TableProvider.IssueSteps | lib/aws/provider/dynamodb/table.go:372-457 | the loop over the requests returns the error of the chained steps and extends the transcript by exactly their exchanges |
| Provider.TableProvider.RunPlan | lib/aws/provider/dynamodb/table.go:352-462 | the steps, then the final wait when they all succeed and it is asked for, as one run |
| Provider.TableProvider.Update | lib/aws/provider/dynamodb/table.go:329-464 | builds the old and new index sets with `NewGlobalSecondaryIndexHashSet` when the index list changed, then returns the update run's error (the parse error, or the plan's) and extends the transcript by exactly its exchanges |
| Provider.TableProvider.Delete | lib/aws/provider/dynamodb/table.go:467-502 | returns the delete run's error and extends the transcript by exactly its exchanges |
| Lifecycle.CreateOutcome | lib/aws/provider/dynamodb/table.go:157-244 | create sends one CreateTable for the declared table, named by its declared name when it has one and by the generated name otherwise (table.go:159-164), then only describes of that name; it returns the ARN exactly when it succeeds, which is exactly when the create was accepted and the last describe showed ACTIVE; on any error the identifier is empty; a rejected create is returned at once with no wait |
| Lifecycle.CreateAfterOneNotFound | lib/aws/provider/dynamodb/table.go:238-243 | an accepted create whose table is first not found, then ACTIVE, returns the ARN after exactly two describes |
| Lifecycle.GetOutcome | lib/aws/provider/dynamodb/table.go:247-258 | the result is absent with no error exactly when the parser reports not-found; a parse failure makes no call; otherwise one describe, whose rejection, not-found included, is returned as the error |
| Lifecycle.GetAfterCreate | lib/aws/provider/dynamodb/table.go:255-301 | reading a table back whose description matches its CreateTable request returns the declared table |
| Lifecycle.DeleteCalls | lib/aws/provider/dynamodb/table.go:467-502 | delete sends only DeleteTable and DescribeTable requests for the named table, at most twice the long budget, each answered as the service answers at that position |
| Lifecycle.DeleteConfirmed | lib/aws/provider/dynamodb/table.go:499-501 | delete returns no error only after a DeleteTable and a last describe finding no table |
| Lifecycle.DeleteUnparsable | lib/aws/provider/dynamodb/table.go:468-471 | an identifier that does not parse is returned as the error and nothing is sent |
| Lifecycle.DeleteRejected | lib/aws/provider/dynamodb/table.go:476-497 | a DeleteTable rejection other than not-found or in-use, after in-use answers, is returned as it is; only those DeleteTable requests are sent and no describe follows |
| Lifecycle.DeleteExhausted | lib/aws/provider/dynamodb/table.go:476-497 | a table in use at every attempt of the long budget gives "could not be deleted" after exactly that many DeleteTable requests, with no describe |
| Lifecycle.DeleteOfAbsentTable | lib/aws/provider/dynamodb/table.go:481-483 | deleting a table that is already gone succeeds after exactly one DeleteTable and one describe |
| Lifecycle.UpdateTableRejected | lib/aws/provider/dynamodb/table.go:504-519 | an UpdateTable rejection other than not-found or in-use, after retried answers, is returned as it is; only those UpdateTable requests are sent and no wait follows |
| Lifecycle.UpdateTableExhausted | lib/aws/provider/dynamodb/table.go:504-524 | not-found or in-use at every attempt of the short budget gives "could not be updated" after exactly that many UpdateTable requests, with no wait |
| Lifecycle.UpdateWithoutChange | lib/aws/provider/dynamodb/table.go:352-367 | an update where neither a capacity nor the index list changed sends nothing and succeeds |
| Lifecycle.UpdateOfCapacityOnly | lib/aws/provider/dynamodb/table.go:352-364 | a capacity-only update sends exactly one UpdateTable carrying the new throughput, then one describe |
| Prefixing.LineEnd | pkg/testing/integration/lumiprogram.go:109 | the first piece of a split: up to and including the first newline, or everything when there is none; it holds no earlier newline |
| Prefixing.SplitAfter | pkg/testing/integration/lumiprogram.go:109 | the pieces concatenate back to the input; every piece but the last ends with its only newline, and the last has none (empty when the input is empty or ends with a newline) |
| Prefixing.Put | pkg/testing/integration/lumiprogram.go:111-121 | writing one piece only appends to what the wrapped writer took and never takes more than its room; the count never decreases |
| Prefixing.Emit | pkg/testing/integration/lumiprogram.go:107-124 | a write never gives the wrapped writer more than its room |
| Prefixing.EmitStep | pkg/testing/integration/lumiprogram.go:110-121 | after pieces that were all taken, the wrapped writer takes the next framed piece up to its room; the count grows by the piece bytes among what was taken; the write fails, with a short write, exactly when the framing does not fit |
| Prefixing.EmitStops | pkg/testing/integration/lumiprogram.go:112-121 | after the first failed write no later piece is written: the outcome is the one at the failure |
| Prefixing.EmitCut | pkg/testing/integration/lumiprogram.go:109-118 | the wrapped writer receives the concatenation over the pieces of (prefix if the piece is non-empty) then the piece: all of it with no error when it fits, otherwise exactly as much as fits with a short-write error |
| Prefixing.EmitCountsAll | pkg/testing/integration/lumiprogram.go:107-123 | a write with no error counts every byte of every piece |
| Prefixing.EmitCount | pkg/testing/integration/lumiprogram.go:107-123 | the count is exactly the number of input bytes passed on: removing the prefixes from what the wrapped writer took gives the first n bytes of the input, so a failed prefix adds nothing and a failed piece adds the part of it that was taken |
| Prefixing.WriteAllCounted | pkg/testing/integration/lumiprogram.go:107-123 | when the wrapped writer takes everything, the write has no error and returns the length of the input: prefix bytes are not counted |
| Prefixing.FramedLength | pkg/testing/integration/lumiprogram.go:110-118 | the framed stream is the input's bytes plus one prefix per non-empty piece |
| Prefixing.PrefixesPerLine | pkg/testing/integration/lumiprogram.go:109-116 | the number of prefixes is the number of newlines, plus one for a last line without a newline; the first line gets one; the empty piece after a final newline gets none |
| Prefixing.FramedStartsWithPrefix | pkg/testing/integration/lumiprogram.go:110-113 | a non-empty write starts with the prefix: it goes before the first line too, not only after a newline |
| Prefixing.UnframeFramed | pkg/testing/integration/lumiprogram.go:110-118 | removing the prefixes from a framed stream gives back exactly the pieces' bytes |
| Prefixing.UnframeRoundTrip | pkg/testing/integration/lumiprogram.go:107-123 | removing the prefixes from what a write sends gives back exactly the input: content bytes are never altered or reordered |
| Prefixing.Sink.Write | pkg/testing/integration/lumiprogram.go:117 | the wrapped writer takes the whole buffer when it fits and otherwise what fits, reporting a short write; what it took is appended to its data |
| Prefixing.Prefixer.constructor | pkg/testing/integration/lumiprogram.go:100-102 | a new prefixer wraps the given writer with the given prefix and has written nothing |
| Prefixing.Prefixer.WritePiece | pkg/testing/integration/lumiprogram.go:111-121 | writing one piece: the prefix unless the piece is empty, then the piece, stopping at a failed write, exactly as Put says |
| Prefixing.Prefixer.Write | pkg/testing/integration/lumiprogram.go:107-124 | the write returns the count and error of Emit over the pieces of the input, and the wrapped writer's data and room change exactly by what Emit sends |

## Left out

- Capacities are integers. The float64 capacities and their `int64(...)`
  truncation are not modelled.
- `IndexHashSet.HashValue` is the pair (read, write). In the source it is the
  string `string(int(read)) + ":" + string(int(write))` built from runes (table.go:580).
  Two capacities that map to the same rune (U+FFFD for invalid code points)
  compare equal there but not here.
- `awsctx.HashSet` and its `Diff` are not part of this model. The set is an
  insertion-ordered map in which a later index of the same name replaces an
  earlier one. The diff lists its parts in the key order of that map. Go map
  iteration order is unspecified, so the model fixes one order within each
  part; the order of the parts themselves is the source's.
- `awsctx.RetryUntil` and `RetryUntilLong` are not part of this model. They are
  a bounded loop whose attempt budgets (`Budgets.short`, `Budgets.long`) are
  parameters. Sleeps between attempts are left out.
- `arn.ParseResourceName` is a parameter of the provider (`parse`).
- `resource.NewUniqueHex` (the generated name) is a parameter of Create
  (`generatedName`).
- The AWS SDK is replaced by the scripted service. Its wire format is left out.
- The assertions on non-nil SDK responses are left out. An accepted answer
  always carries an ARN and a description.
- `fmt.Printf` logging is left out.
- The unused `context.Context` is left out.
- `InspectChange` (a stub returning nil) is left out.
- Names are Dafny strings of Unicode scalar values, and Check measures them by
  the length of their UTF-8 encoding, as Go's `len` does. A Go string holding
  bytes that are not valid UTF-8 has no counterpart in the model.
- `mapper.NewFieldErr` and `reflect.TypeOf` become a field tag and a reason.
  The error message text is not modelled.
- A fatal `contract.Failf` or `contract.Assertf` in `getHashRangeKeys` is a
  `Fatal` error result. Get returns it instead of aborting the process.
- Provider.TableProvider.Update: the source's three loops over the diff parts
  and the throughput step are one loop over the ordered plan. The plan is
  proved to list exactly those requests in the source's order.
- Prefixing.Prefixer.constructor: the prefix is given as bytes. The conversion
  of a Go string to its UTF-8 bytes is not modelled.
- The `anyOutput` field is set but never read by the code modelled, so it has
  no effect here.
- Prefixing.Sink.Write: the wrapped writer's only failure is running out of
  room (a short write). Other I/O errors, and writers that fail before taking
  anything while they still have room, are not modelled.
- `LumiProgramTest` and `runCmd` (process execution and test assertions) are not
  part of this model.
