/**
 * The requests the provider sends (CreateTable and the UpdateTable variants),
 * the reverse mapping of a DescribeTable answer into a declared table, and the
 * ordered plan of UpdateTable requests an update issues.
 */
module Requests {
  import opened Wrappers
  import opened Model
  import opened KeySchema
  import opened IndexHashSet

  // Building requests from a declared table.

  function AttributeDefinitions(attrs: seq<Attribute>): seq<AttributeDefinition> {
    seq(|attrs|, i requires 0 <= i < |attrs| => AttributeDefinition(attrs[i].name, attrs[i].attrType))
  }

  function IndexDefinitionOf(g: GlobalSecondaryIndex): IndexDefinition {
    IndexDefinition(
      g.indexName,
      KeySchemaOf(g.hashKey, g.rangeKey),
      Throughput(g.readCapacity, g.writeCapacity),
      Projection(g.nonKeyAttributes, g.projectionType))
  }

  function IndexDefinitions(gs: seq<GlobalSecondaryIndex>): seq<IndexDefinition> {
    seq(|gs|, i requires 0 <= i < |gs| => IndexDefinitionOf(gs[i]))
  }

  /** The remote name of a table: the declared name, else the generated one. */
  function RemoteName(t: Table, generatedName: string): string {
    if t.tableName.Some? then t.tableName.value else generatedName
  }

  function CreateRequest(t: Table, name: string): CreateTableInput {
    CreateTableInput(
      name,
      AttributeDefinitions(t.attributes),
      KeySchemaOf(t.hashKey, t.rangeKey),
      Throughput(t.readCapacity, t.writeCapacity),
      if t.globalSecondaryIndexes.Some? then IndexDefinitions(t.globalSecondaryIndexes.value) else [])
  }

  // Reading a described table back into a declared table.

  function AttributesOf(defs: seq<AttributeDefinition>): seq<Attribute> {
    seq(|defs|, i requires 0 <= i < |defs| => Attribute(defs[i].attributeName, defs[i].attributeType))
  }

  function IndexOf(d: IndexDefinition): Result<GlobalSecondaryIndex, Error> {
    match DecodeKeys(d.keySchema)
    case Err(e) => Err(e)
    case Ok((hk, rk)) =>
      Ok(GlobalSecondaryIndex(
        d.indexName, hk, rk,
        d.throughput.readCapacityUnits, d.throughput.writeCapacityUnits,
        d.projection.nonKeyAttributes, d.projection.projectionType))
  }

  /** The indexes of a description in order, or the first index whose key schema fails to decode. */
  function IndexesOf(ds: seq<IndexDefinition>): Result<seq<GlobalSecondaryIndex>, Error> {
    if ds == [] then Ok([])
    else
      match IndexesOf(ds[..|ds| - 1])
      case Err(e) => Err(e)
      case Ok(gs) =>
        match IndexOf(ds[|ds| - 1])
        case Err(e) => Err(e)
        case Ok(g) => Ok(gs + [g])
  }

  /**
   * A described table as a declared table: attributes in remote order, keys
   * decoded from the key schema, and no index list when the table has no index.
   */
  function ReadBack(desc: TableDescription): Result<Table, Error> {
    match DecodeKeys(desc.keySchema)
    case Err(e) => Err(e)
    case Ok((hashKey, rangeKey)) =>
      var base := Table(
        Some(desc.tableName), hashKey, rangeKey,
        AttributesOf(desc.attributeDefinitions),
        desc.throughput.readCapacityUnits, desc.throughput.writeCapacityUnits,
        None);
      if |desc.globalSecondaryIndexes| > 0 then
        match IndexesOf(desc.globalSecondaryIndexes)
        case Err(e) => Err(e)
        case Ok(gis) => Ok(base.(globalSecondaryIndexes := Some(gis)))
      else Ok(base)
  }

  /** The description a table has when the remote stores exactly what a create request asked for. */
  function DescribedAsCreated(req: CreateTableInput, status: string): TableDescription {
    TableDescription(req.tableName, status, req.attributeDefinitions, req.keySchema, req.throughput, req.globalSecondaryIndexes)
  }

  /** The declared table as reading it back reports it: named, and without an empty index list. */
  function AsReadBack(t: Table, name: string): Table {
    t.(tableName := Some(name),
       globalSecondaryIndexes :=
         if t.globalSecondaryIndexes.Some? && |t.globalSecondaryIndexes.value| > 0 then t.globalSecondaryIndexes else None)
  }

  lemma {:induction false} IndexesOfDefinitions(gs: seq<GlobalSecondaryIndex>)
    ensures IndexesOf(IndexDefinitions(gs)) == Ok(gs)
    decreases |gs|
  {
    if gs != [] {
      var init := gs[..|gs| - 1];
      var ds := IndexDefinitions(gs);
      assert ds[..|ds| - 1] == IndexDefinitions(init);
      IndexesOfDefinitions(init);
      var g := gs[|gs| - 1];
      DecodeKeySchemaOf(g.hashKey, g.rangeKey);
      assert init + [g] == gs;
    }
  }

  /** Reading back what a create request asked for gives the declared table back. */
  lemma {:induction false} ReadBackCreated(t: Table, name: string, status: string)
    ensures ReadBack(DescribedAsCreated(CreateRequest(t, name), status)) == Ok(AsReadBack(t, name))
  {
    DecodeKeySchemaOf(t.hashKey, t.rangeKey);
    assert AttributesOf(AttributeDefinitions(t.attributes)) == t.attributes;
    if t.globalSecondaryIndexes.Some? {
      IndexesOfDefinitions(t.globalSecondaryIndexes.value);
    }
  }

  // The plan of an update.

  function ThroughputUpdate(name: string, t: Table): UpdateTableInput {
    UpdateTableInput(name, [], Some(Throughput(t.readCapacity, t.writeCapacity)), [])
  }

  function AddIndexUpdate(name: string, attrs: seq<Attribute>, g: GlobalSecondaryIndex): UpdateTableInput {
    UpdateTableInput(name, AttributeDefinitions(attrs), None, [CreateIndex(IndexDefinitionOf(g))])
  }

  function CapacityUpdate(name: string, g: GlobalSecondaryIndex): UpdateTableInput {
    UpdateTableInput(name, [], None, [UpdateIndex(g.indexName, Throughput(g.readCapacity, g.writeCapacity))])
  }

  function DeleteIndexUpdate(name: string, g: GlobalSecondaryIndex): UpdateTableInput {
    UpdateTableInput(name, [], None, [DeleteIndex(g.indexName)])
  }

  function AddSteps(name: string, attrs: seq<Attribute>, gs: seq<GlobalSecondaryIndex>): seq<UpdateTableInput> {
    seq(|gs|, i requires 0 <= i < |gs| => AddIndexUpdate(name, attrs, gs[i]))
  }

  function CapacitySteps(name: string, gs: seq<GlobalSecondaryIndex>): seq<UpdateTableInput> {
    seq(|gs|, i requires 0 <= i < |gs| => CapacityUpdate(name, gs[i]))
  }

  function DeleteSteps(name: string, gs: seq<GlobalSecondaryIndex>): seq<UpdateTableInput> {
    seq(|gs|, i requires 0 <= i < |gs| => DeleteIndexUpdate(name, gs[i]))
  }

  predicate CapacityChanged(changed: set<Field>) {
    TableReadCapacityField in changed || TableWriteCapacityField in changed
  }

  predicate IndexesChanged(changed: set<Field>) {
    TableGlobalSecondaryIndexesField in changed
  }

  /** The index diff of an update, from the old declared indexes to the new ones. */
  function IndexDiff(oldTable: Table, newTable: Table): Diff {
    DiffOf(HashSetOf(oldTable.globalSecondaryIndexes), HashSetOf(newTable.globalSecondaryIndexes))
  }

  /** The UpdateTable requests an update issues, in order, and whether it waits once more at the end. */
  datatype Plan = Plan(steps: seq<UpdateTableInput>, finalWait: bool)

  function UpdatePlan(name: string, oldTable: Table, newTable: Table, changed: set<Field>): Plan {
    PlanFromSets(name, newTable, changed, HashSetOf(oldTable.globalSecondaryIndexes), HashSetOf(newTable.globalSecondaryIndexes))
  }

  /** The plan of an update, given the index sets built from the old and the new declared indexes. */
  function PlanFromSets(name: string, newTable: Table, changed: set<Field>, oldSet: HashSet, newSet: HashSet): Plan
    requires Valid(oldSet) && Valid(newSet)
  {
    var throughput := if CapacityChanged(changed) then [ThroughputUpdate(name, newTable)] else [];
    if IndexesChanged(changed) then
      var d := DiffOf(oldSet, newSet);
      Plan(throughput
           + AddSteps(name, newTable.attributes, d.adds)
           + CapacitySteps(name, d.updates)
           + DeleteSteps(name, d.deletes),
           true)
    else
      Plan(throughput, false)
  }

  /** The kind of an update request: 0 throughput, 1 index creation, 2 index capacity, 3 index deletion. */
  function Rank(u: UpdateTableInput): nat {
    if u.throughput.Some? || u.indexUpdates == [] then 0
    else match u.indexUpdates[0]
      case CreateIndex(_) => 1
      case UpdateIndex(_, _) => 2
      case DeleteIndex(_) => 3
  }

  /** The index an index update names. */
  function IndexNamed(u: UpdateTableInput): string {
    if u.indexUpdates == [] then ""
    else match u.indexUpdates[0]
      case CreateIndex(d) => d.indexName
      case UpdateIndex(n, _) => n
      case DeleteIndex(n) => n
  }

  /** A request that makes exactly one change: a new throughput, or one index update. */
  predicate SingleChange(u: UpdateTableInput) {
    (u.throughput.Some? && u.indexUpdates == []) || (u.throughput.None? && |u.indexUpdates| == 1)
  }

  /** The names the steps of a given kind refer to. */
  function NamesOfRank(steps: seq<UpdateTableInput>, rank: nat): set<string> {
    set i | 0 <= i < |steps| && Rank(steps[i]) == rank :: IndexNamed(steps[i])
  }

  /** Every request of `s` has the given rank, names the table, makes a single change and carries `attrs`. */
  predicate Block(s: seq<UpdateTableInput>, rank: nat, name: string, attrs: seq<AttributeDefinition>) {
    forall i :: 0 <= i < |s| ==>
      Rank(s[i]) == rank && s[i].tableName == name && SingleChange(s[i]) && s[i].attributeDefinitions == attrs
  }

  /** The index names that the requests of `s` refer to. */
  function NamesIn(s: seq<UpdateTableInput>): set<string> {
    set i | 0 <= i < |s| :: IndexNamed(s[i])
  }

  lemma {:induction false} AddStepsBlock(name: string, attrs: seq<Attribute>, gs: seq<GlobalSecondaryIndex>)
    ensures Block(AddSteps(name, attrs, gs), 1, name, AttributeDefinitions(attrs))
    ensures NamesIn(AddSteps(name, attrs, gs)) == Names(gs)
  {
    var s := AddSteps(name, attrs, gs);
    forall k | k in Names(gs) ensures k in NamesIn(s) {
      var g :| g in gs && g.indexName == k;
      var j :| 0 <= j < |gs| && gs[j] == g;
      assert IndexNamed(s[j]) == k;
    }
  }

  lemma {:induction false} CapacityStepsBlock(name: string, gs: seq<GlobalSecondaryIndex>)
    ensures Block(CapacitySteps(name, gs), 2, name, [])
    ensures NamesIn(CapacitySteps(name, gs)) == Names(gs)
  {
    var s := CapacitySteps(name, gs);
    forall k | k in Names(gs) ensures k in NamesIn(s) {
      var g :| g in gs && g.indexName == k;
      var j :| 0 <= j < |gs| && gs[j] == g;
      assert IndexNamed(s[j]) == k;
    }
  }

  lemma {:induction false} DeleteStepsBlock(name: string, gs: seq<GlobalSecondaryIndex>)
    ensures Block(DeleteSteps(name, gs), 3, name, [])
    ensures NamesIn(DeleteSteps(name, gs)) == Names(gs)
  {
    var s := DeleteSteps(name, gs);
    forall k | k in Names(gs) ensures k in NamesIn(s) {
      var g :| g in gs && g.indexName == k;
      var j :| 0 <= j < |gs| && gs[j] == g;
      assert IndexNamed(s[j]) == k;
    }
  }

  /** Four blocks of ranks 0 to 3 in a row are ordered by rank, and each rank's names are its block's names. */
  lemma {:induction false} BlocksInOrder(
    t: seq<UpdateTableInput>, a: seq<UpdateTableInput>, u: seq<UpdateTableInput>, x: seq<UpdateTableInput>,
    name: string, attrs: seq<AttributeDefinition>)
    requires Block(t, 0, name, []) && Block(a, 1, name, attrs) && Block(u, 2, name, []) && Block(x, 3, name, [])
    ensures var p := t + a + u + x;
      && (forall i, j :: 0 <= i < j < |p| ==> Rank(p[i]) <= Rank(p[j]))
      && (forall i :: 0 <= i < |p| ==> p[i].tableName == name && SingleChange(p[i]))
      && (forall i :: 0 <= i < |p| && Rank(p[i]) == 1 ==> p[i].attributeDefinitions == attrs)
      && (forall i :: 0 <= i < |p| && Rank(p[i]) != 1 ==> p[i].attributeDefinitions == [])
      && NamesOfRank(p, 1) == NamesIn(a) && NamesOfRank(p, 2) == NamesIn(u) && NamesOfRank(p, 3) == NamesIn(x)
  {
    var p := t + a + u + x;
    var ta, tau := |t| + |a|, |t| + |a| + |u|;
    forall i | 0 <= i < |p|
      ensures i < |t| ==> p[i] == t[i]
      ensures |t| <= i < ta ==> p[i] == a[i - |t|]
      ensures ta <= i < tau ==> p[i] == u[i - ta]
      ensures tau <= i ==> p[i] == x[i - tau]
    {
    }
    assert forall i :: 0 <= i < |p| ==> Rank(p[i]) == (if i < |t| then 0 else if i < ta then 1 else if i < tau then 2 else 3);
    forall k | k in NamesIn(a) ensures k in NamesOfRank(p, 1) {
      var j :| 0 <= j < |a| && IndexNamed(a[j]) == k;
      assert p[|t| + j] == a[j];
    }
    forall k | k in NamesIn(u) ensures k in NamesOfRank(p, 2) {
      var j :| 0 <= j < |u| && IndexNamed(u[j]) == k;
      assert p[ta + j] == u[j];
    }
    forall k | k in NamesIn(x) ensures k in NamesOfRank(p, 3) {
      var j :| 0 <= j < |x| && IndexNamed(x[j]) == k;
      assert p[tau + j] == x[j];
    }
  }

  /** The steps of a plan split into its four blocks, each with the names of its part of the diff. */
  lemma {:induction false} PlanBlocks(name: string, oldTable: Table, newTable: Table, changed: set<Field>)
    returns (t: seq<UpdateTableInput>, a: seq<UpdateTableInput>, u: seq<UpdateTableInput>, x: seq<UpdateTableInput>)
    ensures UpdatePlan(name, oldTable, newTable, changed).steps == t + a + u + x
    ensures Block(t, 0, name, []) && Block(a, 1, name, AttributeDefinitions(newTable.attributes))
    ensures Block(u, 2, name, []) && Block(x, 3, name, [])
    ensures CapacityChanged(changed) ==> t == [ThroughputUpdate(name, newTable)]
    ensures !CapacityChanged(changed) ==> t == []
    ensures !IndexesChanged(changed) ==> a == u == x == []
    ensures IndexesChanged(changed) ==>
      var oldSet := HashSetOf(oldTable.globalSecondaryIndexes);
      var newSet := HashSetOf(newTable.globalSecondaryIndexes);
      && NamesIn(a) == newSet.items.Keys - oldSet.items.Keys
      && NamesIn(u) == Reprovisioned(oldSet, newSet)
      && NamesIn(x) == oldSet.items.Keys - newSet.items.Keys
  {
    t := if CapacityChanged(changed) then [ThroughputUpdate(name, newTable)] else [];
    if IndexesChanged(changed) {
      var d := IndexDiff(oldTable, newTable);
      DiffPartition(HashSetOf(oldTable.globalSecondaryIndexes), HashSetOf(newTable.globalSecondaryIndexes));
      a := AddSteps(name, newTable.attributes, d.adds);
      u := CapacitySteps(name, d.updates);
      x := DeleteSteps(name, d.deletes);
      AddStepsBlock(name, newTable.attributes, d.adds);
      CapacityStepsBlock(name, d.updates);
      DeleteStepsBlock(name, d.deletes);
    } else {
      a, u, x := [], [], [];
      assert t + a + u + x == t;
    }
  }

  /**
   * The plan is ordered: throughput first, then index creations, then capacity
   * updates, then deletions. Each request makes a single change to the named
   * table; index creations carry the full new attribute list and the other
   * requests carry none. A throughput request is planned exactly when a capacity
   * changed, and it carries the new capacities. Index requests appear, and the
   * final wait happens, only when the index list changed.
   */
  lemma {:induction false} UpdatePlanShape(name: string, oldTable: Table, newTable: Table, changed: set<Field>)
    ensures var p := UpdatePlan(name, oldTable, newTable, changed);
      && p.finalWait == IndexesChanged(changed)
      && (forall i, j :: 0 <= i < j < |p.steps| ==> Rank(p.steps[i]) <= Rank(p.steps[j]))
      && (forall i :: 0 <= i < |p.steps| ==> p.steps[i].tableName == name && SingleChange(p.steps[i]))
      && (forall i :: 0 <= i < |p.steps| && Rank(p.steps[i]) == 1 ==>
            p.steps[i].attributeDefinitions == AttributeDefinitions(newTable.attributes))
      && (forall i :: 0 <= i < |p.steps| && Rank(p.steps[i]) != 1 ==> p.steps[i].attributeDefinitions == [])
      && (CapacityChanged(changed) <==> |p.steps| > 0 && Rank(p.steps[0]) == 0)
      && (CapacityChanged(changed) ==>
            p.steps[0].throughput == Some(Throughput(newTable.readCapacity, newTable.writeCapacity)))
      && (!IndexesChanged(changed) ==> forall i :: 0 <= i < |p.steps| ==> Rank(p.steps[i]) == 0)
  {
    var t, a, u, x := PlanBlocks(name, oldTable, newTable, changed);
    BlocksInOrder(t, a, u, x, name, AttributeDefinitions(newTable.attributes));
    var p := UpdatePlan(name, oldTable, newTable, changed);
    if !CapacityChanged(changed) && |p.steps| > 0 {
      assert p.steps[0] == (t + a + u + x)[0];
    }
  }

  /**
   * When the index list changed, the index requests name exactly the indexes of
   * the diff: creations the indexes only in the new list, capacity updates the
   * indexes in both lists whose capacities differ, deletions the indexes only in
   * the old list.
   */
  lemma {:induction false} UpdatePlanIndexes(name: string, oldTable: Table, newTable: Table, changed: set<Field>)
    requires IndexesChanged(changed)
    ensures var p := UpdatePlan(name, oldTable, newTable, changed);
      var oldSet := HashSetOf(oldTable.globalSecondaryIndexes);
      var newSet := HashSetOf(newTable.globalSecondaryIndexes);
      && NamesOfRank(p.steps, 1) == newSet.items.Keys - oldSet.items.Keys
      && NamesOfRank(p.steps, 2) == Reprovisioned(oldSet, newSet)
      && NamesOfRank(p.steps, 3) == oldSet.items.Keys - newSet.items.Keys
  {
    var t, a, u, x := PlanBlocks(name, oldTable, newTable, changed);
    BlocksInOrder(t, a, u, x, name, AttributeDefinitions(newTable.attributes));
  }
}
