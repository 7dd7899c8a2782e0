/**
 * The set of global secondary indexes keyed by index name, and the diff between
 * the old and the new set that drives the index part of an update: indexes only
 * in the new set are added, indexes only in the old set are deleted, and indexes
 * in both whose change key (their capacities) differs are updated.
 */
module IndexHashSet {
  import opened Wrappers
  import opened Model

  /** The key under which an index is stored: its name. */
  function HashKey(g: GlobalSecondaryIndex): string {
    g.indexName
  }

  /** The change key of an index: its read and write capacities. */
  function HashValue(g: GlobalSecondaryIndex): (int, int) {
    (g.readCapacity, g.writeCapacity)
  }

  /** A set of indexes keyed by name; `order` lists the keys in insertion order. */
  datatype HashSet = HashSet(order: seq<string>, items: map<string, GlobalSecondaryIndex>)

  predicate Distinct(keys: seq<string>) {
    forall i, j :: 0 <= i < j < |keys| ==> keys[i] != keys[j]
  }

  predicate Valid(s: HashSet) {
    && Distinct(s.order)
    && (forall i :: 0 <= i < |s.order| ==> s.order[i] in s.items)
    && (forall k :: k in s.items ==> k in s.order)
    && (forall k :: k in s.items ==> HashKey(s.items[k]) == k)
  }

  const Empty := HashSet([], map[])

  /** Adds an index, replacing the one stored under the same name. */
  function Add(s: HashSet, g: GlobalSecondaryIndex): (r: HashSet)
    requires Valid(s)
    ensures Valid(r)
    ensures r.items == s.items[HashKey(g) := g]
  {
    var key := HashKey(g);
    if key in s.items then
      HashSet(s.order, s.items[key := g])
    else
      var r := HashSet(s.order + [key], s.items[key := g]);
      assert forall i :: 0 <= i < |s.order| ==> r.order[i] == s.order[i];
      r
  }

  /** The set built from a list of indexes, in list order; an absent list gives the empty set. */
  function HashSetOf(options: Option<seq<GlobalSecondaryIndex>>): (s: HashSet)
    ensures Valid(s)
  {
    match options
    case None => Empty
    case Some(gs) => AddAll(Empty, gs)
  }

  function AddAll(s: HashSet, gs: seq<GlobalSecondaryIndex>): (r: HashSet)
    requires Valid(s)
    ensures Valid(r)
    decreases |gs|
  {
    if gs == [] then s else AddAll(Add(s, gs[0]), gs[1..])
  }

  /** Builds the set of a (possibly absent) list of indexes, adding them one by one. */
  method NewGlobalSecondaryIndexHashSet(options: Option<seq<GlobalSecondaryIndex>>) returns (s: HashSet)
    ensures s == HashSetOf(options)
  {
    s := Empty;
    if options.None? {
      return s;
    }
    var gs := options.value;
    for i := 0 to |gs|
      invariant Valid(s)
      invariant AddAll(s, gs[i..]) == AddAll(Empty, gs)
    {
      assert gs[i..][1..] == gs[i + 1..];
      s := Add(s, gs[i]);
    }
  }

  function Names(gs: seq<GlobalSecondaryIndex>): set<string> {
    set g | g in gs :: g.indexName
  }

  /**
   * The keys of the set are the names in the list, and each key holds the last
   * index of that name in the list; an absent list gives no keys at all.
   */
  lemma {:induction false} HashSetOfMeaning(options: Option<seq<GlobalSecondaryIndex>>)
    ensures options.None? ==> HashSetOf(options).items == map[]
    ensures options.Some? ==> HashSetOf(options).items.Keys == Names(options.value)
    ensures options.Some? ==>
              forall i :: 0 <= i < |options.value| && LastOfName(options.value, i) ==>
                HashSetOf(options).items[options.value[i].indexName] == options.value[i]
  {
    if options.Some? {
      var gs := options.value;
      AddAllKeys(Empty, gs);
      forall i | 0 <= i < |gs| && LastOfName(gs, i)
        ensures HashSetOf(options).items[gs[i].indexName] == gs[i]
      {
        AddAllLastWins(Empty, gs, i);
      }
    }
  }

  /** Whether position i holds the last index of its name. */
  predicate LastOfName(gs: seq<GlobalSecondaryIndex>, i: int)
    requires 0 <= i < |gs|
  {
    forall j :: i < j < |gs| ==> gs[j].indexName != gs[i].indexName
  }

  lemma {:induction false} AddAllKeys(s: HashSet, gs: seq<GlobalSecondaryIndex>)
    requires Valid(s)
    ensures AddAll(s, gs).items.Keys == s.items.Keys + Names(gs)
    decreases |gs|
  {
    if gs != [] {
      var s' := Add(s, gs[0]);
      assert AddAll(s, gs) == AddAll(s', gs[1..]);
      assert s'.items.Keys == s.items.Keys + {gs[0].indexName};
      AddAllKeys(s', gs[1..]);
      assert gs == [gs[0]] + gs[1..];
      NamesConcat([gs[0]], gs[1..]);
    }
  }

  lemma {:induction false} AddAllKeeps(s: HashSet, gs: seq<GlobalSecondaryIndex>, k: string)
    requires Valid(s)
    requires k in s.items && k !in Names(gs)
    ensures k in AddAll(s, gs).items && AddAll(s, gs).items[k] == s.items[k]
    decreases |gs|
  {
    if gs != [] {
      assert gs[0] in gs;
      assert k !in Names(gs[1..]) by {
        forall g | g in gs[1..] ensures g.indexName != k {
          assert g in gs;
        }
      }
      AddAllKeeps(Add(s, gs[0]), gs[1..], k);
    }
  }

  lemma {:induction false} AddAllLastWins(s: HashSet, gs: seq<GlobalSecondaryIndex>, i: int)
    requires Valid(s)
    requires 0 <= i < |gs| && LastOfName(gs, i)
    ensures gs[i].indexName in AddAll(s, gs).items && AddAll(s, gs).items[gs[i].indexName] == gs[i]
    decreases |gs|
  {
    var rest := gs[1..];
    if i == 0 {
      assert gs[0].indexName !in Names(rest) by {
        forall g | g in rest ensures g.indexName != gs[0].indexName {
          var j :| 0 <= j < |rest| && rest[j] == g;
          assert gs[j + 1] == g;
        }
      }
      AddAllKeeps(Add(s, gs[0]), rest, gs[0].indexName);
    } else {
      assert rest[i - 1] == gs[i];
      assert LastOfName(rest, i - 1) by {
        forall j | i - 1 < j < |rest| ensures rest[j].indexName != rest[i - 1].indexName {
          assert rest[j] == gs[j + 1];
        }
      }
      AddAllLastWins(Add(s, gs[0]), rest, i - 1);
    }
  }

  /** The three parts of a diff, each a list of indexes. */
  datatype Diff = Diff(adds: seq<GlobalSecondaryIndex>, updates: seq<GlobalSecondaryIndex>, deletes: seq<GlobalSecondaryIndex>)

  /** The indexes stored under the keys in `order` that `keep` selects, in that order. */
  function Pick(order: seq<string>, items: map<string, GlobalSecondaryIndex>, keep: string -> bool): seq<GlobalSecondaryIndex>
    requires forall i :: 0 <= i < |order| ==> order[i] in items
  {
    if order == [] then []
    else (if keep(order[0]) then [items[order[0]]] else []) + Pick(order[1..], items, keep)
  }

  function IsAdded(oldSet: HashSet, k: string): bool {
    k !in oldSet.items
  }

  function IsUpdated(oldSet: HashSet, newSet: HashSet, k: string): bool {
    k in oldSet.items && k in newSet.items && HashValue(oldSet.items[k]) != HashValue(newSet.items[k])
  }

  /** The indexes in both sets whose capacities differ. */
  function Reprovisioned(oldSet: HashSet, newSet: HashSet): set<string> {
    set k | k in newSet.items && IsUpdated(oldSet, newSet, k)
  }

  function IsDeleted(newSet: HashSet, k: string): bool {
    k !in newSet.items
  }

  /** The diff from the old set to the new set. */
  function DiffOf(oldSet: HashSet, newSet: HashSet): Diff
    requires Valid(oldSet) && Valid(newSet)
  {
    Diff(Pick(newSet.order, newSet.items, k => IsAdded(oldSet, k)),
         Pick(newSet.order, newSet.items, k => IsUpdated(oldSet, newSet, k)),
         Pick(oldSet.order, oldSet.items, k => IsDeleted(newSet, k)))
  }

  lemma {:induction false} NamesConcat(a: seq<GlobalSecondaryIndex>, b: seq<GlobalSecondaryIndex>)
    ensures Names(a + b) == Names(a) + Names(b)
  {
    forall k | k in Names(a + b) ensures k in Names(a) + Names(b) {
      var g :| g in a + b && g.indexName == k;
    }
  }

  /** A name is picked exactly when it is listed in `order` and `keep` selects it. */
  lemma {:induction false} PickNames(order: seq<string>, items: map<string, GlobalSecondaryIndex>, keep: string -> bool)
    requires forall i :: 0 <= i < |order| ==> order[i] in items
    requires forall k :: k in items ==> HashKey(items[k]) == k
    ensures forall k :: k in Names(Pick(order, items, keep)) <==> k in order && keep(k)
    decreases |order|
  {
    if order != [] {
      var rest := order[1..];
      PickNames(rest, items, keep);
      var head := if keep(order[0]) then [items[order[0]]] else [];
      NamesConcat(head, Pick(rest, items, keep));
      assert order == [order[0]] + rest;
    }
  }

  /** Every picked index is the one stored under its name. */
  lemma {:induction false} PickStored(order: seq<string>, items: map<string, GlobalSecondaryIndex>, keep: string -> bool)
    requires forall i :: 0 <= i < |order| ==> order[i] in items
    requires forall k :: k in items ==> HashKey(items[k]) == k
    ensures forall g :: g in Pick(order, items, keep) ==> g.indexName in items && items[g.indexName] == g
    decreases |order|
  {
    if order != [] {
      PickStored(order[1..], items, keep);
    }
  }

  /** Distinct keys give distinct picked names. */
  lemma {:induction false} PickDistinct(order: seq<string>, items: map<string, GlobalSecondaryIndex>, keep: string -> bool)
    requires Distinct(order)
    requires forall i :: 0 <= i < |order| ==> order[i] in items
    requires forall k :: k in items ==> HashKey(items[k]) == k
    ensures forall i, j :: 0 <= i < j < |Pick(order, items, keep)| ==>
              Pick(order, items, keep)[i].indexName != Pick(order, items, keep)[j].indexName
    decreases |order|
  {
    if order != [] {
      var rest := order[1..];
      assert Distinct(rest) by {
        forall i, j | 0 <= i < j < |rest| ensures rest[i] != rest[j] {
          assert rest[i] == order[i + 1] && rest[j] == order[j + 1];
        }
      }
      PickDistinct(rest, items, keep);
      PickNames(rest, items, keep);
      var head := if keep(order[0]) then [items[order[0]]] else [];
      var tail := Pick(rest, items, keep);
      var p := head + tail;
      assert order[0] !in rest by {
        forall i | 0 <= i < |rest| ensures rest[i] != order[0] {
          assert rest[i] == order[i + 1];
        }
      }
      forall i, j | 0 <= i < j < |p| ensures p[i].indexName != p[j].indexName {
        if i == 0 && |head| == 1 {
          assert p[j] in tail;
          assert p[j].indexName in Names(tail);
        } else {
          assert p[i] == tail[i - |head|] && p[j] == tail[j - |head|];
        }
      }
    }
  }

  /**
   * The diff partitions the index names: the added names are exactly those only
   * in the new set, the deleted names exactly those only in the old set, the
   * updated names exactly those in both whose capacities differ; added and updated
   * entries are the newSet definitions, deleted entries the oldSet ones, and no name is
   * listed twice within a part.
   */
  lemma {:induction false} DiffPartition(oldSet: HashSet, newSet: HashSet)
    requires Valid(oldSet) && Valid(newSet)
    ensures var d := DiffOf(oldSet, newSet);
      && Names(d.adds) == newSet.items.Keys - oldSet.items.Keys
      && Names(d.deletes) == oldSet.items.Keys - newSet.items.Keys
      && Names(d.updates) == Reprovisioned(oldSet, newSet)
      && (forall g :: g in d.adds ==> g.indexName in newSet.items && newSet.items[g.indexName] == g)
      && (forall g :: g in d.updates ==> g.indexName in newSet.items && newSet.items[g.indexName] == g)
      && (forall g :: g in d.deletes ==> g.indexName in oldSet.items && oldSet.items[g.indexName] == g)
      && (forall i, j :: 0 <= i < j < |d.adds| ==> d.adds[i].indexName != d.adds[j].indexName)
      && (forall i, j :: 0 <= i < j < |d.updates| ==> d.updates[i].indexName != d.updates[j].indexName)
      && (forall i, j :: 0 <= i < j < |d.deletes| ==> d.deletes[i].indexName != d.deletes[j].indexName)
  {
    DiffAdds(oldSet, newSet);
    DiffUpdates(oldSet, newSet);
    DiffDeletes(oldSet, newSet);
  }

  lemma {:induction false} DiffAdds(oldSet: HashSet, newSet: HashSet)
    requires Valid(oldSet) && Valid(newSet)
    ensures var adds := DiffOf(oldSet, newSet).adds;
      && Names(adds) == newSet.items.Keys - oldSet.items.Keys
      && (forall g :: g in adds ==> g.indexName in newSet.items && newSet.items[g.indexName] == g)
      && (forall i, j :: 0 <= i < j < |adds| ==> adds[i].indexName != adds[j].indexName)
  {
    var keep := (k: string) => IsAdded(oldSet, k);
    PickNames(newSet.order, newSet.items, keep);
    PickStored(newSet.order, newSet.items, keep);
    PickDistinct(newSet.order, newSet.items, keep);
  }

  lemma {:induction false} DiffUpdates(oldSet: HashSet, newSet: HashSet)
    requires Valid(oldSet) && Valid(newSet)
    ensures var updates := DiffOf(oldSet, newSet).updates;
      && Names(updates) == Reprovisioned(oldSet, newSet)
      && (forall g :: g in updates ==> g.indexName in newSet.items && newSet.items[g.indexName] == g)
      && (forall i, j :: 0 <= i < j < |updates| ==> updates[i].indexName != updates[j].indexName)
  {
    var keep := (k: string) => IsUpdated(oldSet, newSet, k);
    PickNames(newSet.order, newSet.items, keep);
    PickStored(newSet.order, newSet.items, keep);
    PickDistinct(newSet.order, newSet.items, keep);
  }

  lemma {:induction false} DiffDeletes(oldSet: HashSet, newSet: HashSet)
    requires Valid(oldSet) && Valid(newSet)
    ensures var deletes := DiffOf(oldSet, newSet).deletes;
      && Names(deletes) == oldSet.items.Keys - newSet.items.Keys
      && (forall g :: g in deletes ==> g.indexName in oldSet.items && oldSet.items[g.indexName] == g)
      && (forall i, j :: 0 <= i < j < |deletes| ==> deletes[i].indexName != deletes[j].indexName)
  {
    var keep := (k: string) => IsDeleted(newSet, k);
    PickNames(oldSet.order, oldSet.items, keep);
    PickStored(oldSet.order, oldSet.items, keep);
    PickDistinct(oldSet.order, oldSet.items, keep);
  }

  /** An index present in both sets with the same capacities is in no part of the diff. */
  lemma {:induction false} UnchangedIndexNotInDiff(oldSet: HashSet, newSet: HashSet, k: string)
    requires Valid(oldSet) && Valid(newSet)
    requires k in oldSet.items && k in newSet.items && HashValue(oldSet.items[k]) == HashValue(newSet.items[k])
    ensures var d := DiffOf(oldSet, newSet); k !in Names(d.adds) && k !in Names(d.updates) && k !in Names(d.deletes)
  {
    DiffPartition(oldSet, newSet);
  }
}
