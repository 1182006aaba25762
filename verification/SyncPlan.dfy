/** The diff between two Pi-holes, and the ordered steps that reconcile the target with the source. */
module SyncPlan {
  import opened Entries
  import opened Wrappers
  import Ordering
  import Text

  // ---- Entries in key order ----

  predicate Before(a: Id, b: Id) {
    Text.Less(Key(a), Key(b))
  }

  ghost predicate Sorted(ids: seq<Id>) {
    forall i, j :: 0 <= i < j < |ids| ==> Before(ids[i], ids[j])
  }

  lemma BeforeOrders()
    ensures Ordering.StrictTotal(Before)
  {
    forall x, y ensures !(Before(x, y) && Before(y, x)) && (x == y || Before(x, y) || Before(y, x)) {
      Text.LessTotal(Key(x), Key(y));
      KeyInjective(x, y);
    }
    forall x, y, z | Before(x, y) && Before(y, z) ensures Before(x, z) { Text.LessTransitive(Key(x), Key(y), Key(z)); }
  }

  /** The entries of a set in key order. */
  ghost function Ordered(ids: set<Id>): (r: seq<Id>)
    ensures Sorted(r)
    ensures forall id :: id in r <==> id in ids
  {
    BeforeOrders();
    Ordering.Arranged(ids, Before)
  }

  /** There is only one way to put a set in key order. */
  lemma SortedUnique(a: seq<Id>, b: seq<Id>)
    requires Sorted(a) && Sorted(b) && forall id :: id in a <==> id in b
    ensures a == b
  {
    BeforeOrders();
    Ordering.OrderedUnique(a, b, Before);
  }

  /** some holds, in key order, those of the first i ids that are wanted. */
  ghost predicate Picked(some: seq<Id>, ids: seq<Id>, i: nat, wanted: set<Id>)
    requires i <= |ids|
  {
    Sorted(some) && forall id :: id in some <==> id in ids[..i] && id in wanted
  }

  lemma PickNext(some: seq<Id>, ids: seq<Id>, i: nat, wanted: set<Id>)
    requires i < |ids| && Sorted(ids) && Picked(some, ids, i, wanted)
    ensures Picked(if ids[i] in wanted then some + [ids[i]] else some, ids, i + 1, wanted)
  {
    assert ids[..i + 1] == ids[..i] + [ids[i]];
    forall j | 0 <= j < |some| ensures Before(some[j], ids[i]) {
      assert some[j] in some;
      assert some[j] in ids[..i];
    }
  }

  lemma AllPicked(some: seq<Id>, ids: seq<Id>, wanted: set<Id>)
    requires Picked(some, ids, |ids|, wanted) && forall id :: id in wanted ==> id in ids
    ensures some == Ordered(wanted)
  {
    assert ids[..|ids|] == ids;
    SortedUnique(some, Ordered(wanted));
  }

  /** The keys of a reader's map, sorted. */
  method SortedIds(m: map<Id, Fields>) returns (ids: seq<Id>)
    ensures ids == Ordered(m.Keys)
  {
    BeforeOrders();
    ids := Ordering.Arrange(m.Keys, Before);
  }

  // ---- The diff ----

  /** The differences of one category. The two maps are what the readers returned for it, so that an entry of the
      source stands for the writes built from it. */
  datatype CategoryDiff = CategoryDiff(
    category: Category,
    source: map<Id, Fields>,
    target: map<Id, Fields>,
    added: seq<Id>,
    changed: seq<Id>,
    removed: seq<Id>)

  predicate IsAdded(src: map<Id, Fields>, tgt: map<Id, Fields>, id: Id) {
    id in src && id !in tgt
  }

  predicate IsChanged(src: map<Id, Fields>, tgt: map<Id, Fields>, id: Id) {
    id in src && id in tgt && Compare(src[id]) != "" && Compare(src[id]) != Compare(tgt[id])
  }

  ghost function AddedIds(src: map<Id, Fields>, tgt: map<Id, Fields>): set<Id> {
    set id | id in src.Keys && IsAdded(src, tgt, id)
  }

  ghost function ChangedIds(src: map<Id, Fields>, tgt: map<Id, Fields>): set<Id> {
    set id | id in src.Keys && IsChanged(src, tgt, id)
  }

  ghost function DiffOf(c: Category, src: map<Id, Fields>, tgt: map<Id, Fields>): (cd: CategoryDiff)
    ensures Consistent(cd)
  {
    CategoryDiff(c, src, tgt, Ordered(AddedIds(src, tgt)), Ordered(ChangedIds(src, tgt)), Ordered(AddedIds(tgt, src)))
  }

  type Reader = Category -> Option<map<Id, Fields>>

  /** ComputeDiff's loop over the source's entries. */
  method CompareSource(src: map<Id, Fields>, tgt: map<Id, Fields>) returns (added: seq<Id>, changed: seq<Id>)
    ensures added == Ordered(AddedIds(src, tgt))
    ensures changed == Ordered(ChangedIds(src, tgt))
  {
    added, changed := [], [];
    var ids := SortedIds(src);
    ghost var add, change := AddedIds(src, tgt), ChangedIds(src, tgt);
    for i := 0 to |ids|
      invariant Picked(added, ids, i, add)
      invariant Picked(changed, ids, i, change)
    {
      var id := ids[i];
      assert id in ids;
      PickNext(added, ids, i, add);
      PickNext(changed, ids, i, change);
      if id !in tgt {
        added := added + [id];
      } else if Compare(src[id]) != "" && Compare(src[id]) != Compare(tgt[id]) {
        changed := changed + [id];
      }
    }
    AllPicked(added, ids, add);
    AllPicked(changed, ids, change);
  }

  /** Its loop over the target's. */
  method CompareTarget(src: map<Id, Fields>, tgt: map<Id, Fields>) returns (removed: seq<Id>)
    ensures removed == Ordered(AddedIds(tgt, src))
  {
    removed := [];
    var ids := SortedIds(tgt);
    ghost var remove := AddedIds(tgt, src);
    for i := 0 to |ids|
      invariant Picked(removed, ids, i, remove)
    {
      assert ids[i] in ids;
      PickNext(removed, ids, i, remove);
      if ids[i] !in src { removed := removed + [ids[i]]; }
    }
    AllPicked(removed, ids, remove);
  }

  method CompareCategory(c: Category, src: map<Id, Fields>, tgt: map<Id, Fields>) returns (cd: CategoryDiff)
    ensures cd == DiffOf(c, src, tgt)
  {
    var added, changed := CompareSource(src, tgt);
    var removed := CompareTarget(src, tgt);
    cd := CategoryDiff(c, src, tgt, added, changed, removed);
  }

  ghost predicate Readable(source: Reader, target: Reader, c: Category) {
    source(c).Some? && target(c).Some?
  }

  /** Reads and compares the requested categories; one that cannot be read makes the whole comparison fail. */
  method ComputeDiff(source: Reader, target: Reader, cats: seq<Category>) returns (diff: Option<seq<CategoryDiff>>)
    ensures diff.None? <==> exists c :: c in cats && !Readable(source, target, c)
    ensures diff.Some? ==> |diff.value| == |cats| && forall i :: 0 <= i < |cats| ==>
      Readable(source, target, cats[i]) &&
      diff.value[i] == DiffOf(cats[i], source(cats[i]).value, target(cats[i]).value)
  {
    var d := [];
    for i := 0 to |cats|
      invariant |d| == i
      invariant forall k :: 0 <= k < i ==>
        Readable(source, target, cats[k]) && d[k] == DiffOf(cats[k], source(cats[k]).value, target(cats[k]).value)
    {
      var src := source(cats[i]);
      if src.None? {
        assert cats[i] in cats && !Readable(source, target, cats[i]);
        return None;
      }
      var tgt := target(cats[i]);
      if tgt.None? {
        assert cats[i] in cats && !Readable(source, target, cats[i]);
        return None;
      }
      var cd := CompareCategory(cats[i], src.value, tgt.value);
      d := d + [cd];
    }
    return Some(d);
  }

  // ---- The steps ----

  datatype Action = AddEntry | UpdateEntry | DeleteEntry

  /** One step: the entry, the settings its write carries, and the compared values before and after. */
  datatype Op = Op(action: Action, id: Id, fields: Fields, from: string, to: string)

  function WriteOf(o: Op): Write {
    match o.action
    case AddEntry => if o.id.HostId? || o.id.CnameId? then Put(o.id, o.fields) else Post(o.id, o.fields)
    case UpdateEntry => Put(o.id, o.fields)
    case DeleteEntry => Delete(o.id)
  }

  const APPLY_ORDER := [Groups, Lists, Domains, Clients, LocalDns, Cname]

  /** The step made of one item of a diff. */
  function OpFor(cd: CategoryDiff, action: Action, id: Id): Op
    requires if action.DeleteEntry? then id in cd.target
             else id in cd.source && (action.UpdateEntry? ==> id in cd.target)
  {
    match action
    case AddEntry => Op(AddEntry, id, cd.source[id], "", Compare(cd.source[id]))
    case UpdateEntry => Op(UpdateEntry, id, cd.source[id], Compare(cd.target[id]), Compare(cd.source[id]))
    case DeleteEntry => Op(DeleteEntry, id, cd.target[id], Compare(cd.target[id]), "")
  }

  ghost predicate Consistent(cd: CategoryDiff) {
    && (forall id :: id in cd.added ==> id in cd.source)
    && (forall id :: id in cd.changed ==> id in cd.source && id in cd.target)
    && (forall id :: id in cd.removed ==> id in cd.target)
  }

  function ItemsOf(cd: CategoryDiff, action: Action): seq<Id> {
    match action case AddEntry => cd.added case UpdateEntry => cd.changed case DeleteEntry => cd.removed
  }

  ghost function OpsFor(cd: CategoryDiff, action: Action): seq<Op>
    requires Consistent(cd)
  {
    var ids := ItemsOf(cd, action);
    seq(|ids|, i requires 0 <= i < |ids| => assert ids[i] in ids; OpFor(cd, action, ids[i]))
  }

  type ByCategory = m: map<Category, CategoryDiff> | forall c :: c in m ==> Consistent(m[c]) witness map[]

  /** The diff by category; a category asked for twice keeps its last comparison. */
  ghost function ByCat(d: seq<CategoryDiff>): (m: ByCategory)
    requires forall cd :: cd in d ==> Consistent(cd)
  {
    if d == [] then map[] else ByCat(d[..|d| - 1])[d[|d| - 1].category := d[|d| - 1]]
  }

  ghost function OpsIn(m: ByCategory, action: Action, c: Category): seq<Op> {
    if c in m then OpsFor(m[c], action) else []
  }

  ghost function PutsBefore(m: ByCategory, k: nat): seq<Op>
    requires k <= |APPLY_ORDER|
  {
    if k == 0 then []
    else PutsBefore(m, k - 1) + OpsIn(m, AddEntry, APPLY_ORDER[k - 1]) + OpsIn(m, UpdateEntry, APPLY_ORDER[k - 1])
  }

  ghost function DeletesDownTo(m: ByCategory, k: nat): seq<Op>
    requires k <= |APPLY_ORDER|
    decreases |APPLY_ORDER| - k
  {
    if k == |APPLY_ORDER| then [] else DeletesDownTo(m, k + 1) + OpsIn(m, DeleteEntry, APPLY_ORDER[k])
  }

  ghost function PlanOf(m: ByCategory, prune: bool): seq<Op> {
    PutsBefore(m, |APPLY_ORDER|) + if prune then DeletesDownTo(m, 0) else []
  }

  method AppendOps(ops: seq<Op>, cd: CategoryDiff, action: Action) returns (longer: seq<Op>)
    requires Consistent(cd)
    ensures longer == ops + OpsFor(cd, action)
  {
    longer := ops;
    var ids := ItemsOf(cd, action);
    for i := 0 to |ids|
      invariant longer == ops + OpsFor(cd, action)[..i]
    {
      assert ids[i] in ids;
      longer := longer + [OpFor(cd, action, ids[i])];
    }
  }

  /** plan's loop over the apply order. */
  method PlanPuts(byCat: ByCategory) returns (ops: seq<Op>)
    ensures ops == PutsBefore(byCat, |APPLY_ORDER|)
  {
    ops := [];
    for i := 0 to |APPLY_ORDER|
      invariant ops == PutsBefore(byCat, i)
    {
      var cat := APPLY_ORDER[i];
      if cat in byCat {
        ops := AppendOps(ops, byCat[cat], AddEntry);
        ops := AppendOps(ops, byCat[cat], UpdateEntry);
      } else {
        assert ops + [] + [] == ops;
      }
    }
  }

  /** Its loop backwards over the same order. */
  method PlanDeletes(byCat: ByCategory) returns (ops: seq<Op>)
    ensures ops == DeletesDownTo(byCat, 0)
  {
    ops := [];
    var i := |APPLY_ORDER|;
    while i > 0
      invariant 0 <= i <= |APPLY_ORDER|
      invariant ops == DeletesDownTo(byCat, i)
    {
      i := i - 1;
      var cat := APPLY_ORDER[i];
      if cat in byCat {
        ops := AppendOps(ops, byCat[cat], DeleteEntry);
      } else {
        assert ops + [] == ops;
      }
    }
  }

  /** plan: adds and updates in apply order, then, when pruning, deletes in the reverse order. */
  method Plan(d: seq<CategoryDiff>, prune: bool) returns (ops: seq<Op>)
    requires forall cd :: cd in d ==> Consistent(cd)
    ensures ops == PlanOf(ByCat(d), prune)
  {
    var byCat: ByCategory := map[];
    for i := 0 to |d|
      invariant byCat == ByCat(d[..i])
    {
      assert d[..i + 1][..i] == d[..i];
      byCat := byCat[d[i].category := d[i]];
    }
    assert d[..|d|] == d;
    ops := PlanPuts(byCat);
    if prune {
      var deletes := PlanDeletes(byCat);
      ops := ops + deletes;
    } else {
      assert ops + [] == ops;
    }
  }
}
