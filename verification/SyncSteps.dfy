/** What a plan holds: exactly the entries that differ, each once, in one order that all plans share. */
module SyncSteps {
  import opened Entries
  import opened Wrappers
  import opened SyncPlan
  import Ordering
  import Text

  /** What a reader returns. */
  function Read(s: Store, c: Category): map<Id, Fields> {
    map id | id in Listed(s, c) :: Get(s, id).value
  }

  ghost function Diffs(source: Store, target: Store, cats: set<Category>): ByCategory {
    map c | c in cats :: DiffOf(c, Read(source, c), Read(target, c))
  }

  /** The plan of a sync. */
  ghost function Steps(source: Store, target: Store, cats: set<Category>, prune: bool): seq<Op> {
    PlanOf(Diffs(source, target, cats), prune)
  }

  lemma ReadExact(s: Store, c: Category, id: Id)
    ensures id in Read(s, c) <==> CategoryOf(id) == c && Get(s, id).Some?
    ensures id in Read(s, c) ==> Some(Read(s, c)[id]) == Get(s, id)
  {}

  ghost predicate Compared(source: Store, target: Store, cats: seq<Category>, d: seq<CategoryDiff>) {
    |d| == |cats| && forall i :: 0 <= i < |d| ==> d[i] == DiffOf(cats[i], Read(source, cats[i]), Read(target, cats[i]))
  }

  function CategorySet(cats: seq<Category>): set<Category> {
    set c | c in cats
  }

  /** What ComputeDiff finds and plan orders is Steps, whatever is asked for twice. */
  lemma PlanIsSteps(source: Store, target: Store, cats: seq<Category>, d: seq<CategoryDiff>, prune: bool)
    requires Compared(source, target, cats, d)
    ensures forall cd :: cd in d ==> Consistent(cd)
    ensures PlanOf(ByCat(d), prune) == Steps(source, target, CategorySet(cats), prune)
  {
    ComparedConsistent(source, target, cats, d);
    ByCatIsDiffs(source, target, cats, d);
  }

  lemma ComparedConsistent(source: Store, target: Store, cats: seq<Category>, d: seq<CategoryDiff>)
    requires Compared(source, target, cats, d)
    ensures forall cd :: cd in d ==> Consistent(cd)
  {}

  lemma ComparedPrefix(source: Store, target: Store, cats: seq<Category>, d: seq<CategoryDiff>, n: nat)
    requires Compared(source, target, cats, d) && n < |d|
    ensures Compared(source, target, cats[..n], d[..n])
    ensures CategorySet(cats[..n + 1]) == CategorySet(cats[..n]) + {cats[n]}
  {}

  lemma {:induction false} ByCatIsDiffs(source: Store, target: Store, cats: seq<Category>, d: seq<CategoryDiff>)
    requires Compared(source, target, cats, d) && forall cd :: cd in d ==> Consistent(cd)
    ensures ByCat(d) == Diffs(source, target, CategorySet(cats))
  {
    if d == [] {
      assert CategorySet(cats) == {};
      assert ByCat(d) == map[];
    } else {
      var n := |d| - 1;
      var c, before := cats[n], CategorySet(cats[..n]);
      ComparedPrefix(source, target, cats, d, n);
      ByCatIsDiffs(source, target, cats[..n], d[..n]);
      DiffsMore(source, target, before, c);
      assert cats[..n + 1] == cats;
      calc {
        ByCat(d);
        ByCat(d[..n])[c := d[n]];
        Diffs(source, target, before)[c := d[n]];
        Diffs(source, target, before + {c});
      }
    }
  }

  lemma DiffsMore(source: Store, target: Store, cats: set<Category>, c: Category)
    ensures Diffs(source, target, cats)[c := DiffOf(c, Read(source, c), Read(target, c))] ==
      Diffs(source, target, cats + {c})
  {}

  // ---- The order of the steps ----

  function Index(c: Category): nat {
    match c
    case Groups => 0 case Lists => 1 case Domains => 2 case Clients => 3 case LocalDns => 4 case Cname => 5
  }

  lemma IndexExact(k: nat, c: Category)
    requires k < |APPLY_ORDER|
    ensures Index(APPLY_ORDER[k]) == k
    ensures APPLY_ORDER[k] == c <==> Index(c) == k
  {}

  /** Where the steps of one kind stand in every plan. */
  function Slot(a: Action, c: Category): nat {
    match a case AddEntry => 2 * Index(c) case UpdateEntry => 2 * Index(c) + 1 case DeleteEntry => 17 - Index(c)
  }

  function Place(o: Op): nat {
    Slot(o.action, CategoryOf(o.id))
  }

  predicate Precedes(a: Op, b: Op) {
    Place(a) < Place(b) || (Place(a) == Place(b) && Before(a.id, b.id))
  }

  lemma PrecedesStrict(a: Op, b: Op)
    ensures !(Precedes(a, b) && Precedes(b, a))
    ensures !Precedes(a, a)
  {
    Text.LessTotal(Key(a.id), Key(b.id));
    Text.LessTotal(Key(a.id), Key(a.id));
  }

  ghost predicate InOrder(ops: seq<Op>) {
    forall i, j :: 0 <= i < j < |ops| ==> Precedes(ops[i], ops[j])
  }

  ghost predicate Within(ops: seq<Op>, lo: int, hi: int) {
    forall o :: o in ops ==> lo <= Place(o) < hi
  }

  lemma InOrderConcat(a: seq<Op>, b: seq<Op>, lo: int, mid: int, hi: int)
    requires InOrder(a) && InOrder(b) && lo <= mid <= hi && Within(a, lo, mid) && Within(b, mid, hi)
    ensures InOrder(a + b) && Within(a + b, lo, hi)
  {}

  lemma PrecedesAsymmetric()
    ensures Ordering.Asymmetric(Precedes)
  {
    forall a, b ensures !(Precedes(a, b) && Precedes(b, a)) { PrecedesStrict(a, b); }
  }

  /** Two plans with the same steps are the same. */
  lemma InOrderUnique(a: seq<Op>, b: seq<Op>)
    requires InOrder(a) && InOrder(b) && forall o :: o in a <==> o in b
    ensures a == b
  {
    PrecedesAsymmetric();
    Ordering.OrderedUnique(a, b, Precedes);
  }

  // ---- The steps of a plan ----

  /** Each list of the diff holds entries of its own category, in key order. */
  ghost predicate Proper(m: ByCategory) {
    forall c, a :: c in m ==> ProperList(m, c, a)
  }

  ghost predicate ProperList(m: ByCategory, c: Category, a: Action)
    requires c in m
  {
    Sorted(ItemsOf(m[c], a)) && forall id :: id in ItemsOf(m[c], a) ==> CategoryOf(id) == c
  }

  lemma DiffsProper(source: Store, target: Store, cats: set<Category>)
    ensures Proper(Diffs(source, target, cats))
  {}

  ghost predicate InDiff(m: ByCategory, a: Action, o: Op) {
    var c := CategoryOf(o.id);
    c in m && o.action == a && o.id in ItemsOf(m[c], a) && o == OpFor(m[c], a, o.id)
  }

  lemma OpsInExact(m: ByCategory, a: Action, c: Category, o: Op)
    requires Proper(m)
    ensures o in OpsIn(m, a, c) <==> CategoryOf(o.id) == c && InDiff(m, a, o)
  {
    if c in m {
      assert ProperList(m, c, a);
      var ids := ItemsOf(m[c], a);
      if CategoryOf(o.id) == c && InDiff(m, a, o) {
        var i :| 0 <= i < |ids| && ids[i] == o.id;
        assert OpsFor(m[c], a)[i] == o;
      }
    }
  }

  lemma OpsInOrdered(m: ByCategory, a: Action, c: Category)
    requires Proper(m)
    ensures InOrder(OpsIn(m, a, c))
    ensures Within(OpsIn(m, a, c), Slot(a, c), Slot(a, c) + 1)
  {
    if c in m {
      assert ProperList(m, c, a);
      var ids := ItemsOf(m[c], a);
      forall i | 0 <= i < |ids| ensures CategoryOf(ids[i]) == c { assert ids[i] in ids; }
    }
  }

  lemma {:induction false} PutsExact(m: ByCategory, k: nat, o: Op)
    requires Proper(m) && k <= |APPLY_ORDER|
    ensures o in PutsBefore(m, k) <==>
      Index(CategoryOf(o.id)) < k && (InDiff(m, AddEntry, o) || InDiff(m, UpdateEntry, o))
  {
    if k > 0 {
      PutsExact(m, k - 1, o);
      OpsInExact(m, AddEntry, APPLY_ORDER[k - 1], o);
      OpsInExact(m, UpdateEntry, APPLY_ORDER[k - 1], o);
      IndexExact(k - 1, CategoryOf(o.id));
    }
  }

  lemma {:induction false} DeletesExact(m: ByCategory, k: nat, o: Op)
    requires Proper(m) && k <= |APPLY_ORDER|
    ensures o in DeletesDownTo(m, k) <==> Index(CategoryOf(o.id)) >= k && InDiff(m, DeleteEntry, o)
    decreases |APPLY_ORDER| - k
  {
    if k < |APPLY_ORDER| {
      DeletesExact(m, k + 1, o);
      OpsInExact(m, DeleteEntry, APPLY_ORDER[k], o);
      IndexExact(k, CategoryOf(o.id));
    }
  }

  lemma PlanExact(m: ByCategory, prune: bool, o: Op)
    requires Proper(m)
    ensures o in PlanOf(m, prune) <==> InDiff(m, o.action, o) && (o.action.DeleteEntry? ==> prune)
  {
    var n: nat := |APPLY_ORDER|;
    PutsExact(m, n, o);
    DeletesExact(m, 0, o);
    InPlan(PutsBefore(m, n), DeletesDownTo(m, 0), prune, o);
    assert Index(CategoryOf(o.id)) < n;
  }

  lemma InPlan(puts: seq<Op>, deletes: seq<Op>, prune: bool, o: Op)
    ensures o in puts + (if prune then deletes else []) <==> o in puts || (prune && o in deletes)
  {}

  lemma {:induction false} PutsOrdered(m: ByCategory, k: nat)
    requires Proper(m) && k <= |APPLY_ORDER|
    ensures InOrder(PutsBefore(m, k)) && Within(PutsBefore(m, k), 0, 2 * k)
  {
    if k > 0 {
      PutsOrdered(m, k - 1);
      var c := APPLY_ORDER[k - 1];
      IndexExact(k - 1, c);
      OpsInOrdered(m, AddEntry, c);
      OpsInOrdered(m, UpdateEntry, c);
      Three(PutsBefore(m, k - 1), OpsIn(m, AddEntry, c), OpsIn(m, UpdateEntry, c), 2 * k - 2);
    }
  }

  lemma Three(a: seq<Op>, b: seq<Op>, c: seq<Op>, n: nat)
    requires InOrder(a) && InOrder(b) && InOrder(c)
    requires Within(a, 0, n) && Within(b, n, n + 1) && Within(c, n + 1, n + 2)
    ensures InOrder(a + b + c) && Within(a + b + c, 0, n + 2)
  {}

  lemma {:induction false} DeletesOrdered(m: ByCategory, k: nat)
    requires Proper(m) && k <= |APPLY_ORDER|
    ensures InOrder(DeletesDownTo(m, k)) && Within(DeletesDownTo(m, k), 12, 18 - k)
    decreases |APPLY_ORDER| - k
  {
    if k < |APPLY_ORDER| {
      DeletesOrdered(m, k + 1);
      IndexExact(k, APPLY_ORDER[k]);
      OpsInOrdered(m, DeleteEntry, APPLY_ORDER[k]);
      InOrderConcat(DeletesDownTo(m, k + 1), OpsIn(m, DeleteEntry, APPLY_ORDER[k]), 12, 17 - k, 18 - k);
    }
  }

  /** What makes a step part of a plan, and everything it says: the entry is of a requested category and differs, the
      write carries the source's settings, and the step shows what they replace. */
  ghost predicate Planned(source: Store, target: Store, cats: set<Category>, prune: bool, o: Op) {
    var s, t := Get(source, o.id), Get(target, o.id);
    && CategoryOf(o.id) in cats
    && o.to == (if o.action.DeleteEntry? then "" else Compare(o.fields))
    && o.from == (if t.Some? then Compare(t.value) else "")
    && match o.action
       case AddEntry => s == Some(o.fields) && t.None?
       case UpdateEntry => s == Some(o.fields) && t.Some? && s != t
       case DeleteEntry => prune && s.None? && t == Some(o.fields)
  }

  lemma ItemsExact(c: Category, src: map<Id, Fields>, tgt: map<Id, Fields>, a: Action, id: Id)
    ensures id in ItemsOf(DiffOf(c, src, tgt), a) <==>
      match a
      case AddEntry => IsAdded(src, tgt, id)
      case UpdateEntry => IsChanged(src, tgt, id)
      case DeleteEntry => IsAdded(tgt, src, id)
  {}

  /** An entry of the source is changed when the target holds it with other settings. */
  lemma ChangedExact(source: Store, target: Store, c: Category, id: Id)
    requires WellFormed(source)
    ensures IsChanged(Read(source, c), Read(target, c), id) <==>
      CategoryOf(id) == c && Get(source, id).Some? && Get(target, id).Some? && Get(source, id) != Get(target, id)
  {
    ReadExact(source, c, id);
    ReadExact(target, c, id);
    if id in Read(source, c) && id in Read(target, c) {
      CompareInjective(Read(source, c)[id], Read(target, c)[id]);
    }
  }

  lemma InDiffIffPlanned(source: Store, target: Store, cats: set<Category>, prune: bool, o: Op)
    requires WellFormed(source)
    ensures InDiff(Diffs(source, target, cats), o.action, o) && (o.action.DeleteEntry? ==> prune) <==>
      Planned(source, target, cats, prune, o)
  {
    var c := CategoryOf(o.id);
    var cd := DiffOf(c, Read(source, c), Read(target, c));
    assert c in cats ==> Diffs(source, target, cats)[c] == cd;
    ItemsExact(c, Read(source, c), Read(target, c), o.action, o.id);
    ChangedExact(source, target, c, o.id);
    ReadExact(source, c, o.id);
    ReadExact(target, c, o.id);
  }

  /** A plan holds exactly the steps that are needed. */
  lemma StepsExact(source: Store, target: Store, cats: set<Category>, prune: bool, o: Op)
    requires WellFormed(source)
    ensures o in Steps(source, target, cats, prune) <==> Planned(source, target, cats, prune, o)
  {
    DiffsProper(source, target, cats);
    PlanExact(Diffs(source, target, cats), prune, o);
    InDiffIffPlanned(source, target, cats, prune, o);
  }

  lemma StepsOrdered(source: Store, target: Store, cats: set<Category>, prune: bool)
    ensures InOrder(Steps(source, target, cats, prune))
    ensures Within(Steps(source, target, cats, prune), 0, 18)
  {
    var m := Diffs(source, target, cats);
    DiffsProper(source, target, cats);
    PutsOrdered(m, |APPLY_ORDER|);
    DeletesOrdered(m, 0);
    InOrderConcat(PutsBefore(m, |APPLY_ORDER|), if prune then DeletesDownTo(m, 0) else [], 0, 12, 18);
  }

  ghost predicate DistinctIds(ops: seq<Op>) {
    forall i, j :: 0 <= i < j < |ops| ==> ops[i].id != ops[j].id
  }

  /** No entry has two steps. */
  lemma StepsDistinct(source: Store, target: Store, cats: set<Category>, prune: bool)
    requires WellFormed(source)
    ensures DistinctIds(Steps(source, target, cats, prune))
  {
    var ops := Steps(source, target, cats, prune);
    StepsOrdered(source, target, cats, prune);
    forall i, j | 0 <= i < j < |ops| ensures ops[i].id != ops[j].id {
      StepsExact(source, target, cats, prune, ops[i]);
      StepsExact(source, target, cats, prune, ops[j]);
      Text.LessTotal(Key(ops[i].id), Key(ops[i].id));
      assert Precedes(ops[i], ops[j]);
    }
  }

  predicate IsCname(o: Op) {
    o.id.CnameId?
  }

  lemma CnamePlaces(o: Op)
    ensures IsCname(o) ==> 10 <= Place(o) <= 12
    ensures 10 <= Place(o) <= 12 ==> IsCname(o)
  {}

  lemma CnameBetween(a: Op, b: Op, c: Op)
    requires Place(a) <= Place(b) <= Place(c) && IsCname(a) && IsCname(c)
    ensures IsCname(b)
  {
    CnamePlaces(a);
    CnamePlaces(b);
    CnamePlaces(c);
  }

  lemma CnamesAmid(ops: seq<Op>, i: nat, j: nat, k: nat)
    requires InOrder(ops) && i <= j <= k < |ops| && IsCname(ops[i]) && IsCname(ops[k])
    ensures IsCname(ops[j])
  {
    assert i < j ==> Precedes(ops[i], ops[j]);
    assert j < k ==> Precedes(ops[j], ops[k]);
    CnameBetween(ops[i], ops[j], ops[k]);
  }

  /** The CNAME steps stand next to each other. */
  ghost predicate Together(ops: seq<Op>) {
    forall i, j, k :: 0 <= i <= j <= k < |ops| && IsCname(ops[i]) && IsCname(ops[k]) ==> IsCname(ops[j])
  }

  /** They do so in every plan: the category's adds come last, and its deletes first. */
  lemma CnamesTogether(source: Store, target: Store, cats: set<Category>, prune: bool)
    ensures Together(Steps(source, target, cats, prune))
  {
    var ops := Steps(source, target, cats, prune);
    StepsOrdered(source, target, cats, prune);
    forall i, j, k | 0 <= i <= j <= k < |ops| && IsCname(ops[i]) && IsCname(ops[k]) ensures IsCname(ops[j]) {
      CnamesAmid(ops, i, j, k);
    }
  }

  // ---- What the diff tells the sync tool ----

  /** InSync: nothing to add or change, nor, when pruning, to remove. */
  ghost predicate InSync(source: Store, target: Store, cats: set<Category>, prune: bool) {
    forall c :: c in cats ==> Idle(Diffs(source, target, cats)[c], prune)
  }

  predicate Idle(cd: CategoryDiff, prune: bool) {
    cd.added == [] && cd.changed == [] && (prune ==> cd.removed == [])
  }

  /** PruneWipes finds something: a category the source has nothing in and the target has. */
  ghost predicate Wipes(source: Store, target: Store, cats: set<Category>) {
    exists c :: c in cats &&
      |Diffs(source, target, cats)[c].source| == 0 && |Diffs(source, target, cats)[c].removed| > 0
  }

  lemma WipesExact(source: Store, target: Store, cats: set<Category>)
    ensures Wipes(source, target, cats) <==> exists c :: c in cats && Listed(source, c) == {} && Listed(target, c) != {}
  {
    forall c | c in cats
      ensures |Diffs(source, target, cats)[c].source| == 0 && |Diffs(source, target, cats)[c].removed| > 0 <==>
        Listed(source, c) == {} && Listed(target, c) != {}
    {
      RemovedWhenEmpty(source, target, c);
    }
  }

  lemma RemovedWhenEmpty(source: Store, target: Store, c: Category)
    ensures |Read(source, c)| == 0 <==> Listed(source, c) == {}
    ensures Listed(source, c) == {} ==>
      (|Ordered(AddedIds(Read(target, c), Read(source, c)))| > 0 <==> Listed(target, c) != {})
  {}

  /** In sync means there is no step. */
  lemma InSyncExact(source: Store, target: Store, cats: set<Category>, prune: bool)
    ensures InSync(source, target, cats, prune) <==> Steps(source, target, cats, prune) == []
  {
    var m := Diffs(source, target, cats);
    DiffsProper(source, target, cats);
    if InSync(source, target, cats, prune) {
      NoItemsNoOps(m, prune);
    } else {
      var c :| c in cats && !Idle(m[c], prune);
      SomeItemSomeOp(m, prune, c);
    }
  }

  lemma NoItemsNoOps(m: ByCategory, prune: bool)
    requires Proper(m)
    requires forall c :: c in m ==> Idle(m[c], prune)
    ensures PlanOf(m, prune) == []
  {
    var ops := PlanOf(m, prune);
    assert ops != [] ==> ops[0] in ops;
    forall o ensures o !in ops {
      PlanExact(m, prune, o);
    }
  }

  lemma SomeItemSomeOp(m: ByCategory, prune: bool, c: Category)
    requires Proper(m) && c in m && !Idle(m[c], prune)
    ensures PlanOf(m, prune) != []
  {
    var a := if m[c].added != [] then AddEntry else if m[c].changed != [] then UpdateEntry else DeleteEntry;
    var id := ItemsOf(m[c], a)[0];
    assert id in ItemsOf(m[c], a) && ProperList(m, c, a);
    PlanExact(m, prune, OpFor(m[c], a, id));
  }
}
