/** What a sync does, whatever becomes of its requests, when nothing else writes to the target meanwhile. */
module SyncTheorems {
  import opened Entries
  import opened Wrappers
  import opened SyncPlan
  import opened SyncSteps
  import opened SyncSpec
  import opened SyncRuns
  import C = CnameRewrite
  import Ordering

  /** What a sync of these categories should leave: with prune the source's entries, without it the target's
      overridden by the source's; every other category as it is. */
  function Goal(source: Store, target: Store, cats: set<Category>, prune: bool): Want {
    id => if CategoryOf(id) in cats && (Get(source, id).Some? || prune) then Get(source, id) else Get(target, id)
  }

  /** A run of ApplyPlan from the target as it was compared. */
  ghost function Sync(source: Store, target: Store, cats: set<Category>, prune: bool, fates: Id -> Fate,
                      write: Option<ListWrite>): Run
  {
    var ops := Steps(source, target, cats, prune);
    Loop(target, ops, CnamesOf(ops), fates, write, false)
  }

  lemma StepAims(source: Store, target: Store, cats: set<Category>, prune: bool, o: Op)
    requires WellFormed(source) && WellFormed(target) && Planned(source, target, cats, prune, o)
    ensures AimsAt(o, Goal(source, target, cats, prune))
    ensures !IsCname(o) ==> Serve(target, WriteOf(o)).1
    ensures Goal(source, target, cats, prune)(o.id) != Get(target, o.id)
  {}

  lemma PlanRunnable(source: Store, target: Store, cats: set<Category>, prune: bool)
    requires WellFormed(source) && WellFormed(target)
    ensures var ops := Steps(source, target, cats, prune);
      Runnable(target, ops, CnamesOf(ops), Goal(source, target, cats, prune))
  {
    var ops, want := Steps(source, target, cats, prune), Goal(source, target, cats, prune);
    forall o | o in ops ensures AimsAt(o, want) && (!IsCname(o) ==> Serve(target, WriteOf(o)).1) {
      StepsExact(source, target, cats, prune, o);
      StepAims(source, target, cats, prune, o);
    }
    forall o ensures o in CnamesOf(ops) <==> o in ops && IsCname(o) { FilterMembers(ops, o); }
    forall o ensures o in OthersOf(ops) <==> o in ops && !IsCname(o) { FilterMembers(ops, o); }
    StepsDistinct(source, target, cats, prune);
    OthersDistinct(ops);
  }

  lemma {:induction false} OthersDistinct(ops: seq<Op>)
    requires DistinctIds(ops)
    ensures DistinctIds(OthersOf(ops))
  {
    if ops != [] {
      HeadApart(ops);
      OthersDistinct(ops[1..]);
      forall o | o in OthersOf(ops[1..]) ensures o.id != ops[0].id { FilterMembers(ops[1..], o); }
    }
  }

  lemma CnamesAim(source: Store, target: Store, cats: set<Category>, prune: bool)
    requires WellFormed(source) && WellFormed(target)
    ensures var batch := CnamesOf(Steps(source, target, cats, prune));
      Aims(batch, Goal(source, target, cats, prune)) && forall o :: o in batch ==> IsCname(o)
  {
    PlanRunnable(source, target, cats, prune);
  }

  /** A plan with a CNAME step changes the list of records, so that its write is sent. */
  lemma PlanDiffers(source: Store, target: Store, cats: set<Category>, prune: bool, o: Op)
    requires WellFormed(source) && WellFormed(target) && o in Steps(source, target, cats, prune) && IsCname(o)
    ensures Differs(target.cnames, CnamesOf(Steps(source, target, cats, prune)))
  {
    var ops, want := Steps(source, target, cats, prune), Goal(source, target, cats, prune);
    CnamesAim(source, target, cats, prune);
    FilterMembers(ops, o);
    assert o.id in IdsOf(CnamesOf(ops));
    RewriteAims(target.cnames, CnamesOf(ops), o.id.record, want);
    StepsExact(source, target, cats, prune, o);
    StepAims(source, target, cats, prune, o);
    CnameAtMostOne(source, target, o.id);
  }

  lemma CnameAtMostOne(source: Store, target: Store, id: Id)
    requires id.CnameId?
    ensures Get(source, id) == Get(target, id) <==> (Get(source, id).Some? <==> Get(target, id).Some?)
    ensures Get(target, id).Some? <==> id.record in target.cnames
  {}

  /** The request an entry's change was part of succeeded. */
  predicate Succeeds(id: Id, fates: Id -> Fate, write: Option<ListWrite>) {
    if id.CnameId? then WriteSucceeded(write) else fates(id).Succeeded?
  }

  /** It was carried out, with a success reply or without. */
  predicate Carries(id: Id, fates: Id -> Fate, write: Option<ListWrite>) {
    if id.CnameId? then CarriedOut(write) else Processed(fates(id))
  }

  /** Step k is reported as applied exactly when its request succeeded, and done exactly when it was carried out. */
  ghost predicate ToldTruly(r: Run, k: nat, fates: Id -> Fate, write: Option<ListWrite>)
    requires k < |r.steps| == |r.ok|
  {
    && r.ok[k] == Succeeds(r.steps[k].id, fates, write)
    && (r.steps[k].id in r.did <==> Carries(r.steps[k].id, fates, write))
  }

  ghost predicate Truthful(r: Run, fates: Id -> Fate, write: Option<ListWrite>) {
    |r.steps| == |r.ok| && forall k :: 0 <= k < |r.steps| ==> ToldTruly(r, k, fates, write)
  }

  lemma TellsTruly(r: Run, fates: Id -> Fate, b: Ran, write: Option<ListWrite>, differs: bool)
    requires |r.steps| == |r.ok| && TellsRight(r, fates, b) && Fitting(b, write, differs)
    requires (exists o :: o in r.steps && IsCname(o)) ==> differs
    ensures Truthful(r, fates, write)
  {
    forall k | 0 <= k < |r.steps| ensures ToldTruly(r, k, fates, write) {
      assert r.steps[k] in r.steps;
      assert if IsCname(r.steps[k]) then ToldTogether(r, k, b) else Told(r, k, fates);
    }
  }

  /** The report is complete and truthful for every run: it tells of the plan's steps in the plan's order, a step is
      reported as applied exactly when the request it was part of succeeded, and what is reported as applied has taken
      effect. Exactly the entries in did are as wanted, the rest as before. */
  lemma SyncReports(source: Store, target: Store, cats: set<Category>, prune: bool, fates: Id -> Fate,
                    write: Option<ListWrite>)
    requires WellFormed(source) && WellFormed(target)
    ensures var run := Sync(source, target, cats, prune, fates, write);
      && run.steps == Steps(source, target, cats, prune)
      && Count(run.ok, true) + Count(run.ok, false) == |run.steps|
      && Truthful(run, fates, write)
      && run.did <= IdsOf(run.steps)
      && SetsOnly(target, run.store, Goal(source, target, cats, prune), run.did)
  {
    var ops, want := Steps(source, target, cats, prune), Goal(source, target, cats, prune);
    PlanRunnable(source, target, cats, prune);
    CnamesTogether(source, target, cats, prune);
    LoopFollows(target, ops, fates, write);
    var b := LoopTold(target, ops, CnamesOf(ops), fates, write, false, want);
    LoopExact(target, ops, CnamesOf(ops), fates, write, false, want);
    var run := Sync(source, target, cats, prune, fates, write);
    CountBoth(run.ok);
    if o :| o in ops && IsCname(o) { PlanDiffers(source, target, cats, prune, o); }
    TellsTruly(run, fates, b, write, Differs(target.cnames, CnamesOf(ops)));
    LoopWithin(target, ops, CnamesOf(ops), fates, write, false);
    forall id | id in run.did ensures id in IdsOf(ops) {
      FiltersWithin(ops, id);
    }
  }

  /** What is reported as applied has taken effect. */
  lemma AppliedIsDone(run: Run, fates: Id -> Fate, write: Option<ListWrite>)
    requires Truthful(run, fates, write)
    ensures forall k :: 0 <= k < |run.ok| && run.ok[k] ==> run.steps[k].id in run.did
  {
    forall k | 0 <= k < |run.ok| && run.ok[k] ensures run.steps[k].id in run.did {
      assert ToldTruly(run, k, fates, write);
    }
  }

  /** The plan has a CNAME step, and its write was reached. */
  ghost predicate SendsList(source: Store, target: Store, cats: set<Category>, prune: bool,
                            write: Option<ListWrite>) {
    write.Some? && exists o :: o in Steps(source, target, cats, prune) && IsCname(o)
  }

  /** What a sync says of a restart: nothing unless it sent the list of CNAME records, and otherwise what came of it.
      When it changed the list on the target, nothing is said exactly if the write got no success reply and its error
      was not marked uncertain; which errors these are is for the request engine to say. */
  lemma RestartTold(source: Store, target: Store, cats: set<Category>, prune: bool, fates: Id -> Fate,
                    write: Option<ListWrite>)
    requires WellFormed(source) && WellFormed(target)
    ensures var run := Sync(source, target, cats, prune, fates, write);
      && (run.restart.Restarted? <==> SendsList(source, target, cats, prune, write) && var w := write.value;
            if w.fate.Succeeded? then w.back else w.uncertain && (w.back || (w.asked && w.backAgain)))
      && (run.restart.RestartFailed? <==> SendsList(source, target, cats, prune, write) && var w := write.value;
            if w.fate.Succeeded? then !w.back else w.uncertain && !w.back && (w.asked ==> !w.backAgain))
      && (run.store.cnames != target.cnames ==>
            CarriedOut(write) && (run.restart.NotMentioned? <==> !WriteSucceeded(write) && !write.value.uncertain))
  {
    var ops := Steps(source, target, cats, prune);
    LoopRestarts(target, ops, CnamesOf(ops), fates, write, false);
    LoopCnames(target, ops, CnamesOf(ops), fates, write, false);
    if o :| o in ops && IsCname(o) {
      FilterMembers(ops, o);
      PlanDiffers(source, target, cats, prune, o);
    }
    if CnamesOf(ops) != [] { FilterMembers(ops, CnamesOf(ops)[0]); }
  }

  lemma FiltersWithin(ops: seq<Op>, id: Id)
    requires id in IdsOf(OthersOf(ops)) + IdsOf(CnamesOf(ops))
    ensures id in IdsOf(ops)
  {}

  lemma InIds(ops: seq<Op>, id: Id) returns (o: Op)
    requires id in IdsOf(ops)
    ensures o in ops && o.id == id
  {
    o :| o in ops && o.id == id;
  }

  /** An entry without a step is as wanted already. */
  lemma NoStepAsWanted(source: Store, target: Store, cats: set<Category>, prune: bool, id: Id)
    requires WellFormed(source)
    ensures id !in IdsOf(Steps(source, target, cats, prune)) ==>
      Goal(source, target, cats, prune)(id) == Get(target, id)
  {
    var s, t := Get(source, id), Get(target, id);
    if CategoryOf(id) in cats && s != t && (s.Some? || prune) {
      var from := if t.Some? then Compare(t.value) else "";
      var o := if s.Some? then Op(if t.None? then AddEntry else UpdateEntry, id, s.value, from, Compare(s.value))
        else Op(DeleteEntry, id, t.value, from, "");
      assert Planned(source, target, cats, prune, o);
      StepsExact(source, target, cats, prune, o);
      assert o.id in IdsOf(Steps(source, target, cats, prune));
    }
  }

  /** When no step failed the target is what the sync was for: equal to the source in the requested categories when
      pruning, overridden by it otherwise, and untouched elsewhere. It is so when every request succeeds. */
  lemma SyncConverges(source: Store, target: Store, cats: set<Category>, prune: bool, fates: Id -> Fate,
                      write: Option<ListWrite>)
    requires WellFormed(source) && WellFormed(target)
    ensures var run := Sync(source, target, cats, prune, fates, write);
      && (Count(run.ok, false) == 0 ==> forall id :: Get(run.store, id) == Goal(source, target, cats, prune)(id))
      && ((forall id :: fates(id).Succeeded?) && WriteSucceeded(write) ==> Count(run.ok, false) == 0)
  {
    var run := Sync(source, target, cats, prune, fates, write);
    SyncReports(source, target, cats, prune, fates, write);
    AppliedIsDone(run, fates, write);
    if Count(run.ok, false) == 0 {
      NoneFailed(run.ok);
      forall id ensures Get(run.store, id) == Goal(source, target, cats, prune)(id) {
        NoStepAsWanted(source, target, cats, prune, id);
        if id in IdsOf(run.steps) {
          var o := InIds(run.steps, id);
          var k :| 0 <= k < |run.steps| && run.steps[k] == o;
          assert run.ok[k];
        }
      }
    }
    if (forall id :: fates(id).Succeeded?) && WriteSucceeded(write) {
      forall k | 0 <= k < |run.ok| ensures run.ok[k] {
        assert ToldTruly(run, k, fates, write);
      }
      AllOk(run.ok);
    }
  }

  lemma {:induction false} NoneFailed(ok: seq<bool>)
    requires Count(ok, false) == 0
    ensures forall k :: 0 <= k < |ok| ==> ok[k]
  {
    if ok != [] { NoneFailed(ok[..|ok| - 1]); }
  }

  lemma {:induction false} AllOk(ok: seq<bool>)
    requires forall k :: 0 <= k < |ok| ==> ok[k]
    ensures Count(ok, false) == 0
  {
    if ok != [] { AllOk(ok[..|ok| - 1]); }
  }

  // ---- Planning again ----

  /** The steps whose entries are not in d, in the same order. */
  function Left(ops: seq<Op>, d: set<Id>): seq<Op> {
    if ops == [] then [] else (if ops[0].id in d then [] else [ops[0]]) + Left(ops[1..], d)
  }

  lemma {:induction false} LeftExact(ops: seq<Op>, d: set<Id>)
    requires InOrder(ops)
    ensures InOrder(Left(ops, d))
    ensures forall o :: o in Left(ops, d) <==> o in ops && o.id !in d
  {
    if ops != [] {
      PrecedesAsymmetric();
      Ordering.OrderedTail(ops, Precedes);
      LeftExact(ops[1..], d);
      var rest := Left(ops[1..], d);
      forall j | 0 <= j < |rest| ensures Precedes(ops[0], rest[j]) {
        assert rest[j] in ops[1..];
      }
    }
  }

  lemma PlannedAgain(source: Store, target: Store, after: Store, cats: set<Category>, prune: bool, did: set<Id>, o: Op)
    requires SetsOnly(target, after, Goal(source, target, cats, prune), did)
    ensures Planned(source, after, cats, prune, o) <==> Planned(source, target, cats, prune, o) && o.id !in did
    requires o.id in did ==> Goal(source, target, cats, prune)(o.id) != Get(target, o.id)
  {}

  /** A sync planned afterwards consists of exactly the steps that were not done, unchanged and in the same order. */
  lemma PlanAgain(source: Store, target: Store, cats: set<Category>, prune: bool, fates: Id -> Fate,
                  write: Option<ListWrite>)
    requires WellFormed(source) && WellFormed(target)
    ensures var run := Sync(source, target, cats, prune, fates, write);
      Steps(source, run.store, cats, prune) == Left(Steps(source, target, cats, prune), run.did)
  {
    var run := Sync(source, target, cats, prune, fates, write);
    var ops := Steps(source, target, cats, prune);
    var again := Steps(source, run.store, cats, prune);
    SyncReports(source, target, cats, prune, fates, write);
    StepsOrdered(source, target, cats, prune);
    StepsOrdered(source, run.store, cats, prune);
    LeftExact(ops, run.did);
    forall o ensures o in again <==> o in ops && o.id !in run.did {
      StepsExact(source, target, cats, prune, o);
      StepsExact(source, run.store, cats, prune, o);
      if o.id in run.did { DoneDiffers(source, target, cats, prune, o.id); }
      PlannedAgain(source, target, run.store, cats, prune, run.did, o);
    }
    InOrderUnique(again, Left(ops, run.did));
  }

  lemma DoneDiffers(source: Store, target: Store, cats: set<Category>, prune: bool, id: Id)
    requires WellFormed(source) && WellFormed(target) && id in IdsOf(Steps(source, target, cats, prune))
    ensures Goal(source, target, cats, prune)(id) != Get(target, id)
  {
    var o := InIds(Steps(source, target, cats, prune), id);
    StepsExact(source, target, cats, prune, o);
    StepAims(source, target, cats, prune, o);
  }

  lemma StillFailed(steps: seq<Op>, ok: seq<bool>, did: set<Id>, o: Op)
    requires |steps| == |ok| && o in steps && o.id !in did
    requires forall k :: 0 <= k < |ok| && ok[k] ==> steps[k].id in did
    ensures exists k :: 0 <= k < |steps| && steps[k] == o && !ok[k]
  {}

  /** o is a step of the run that was reported as failed. */
  ghost predicate FailedStep(run: Run, o: Op) {
    |run.steps| == |run.ok| && exists k :: 0 <= k < |run.steps| && run.steps[k] == o && !run.ok[k]
  }

  /** What is left of a run's steps once those done are taken away. */
  lemma LeftFailed(run: Run, fates: Id -> Fate, write: Option<ListWrite>)
    requires Truthful(run, fates, write) && InOrder(run.steps) && run.did <= IdsOf(run.steps)
    ensures forall o :: o in Left(run.steps, run.did) ==> FailedStep(run, o)
    ensures Count(run.ok, false) == 0 ==> Left(run.steps, run.did) == []
    ensures Left(run.steps, run.did) == [] <==> run.did == IdsOf(run.steps)
  {
    LeftExact(run.steps, run.did);
    AppliedIsDone(run, fates, write);
    forall o | o in Left(run.steps, run.did) ensures FailedStep(run, o) {
      StillFailed(run.steps, run.ok, run.did, o);
    }
    LeftNone(run.steps, run.did);
    if Count(run.ok, false) == 0 {
      NoneFailed(run.ok);
      AllDone(run.steps, run.ok, run.did);
    }
  }

  /** So nothing but steps reported as failed comes back, and after a sync without a failed step the two are in sync. */
  lemma OnlyFailedAgain(source: Store, target: Store, cats: set<Category>, prune: bool, fates: Id -> Fate,
                        write: Option<ListWrite>)
    requires WellFormed(source) && WellFormed(target)
    ensures var run := Sync(source, target, cats, prune, fates, write);
      && (forall o :: o in Steps(source, run.store, cats, prune) ==> FailedStep(run, o))
      && (Count(run.ok, false) == 0 ==> InSync(source, run.store, cats, prune))
      && (InSync(source, run.store, cats, prune) <==> run.did == IdsOf(run.steps))
  {
    var run := Sync(source, target, cats, prune, fates, write);
    SyncReports(source, target, cats, prune, fates, write);
    StepsOrdered(source, target, cats, prune);
    PlanAgain(source, target, cats, prune, fates, write);
    LeftFailed(run, fates, write);
    InSyncExact(source, run.store, cats, prune);
  }

  lemma AllDone(steps: seq<Op>, ok: seq<bool>, did: set<Id>)
    requires |steps| == |ok| && did <= IdsOf(steps)
    requires forall k :: 0 <= k < |ok| ==> ok[k] && steps[k].id in did
    ensures did == IdsOf(steps)
  {}

  lemma LeftNone(ops: seq<Op>, d: set<Id>)
    requires InOrder(ops) && d <= IdsOf(ops)
    ensures Left(ops, d) == [] <==> d == IdsOf(ops)
  {
    LeftExact(ops, d);
    if Left(ops, d) == [] {
      forall id | id in IdsOf(ops) ensures id in d {
        var o := InIds(ops, id);
        assert o !in Left(ops, d);
      }
    } else {
      assert Left(ops, d)[0] in Left(ops, d);
    }
  }

  // ---- Whether a sync can empty a category ----

  /** A sync that was not refused and had no failed step leaves no category empty that had entries. */
  lemma NeverEmptied(source: Store, target: Store, cats: set<Category>, prune: bool, fates: Id -> Fate,
                     write: Option<ListWrite>, c: Category)
    requires WellFormed(source) && WellFormed(target)
    requires Listed(target, c) != {} && !(prune && Wipes(source, target, cats))
    requires Count(Sync(source, target, cats, prune, fates, write).ok, false) == 0
    ensures Listed(Sync(source, target, cats, prune, fates, write).store, c) != {}
  {
    SyncConverges(source, target, cats, prune, fates, write);
    WipesExact(source, target, cats);
    var after := Sync(source, target, cats, prune, fates, write).store;
    var id :| id in Listed(if prune && c in cats then source else target, c);
    ListedIffGet(source, c, id);
    ListedIffGet(target, c, id);
    ListedIffGet(after, c, id);
  }

  ghost predicate Empties(source: Store, target: Store, cats: set<Category>, prune: bool, c: Category,
                          fates: Id -> Fate, write: Option<ListWrite>)
  {
    Listed(Sync(source, target, cats, prune, fates, write).store, c) == {}
  }

  /** Nothing of the category is on both sides. */
  ghost predicate Apart(source: Store, target: Store, c: Category) {
    Listed(source, c) !! Listed(target, c)
  }

  /** A sync that was not refused can leave a category empty, when adding its entries fails and deleting them does
      not, if and only if it prunes, the category is not the one written as a whole, and no entry of it is on both
      sides. */
  lemma CanEmptyExactly(source: Store, target: Store, cats: set<Category>, prune: bool, c: Category)
    requires WellFormed(source) && WellFormed(target)
    requires c in cats && Listed(target, c) != {} && !(prune && Wipes(source, target, cats))
    ensures (exists fates, write :: Empties(source, target, cats, prune, c, fates, write)) <==>
      prune && c != Cname && Apart(source, target, c)
  {
    if prune && c != Cname && Apart(source, target, c) {
      var fates := AddsFail(source, target, cats, c);
      assert Empties(source, target, cats, prune, c, fates, None);
    }
    if fates, write :| Empties(source, target, cats, prune, c, fates, write) {
      EmptiedOnlyIf(source, target, cats, prune, fates, write, c);
    }
  }

  /** What the report tells of an entry that has a step. */
  lemma StepTold(run: Run, fates: Id -> Fate, write: Option<ListWrite>, id: Id)
    requires Truthful(run, fates, write) && id in IdsOf(run.steps)
    ensures id in run.did <==> Carries(id, fates, write)
  {
    var o := InIds(run.steps, id);
    var k :| 0 <= k < |run.steps| && run.steps[k] == o;
    assert ToldTruly(run, k, fates, write);
  }

  /** What became of one entry, in a run that did d and left after. */
  ghost predicate Became(source: Store, target: Store, cats: set<Category>, prune: bool, fates: Id -> Fate,
                         after: Store, d: set<Id>, id: Id)
  {
    var goal := Goal(source, target, cats, prune);
    && Get(after, id) == (if id in d then goal(id) else Get(target, id))
    && (!id.CnameId? && goal(id) != Get(target, id) ==> (id in d <==> Processed(fates(id))))
  }

  lemma AfterSync(source: Store, target: Store, cats: set<Category>, prune: bool, fates: Id -> Fate,
                  write: Option<ListWrite>, id: Id)
    requires WellFormed(source) && WellFormed(target)
    ensures var run := Sync(source, target, cats, prune, fates, write);
      Became(source, target, cats, prune, fates, run.store, run.did, id)
  {
    SyncReports(source, target, cats, prune, fates, write);
    if !id.CnameId? && Goal(source, target, cats, prune)(id) != Get(target, id) {
      NoStepAsWanted(source, target, cats, prune, id);
      StepTold(Sync(source, target, cats, prune, fates, write), fates, write, id);
    }
  }

  lemma AddFails(source: Store, target: Store, cats: set<Category>, c: Category, fates: Id -> Fate, after: Store,
                 d: set<Id>, id: Id)
    requires c in cats && c != Cname && Apart(source, target, c)
    requires fates(id) == if Get(source, id).Some? then NoSuccess(false) else Succeeded
    requires Became(source, target, cats, true, fates, after, d, id)
    ensures id !in Listed(after, c)
  {
    ListedIffGet(source, c, id);
    ListedIffGet(target, c, id);
    ListedIffGet(after, c, id);
  }

  lemma AddsFail(source: Store, target: Store, cats: set<Category>, c: Category) returns (fates: Id -> Fate)
    requires WellFormed(source) && WellFormed(target) && c in cats && c != Cname && Apart(source, target, c)
    ensures Empties(source, target, cats, true, c, fates, None)
  {
    fates := id => if Get(source, id).Some? then NoSuccess(false) else Succeeded;
    var run := Sync(source, target, cats, true, fates, None);
    forall id ensures id !in Listed(run.store, c) {
      AfterSync(source, target, cats, true, fates, None, id);
      AddFails(source, target, cats, c, fates, run.store, run.did, id);
    }
  }

  /** An emptied category: each of its entries was removed, and none of the source's was there. */
  lemma EmptiedEntry(source: Store, target: Store, cats: set<Category>, prune: bool, fates: Id -> Fate, after: Store,
                     d: set<Id>, c: Category, id: Id)
    requires c in cats && CategoryOf(id) == c && Listed(after, c) == {}
    requires Became(source, target, cats, prune, fates, after, d, id)
    ensures if id in d then Get(source, id).None? && (prune || Get(target, id).None?) else Get(target, id).None?
  {
    ListedIffGet(after, c, id);
  }

  lemma EmptiedMissing(source: Store, target: Store, cats: set<Category>, prune: bool, fates: Id -> Fate,
                       after: Store, d: set<Id>, c: Category, id: Id)
    requires c in cats && Listed(after, c) == {} && id in Listed(source, c)
    requires Became(source, target, cats, prune, fates, after, d, id)
    ensures CategoryOf(id) == c && id !in d && Goal(source, target, cats, prune)(id) != Get(target, id)
  {
    ListedIffGet(source, c, id);
    EmptiedEntry(source, target, cats, prune, fates, after, d, c, id);
  }

  /** The CNAME records are written all at once: when one changed, all that were to change have. */
  lemma CnamesAllDone(source: Store, target: Store, cats: set<Category>, prune: bool, fates: Id -> Fate,
                      write: Option<ListWrite>, t: Id, s: Id)
    requires WellFormed(source) && WellFormed(target) && t.CnameId? && s.CnameId?
    ensures var run := Sync(source, target, cats, prune, fates, write);
      t in run.did && Goal(source, target, cats, prune)(s) != Get(target, s) ==> s in run.did
  {
    var run := Sync(source, target, cats, prune, fates, write);
    SyncReports(source, target, cats, prune, fates, write);
    NoStepAsWanted(source, target, cats, prune, s);
    if t in run.did && s in IdsOf(run.steps) {
      StepTold(run, fates, write, t);
      StepTold(run, fates, write, s);
    }
  }

  lemma StayClash(source: Store, target: Store, cats: set<Category>, prune: bool, fates: Id -> Fate, after: Store,
                  d: set<Id>, t: Id, s: Id)
    requires Cname in cats && s in Listed(source, Cname) && Listed(after, Cname) == {}
    requires Became(source, target, cats, prune, fates, after, d, s)
    requires t in d && Goal(source, target, cats, prune)(s) != Get(target, s) ==> s in d
    ensures t !in d
  {
    EmptiedMissing(source, target, cats, prune, fates, after, d, Cname, s);
  }

  lemma CnamesNotDone(source: Store, target: Store, cats: set<Category>, prune: bool, fates: Id -> Fate,
                      write: Option<ListWrite>, t: Id, s: Id)
    requires WellFormed(source) && WellFormed(target) && Cname in cats && t.CnameId? && s.CnameId?
    requires s in Listed(source, Cname)
    requires Empties(source, target, cats, prune, Cname, fates, write)
    ensures t !in Sync(source, target, cats, prune, fates, write).did
  {
    AfterSync(source, target, cats, prune, fates, write, s);
    CnamesAllDone(source, target, cats, prune, fates, write, t, s);
    var run := Sync(source, target, cats, prune, fates, write);
    StayClash(source, target, cats, prune, fates, run.store, run.did, t, s);
  }

  lemma EmptiedTaken(source: Store, target: Store, cats: set<Category>, prune: bool, fates: Id -> Fate,
                     write: Option<ListWrite>, c: Category, t: Id)
    requires WellFormed(source) && WellFormed(target) && c in cats && t in Listed(target, c)
    ensures Empties(source, target, cats, prune, c, fates, write) ==>
      t in Sync(source, target, cats, prune, fates, write).did && CategoryOf(t) == c && prune && t !in Listed(source, c)
  {
    if Empties(source, target, cats, prune, c, fates, write) {
      var run := Sync(source, target, cats, prune, fates, write);
      ListedIffGet(target, c, t);
      ListedIffGet(source, c, t);
      AfterSync(source, target, cats, prune, fates, write, t);
      EmptiedEntry(source, target, cats, prune, fates, run.store, run.did, c, t);
    }
  }

  lemma EmptiedApart(source: Store, target: Store, cats: set<Category>, prune: bool, fates: Id -> Fate,
                     write: Option<ListWrite>, c: Category)
    requires WellFormed(source) && WellFormed(target) && c in cats && Listed(target, c) != {}
    ensures Empties(source, target, cats, prune, c, fates, write) ==> prune && Apart(source, target, c)
  {
    forall t | t in Listed(target, c)
      ensures Empties(source, target, cats, prune, c, fates, write) ==> prune && t !in Listed(source, c)
    {
      EmptiedTaken(source, target, cats, prune, fates, write, c, t);
    }
  }

  lemma CnamesNotEmptied(source: Store, target: Store, cats: set<Category>, prune: bool, fates: Id -> Fate,
                         write: Option<ListWrite>)
    requires WellFormed(source) && WellFormed(target) && Cname in cats
    requires Listed(target, Cname) != {} && !(prune && Wipes(source, target, cats))
    ensures !Empties(source, target, cats, prune, Cname, fates, write)
  {
    var t :| t in Listed(target, Cname);
    var s := SourceHas(source, target, cats, Cname);
    EmptiedTaken(source, target, cats, prune, fates, write, Cname, t);
    ListedIffGet(target, Cname, t);
    ListedIffGet(source, Cname, s);
    if prune && Empties(source, target, cats, prune, Cname, fates, write) {
      CnamesNotDone(source, target, cats, prune, fates, write, t, s);
    }
  }

  lemma EmptiedOnlyIf(source: Store, target: Store, cats: set<Category>, prune: bool, fates: Id -> Fate,
                      write: Option<ListWrite>, c: Category)
    requires WellFormed(source) && WellFormed(target)
    requires c in cats && Listed(target, c) != {} && !(prune && Wipes(source, target, cats))
    ensures Empties(source, target, cats, prune, c, fates, write) ==> prune && c != Cname && Apart(source, target, c)
  {
    EmptiedApart(source, target, cats, prune, fates, write, c);
    if c == Cname { CnamesNotEmptied(source, target, cats, prune, fates, write); }
  }

  lemma SourceHas(source: Store, target: Store, cats: set<Category>, c: Category) returns (s: Id)
    requires c in cats && Listed(target, c) != {}
    ensures !Wipes(source, target, cats) ==> s in Listed(source, c)
  {
    WipesExact(source, target, cats);
    if Wipes(source, target, cats) { s := CnameId(""); } else { s :| s in Listed(source, c); }
  }

  // ---- The CNAME records after a pruning sync ----

  /** The records a pruning sync writes. */
  ghost function PrunedList(source: Store, target: Store, cats: set<Category>): seq<string> {
    C.Rewrite(target.cnames, ChangesOf(CnamesOf(Steps(source, target, cats, true))))
  }

  lemma CnameIds(ops: seq<Op>, x: string)
    ensures CnameId(x) in IdsOf(CnamesOf(ops)) <==> CnameId(x) in IdsOf(ops)
  {}

  lemma CnameGoal(source: Store, target: Store, cats: set<Category>, x: string)
    requires Cname in cats
    ensures Goal(source, target, cats, true)(CnameId(x)).Some? <==> x in source.cnames
    ensures Get(target, CnameId(x)).Some? <==> x in target.cnames
  {}

  lemma PrunedCname(source: Store, target: Store, cats: set<Category>, x: string)
    requires WellFormed(source) && WellFormed(target) && Cname in cats
    ensures x in PrunedList(source, target, cats) <==> x in source.cnames
  {
    var ops, want := Steps(source, target, cats, true), Goal(source, target, cats, true);
    CnamesAim(source, target, cats, true);
    RewriteAims(target.cnames, CnamesOf(ops), x, want);
    CnameIds(ops, x);
    NoStepAsWanted(source, target, cats, true, CnameId(x));
    CnameGoal(source, target, cats, x);
  }

  /** The list a pruning sync writes has the source's records, each once. */
  lemma PrunedCnames(source: Store, target: Store, cats: set<Category>)
    requires WellFormed(source) && WellFormed(target) && Cname in cats
    ensures C.Elements(PrunedList(source, target, cats)) == C.Elements(source.cnames)
    ensures Ordering.NoRepeats(PrunedList(source, target, cats))
  {
    forall x ensures x in PrunedList(source, target, cats) <==> x in source.cnames {
      PrunedCname(source, target, cats, x);
    }
    C.RewriteElements(target.cnames, ChangesOf(CnamesOf(Steps(source, target, cats, true))));
  }

  /** No two of the records answer for one alias. */
  ghost predicate AliasesApart(records: seq<string>, aliases: string -> set<string>) {
    forall a, b :: a in records && b in records && a != b ==> aliases(a) * aliases(b) == {}
  }

  /** So it repeats no alias that the source does not repeat. */
  lemma NoAliasRepeated(source: Store, target: Store, cats: set<Category>, aliases: string -> set<string>)
    requires WellFormed(source) && WellFormed(target) && Cname in cats
    ensures AliasesApart(source.cnames, aliases) ==>
      AliasesApart(PrunedList(source, target, cats), aliases) && Ordering.NoRepeats(PrunedList(source, target, cats))
  {
    PrunedCnames(source, target, cats);
    forall a ensures a in PrunedList(source, target, cats) <==> a in source.cnames {
      PrunedCname(source, target, cats, a);
    }
  }
}
