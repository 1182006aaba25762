/** The code that applies a plan, and the report it makes. */
module SyncApply {
  import opened Entries
  import opened Wrappers
  import opened SyncPlan
  import opened SyncSteps
  import opened SyncSpec
  import opened SyncTheorems
  import C = CnameRewrite
  import Text

  datatype OpResult = OpResult(category: Category, action: Action, item: string, ok: bool)

  /** One result for each step, in their order. */
  ghost predicate Itemised(ops: seq<OpResult>, steps: seq<Op>, ok: seq<bool>)
    requires |steps| == |ok|
  {
    |ops| == |steps| && forall i :: 0 <= i < |ops| ==>
      ops[i] == OpResult(CategoryOf(steps[i].id), steps[i].action, Label(steps[i].id), ok[i])
  }

  /** The Pi-hole being written to. */
  class PiHole {
    var store: Store

    constructor (s: Store)
      ensures store == s
    {
      store := s;
    }

    /** One write, whatever becomes of it. */
    method Send(o: Op, f: Fate) returns (ok: bool)
      modifies this
      ensures store == Single(old(store), o, f).store && ok == Single(old(store), o, f).ok
    {
      ok := false;
      if Processed(f) {
        var (after, accepted) := Serve(store, WriteOf(o));
        if accepted {
          store := after;
          ok := f.Succeeded?;
        }
      }
    }
  }

  class ApplyResult {
    var applied: nat
    var failed: nat
    var ops: seq<OpResult>
    var restarted: bool
    var restartFailed: bool

    /** The report tells these steps with these outcomes, and counts them. */
    ghost predicate Tells(steps: seq<Op>, ok: seq<bool>)
      requires |steps| == |ok|
      reads this
    {
      Itemised(ops, steps, ok) && applied == Count(ok, true) && failed == Count(ok, false)
    }

    /** What it says of a restart. */
    ghost predicate Says(r: RestartReport)
      reads this
    {
      restarted == r.Restarted? && restartFailed == r.RestartFailed?
    }

    /** The report tells all of a run. */
    ghost predicate Reports(r: Run)
      reads this
    {
      |r.steps| == |r.ok| && Tells(r.steps, r.ok) && Says(r.restart)
    }

    constructor ()
      ensures Tells([], []) && Says(NotMentioned)
    {
      applied, failed, ops := 0, 0, [];
      restarted, restartFailed := false, false;
    }

    /** recordRestart. */
    method RecordRestart(back: bool)
      requires Says(NotMentioned)
      modifies `restarted, `restartFailed
      ensures Says(if back then Restarted else RestartFailed)
    {
      if back { restarted := true; } else { restartFailed := true; }
    }

    /** restartAfterSync. */
    method RestartAfterSync(asked: bool, back: bool)
      requires Says(NotMentioned)
      modifies `restarted, `restartFailed
      ensures Says(if asked && back then Restarted else RestartFailed)
    {
      if !asked {
        restartFailed := true;
        return;
      }
      RecordRestart(back);
    }

    method Add(o: Op, ok: bool, ghost steps: seq<Op>, ghost oks: seq<bool>)
      requires |steps| == |oks| && Tells(steps, oks)
      modifies `applied, `failed, `ops
      ensures Tells(steps + [o], oks + [ok])
    {
      if ok { applied := applied + 1; } else { failed := failed + 1; }
      ops := ops + [OpResult(CategoryOf(o.id), o.action, Label(o.id), ok)];
      assert (oks + [ok])[..|oks|] == oks;
    }

    /** The closure record of applyCNAMEs: one result for each CNAME step, all alike. */
    method Record(batch: seq<Op>, ok: bool, ghost steps: seq<Op>, ghost oks: seq<bool>)
      requires |steps| == |oks| && Tells(steps, oks)
      modifies `applied, `failed, `ops
      ensures Tells(steps + batch, oks + Repeat(ok, |batch|))
    {
      assert steps + batch[..0] == steps && oks + Repeat(ok, 0) == oks;
      for i := 0 to |batch|
        invariant Tells(steps + batch[..i], oks + Repeat(ok, i))
      {
        Add(batch[i], ok, steps + batch[..i], oks + Repeat(ok, i));
        assert steps + batch[..i] + [batch[i]] == steps + batch[..i + 1];
        assert oks + Repeat(ok, i) + [ok] == oks + Repeat(ok, i + 1);
      }
      assert batch[..|batch|] == batch;
    }

    /** applyCNAMEs: every CNAME change in one write, one result for each, and what comes of FTL's restart. */
    method ApplyCnames(target: PiHole, batch: seq<Op>, write: Option<ListWrite>, ghost steps: seq<Op>,
                       ghost oks: seq<bool>)
      requires |steps| == |oks| && Tells(steps, oks) && Says(NotMentioned)
      modifies this, target
      ensures var b := BatchRun(old(target.store), batch, write);
        target.store == b.store && Tells(steps + batch, oks + b.ok) && Says(b.restart)
    {
      if write.None? {
        Record(batch, false, steps, oks);
        return;
      }
      var changes := Changes(batch);
      var next, send := C.BuildNext(target.store.cnames, changes);
      if !send {
        Record(batch, true, steps, oks);
        return;
      }
      var w := write.value;
      if Processed(w.fate) { target.store := target.store.(cnames := next); }
      Record(batch, w.fate.Succeeded?, steps, oks);
      if w.fate.Succeeded? {
        RecordRestart(w.back);
      } else if w.uncertain {
        if w.back { RecordRestart(true); } else { RestartAfterSync(w.asked, w.backAgain); }
      }
    }
  }

  method Changes(batch: seq<Op>) returns (changes: seq<C.Change>)
    ensures changes == ChangesOf(batch)
  {
    changes := [];
    for i := 0 to |batch|
      invariant changes + ChangesOf(batch[i..]) == ChangesOf(batch)
    {
      assert batch[i..] == [batch[i]] + batch[i + 1..];
      ghost var rest := ChangesOf(batch[i + 1..]);
      match batch[i].action {
        case AddEntry =>
          Text.Regroup(changes, [C.Add(Label(batch[i].id))], rest);
          changes := changes + [C.Add(Label(batch[i].id))];
        case DeleteEntry =>
          Text.Regroup(changes, [C.Remove(Label(batch[i].id))], rest);
          changes := changes + [C.Remove(Label(batch[i].id))];
        case UpdateEntry =>
          assert [] + rest == rest;
      }
    }
    assert batch[|batch|..] == [];
  }

  method CollectCnames(ops: seq<Op>) returns (cnames: seq<Op>)
    ensures cnames == CnamesOf(ops)
  {
    cnames := [];
    for i := 0 to |ops|
      invariant cnames + CnamesOf(ops[i..]) == CnamesOf(ops)
    {
      assert ops[i..] == [ops[i]] + ops[i + 1..];
      if IsCname(ops[i]) { cnames := cnames + [ops[i]]; }
    }
    assert ops[|ops|..] == [];
  }

  method ApplyStep(res: ApplyResult, target: PiHole, ops: seq<Op>, i: nat, cnames: seq<Op>, fates: Id -> Fate,
                   write: Option<ListWrite>, cnamesDone: bool, ghost sofar: Run)
    returns (cnamesDone': bool, ghost sofar': Run)
    requires i < |ops| && res.Reports(sofar) && (!cnamesDone ==> sofar.restart.NotMentioned?)
    modifies res, target
    ensures res.Reports(sofar') && (!cnamesDone' ==> sofar'.restart.NotMentioned?)
    ensures Extend(sofar, Loop(old(target.store), ops[i..], cnames, fates, write, cnamesDone)) ==
      Extend(sofar', Loop(target.store, ops[i + 1..], cnames, fates, write, cnamesDone'))
  {
    ghost var s := target.store;
    cnamesDone', sofar' := cnamesDone, sofar;
    assert ops[i..][1..] == ops[i + 1..];
    if IsCname(ops[i]) {
      if !cnamesDone {
        cnamesDone' := true;
        res.ApplyCnames(target, cnames, write, sofar.steps, sofar.ok);
        sofar' := Extend(sofar, BatchRun(s, cnames, write));
        ExtendExtend(sofar, BatchRun(s, cnames, write), Loop(target.store, ops[i + 1..], cnames, fates, write, true));
      }
    } else {
      var ok := target.Send(ops[i], fates(ops[i].id));
      res.Add(ops[i], ok, sofar.steps, sofar.ok);
      sofar' := Extend(sofar, SingleRun(s, ops[i], fates(ops[i].id)));
      ExtendExtend(sofar, SingleRun(s, ops[i], fates(ops[i].id)),
                   Loop(target.store, ops[i + 1..], cnames, fates, write, cnamesDone));
    }
  }

  /** The loop of ApplyPlan. */
  method RunSteps(res: ApplyResult, target: PiHole, ops: seq<Op>, fates: Id -> Fate, write: Option<ListWrite>)
    requires res.Tells([], []) && res.Says(NotMentioned)
    modifies res, target
    ensures var run := Loop(old(target.store), ops, CnamesOf(ops), fates, write, false);
      target.store == run.store && res.Reports(run)
  {
    var cnames := CollectCnames(ops);
    var cnamesDone := false;
    ghost var sofar := NoSteps(target.store);
    ghost var whole := Loop(target.store, ops, cnames, fates, write, false);
    ExtendNoSteps(sofar.store, whole);
    assert ops[0..] == ops;
    for i := 0 to |ops|
      invariant res.Reports(sofar) && (!cnamesDone ==> sofar.restart.NotMentioned?)
      invariant whole == Extend(sofar, Loop(target.store, ops[i..], cnames, fates, write, cnamesDone))
    {
      cnamesDone, sofar := ApplyStep(res, target, ops, i, cnames, fates, write, cnamesDone, sofar);
    }
    assert ops[|ops|..] == [];
    ExtendNoSteps(target.store, sofar);
  }

  /** The diff is that of two Pi-holes that hold this. */
  ghost predicate DiffBetween(source: Store, target: Store, cats: seq<Category>, d: seq<CategoryDiff>) {
    WellFormed(source) && WellFormed(target) && Compared(source, target, cats, d)
  }

  lemma CountIsNumber(ops: seq<OpResult>, ok: seq<bool>)
    requires |ops| == |ok| && forall i :: 0 <= i < |ops| ==> ops[i].ok == ok[i]
    ensures Count(ok, true) == |set i | 0 <= i < |ops| && ops[i].ok|
    ensures Count(ok, false) == |set i | 0 <= i < |ops| && !ops[i].ok|
  {
    CountExact(ok, true);
    CountExact(ok, false);
    assert (set i | 0 <= i < |ok| && ok[i] == true) == set i | 0 <= i < |ops| && ops[i].ok;
    assert (set i | 0 <= i < |ok| && ok[i] == false) == set i | 0 <= i < |ops| && !ops[i].ok;
  }

  /** What the report of a run says of each step, and of the restart. */
  lemma ReportTells(source: Store, target: Store, cats: seq<Category>, d: seq<CategoryDiff>, prune: bool,
                    fates: Id -> Fate, write: Option<ListWrite>, ops: seq<OpResult>, run: Run)
    requires DiffBetween(source, target, cats, d)
    requires var steps := PlanOf(ByCat(d), prune);
      run == Loop(target, steps, CnamesOf(steps), fates, write, false)
    requires |run.steps| == |run.ok| && Itemised(ops, run.steps, run.ok)
    ensures var steps := Steps(source, target, CategorySet(cats), prune);
      |ops| == |steps| && forall i :: 0 <= i < |ops| ==>
        && ops[i].category == CategoryOf(steps[i].id)
        && ops[i].action == steps[i].action
        && ops[i].item == Label(steps[i].id)
        && (ops[i].ok <==> Succeeds(steps[i].id, fates, write))
    ensures run.restart.Restarted? <==>
      SendsList(source, target, CategorySet(cats), prune, write) && var w := write.value;
      if w.fate.Succeeded? then w.back else w.uncertain && (w.back || (w.asked && w.backAgain))
    ensures run.restart.RestartFailed? <==>
      SendsList(source, target, CategorySet(cats), prune, write) && var w := write.value;
      if w.fate.Succeeded? then !w.back else w.uncertain && !w.back && (w.asked ==> !w.backAgain)
  {
    PlanIsSteps(source, target, cats, d, prune);
    SyncReports(source, target, CategorySet(cats), prune, fates, write);
    RestartTold(source, target, CategorySet(cats), prune, fates, write);
    forall i | 0 <= i < |ops| ensures ops[i].ok <==> Succeeds(run.steps[i].id, fates, write) {
      assert ToldTruly(run, i, fates, write);
    }
  }

  /** ApplyPlan. source and cats are those the diff was made of, if it was. */
  method ApplyPlan(target: PiHole, d: seq<CategoryDiff>, prune: bool, fates: Id -> Fate, write: Option<ListWrite>,
                   ghost source: Store, ghost cats: seq<Category>)
    returns (res: ApplyResult)
    requires forall cd :: cd in d ==> Consistent(cd)
    modifies target
    ensures fresh(res)
    ensures var ops := PlanOf(ByCat(d), prune);
      var run := Loop(old(target.store), ops, CnamesOf(ops), fates, write, false);
      target.store == run.store && res.Reports(run)
    ensures DiffBetween(source, old(target.store), cats, d) ==>
      var steps := Steps(source, old(target.store), CategorySet(cats), prune);
      |res.ops| == |steps| && forall i :: 0 <= i < |res.ops| ==>
        && res.ops[i].category == CategoryOf(steps[i].id)
        && res.ops[i].action == steps[i].action
        && res.ops[i].item == Label(steps[i].id)
        && (res.ops[i].ok <==> Succeeds(steps[i].id, fates, write))
    ensures res.applied == |set i | 0 <= i < |res.ops| && res.ops[i].ok|
    ensures res.failed == |set i | 0 <= i < |res.ops| && !res.ops[i].ok|
    ensures DiffBetween(source, old(target.store), cats, d) ==>
      (res.restarted <==>
        SendsList(source, old(target.store), CategorySet(cats), prune, write) && var w := write.value;
        if w.fate.Succeeded? then w.back else w.uncertain && (w.back || (w.asked && w.backAgain)))
    ensures DiffBetween(source, old(target.store), cats, d) ==>
      (res.restartFailed <==>
        SendsList(source, old(target.store), CategorySet(cats), prune, write) && var w := write.value;
        if w.fate.Succeeded? then !w.back else w.uncertain && !w.back && (w.asked ==> !w.backAgain))
  {
    ghost var before := target.store;
    var ops := Plan(d, prune);
    res := new ApplyResult();
    RunSteps(res, target, ops, fates, write);
    ghost var run := Loop(before, ops, CnamesOf(ops), fates, write, false);
    CountIsNumber(res.ops, run.ok);
    if DiffBetween(source, before, cats, d) {
      ReportTells(source, before, cats, d, prune, fates, write, res.ops, run);
    }
  }
}
