/** A sync whose writes are calls of Client.Do: what the request engine makes of each decides what the sync does with
    it, says of it, and says of the restart that a change of the CNAME records brings about. */
module SyncRequests {
  import opened Entries
  import opened Wrappers
  import opened SyncPlan
  import opened SyncSteps
  import opened SyncSpec
  import opened SyncRuns
  import opened SyncTheorems
  import Q = Requests
  import E = RequestErrors
  import B = Backoff

  /** One call: whether its context was live when it began, and what the network makes of its attempts. */
  datatype Call = Call(live: bool, net: nat -> Q.Attempt)

  ghost predicate PossibleCall(c: Call) {
    Q.PossibleNet(c.net, c.live)
  }

  /** The client's retry settings. */
  datatype Policy = Policy(maxRetries: nat, maxDelay: B.Duration) {
    predicate Valid() {
      maxDelay > 0
    }
  }

  /** The run of a call that is not a read, which all writes of a sync are. */
  function RunOf(p: Policy, c: Call): Q.Run
    requires p.Valid()
  {
    Q.RunFrom(0, p.maxRetries, p.maxDelay, false, c.net)
  }

  /** What the call comes to for the sync. */
  function FateOf(r: Q.Run): Fate {
    if r.error.None? then Succeeded else NoSuccess(Q.CountProcessed(r.exchanges) > 0)
  }

  /** The PATCH of the CNAME records: its fate, and whether Do returns an UncertainError. back, asked and backAgain
      are what comes of the restart. */
  function ListWriteOf(r: Q.Run, live: bool, back: bool, asked: bool, backAgain: bool): ListWrite {
    ListWrite(FateOf(r), Q.OutcomeOf(E.PATCH, live, r.error).Uncertain?, back, asked, backAgain)
  }

  /** The last reply came after the change was made and is an error, or was lost to an error not recognised. */
  ghost predicate DoneUntold(r: Q.Run) {
    exists x :: Q.EndsWith(r, x) && Q.Processed(x) && r.error.Some? &&
      (x.Replied? || (x.ReplyLost? && !Q.Recognised(x.error)))
  }

  /** A call of which the caller gets no success and no mark of uncertainty made its change exactly in these cases. */
  lemma UntoldExactly(p: Policy, c: Call)
    requires p.Valid() && PossibleCall(c)
    ensures var r := RunOf(p, c);
      DoneUntold(r) <==>
        Q.CountProcessed(r.exchanges) > 0 && r.error.Some? && !Q.OutcomeOf(E.PATCH, c.live, r.error).Uncertain?
  {
    var r := RunOf(p, c);
    Q.AtMostOnce(E.PATCH, c.live, p.maxRetries, p.maxDelay, c.net);
    if x :| Q.EndsWith(r, x) && Q.Processed(x) {
      assert x in r.exchanges;
      SomeProcessed(r.exchanges, x);
      if x.Replied? { RepliedNotUncertain(r, x); }
    }
  }

  lemma {:induction false} SomeProcessed(xs: seq<Q.Exchange>, x: Q.Exchange)
    requires x in xs && Q.Processed(x)
    ensures Q.CountProcessed(xs) > 0
  {
    if xs[0] != x { SomeProcessed(xs[1..], x); }
  }

  lemma RepliedNotUncertain(r: Q.Run, x: Q.Exchange)
    requires Q.EndsWith(r, x) && x.Replied?
    ensures Q.OutcomeOf(E.PATCH, true, r.error) == Q.OutcomeOf(E.PATCH, false, r.error)
    ensures !Q.OutcomeOf(E.PATCH, true, r.error).Uncertain?
  {}

  // ---- The report of a sync, from its requests ----

  /** The sync whose single writes are these calls, and whose CNAME write is list, unless it gets none. */
  ghost function SyncOf(source: Store, target: Store, cats: set<Category>, prune: bool, p: Policy,
                        calls: Id -> Call, list: Option<ListWrite>): Run
    requires p.Valid()
  {
    Sync(source, target, cats, prune, id => FateOf(RunOf(p, calls(id))), list)
  }

  /** Step k is reported as applied exactly when its call of Do returned no error, and done exactly when the Pi-hole
      carried out one of its requests; none is carried out twice. */
  ghost predicate ToldByDo(run: Run, k: nat, r: Q.Run)
    requires k < |run.steps| == |run.ok|
  {
    && (run.ok[k] <==> r.error.None?)
    && (run.steps[k].id in run.did <==> r.error.None? || Q.CountProcessed(r.exchanges) > 0)
    && Q.CountProcessed(r.exchanges) <= 1
  }

  lemma ReportsWhatDoReturned(source: Store, target: Store, cats: set<Category>, prune: bool, p: Policy,
                              calls: Id -> Call, patch: Call, back: bool, asked: bool, backAgain: bool)
    requires WellFormed(source) && WellFormed(target) && p.Valid()
    requires PossibleCall(patch) && forall id :: PossibleCall(calls(id))
    ensures var list := RunOf(p, patch);
      var run := SyncOf(source, target, cats, prune, p, calls,
                        Some(ListWriteOf(list, patch.live, back, asked, backAgain)));
      && run.steps == Steps(source, target, cats, prune) && |run.ok| == |run.steps|
      && forall k :: 0 <= k < |run.steps| ==>
           ToldByDo(run, k, if run.steps[k].id.CnameId? then list else RunOf(p, calls(run.steps[k].id)))
  {
    var list := RunOf(p, patch);
    var write := Some(ListWriteOf(list, patch.live, back, asked, backAgain));
    var fates := id => FateOf(RunOf(p, calls(id)));
    SyncReports(source, target, cats, prune, fates, write);
    var run := Sync(source, target, cats, prune, fates, write);
    forall k | 0 <= k < |run.steps|
      ensures ToldByDo(run, k, if run.steps[k].id.CnameId? then list else RunOf(p, calls(run.steps[k].id)))
    {
      var c := if run.steps[k].id.CnameId? then patch else calls(run.steps[k].id);
      assert ToldTruly(run, k, fates, write);
      Q.AtMostOnce(E.PATCH, c.live, p.maxRetries, p.maxDelay, c.net);
    }
  }

  // ---- When a restart goes unmentioned ----

  /** When a sync changed the CNAME records, it says nothing of FTL's restart exactly if the change was made and the
      client got an error for it that it does not mark as uncertain. */
  lemma SilentExactly(source: Store, target: Store, cats: set<Category>, prune: bool, p: Policy, fates: Id -> Fate,
                      patch: Call, back: bool, asked: bool, backAgain: bool)
    requires WellFormed(source) && WellFormed(target) && p.Valid() && PossibleCall(patch)
    ensures var r := RunOf(p, patch);
      var run := Sync(source, target, cats, prune, fates, Some(ListWriteOf(r, patch.live, back, asked, backAgain)));
      run.store.cnames != target.cnames ==> (run.restart.NotMentioned? <==> DoneUntold(r))
  {
    var write := Some(ListWriteOf(RunOf(p, patch), patch.live, back, asked, backAgain));
    RestartTold(source, target, cats, prune, fates, write);
    UntoldExactly(p, patch);
  }

  /** A record of the source that is not on the target is there once the write was carried out. */
  lemma RecordArrives(source: Store, target: Store, cats: set<Category>, prune: bool, fates: Id -> Fate,
                      write: Option<ListWrite>, record: string)
    requires WellFormed(source) && WellFormed(target) && Cname in cats && CarriedOut(write)
    requires record in source.cnames && record !in target.cnames
    ensures record in Sync(source, target, cats, prune, fates, write).store.cnames
  {
    var id := CnameId(record);
    var run := Sync(source, target, cats, prune, fates, write);
    assert Goal(source, target, cats, prune)(id) != Get(target, id);
    SyncReports(source, target, cats, prune, fates, write);
    NoStepAsWanted(source, target, cats, prune, id);
    StepTold(run, fates, write, id);
    assert Get(run.store, id) == Goal(source, target, cats, prune)(id);
  }

  lemma OneExchange(p: Policy, patch: Call, x: Q.Exchange)
    requires p.Valid() && patch.live
    requires x == Q.ReplyLost(E.Net(E.OtherNet), true) || x == Q.Replied(500, false, false, 0, true, true)
    requires forall i :: patch.net(i) == Q.Attempt(None, x, None, Q.NotSent(E.Other), 0, true)
    ensures PossibleCall(patch) && FateOf(RunOf(p, patch)) == NoSuccess(true) && DoneUntold(RunOf(p, patch))
  {
    assert Q.Once(patch.net(0)) == ([x], Q.DoRequest(x));
    assert RunOf(p, patch) == Q.Run([x], Q.DoRequest(x), 0);
    Q.CountShort(x, x);
    assert Q.EndsWith(RunOf(p, patch), x);
  }

  /** It does happen, in both ways: a first record is added, and the reply is an error sent after the change, or is
      lost to an error that is not recognised. */
  lemma RestartUnmentioned(p: Policy, fates: Id -> Fate, patch: Call, x: Q.Exchange,
                           back: bool, asked: bool, backAgain: bool)
    requires p.Valid() && patch.live
    requires x == Q.ReplyLost(E.Net(E.OtherNet), true) || x == Q.Replied(500, false, false, 0, true, true)
    requires forall i :: patch.net(i) == Q.Attempt(None, x, None, Q.NotSent(E.Other), 0, true)
    ensures PossibleCall(patch)
    ensures var source, target := Store(map[], [], ["a,b"]), Store(map[], [], []);
      var write := Some(ListWriteOf(RunOf(p, patch), true, back, asked, backAgain));
      var run := Sync(source, target, {Cname}, false, fates, write);
      run.store.cnames != target.cnames && run.restart.NotMentioned?
  {
    var source, target := Store(map[], [], ["a,b"]), Store(map[], [], []);
    var write := Some(ListWriteOf(RunOf(p, patch), true, back, asked, backAgain));
    OneExchange(p, patch, x);
    RecordArrives(source, target, {Cname}, false, fates, write, "a,b");
    SilentExactly(source, target, {Cname}, false, p, fates, patch, back, asked, backAgain);
  }
}
