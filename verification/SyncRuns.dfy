/** The steps of a plan as they are run: what each does, and what is told of it. */
module SyncRuns {
  import opened Entries
  import opened Wrappers
  import opened SyncPlan
  import opened SyncSteps
  import opened SyncSpec
  import C = CnameRewrite

  /** What is wanted of each entry. */
  type Want = Id -> Option<Fields>

  /** b is a with the entries of d as wanted, and no other touched. */
  ghost predicate SetsOnly(a: Store, b: Store, want: Want, d: set<Id>) {
    forall id :: Get(b, id) == if id in d then want(id) else Get(a, id)
  }

  /** Every step is for what is wanted of its entry. */
  ghost predicate Aims(ops: seq<Op>, want: Want) {
    forall o :: o in ops ==> AimsAt(o, want)
  }

  ghost predicate AimsAt(o: Op, want: Want) {
    && Wanted(WriteOf(o)) == want(o.id)
    && (o.action.DeleteEntry? || Fits(o.id, o.fields))
    && (IsCname(o) ==> !o.action.UpdateEntry?)
  }

  // ---- Each write does what its steps say ----

  lemma SingleExact(s: Store, o: Op, f: Fate, want: Want)
    requires AimsAt(o, want)
    ensures SetsOnly(s, SingleRun(s, o, f).store, want, SingleRun(s, o, f).did)
  {
    if Single(s, o, f).did {
      forall id ensures Get(SingleRun(s, o, f).store, id) == if id == o.id then want(id) else Get(s, id) {
        ServeExact(s, WriteOf(o), id);
      }
    }
  }

  /** An add never replaces a rule that is stored already, whoever stored it: it is refused, and reported as failed. */
  lemma AddKeepsRule(s: Store, o: Op, f: Fate)
    requires o.action.AddEntry? && o.id.DomainId? && Get(s, o.id).Some?
    ensures SingleRun(s, o, f).store == s && SingleRun(s, o, f).ok == [false]
  {}

  lemma {:induction false} ChangesExact(batch: seq<Op>, x: string, want: Want)
    requires Aims(batch, want) && forall o :: o in batch ==> IsCname(o)
    ensures C.Remove(x) in ChangesOf(batch) <==> CnameId(x) in IdsOf(batch) && want(CnameId(x)).None?
    ensures C.Add(x) in ChangesOf(batch) <==> CnameId(x) in IdsOf(batch) && want(CnameId(x)).Some?
  {
    if batch == [] {
      assert IdsOf(batch) == {};
    } else {
      assert batch == [batch[0]] + batch[1..] && AimsAt(batch[0], want);
      ChangesExact(batch[1..], x, want);
      assert IdsOf(batch) == {batch[0].id} + IdsOf(batch[1..]);
    }
  }

  lemma RewriteAims(records: seq<string>, batch: seq<Op>, x: string, want: Want)
    requires Aims(batch, want) && forall o :: o in batch ==> IsCname(o)
    ensures x in C.Rewrite(records, ChangesOf(batch)) <==>
      if CnameId(x) in IdsOf(batch) then want(CnameId(x)).Some? else x in records
  {
    var changes := ChangesOf(batch);
    C.RewriteElements(records, changes);
    ChangesExact(batch, x, want);
    C.AddedIn(changes, x);
    assert x in C.Rewrite(records, changes) <==> x in C.Elements(C.Rewrite(records, changes));
    assert x in records <==> x in C.Elements(records);
    assert C.Remove(x) in changes ==> C.Remove(x).record in C.Dropped(changes);
  }

  /** The one write of the CNAME records does every CNAME step, or none. */
  lemma BatchExact(s: Store, batch: seq<Op>, write: Option<ListWrite>, want: Want)
    requires Aims(batch, want) && forall o :: o in batch ==> IsCname(o)
    ensures SetsOnly(s, BatchRun(s, batch, write).store, want, BatchRun(s, batch, write).did)
  {
    if Batch(s, batch, write).did {
      forall id
        ensures Get(BatchRun(s, batch, write).store, id) == if id in IdsOf(batch) then want(id) else Get(s, id)
      {
        if id.CnameId? { RewriteAims(s.cnames, batch, id.record, want); }
        if id in IdsOf(batch) {
          var o :| o in batch && o.id == id;
          assert AimsAt(o, want);
        }
      }
    }
  }

  /** Changes that another writer has made already are reported as applied, without a write or a word of a restart. */
  lemma NothingToSend(s: Store, batch: seq<Op>, write: Option<ListWrite>)
    requires write.Some? && !Differs(s.cnames, batch)
    ensures var run := BatchRun(s, batch, write);
      run.store == s && run.restart.NotMentioned? && forall k :: 0 <= k < |run.ok| ==> run.ok[k]
  {}

  lemma {:induction false} LoopExact(s: Store, ops: seq<Op>, batch: seq<Op>, fates: Id -> Fate,
                                     write: Option<ListWrite>, done: bool, want: Want)
    requires Aims(ops, want) && Aims(batch, want) && forall o :: o in batch ==> IsCname(o)
    ensures SetsOnly(s, Loop(s, ops, batch, fates, write, done).store, want,
                     Loop(s, ops, batch, fates, write, done).did)
    decreases |ops|
  {
    if ops != [] {
      assert AimsAt(ops[0], want);
      if !IsCname(ops[0]) {
        SingleExact(s, ops[0], fates(ops[0].id), want);
        LoopExact(SingleRun(s, ops[0], fates(ops[0].id)).store, ops[1..], batch, fates, write, done, want);
      } else if done {
        LoopExact(s, ops[1..], batch, fates, write, true, want);
      } else {
        BatchExact(s, batch, write, want);
        LoopExact(BatchRun(s, batch, write).store, ops[1..], batch, fates, write, true, want);
      }
    }
  }

  // ---- The report follows the plan ----

  lemma {:induction false} FilterMembers(ops: seq<Op>, o: Op)
    ensures o in CnamesOf(ops) <==> o in ops && IsCname(o)
    ensures o in OthersOf(ops) <==> o in ops && !IsCname(o)
  {
    if ops != [] {
      FilterMembers(ops[1..], o);
      assert ops == [ops[0]] + ops[1..];
    }
  }

  lemma {:induction false} NoCnames(ops: seq<Op>)
    requires forall i :: 0 <= i < |ops| ==> !IsCname(ops[i])
    ensures CnamesOf(ops) == [] && OthersOf(ops) == ops
  {
    if ops != [] { NoCnames(ops[1..]); }
  }

  /** Once the first CNAME step is reached the CNAME steps come before all others that are left. */
  lemma {:induction false} CnamesFirst(ops: seq<Op>)
    requires Together(ops) && ops != [] && IsCname(ops[0])
    ensures CnamesOf(ops) + OthersOf(ops[1..]) == ops
  {
    if |ops| > 1 && IsCname(ops[1]) {
      forall i, j, k | 0 <= i <= j <= k < |ops[1..]| && IsCname(ops[1..][i]) && IsCname(ops[1..][k])
        ensures IsCname(ops[1..][j])
      {
        assert ops[1..][j] == ops[j + 1];
      }
      CnamesFirst(ops[1..]);
    } else {
      forall i | 0 <= i < |ops[1..]| ensures !IsCname(ops[1..][i]) {
        assert ops[1..][i] == ops[i + 1];
      }
      NoCnames(ops[1..]);
    }
  }

  lemma {:induction false} LoopSkips(s: Store, ops: seq<Op>, batch: seq<Op>, fates: Id -> Fate,
                                     write: Option<ListWrite>)
    ensures Loop(s, ops, batch, fates, write, true).steps == OthersOf(ops)
    decreases |ops|
  {
    if ops != [] {
      LoopSkips(if IsCname(ops[0]) then s else SingleRun(s, ops[0], fates(ops[0].id)).store, ops[1..], batch, fates,
                write);
    }
  }

  lemma {:induction false} LoopFollows(s: Store, ops: seq<Op>, fates: Id -> Fate, write: Option<ListWrite>)
    requires Together(ops)
    ensures Loop(s, ops, CnamesOf(ops), fates, write, false).steps == ops
    decreases |ops|
  {
    if ops != [] {
      if IsCname(ops[0]) {
        CnamesFirst(ops);
        LoopSkips(BatchRun(s, CnamesOf(ops), write).store, ops[1..], CnamesOf(ops), fates, write);
      } else {
        forall i, j, k | 0 <= i <= j <= k < |ops[1..]| && IsCname(ops[1..][i]) && IsCname(ops[1..][k])
          ensures IsCname(ops[1..][j])
        {
          assert ops[1..][j] == ops[j + 1];
        }
        assert CnamesOf(ops) == CnamesOf(ops[1..]);
        LoopFollows(SingleRun(s, ops[0], fates(ops[0].id)).store, ops[1..], fates, write);
      }
    }
  }

  // ---- What is done and what is reported ----

  lemma {:induction false} LoopWithin(s: Store, ops: seq<Op>, batch: seq<Op>, fates: Id -> Fate,
                                      write: Option<ListWrite>, done: bool)
    ensures var r := Loop(s, ops, batch, fates, write, done);
      && r.did <= IdsOf(OthersOf(ops)) + (if done then {} else IdsOf(batch))
      && forall o :: o in r.steps ==> o in OthersOf(ops) || (!done && o in batch)
    decreases |ops|
  {
    if ops != [] {
      if IsCname(ops[0]) {
        LoopWithin(if done then s else BatchRun(s, batch, write).store, ops[1..], batch, fates, write, true);
      } else {
        LoopWithin(SingleRun(s, ops[0], fates(ops[0].id)).store, ops[1..], batch, fates, write, done);
        assert OthersOf(ops) == [ops[0]] + OthersOf(ops[1..]);
        assert IdsOf(OthersOf(ops)) == {ops[0].id} + IdsOf(OthersOf(ops[1..]));
      }
    }
  }

  /** Without a CNAME step, or a write for it carried out, the CNAME records stay. */
  lemma {:induction false} LoopCnames(s: Store, ops: seq<Op>, batch: seq<Op>, fates: Id -> Fate,
                                      write: Option<ListWrite>, done: bool)
    ensures Loop(s, ops, batch, fates, write, done).store.cnames != s.cnames ==>
      !done && CnamesOf(ops) != [] && CarriedOut(write) && Differs(s.cnames, batch)
    decreases |ops|
  {
    if ops != [] {
      if IsCname(ops[0]) {
        LoopCnames(if done then s else BatchRun(s, batch, write).store, ops[1..], batch, fates, write, true);
      } else {
        SingleKeepsCnames(s, ops[0], fates(ops[0].id));
        LoopCnames(SingleRun(s, ops[0], fates(ops[0].id)).store, ops[1..], batch, fates, write, done);
      }
    }
  }

  /** The Pi-hole would take each of the steps as things stand. */
  ghost predicate Ready(s: Store, ops: seq<Op>) {
    forall o :: o in ops ==> Serve(s, WriteOf(o)).1
  }

  /** How a step of its own turned out. */
  ghost predicate Told(r: Run, k: nat, fates: Id -> Fate)
    requires k < |r.steps| == |r.ok|
  {
    && r.ok[k] == fates(r.steps[k].id).Succeeded?
    && (r.steps[k].id in r.did <==> Processed(fates(r.steps[k].id)))
  }

  /** How the CNAME steps turned out, all alike. */
  ghost predicate ToldTogether(r: Run, k: nat, b: Ran)
    requires k < |r.steps| == |r.ok|
  {
    r.ok[k] == b.ok && (r.steps[k].id in r.did <==> b.did)
  }

  ghost predicate TellsRight(r: Run, fates: Id -> Fate, b: Ran)
    requires |r.steps| == |r.ok|
  {
    forall k :: 0 <= k < |r.steps| ==> if IsCname(r.steps[k]) then ToldTogether(r, k, b) else Told(r, k, fates)
  }

  /** Taking one run after another keeps what each says, when their entries are apart. */
  lemma ExtendTells(a: Run, r: Run, fates: Id -> Fate, b: Ran)
    requires |a.steps| == |a.ok| && |r.steps| == |r.ok|
    requires TellsRight(a, fates, b) && TellsRight(r, fates, b)
    requires forall o :: o in a.steps ==> o.id !in r.did
    requires forall o :: o in r.steps ==> o.id !in a.did
    ensures TellsRight(Extend(a, r), fates, b)
  {}

  lemma ReadyAfter(a: Store, b: Store, want: Want, did: set<Id>, ops: seq<Op>)
    requires Ready(a, ops) && SetsOnly(a, b, want, did) && forall o :: o in ops ==> o.id !in did
    ensures Ready(b, ops)
  {}

  /** The batch's outcome is that of its write, or there was nothing to write. */
  predicate Fitting(b: Ran, write: Option<ListWrite>, differs: bool) {
    b.ok == (if differs then WriteSucceeded(write) else write.Some?) &&
    b.did == (if differs then CarriedOut(write) else write.Some?)
  }

  /** A step of another category leaves the CNAME records. */
  lemma SingleKeepsCnames(s: Store, o: Op, f: Fate)
    requires !IsCname(o)
    ensures SingleRun(s, o, f).store.cnames == s.cnames
  {}

  /** What is said of a restart comes from the batch alone. */
  lemma {:induction false} LoopRestarts(s: Store, ops: seq<Op>, batch: seq<Op>, fates: Id -> Fate,
                                        write: Option<ListWrite>, done: bool)
    ensures Loop(s, ops, batch, fates, write, done).restart ==
      if !done && CnamesOf(ops) != [] && write.Some? && Differs(s.cnames, batch) then RestartAfter(write.value)
      else NotMentioned
    decreases |ops|
  {
    if ops != [] {
      if IsCname(ops[0]) {
        LoopRestarts(if done then s else BatchRun(s, batch, write).store, ops[1..], batch, fates, write, true);
      } else {
        SingleKeepsCnames(s, ops[0], fates(ops[0].id));
        LoopRestarts(SingleRun(s, ops[0], fates(ops[0].id)).store, ops[1..], batch, fates, write, done);
      }
    }
  }

  /** A plan, and a batch of CNAME steps, that the Pi-hole would take as things stand. */
  ghost predicate Runnable(s: Store, ops: seq<Op>, batch: seq<Op>, want: Want) {
    && Aims(ops, want) && Aims(batch, want) && (forall o :: o in batch ==> IsCname(o))
    && Ready(s, OthersOf(ops)) && DistinctIds(OthersOf(ops))
  }

  lemma OthersCons(ops: seq<Op>)
    requires ops != []
    ensures OthersOf(ops) == (if IsCname(ops[0]) then [] else [ops[0]]) + OthersOf(ops[1..])
    ensures forall o :: o in OthersOf(ops[1..]) ==> !IsCname(o) && o in ops[1..]
  {}

  lemma RunnableAfterBatch(s: Store, ops: seq<Op>, batch: seq<Op>, write: Option<ListWrite>, want: Want)
    requires Runnable(s, ops, batch, want) && ops != [] && IsCname(ops[0])
    ensures Runnable(BatchRun(s, batch, write).store, ops[1..], batch, want)
    ensures Runnable(s, ops[1..], batch, want)
  {
    OthersCons(ops);
    assert OthersOf(ops) == OthersOf(ops[1..]);
    BatchExact(s, batch, write, want);
    ReadyAfter(s, BatchRun(s, batch, write).store, want, BatchRun(s, batch, write).did, OthersOf(ops[1..]));
  }

  lemma RunnableAfterSingle(s: Store, ops: seq<Op>, batch: seq<Op>, f: Fate, want: Want)
    requires Runnable(s, ops, batch, want) && ops != [] && !IsCname(ops[0])
    ensures Runnable(SingleRun(s, ops[0], f).store, ops[1..], batch, want)
    ensures Serve(s, WriteOf(ops[0])).1 && forall o :: o in OthersOf(ops[1..]) ==> o.id != ops[0].id
  {
    OthersCons(ops);
    HeadApart(OthersOf(ops));
    assert OthersOf(ops)[1..] == OthersOf(ops[1..]);
    assert AimsAt(ops[0], want);
    SingleExact(s, ops[0], f, want);
    ReadyAfter(s, SingleRun(s, ops[0], f).store, want, SingleRun(s, ops[0], f).did, OthersOf(ops[1..]));
  }

  lemma BatchThen(s: Store, ops: seq<Op>, batch: seq<Op>, fates: Id -> Fate, write: Option<ListWrite>, c: Ran)
    requires ops != [] && IsCname(ops[0]) && forall o :: o in batch ==> IsCname(o)
    requires TellsRight(Loop(BatchRun(s, batch, write).store, ops[1..], batch, fates, write, true), fates, c)
    ensures TellsRight(Loop(s, ops, batch, fates, write, false), fates, Batch(s, batch, write))
  {
    var x := BatchRun(s, batch, write);
    var r := Loop(x.store, ops[1..], batch, fates, write, true);
    OthersCons(ops);
    LoopWithin(x.store, ops[1..], batch, fates, write, true);
    BatchTells(s, batch, write, fates);
    NoCnameTells(r, fates, c, Batch(s, batch, write));
    ExtendTells(x, r, fates, Batch(s, batch, write));
  }

  lemma SingleThen(s: Store, ops: seq<Op>, batch: seq<Op>, fates: Id -> Fate, write: Option<ListWrite>, done: bool,
                   b: Ran)
    requires ops != [] && !IsCname(ops[0]) && forall o :: o in batch ==> IsCname(o)
    requires Serve(s, WriteOf(ops[0])).1 && forall o :: o in OthersOf(ops[1..]) ==> o.id != ops[0].id
    requires TellsRight(Loop(SingleRun(s, ops[0], fates(ops[0].id)).store, ops[1..], batch, fates, write, done),
                        fates, b)
    ensures TellsRight(Loop(s, ops, batch, fates, write, done), fates, b)
  {
    var x := SingleRun(s, ops[0], fates(ops[0].id));
    LoopWithin(x.store, ops[1..], batch, fates, write, done);
    ExtendTells(x, Loop(x.store, ops[1..], batch, fates, write, done), fates, b);
  }

  /** Every step of a runnable plan is done and reported as its requests' fates say. b is how the CNAME steps turned
      out. */
  lemma {:induction false} LoopTold(s: Store, ops: seq<Op>, batch: seq<Op>, fates: Id -> Fate,
                                    write: Option<ListWrite>, done: bool, want: Want)
    returns (b: Ran)
    requires Runnable(s, ops, batch, want)
    ensures TellsRight(Loop(s, ops, batch, fates, write, done), fates, b)
    ensures !done ==> Fitting(b, write, Differs(s.cnames, batch))
    decreases |ops|
  {
    if ops == [] {
      b := Batch(s, batch, write);
    } else if IsCname(ops[0]) {
      RunnableAfterBatch(s, ops, batch, write, want);
      if done {
        b := LoopTold(s, ops[1..], batch, fates, write, true, want);
      } else {
        b := LoopTold(BatchRun(s, batch, write).store, ops[1..], batch, fates, write, true, want);
        BatchThen(s, ops, batch, fates, write, b);
        b := Batch(s, batch, write);
      }
    } else {
      RunnableAfterSingle(s, ops, batch, fates(ops[0].id), want);
      SingleKeepsCnames(s, ops[0], fates(ops[0].id));
      b := LoopTold(SingleRun(s, ops[0], fates(ops[0].id)).store, ops[1..], batch, fates, write, done, want);
      SingleThen(s, ops, batch, fates, write, done, b);
    }
  }

  lemma HeadApart(ops: seq<Op>)
    requires DistinctIds(ops) && ops != []
    ensures DistinctIds(ops[1..]) && forall o :: o in ops[1..] ==> o in ops && o.id != ops[0].id
  {}

  lemma BatchTells(s: Store, batch: seq<Op>, write: Option<ListWrite>, fates: Id -> Fate)
    requires forall o :: o in batch ==> IsCname(o)
    ensures TellsRight(BatchRun(s, batch, write), fates, Batch(s, batch, write))
  {}

  lemma NoCnameTells(r: Run, fates: Id -> Fate, b: Ran, c: Ran)
    requires |r.steps| == |r.ok| && TellsRight(r, fates, b) && forall o :: o in r.steps ==> !IsCname(o)
    ensures TellsRight(r, fates, c)
  {}
}
