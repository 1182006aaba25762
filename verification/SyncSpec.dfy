/** What applying a plan past failures comes to: what each step leaves on the target, and what is told of it. */
module SyncSpec {
  import opened Entries
  import opened Wrappers
  import opened SyncPlan
  import opened SyncSteps
  import C = CnameRewrite

  /** What becomes of one request: a reply that says it was done, or no such reply, because it was refused, never
      reached the Pi-hole, was answered with an error or lost its reply. Without one it may have been carried out all
      the same. */
  datatype Fate = Succeeded | NoSuccess(processed: bool)

  predicate Processed(f: Fate) {
    f.Succeeded? || f.processed
  }

  /** The one write of all CNAME records, and what follows it: its fate, whether a failure was reported as uncertain,
      whether FTL was seen to restart, and, when one was asked for, whether it could be and FTL then restarted. */
  datatype ListWrite = ListWrite(fate: Fate, uncertain: bool, back: bool, asked: bool, backAgain: bool)

  predicate WriteSucceeded(write: Option<ListWrite>) {
    write.Some? && write.value.fate.Succeeded?
  }

  predicate CarriedOut(write: Option<ListWrite>) {
    write.Some? && Processed(write.value.fate)
  }

  /** What a sync says of FTL's restart. */
  datatype RestartReport = NotMentioned | Restarted | RestartFailed

  /** What applyCNAMEs says of it once its write was sent. */
  function RestartAfter(w: ListWrite): RestartReport {
    if w.fate.Succeeded? then (if w.back then Restarted else RestartFailed)
    else if !w.uncertain then NotMentioned
    else if w.back || (w.asked && w.backAgain) then Restarted
    else RestartFailed
  }

  /** What a write, or the one write for all CNAME records, comes to: the store, whether it is reported as applied,
      and whether the Pi-hole did it. */
  datatype Ran = Ran(store: Store, ok: bool, did: bool)

  function Single(s: Store, o: Op, f: Fate): Ran {
    var (after, accepted) := Serve(s, WriteOf(o));
    if Processed(f) && accepted then Ran(after, f.Succeeded?, true) else Ran(s, false, false)
  }

  function ChangesOf(batch: seq<Op>): seq<C.Change> {
    if batch == [] then []
    else (match batch[0].action
          case AddEntry => [C.Add(Label(batch[0].id))]
          case UpdateEntry => []
          case DeleteEntry => [C.Remove(Label(batch[0].id))]) + ChangesOf(batch[1..])
  }

  /** The write of all CNAME changes; write is None when the sync was cancelled or could not read the records. */
  function Batch(s: Store, batch: seq<Op>, write: Option<ListWrite>): Ran {
    if write.None? then Ran(s, false, false)
    else
      var next := C.Rewrite(s.cnames, ChangesOf(batch));
      if next == s.cnames then Ran(s, true, true)
      else if CarriedOut(write) then Ran(s.(cnames := next), WriteSucceeded(write), true)
      else Ran(s, false, false)
  }

  function CnamesOf(ops: seq<Op>): seq<Op> {
    if ops == [] then [] else (if IsCname(ops[0]) then [ops[0]] else []) + CnamesOf(ops[1..])
  }

  function OthersOf(ops: seq<Op>): seq<Op> {
    if ops == [] then [] else (if IsCname(ops[0]) then [] else [ops[0]]) + OthersOf(ops[1..])
  }

  function Repeat(b: bool, n: nat): seq<bool> {
    seq(n, _ => b)
  }

  /** Making the changes would change the list. */
  predicate Differs(records: seq<string>, batch: seq<Op>) {
    C.Rewrite(records, ChangesOf(batch)) != records
  }

  /** What is known of a run: the target, the steps in the order reported, which were reported as applied, the entries
      whose step was done, and what is said of a restart. */
  datatype Run = Run(store: Store, steps: seq<Op>, ok: seq<bool>, did: set<Id>, restart: RestartReport)

  function IdsOf(ops: seq<Op>): set<Id> {
    set o | o in ops :: o.id
  }

  /** A run of no steps. */
  function NoSteps(s: Store): Run {
    Run(s, [], [], {}, NotMentioned)
  }

  /** One run and then another. */
  function Extend(a: Run, r: Run): Run {
    Run(r.store, a.steps + r.steps, a.ok + r.ok, a.did + r.did,
        if a.restart.NotMentioned? then r.restart else a.restart)
  }

  function BatchRun(s: Store, batch: seq<Op>, write: Option<ListWrite>): Run {
    var b := Batch(s, batch, write);
    Run(b.store, batch, Repeat(b.ok, |batch|), if b.did then IdsOf(batch) else {},
        if write.Some? && Differs(s.cnames, batch) then RestartAfter(write.value) else NotMentioned)
  }

  function SingleRun(s: Store, o: Op, f: Fate): Run {
    var x := Single(s, o, f);
    Run(x.store, [o], [x.ok], if x.did then {o.id} else {}, NotMentioned)
  }

  /** ApplyPlan's loop over the steps that are left. */
  function Loop(s: Store, ops: seq<Op>, batch: seq<Op>, fates: Id -> Fate, write: Option<ListWrite>,
                done: bool): (r: Run)
    ensures |r.steps| == |r.ok|
    decreases |ops|
  {
    if ops == [] then NoSteps(s)
    else if IsCname(ops[0]) then
      if done then Loop(s, ops[1..], batch, fates, write, true)
      else
        var b := BatchRun(s, batch, write);
        Extend(b, Loop(b.store, ops[1..], batch, fates, write, true))
    else
      var x := SingleRun(s, ops[0], fates(ops[0].id));
      Extend(x, Loop(x.store, ops[1..], batch, fates, write, done))
  }

  lemma ExtendNoSteps(s: Store, r: Run)
    ensures Extend(NoSteps(s), r) == r && Extend(r, NoSteps(s)) == r.(store := s)
  {}

  lemma ExtendExtend(a: Run, b: Run, r: Run)
    ensures Extend(a, Extend(b, r)) == Extend(Extend(a, b), r)
  {}

  function Count(ok: seq<bool>, b: bool): nat {
    if ok == [] then 0 else Count(ok[..|ok| - 1], b) + if ok[|ok| - 1] == b then 1 else 0
  }

  lemma OneMore(ok: seq<bool>, n: nat, b: bool)
    requires |ok| == n + 1
    ensures (set i | 0 <= i < |ok| && ok[i] == b) ==
      (set i | 0 <= i < |ok[..n]| && ok[..n][i] == b) + if ok[n] == b then {n} else {}
  {}

  lemma {:induction false} CountExact(ok: seq<bool>, b: bool)
    ensures Count(ok, b) == |set i | 0 <= i < |ok| && ok[i] == b|
  {
    var at := set i | 0 <= i < |ok| && ok[i] == b;
    if ok == [] {
      assert at == {};
    } else {
      CountExact(ok[..|ok| - 1], b);
      OneMore(ok, |ok| - 1, b);
    }
  }

  lemma {:induction false} CountBoth(ok: seq<bool>)
    ensures Count(ok, true) + Count(ok, false) == |ok|
  {
    if ok != [] { CountBoth(ok[..|ok| - 1]); }
  }
}
