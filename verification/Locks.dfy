/** The reference-counted keyed mutex, one transition per critical section, and the goroutines that use it. */
module Locks {
  import opened Text
  import opened Ordering

  type Key = string
  type Lock = nat
  type Gid = nat

  /** keyedMutex.held, the refs and mu of every keyedLock, and the next lock to allocate. */
  datatype Table = Table(held: map<Key, Lock>, refs: map<Lock, int>, owner: map<Lock, Gid>, next: Lock)

  function Refs(t: Table, l: Lock): int {
    if l in t.refs then t.refs[l] else 0
  }

  /** The critical section that opens lock(key): find or create the lock and count this caller in. */
  function Registered(t: Table, key: Key): Table {
    var l := if key in t.held then t.held[key] else t.next;
    t.(held := t.held[key := l],
       refs := t.refs[l := Refs(t, l) + 1],
       next := if key in t.held then t.next else t.next + 1)
  }

  /** l.mu.Lock() succeeding for g. */
  function Locked(t: Table, l: Lock, g: Gid): Table {
    t.(owner := t.owner[l := g])
  }

  /** l.mu.Unlock(). */
  function Unlocked(t: Table, l: Lock): Table {
    t.(owner := t.owner - {l})
  }

  /** The critical section that closes the unlock: count this caller out and forget an unused lock. */
  function Dropped(t: Table, key: Key, l: Lock): Table {
    t.(refs := t.refs[l := Refs(t, l) - 1],
       held := if Refs(t, l) - 1 == 0 then t.held - {key} else t.held)
  }

  /** keyedMutex, with locks named by number in place of pointers. */
  class KeyedMutex {
    var held: map<Key, Lock>
    var refs: map<Lock, int>
    var owner: map<Lock, Gid>
    var next: Lock

    ghost function State(): Table reads this {
      Table(held, refs, owner, next)
    }

    constructor ()
      ensures State() == Table(map[], map[], map[], 0)
    {
      held, refs, owner, next := map[], map[], map[], 0;
    }

    method Register(key: Key) returns (l: Lock)
      modifies this
      ensures State() == Registered(old(State()), key)
      ensures key in held && l == held[key]
    {
      if key in held {
        l := held[key];
      } else {
        l := next;
        next := next + 1;
        held := held[key := l];
      }
      assert held == old(held)[key := l];
      refs := refs[l := (if l in refs then refs[l] else 0) + 1];
    }

    /** One attempt at l.mu: it succeeds when nobody holds it. */
    method TryLock(l: Lock, g: Gid) returns (ok: bool)
      modifies this
      ensures ok == (l !in old(owner))
      ensures State() == if ok then Locked(old(State()), l, g) else old(State())
    {
      ok := l !in owner;
      if ok { owner := owner[l := g]; }
    }

    method Unlock(l: Lock)
      modifies this
      ensures State() == Unlocked(old(State()), l)
    {
      owner := owner - {l};
    }

    method Drop(key: Key, l: Lock)
      modifies this
      ensures State() == Dropped(old(State()), key, l)
    {
      refs := refs[l := (if l in refs then refs[l] else 0) - 1];
      if refs[l] == 0 { held := held - {key}; }
    }
  }

  datatype Phase = Taking | Waiting | Dropping | Giving

  /** A goroutine that locks a batch of keys in order, and gives them back in reverse. locks are the ones it is
      counted in for: locks[i] is what lock(keys[i]) found. The last is not yet, or no longer, held while Waiting or
      Dropping. */
  datatype Batch = Batch(keys: seq<Key>, locks: seq<Lock>, phase: Phase) {
    predicate WellFormed() {
      |locks| <= |keys| && (phase.Waiting? || phase.Dropping? ==> locks != [])
    }
  }

  type Goroutine = b: Batch | b.WellFormed() witness Batch([], [], Taking)

  datatype State = State(table: Table, gs: seq<Goroutine>)

  datatype Step = Register(g: Gid) | Acquire(g: Gid) | Unlock(g: Gid) | Drop(g: Gid)

  function Last(g: Goroutine): nat
    requires g.locks != []
  {
    |g.locks| - 1
  }

  predicate Enabled(s: State, step: Step) {
    step.g < |s.gs| &&
    var g := s.gs[step.g];
    match step
    case Register(_) => g.phase.Taking? && |g.locks| < |g.keys|
    case Acquire(_) => g.phase.Waiting? && g.locks[Last(g)] !in s.table.owner
    case Unlock(_) => g.locks != [] && (g.phase.Giving? || (g.phase.Taking? && |g.locks| == |g.keys|))
    case Drop(_) => g.phase.Dropping?
  }

  function Apply(s: State, step: Step): State
    requires Enabled(s, step)
  {
    var g := s.gs[step.g];
    match step
    case Register(i) =>
      var key := g.keys[|g.locks|];
      var t := Registered(s.table, key);
      State(t, s.gs[i := Batch(g.keys, g.locks + [t.held[key]], Waiting)])
    case Acquire(i) =>
      State(Locked(s.table, g.locks[Last(g)], i), s.gs[i := g.(phase := Taking)])
    case Unlock(i) =>
      State(Unlocked(s.table, g.locks[Last(g)]), s.gs[i := g.(phase := Dropping)])
    case Drop(i) =>
      State(Dropped(s.table, g.keys[Last(g)], g.locks[Last(g)]), s.gs[i := Batch(g.keys, g.locks[..Last(g)], Giving)])
  }

  predicate Finished(g: Goroutine) {
    g.locks == [] && (g.phase.Giving? || g.keys == [])
  }

  /** Any number of goroutines, each about to take keys in increasing order. */
  ghost predicate Init(s: State) {
    && s.table == Table(map[], map[], map[], 0)
    && forall g :: 0 <= g < |s.gs| ==> s.gs[g].locks == [] && s.gs[g].phase.Taking? && Increasing(s.gs[g].keys)
  }

  /** Between the increment and the decrement of the refs of key's lock. */
  predicate Uses(g: Goroutine, key: Key) {
    key in g.keys[..|g.locks|]
  }

  /** How many goroutines are. */
  function Users(gs: seq<Goroutine>, key: Key): nat {
    if gs == [] then 0 else (if Uses(gs[0], key) then 1 else 0) + Users(gs[1..], key)
  }

  lemma {:induction false} UsersUpdate(gs: seq<Goroutine>, i: Gid, g: Goroutine, key: Key)
    requires i < |gs|
    ensures Users(gs[i := g], key) + (if Uses(gs[i], key) then 1 else 0) ==
      Users(gs, key) + (if Uses(g, key) then 1 else 0)
  {
    if i == 0 {
      assert gs[0 := g][1..] == gs[1..];
    } else {
      assert gs[i := g][1..] == gs[1..][i - 1 := g];
      UsersUpdate(gs[1..], i - 1, g, key);
    }
  }

  lemma {:induction false} UsersPositive(gs: seq<Goroutine>, key: Key)
    ensures Users(gs, key) > 0 <==> exists g :: 0 <= g < |gs| && Uses(gs[g], key)
  {
    if gs != [] {
      UsersPositive(gs[1..], key);
      if g :| 0 <= g < |gs| && Uses(gs[g], key) && g > 0 { assert gs[1..][g - 1] == gs[g]; }
      if g :| 0 <= g < |gs[1..]| && Uses(gs[1..][g], key) { assert gs[g + 1] == gs[1..][g]; }
    }
  }

  /** How many of its keys g holds: lock has returned and the unlock has not started. */
  function Held(g: Goroutine): nat {
    if g.phase.Waiting? || g.phase.Dropping? then Last(g) else |g.locks|
  }

  predicate Holds(g: Goroutine, key: Key) {
    key in g.keys[..Held(g)]
  }

  ghost predicate DistinctKeys(s: State) {
    forall g :: 0 <= g < |s.gs| ==> NoRepeats(s.gs[g].keys)
  }

  ghost predicate OrderedKeys(s: State) {
    forall g :: 0 <= g < |s.gs| ==> Increasing(s.gs[g].keys)
  }

  ghost predicate PointsAtHeld(s: State) {
    forall g, j :: 0 <= g < |s.gs| && 0 <= j < |s.gs[g].locks| ==>
      s.gs[g].keys[j] in s.table.held && s.table.held[s.gs[g].keys[j]] == s.gs[g].locks[j]
  }

  ghost predicate CountsUsers(s: State) {
    forall k :: k in s.table.held ==> 0 < Users(s.gs, k) == Refs(s.table, s.table.held[k])
  }

  ghost predicate Fresh(t: Table) {
    && (forall k :: k in t.held ==> t.held[k] < t.next)
    && (forall k, k' :: k in t.held && k' in t.held && t.held[k] == t.held[k'] ==> k == k')
    && (forall l :: l in t.refs ==> l < t.next)
  }

  ghost predicate HeldIsOwned(s: State) {
    forall g, j :: 0 <= g < |s.gs| && 0 <= j < Held(s.gs[g]) ==>
      s.gs[g].locks[j] in s.table.owner && s.table.owner[s.gs[g].locks[j]] == g
  }

  ghost predicate OwnedIsHeld(s: State) {
    forall l :: l in s.table.owner ==> s.table.owner[l] < |s.gs| && HoldsLock(s.gs[s.table.owner[l]], l)
  }

  ghost predicate OwnersHold(s: State) {
    HeldIsOwned(s) && OwnedIsHeld(s)
  }

  ghost predicate HoldsLock(g: Goroutine, l: Lock) {
    exists j :: 0 <= j < Held(g) && g.locks[j] == l
  }

  ghost predicate Inv(s: State) {
    DistinctKeys(s) && PointsAtHeld(s) && CountsUsers(s) && Fresh(s.table) && OwnersHold(s)
  }

  lemma InitInv(s: State)
    requires Init(s)
    ensures Inv(s) && OrderedKeys(s)
  {
    forall g, i, j | 0 <= g < |s.gs| && 0 <= i < j < |s.gs[g].keys| ensures s.gs[g].keys[i] != s.gs[g].keys[j] {
      LessTotal(s.gs[g].keys[i], s.gs[g].keys[j]);
    }
  }

  /** Goroutine i is counted in for key on top of what it was: the difference Register makes, and Drop undoes. */
  lemma OneMore(gs: seq<Goroutine>, i: Gid, g: Goroutine, key: Key)
    requires i < |gs| && NoRepeats(gs[i].keys) && g.keys == gs[i].keys
    requires |g.locks| == |gs[i].locks| + 1 && key == g.keys[|gs[i].locks|]
    ensures !Uses(gs[i], key) && Uses(g, key)
    ensures forall k :: Users(gs[i := g], k) == Users(gs, k) + (if k == key then 1 else 0)
  {
    var n := |gs[i].locks|;
    assert g.keys[..n + 1] == g.keys[..n] + [key];
    forall k ensures Users(gs[i := g], k) == Users(gs, k) + (if k == key then 1 else 0) {
      UsersUpdate(gs, i, g, k);
    }
  }

  lemma UnknownKeyUnused(s: State, key: Key)
    requires PointsAtHeld(s) && key !in s.table.held
    ensures Users(s.gs, key) == 0
  {
    forall g | 0 <= g < |s.gs| ensures !Uses(s.gs[g], key) {
      assert forall j :: 0 <= j < |s.gs[g].locks| ==> s.gs[g].keys[..|s.gs[g].locks|][j] == s.gs[g].keys[j];
    }
    UsersPositive(s.gs, key);
  }

  lemma RegisterFresh(s: State, i: Gid)
    requires Enabled(s, Register(i)) && Fresh(s.table)
    ensures Fresh(Apply(s, Register(i)).table)
  {}

  lemma RegisterCounts(s: State, i: Gid)
    requires Enabled(s, Register(i)) && CountsUsers(s) && Fresh(s.table) && NoRepeats(s.gs[i].keys)
    requires var key := s.gs[i].keys[|s.gs[i].locks|]; key !in s.table.held ==> Users(s.gs, key) == 0
    ensures CountsUsers(Apply(s, Register(i)))
  {
    OneMore(s.gs, i, Apply(s, Register(i)).gs[i], s.gs[i].keys[|s.gs[i].locks|]);
  }

  lemma RegisterPoints(s: State, i: Gid)
    requires Enabled(s, Register(i)) && PointsAtHeld(s)
    ensures PointsAtHeld(Apply(s, Register(i)))
  {}

  lemma RegisterKeepsInv(s: State, i: Gid)
    requires Inv(s) && Enabled(s, Register(i))
    ensures Inv(Apply(s, Register(i)))
  {
    var s' := Apply(s, Register(i));
    var key := s.gs[i].keys[|s.gs[i].locks|];
    if key !in s.table.held { UnknownKeyUnused(s, key); }
    RegisterFresh(s, i);
    RegisterCounts(s, i);
    RegisterPoints(s, i);
    HoldersUnchanged(s, s');
  }

  lemma HoldersUnchanged(s: State, s': State)
    requires OwnersHold(s) && |s'.gs| == |s.gs| && s'.table.owner == s.table.owner
    requires forall g :: 0 <= g < |s.gs| ==>
      Held(s'.gs[g]) == Held(s.gs[g]) && s'.gs[g].locks[..Held(s.gs[g])] == s.gs[g].locks[..Held(s.gs[g])]
    ensures OwnersHold(s')
  {
    forall g, j | 0 <= g < |s'.gs| && 0 <= j < Held(s'.gs[g]) ensures s'.gs[g].locks[j] == s.gs[g].locks[j] {
      assert s'.gs[g].locks[j] == s'.gs[g].locks[..Held(s.gs[g])][j];
      assert s.gs[g].locks[j] == s.gs[g].locks[..Held(s.gs[g])][j];
    }
    forall l | l in s'.table.owner ensures HoldsLock(s'.gs[s'.table.owner[l]], l) {
      var g := s.table.owner[l];
      var j :| 0 <= j < Held(s.gs[g]) && s.gs[g].locks[j] == l;
      assert s'.gs[g].locks[j] == l;
    }
  }

  /** A change of phase alone leaves everything but the owners as it was. */
  lemma PhaseChange(s: State, s': State)
    requires Inv(s) && |s'.gs| == |s.gs| && s'.table == s.table.(owner := s'.table.owner)
    requires forall g :: 0 <= g < |s.gs| ==> s'.gs[g].keys == s.gs[g].keys && s'.gs[g].locks == s.gs[g].locks
    ensures DistinctKeys(s') && PointsAtHeld(s') && CountsUsers(s') && Fresh(s'.table)
  {
    forall k ensures Users(s'.gs, k) == Users(s.gs, k) { SameUsers(s.gs, s'.gs, k); }
  }

  lemma {:induction false} SameUsers(gs: seq<Goroutine>, gs': seq<Goroutine>, k: Key)
    requires |gs| == |gs'|
    requires forall g :: 0 <= g < |gs| ==> gs'[g].keys == gs[g].keys && gs'[g].locks == gs[g].locks
    ensures Users(gs', k) == Users(gs, k)
  {
    if gs != [] { SameUsers(gs[1..], gs'[1..], k); }
  }

  lemma AcquireHolders(s: State, i: Gid)
    requires OwnersHold(s) && Enabled(s, Acquire(i))
    ensures OwnersHold(Apply(s, Acquire(i)))
  {
    var s' := Apply(s, Acquire(i));
    forall l | l in s'.table.owner ensures HoldsLock(s'.gs[s'.table.owner[l]], l) {
      if l == s.gs[i].locks[Last(s.gs[i])] {
        assert s'.gs[i].locks[Last(s.gs[i])] == l;
      } else {
        var g := s.table.owner[l];
        var j :| 0 <= j < Held(s.gs[g]) && s.gs[g].locks[j] == l;
        assert s'.gs[g].locks[j] == l;
      }
    }
  }

  lemma AcquireKeepsInv(s: State, i: Gid)
    requires Inv(s) && Enabled(s, Acquire(i))
    ensures Inv(Apply(s, Acquire(i)))
  {
    AcquireHolders(s, i);
    PhaseChange(s, Apply(s, Acquire(i)));
  }

  /** One goroutine's locks differ, as its keys do. */
  lemma LocksDiffer(s: State, i: Gid)
    requires PointsAtHeld(s) && DistinctKeys(s) && Fresh(s.table) && i < |s.gs|
    ensures NoRepeats(s.gs[i].locks)
  {}

  lemma UnlockHeld(s: State, i: Gid)
    requires HeldIsOwned(s) && Enabled(s, Unlock(i)) && NoRepeats(s.gs[i].locks)
    ensures HeldIsOwned(Apply(s, Unlock(i)))
  {
    var s' := Apply(s, Unlock(i));
    assert s.table.owner[s.gs[i].locks[Last(s.gs[i])]] == i;
    assert forall g :: 0 <= g < |s'.gs| ==> Held(s'.gs[g]) <= Held(s.gs[g]) && s'.gs[g].locks == s.gs[g].locks;
  }

  lemma UnlockOwned(s: State, i: Gid)
    requires HeldIsOwned(s) && OwnedIsHeld(s) && Enabled(s, Unlock(i))
    ensures OwnedIsHeld(Apply(s, Unlock(i)))
  {
    var s' := Apply(s, Unlock(i));
    forall l | l in s'.table.owner ensures HoldsLock(s'.gs[s'.table.owner[l]], l) {
      var g := s.table.owner[l];
      var j :| 0 <= j < Held(s.gs[g]) && s.gs[g].locks[j] == l;
      assert s'.gs[g].locks[j] == l && j < Held(s'.gs[g]);
    }
  }

  lemma UnlockKeepsInv(s: State, i: Gid)
    requires Inv(s) && Enabled(s, Unlock(i))
    ensures Inv(Apply(s, Unlock(i)))
  {
    LocksDiffer(s, i);
    UnlockHeld(s, i);
    UnlockOwned(s, i);
    PhaseChange(s, Apply(s, Unlock(i)));
  }

  lemma DropCounts(s: State, i: Gid)
    requires Enabled(s, Drop(i)) && CountsUsers(s) && Fresh(s.table) && NoRepeats(s.gs[i].keys)
    requires var n := Last(s.gs[i]);
      s.gs[i].keys[n] in s.table.held && s.table.held[s.gs[i].keys[n]] == s.gs[i].locks[n]
    ensures var s', key := Apply(s, Drop(i)), s.gs[i].keys[Last(s.gs[i])];
      CountsUsers(s') && Fresh(s'.table) && (key in s'.table.held <==> Users(s'.gs, key) > 0)
  {
    var s' := Apply(s, Drop(i));
    assert s'.gs[i := s.gs[i]] == s.gs;
    OneMore(s'.gs, i, s.gs[i], s.gs[i].keys[Last(s.gs[i])]);
  }

  lemma DropPoints(s: State, i: Gid)
    requires Enabled(s, Drop(i)) && PointsAtHeld(s)
    requires var s', key := Apply(s, Drop(i)), s.gs[i].keys[Last(s.gs[i])];
      key in s'.table.held <==> Users(s'.gs, key) > 0
    ensures PointsAtHeld(Apply(s, Drop(i)))
  {
    var s' := Apply(s, Drop(i));
    forall g, j | 0 <= g < |s'.gs| && 0 <= j < |s'.gs[g].locks|
      ensures s'.gs[g].keys[j] in s'.table.held && s'.table.held[s'.gs[g].keys[j]] == s'.gs[g].locks[j]
    {
      assert s'.gs[g].keys[j] == s.gs[g].keys[j] && s'.gs[g].locks[j] == s.gs[g].locks[j];
      if s'.gs[g].keys[j] == s.gs[i].keys[Last(s.gs[i])] {
        assert s'.gs[g].keys[..|s'.gs[g].locks|][j] == s'.gs[g].keys[j];
        UsersPositive(s'.gs, s'.gs[g].keys[j]);
      }
    }
  }

  lemma DropKeepsInv(s: State, i: Gid)
    requires Inv(s) && Enabled(s, Drop(i))
    ensures Inv(Apply(s, Drop(i)))
  {
    DropCounts(s, i);
    DropPoints(s, i);
    HoldersUnchanged(s, Apply(s, Drop(i)));
  }

  lemma StepKeepsInv(s: State, step: Step)
    requires Inv(s) && Enabled(s, step)
    ensures Inv(Apply(s, step))
  {
    match step
    case Register(i) => RegisterKeepsInv(s, i);
    case Acquire(i) => AcquireKeepsInv(s, i);
    case Unlock(i) => UnlockKeepsInv(s, i);
    case Drop(i) => DropKeepsInv(s, i);
  }

  /** The steps, in this order, can all be taken from s. */
  ghost predicate CanRun(s: State, steps: seq<Step>)
    decreases |steps|
  {
    steps != [] ==> Enabled(s, steps[0]) && CanRun(Apply(s, steps[0]), steps[1..])
  }

  ghost function Run(s: State, steps: seq<Step>): State
    requires CanRun(s, steps)
    decreases |steps|
  {
    if steps == [] then s else Run(Apply(s, steps[0]), steps[1..])
  }

  lemma {:induction false} RunKeepsInv(s: State, steps: seq<Step>)
    requires Inv(s) && CanRun(s, steps)
    ensures Inv(Run(s, steps))
    decreases |steps|
  {
    if steps != [] {
      StepKeepsInv(s, steps[0]);
      RunKeepsInv(Apply(s, steps[0]), steps[1..]);
    }
  }

  lemma {:induction false} RunKeepsKeys(s: State, steps: seq<Step>)
    requires CanRun(s, steps)
    ensures |Run(s, steps).gs| == |s.gs|
    ensures forall g :: 0 <= g < |s.gs| ==> Run(s, steps).gs[g].keys == s.gs[g].keys
    decreases |steps|
  {
    if steps != [] { RunKeepsKeys(Apply(s, steps[0]), steps[1..]); }
  }

  /** Whatever the interleaving: one holder per key, every user points at the lock in the table, and the count is
      exact. */
  lemma MutexTheorem(s: State, steps: seq<Step>)
    requires Init(s) && CanRun(s, steps)
    ensures var r := Run(s, steps);
      && (forall g, g', k :: 0 <= g < |r.gs| && 0 <= g' < |r.gs| && Holds(r.gs[g], k) && Holds(r.gs[g'], k) ==> g == g')
      && PointsAtHeld(r)
      && (forall k :: k in r.table.held <==> Users(r.gs, k) > 0)
      && (forall k :: k in r.table.held ==> Refs(r.table, r.table.held[k]) == Users(r.gs, k))
  {
    InitInv(s);
    RunKeepsInv(s, steps);
    var r := Run(s, steps);
    forall g, g', k | 0 <= g < |r.gs| && 0 <= g' < |r.gs| && Holds(r.gs[g], k) && Holds(r.gs[g'], k) ensures g == g' {
      OneHolder(r, g, g', k);
    }
    forall k | k !in r.table.held ensures Users(r.gs, k) == 0 {
      UnknownKeyUnused(r, k);
    }
  }

  lemma OneHolder(s: State, g: Gid, g': Gid, k: Key)
    requires PointsAtHeld(s) && OwnersHold(s) && g < |s.gs| && g' < |s.gs|
    requires Holds(s.gs[g], k) && Holds(s.gs[g'], k)
    ensures g == g'
  {}

  /** What one goroutine still has to do, in steps. */
  function Work(g: Goroutine): nat {
    match g.phase
    case Taking => 4 * |g.keys| - 2 * |g.locks|
    case Waiting => 4 * |g.keys| - 2 * |g.locks| + 1
    case Dropping => 2 * |g.locks| - 1
    case Giving => 2 * |g.locks|
  }

  ghost function TotalWork(gs: seq<Goroutine>): nat {
    if gs == [] then 0 else Work(gs[0]) + TotalWork(gs[1..])
  }

  lemma {:induction false} TotalWorkUpdate(gs: seq<Goroutine>, i: Gid, g: Goroutine)
    requires i < |gs|
    ensures TotalWork(gs[i := g]) + Work(gs[i]) == TotalWork(gs) + Work(g)
  {
    if i == 0 {
      assert gs[0 := g][1..] == gs[1..];
    } else {
      assert gs[i := g][1..] == gs[1..][i - 1 := g];
      TotalWorkUpdate(gs[1..], i - 1, g);
    }
  }

  lemma {:induction false} RunUsesWork(s: State, steps: seq<Step>)
    requires CanRun(s, steps)
    ensures TotalWork(s.gs) == |steps| + TotalWork(Run(s, steps).gs)
    decreases |steps|
  {
    if steps != [] {
      var s' := Apply(s, steps[0]);
      TotalWorkUpdate(s.gs, steps[0].g, s'.gs[steps[0].g]);
      RunUsesWork(s', steps[1..]);
    }
  }

  ghost function WaitsFor(g: Goroutine): Key
    requires g.phase.Waiting?
  {
    g.keys[Last(g)]
  }

  /** The waiting goroutine whose key is greatest among those waiting at or after index from. */
  lemma {:induction false} GreatestWaiter(s: State, from: nat) returns (m: Gid)
    requires exists g :: from <= g < |s.gs| && s.gs[g].phase.Waiting?
    ensures from <= m < |s.gs| && s.gs[m].phase.Waiting?
    ensures forall g :: from <= g < |s.gs| && s.gs[g].phase.Waiting? ==> !Less(WaitsFor(s.gs[m]), WaitsFor(s.gs[g]))
    decreases |s.gs| - from
  {
    if exists g :: from + 1 <= g < |s.gs| && s.gs[g].phase.Waiting? {
      m := GreatestWaiter(s, from + 1);
      if s.gs[from].phase.Waiting? && Less(WaitsFor(s.gs[m]), WaitsFor(s.gs[from])) {
        LessTotal(WaitsFor(s.gs[from]), WaitsFor(s.gs[from]));
        forall g | from < g < |s.gs| && s.gs[g].phase.Waiting? ensures !Less(WaitsFor(s.gs[from]), WaitsFor(s.gs[g])) {
          if Less(WaitsFor(s.gs[from]), WaitsFor(s.gs[g])) {
            LessTransitive(WaitsFor(s.gs[m]), WaitsFor(s.gs[from]), WaitsFor(s.gs[g]));
          }
        }
        m := from;
      }
    } else {
      m := from;
      LessTotal(WaitsFor(s.gs[m]), WaitsFor(s.gs[m]));
    }
  }

  /** The goroutine holding what m waits for, when it waits too, waits for a greater key. */
  lemma HolderWaitsForMore(s: State, m: Gid)
    requires PointsAtHeld(s) && Fresh(s.table) && OwnersHold(s) && OrderedKeys(s)
    requires m < |s.gs| && s.gs[m].phase.Waiting? && s.gs[m].locks[Last(s.gs[m])] in s.table.owner
    ensures var h := s.table.owner[s.gs[m].locks[Last(s.gs[m])]];
      && h < |s.gs| && !Finished(s.gs[h])
      && (s.gs[h].phase.Waiting? ==> Less(WaitsFor(s.gs[m]), WaitsFor(s.gs[h])))
  {}

  /** An unfinished goroutine means some goroutine can move. */
  lemma NoDeadlock(s: State) returns (step: Step)
    requires Inv(s) && OrderedKeys(s)
    requires exists g :: 0 <= g < |s.gs| && !Finished(s.gs[g])
    ensures Enabled(s, step)
  {
    var u :| 0 <= u < |s.gs| && !Finished(s.gs[u]);
    if !s.gs[u].phase.Waiting? {
      step := FreeStep(s, u);
    } else {
      var m := GreatestWaiter(s, 0);
      if Enabled(s, Acquire(m)) {
        step := Acquire(m);
      } else {
        HolderWaitsForMore(s, m);
        step := FreeStep(s, s.table.owner[s.gs[m].locks[Last(s.gs[m])]]);
      }
    }
  }

  /** Somebody is not done, and nobody can move. */
  ghost predicate Stuck(s: State) {
    (exists g :: 0 <= g < |s.gs| && !Finished(s.gs[g])) && forall step :: !Enabled(s, step)
  }

  /** From the start, whatever has been done so far: somebody can move until everybody is done. */
  lemma NeverStuck(s: State, steps: seq<Step>)
    requires Init(s) && CanRun(s, steps)
    ensures !Stuck(Run(s, steps))
  {
    InitInv(s);
    RunKeepsInv(s, steps);
    RunKeepsKeys(s, steps);
    var r := Run(s, steps);
    assert OrderedKeys(r);
    if exists g :: 0 <= g < |r.gs| && !Finished(r.gs[g]) { var step := NoDeadlock(r); }
  }

  lemma FreeStep(s: State, u: Gid) returns (step: Step)
    requires u < |s.gs| && !Finished(s.gs[u]) && !s.gs[u].phase.Waiting?
    ensures Enabled(s, step)
  {
    var g := s.gs[u];
    step := if g.phase.Dropping? then Drop(u) else if g.phase.Taking? && |g.locks| < |g.keys| then Register(u)
      else Unlock(u);
  }

  lemma {:induction false} NoWorkLeft(gs: seq<Goroutine>)
    requires forall g :: 0 <= g < |gs| ==> Finished(gs[g])
    ensures TotalWork(gs) == 0
  {
    if gs != [] { NoWorkLeft(gs[1..]); }
  }

  lemma NobodyLeft(s: State)
    requires CountsUsers(s) && OwnersHold(s) && forall g :: 0 <= g < |s.gs| ==> Finished(s.gs[g])
    ensures s.table.held == map[] && s.table.owner == map[]
  {
    forall k ensures Users(s.gs, k) == 0 {
      UsersPositive(s.gs, k);
    }
    forall l ensures l !in s.table.owner {}
  }

  /** Under any scheduler a run stops only when every goroutine is done, after four steps per key, with the table
      empty. */
  lemma EveryRunFinishes(s: State, steps: seq<Step>)
    requires Init(s) && CanRun(s, steps)
    requires forall step :: !Enabled(Run(s, steps), step)
    ensures |Run(s, steps).gs| == |s.gs| && forall g :: 0 <= g < |s.gs| ==> Finished(Run(s, steps).gs[g])
    ensures Run(s, steps).table.held == map[] && Run(s, steps).table.owner == map[]
    ensures |steps| == TotalWork(s.gs)
  {
    InitInv(s);
    RunKeepsInv(s, steps);
    RunKeepsKeys(s, steps);
    var r := Run(s, steps);
    assert OrderedKeys(r);
    if exists g :: 0 <= g < |r.gs| && !Finished(r.gs[g]) {
      var step := NoDeadlock(r);
      assert false;
    }
    NobodyLeft(r);
    NoWorkLeft(r.gs);
    RunUsesWork(s, steps);
  }

  /** Why LockSettings compacts its keys: a batch naming one key twice comes to wait for itself, for ever. */
  lemma RepeatedKeyBlocksItself(s: State, key: Key)
    requires s.table == Table(map[], map[], map[], 0) && s.gs == [Batch([key, key], [], Taking)]
    ensures exists steps :: CanRun(s, steps) && Stuck(Run(s, steps))
  {
    var s1 := Apply(s, Register(0));
    assert s1.gs[0] == Batch([key, key], [0], Waiting) && s1.table.held[key] == 0;
    var s2 := Apply(s1, Acquire(0));
    assert s2.gs[0] == Batch([key, key], [0], Taking) && s2.table.held[key] == 0 && s2.table.owner[0] == 0;
    var s3 := Apply(s2, Register(0));
    assert s3.gs[0] == Batch([key, key], [0, 0], Waiting) && s3.table.owner[0] == 0 && |s3.gs| == 1;
    var one := [Register(0)];
    var two := [Acquire(0)] + one;
    var three := [Register(0)] + two;
    assert one[1..] == [] && two[1..] == one && three[1..] == two;
    assert Run(s3, one[1..]) == s3;
    assert CanRun(s2, one) && Run(s2, one) == s3;
    assert CanRun(s1, two) && Run(s1, two) == s3;
    assert CanRun(s, three) && Run(s, three) == s3;
    assert !Finished(s3.gs[0]);
  }

  /** The keys LockSettings locks, in the order it locks them. norm is NormaliseConfigPath. */
  method SettingKeys(elements: seq<string>, norm: string -> string) returns (keys: seq<Key>)
    ensures Increasing(keys)
    ensures forall k :: k in keys <==> exists e :: e in elements && k == "setting " + norm(e)
  {
    keys := [];
    for i := 0 to |elements|
      invariant |keys| == i && forall j :: 0 <= j < i ==> keys[j] == "setting " + norm(elements[j])
    {
      keys := keys + ["setting " + norm(elements[i])];
    }
    ghost var all := keys;
    keys := Sort(keys);
    assert forall k :: k in multiset(keys) <==> k in multiset(all);
    keys := Compact(keys);
    forall k ensures k in keys <==> exists e :: e in elements && k == "setting " + norm(e) {
      if k in keys {
        assert k in multiset(all);
        var j :| 0 <= j < |all| && all[j] == k;
        assert elements[j] in elements;
      }
      if e :| e in elements && k == "setting " + norm(e) {
        var j :| 0 <= j < |elements| && elements[j] == e;
        assert all[j] == k && k in multiset(all);
      }
    }
  }
}
