/** Update handlers and sync writes on list entries, interleaved in any way the keyed mutex allows. */
module EntryUpdates {
  import opened Locks
  import opened Ordering
  import opened Wrappers

  /** The two columns a PUT replaces together. */
  datatype Fields = Fields(comment: string, enabled: bool)

  /** What the caller of an update supplied; the rest is to stay. */
  datatype Patch = Patch(comment: Option<string>, enabled: Option<bool>)

  datatype Op = Update(patch: Patch) | SyncPut(fields: Fields) | SyncAdd(fields: Fields, overwrites: bool) | SyncDelete

  const MAX_COMMENT_LENGTH := 1024

  predicate TooLong(patch: Patch) {
    patch.comment.Some? && |patch.comment.value| > MAX_COMMENT_LENGTH
  }

  /** crudUpdateBody: supplied values win, the others come from the entry as read; None refuses the comment. */
  method CrudUpdateBody(patch: Patch, current: Fields) returns (body: Option<Fields>)
    ensures body == if TooLong(patch) then None else Some(Merge(patch, current))
    ensures body.None? <==> patch.comment.Some? && |patch.comment.value| > 1024
    ensures body.Some? ==> body.value.comment == if patch.comment.Some? then patch.comment.value else current.comment
    ensures body.Some? ==> body.value.enabled == if patch.enabled.Some? then patch.enabled.value else current.enabled
  {
    var fields := current;
    if patch.comment.Some? {
      if |patch.comment.value| > MAX_COMMENT_LENGTH { return None; }
      fields := fields.(comment := patch.comment.value);
    }
    if patch.enabled.Some? { fields := fields.(enabled := patch.enabled.value); }
    return Some(fields);
  }

  function Merge(patch: Patch, current: Fields): Fields {
    Fields(if patch.comment.Some? then patch.comment.value else current.comment,
           if patch.enabled.Some? then patch.enabled.value else current.enabled)
  }

  /** What running op alone does to its entry: an update of a missing entry, or with a refused comment, does nothing;
      a PUT creates or replaces; an add of a stored entry replaces it, when it is a list, a group or a client, and is
      refused when it is a domain. */
  function Effect(op: Op, row: Option<Fields>): Option<Fields> {
    match op
    case Update(p) => if row.Some? && !TooLong(p) then Some(Merge(p, row.value)) else row
    case SyncPut(f) => Some(f)
    case SyncAdd(f, overwrites) => if row.Some? && !overwrites then row else Some(f)
    case SyncDelete => None
  }

  datatype Job = Job(key: Key, op: Op)

  datatype Stage = Started | HasRead(row: Option<Fields>) | Written

  /** locks.gs[g] is the goroutine doing jobs[g]. turns lists, for each key, who got its lock, in that order; applied
      are the jobs whose write the Pi-hole carried out. */
  datatype World = World(locks: State, jobs: seq<Job>, stages: seq<Stage>, rows: map<Key, Fields>,
                         turns: map<Key, seq<Gid>>, applied: set<Gid>)

  function Row(rows: map<Key, Fields>, key: Key): Option<Fields> {
    if key in rows then Some(rows[key]) else None
  }

  function Turns(turns: map<Key, seq<Gid>>, key: Key): seq<Gid> {
    if key in turns then turns[key] else []
  }

  ghost predicate Init(w: World) {
    && Locks.Init(w.locks) && |w.locks.gs| == |w.jobs| == |w.stages|
    && (forall g :: 0 <= g < |w.jobs| ==> w.locks.gs[g].keys == [w.jobs[g].key] && w.stages[g].Started?)
    && w.turns == map[] && w.applied == {}
  }

  /** A step of the mutex, an update's read, or the one write of a job. A handler may also give its lock back early,
      having failed. A write may be lost (applied is false) or take effect. */
  datatype Move = Lock(step: Step) | Read(g: Gid) | Write(g: Gid, applied: bool)

  /** Between its lock and its unlock: g's batch is the one key of its job. */
  predicate Holding(w: World, g: Gid)
    requires g < |w.locks.gs|
  {
    Held(w.locks.gs[g]) == 1
  }

  predicate CanMove(w: World, m: Move)
    requires |w.locks.gs| == |w.jobs| == |w.stages|
  {
    match m
    case Lock(step) => Enabled(w.locks, step)
    case Read(g) => g < |w.jobs| && Holding(w, g) && w.jobs[g].op.Update? && w.stages[g].Started?
    case Write(g, _) => g < |w.jobs| && Holding(w, g) && MayWrite(w.jobs[g].op, w.stages[g])
  }

  /** An update writes what it built from the row it found; a sync write needs no read. */
  predicate MayWrite(op: Op, stage: Stage) {
    if op.Update? then stage.HasRead? && stage.row.Some? && !TooLong(op.patch) else stage.Started?
  }

  /** The row a write leaves. An update's PUT carries the body built from what it read, whatever is stored now. */
  function Put(w: World, g: Gid): Option<Fields>
    requires |w.locks.gs| == |w.jobs| == |w.stages| && g < |w.jobs|
    requires MayWrite(w.jobs[g].op, w.stages[g])
  {
    if w.jobs[g].op.Update? then Some(Merge(w.jobs[g].op.patch, w.stages[g].row.value))
    else Effect(w.jobs[g].op, Row(w.rows, w.jobs[g].key))
  }

  function Moved(w: World, m: Move): (w': World)
    requires |w.locks.gs| == |w.jobs| == |w.stages| && CanMove(w, m)
    ensures |w'.locks.gs| == |w'.jobs| == |w'.stages| && w'.jobs == w.jobs
  {
    match m
    case Lock(step) =>
      var key := if step.g < |w.jobs| then w.jobs[step.g].key else "";
      w.(locks := Apply(w.locks, step),
         turns := if step.Acquire? then w.turns[key := Turns(w.turns, key) + [step.g]] else w.turns)
    case Read(g) => w.(stages := w.stages[g := HasRead(Row(w.rows, w.jobs[g].key))])
    case Write(g, applied) =>
      var w1 := w.(stages := w.stages[g := Written]);
      if !applied then w1
      else
        var key, row := w.jobs[g].key, Put(w, g);
        w1.(rows := if row.Some? then w.rows[key := row.value] else w.rows - {key}, applied := w.applied + {g})
  }

  /** Running the applied jobs of turns one after another from row. */
  function Replay(jobs: seq<Job>, turns: seq<Gid>, applied: set<Gid>, row: Option<Fields>): Option<Fields> {
    if turns == [] then row
    else
      var g, before := turns[|turns| - 1], Replay(jobs, turns[..|turns| - 1], applied, row);
      if g in applied && g < |jobs| then Effect(jobs[g].op, before) else before
  }

  ghost predicate WellFormed(w: World) {
    && |w.locks.gs| == |w.jobs| == |w.stages|
    && forall g :: 0 <= g < |w.jobs| ==> w.locks.gs[g].keys == [w.jobs[g].key]
  }

  /** g has not had its lock yet. */
  predicate Before(g: Goroutine) {
    g.phase.Waiting? || (g.phase.Taking? && g.locks == [])
  }

  ghost predicate TookTurn(w: World, g: Gid, key: Key)
    requires WellFormed(w)
  {
    g < |w.jobs| && w.jobs[g].key == key && !Before(w.locks.gs[g])
  }

  /** Every turn was taken by a job of that key, once. */
  ghost predicate TurnsOnce(w: World)
    requires WellFormed(w)
  {
    && (forall k :: NoRepeats(Turns(w.turns, k)))
    && (forall k, g :: g in Turns(w.turns, k) ==> TookTurn(w, g, k))
  }

  /** g has the latest turn of its key. */
  ghost predicate IsLast(w: World, g: Gid)
    requires WellFormed(w) && g < |w.jobs|
  {
    var t := Turns(w.turns, w.jobs[g].key); t != [] && t[|t| - 1] == g
  }

  /** The holder of a key has its latest turn. */
  ghost predicate HolderIsLast(w: World)
    requires WellFormed(w)
  {
    forall g :: 0 <= g < |w.jobs| && Holding(w, g) ==> IsLast(w, g)
  }

  ghost predicate TurnsTaken(w: World)
    requires WellFormed(w)
  {
    TurnsOnce(w) && HolderIsLast(w)
  }

  ghost predicate StagesMatch(w: World)
    requires WellFormed(w)
  {
    && (forall g :: 0 <= g < |w.jobs| && Before(w.locks.gs[g]) ==> w.stages[g].Started?)
    && (forall g :: g in w.applied ==> g < |w.jobs| && w.stages[g].Written?)
    && (forall g :: 0 <= g < |w.jobs| && Holding(w, g) && w.stages[g].HasRead? ==>
          w.stages[g].row == Row(w.rows, w.jobs[g].key))
  }

  /** Every row is what the turns taken on it so far make of it, one after another. */
  ghost predicate Serial(w: World, rows0: map<Key, Fields>) {
    forall k :: Row(w.rows, k) == Replay(w.jobs, Turns(w.turns, k), w.applied, Row(rows0, k))
  }

  ghost predicate WorldInv(w: World, rows0: map<Key, Fields>) {
    WellFormed(w) && Inv(w.locks) && TurnsTaken(w) && StagesMatch(w) && Serial(w, rows0)
  }

  lemma SameKeySameHolder(w: World, g: Gid, g': Gid)
    requires WellFormed(w) && PointsAtHeld(w.locks) && OwnersHold(w.locks)
    requires g < |w.jobs| && g' < |w.jobs| && Holding(w, g) && Holding(w, g') && w.jobs[g].key == w.jobs[g'].key
    ensures g == g'
  {
    var key := w.jobs[g].key;
    assert w.locks.gs[g].keys[..1][0] == key && w.locks.gs[g'].keys[..1][0] == key;
    OneHolder(w.locks, g, g', key);
  }

  lemma AcquireAddsTurn(w: World, u: Gid, k: Key)
    requires WellFormed(w) && CanMove(w, Lock(Acquire(u)))
    ensures Turns(Moved(w, Lock(Acquire(u))).turns, k) ==
      if k == w.jobs[u].key then Turns(w.turns, k) + [u] else Turns(w.turns, k)
  {}

  lemma AcquireKeepsOnce(w: World, u: Gid)
    requires WellFormed(w) && TurnsOnce(w) && CanMove(w, Lock(Acquire(u)))
    ensures TurnsOnce(Moved(w, Lock(Acquire(u))))
  {
    var w' := Moved(w, Lock(Acquire(u)));
    assert u !in Turns(w.turns, w.jobs[u].key);
    forall k ensures NoRepeats(Turns(w'.turns, k)) {
      AcquireAddsTurn(w, u, k);
    }
    forall k, g | g in Turns(w'.turns, k) ensures TookTurn(w', g, k) {
      AcquireAddsTurn(w, u, k);
      assert g == u || TookTurn(w, g, k);
    }
  }

  lemma AcquireHolder(w: World, u: Gid, g: Gid)
    requires WellFormed(w) && CanMove(w, Lock(Acquire(u))) && g < |w.jobs|
    requires Holding(w, g) ==> IsLast(w, g)
    requires PointsAtHeld(Apply(w.locks, Acquire(u))) && OwnersHold(Apply(w.locks, Acquire(u)))
    ensures Holding(Moved(w, Lock(Acquire(u))), g) ==> IsLast(Moved(w, Lock(Acquire(u))), g)
  {
    var w' := Moved(w, Lock(Acquire(u)));
    AcquireAddsTurn(w, u, w.jobs[g].key);
    if Holding(w', g) && w.jobs[g].key == w.jobs[u].key { SameKeySameHolder(w', g, u); }
  }

  lemma AcquireKeepsLast(w: World, u: Gid)
    requires WellFormed(w) && HolderIsLast(w) && CanMove(w, Lock(Acquire(u)))
    requires PointsAtHeld(Apply(w.locks, Acquire(u))) && OwnersHold(Apply(w.locks, Acquire(u)))
    ensures HolderIsLast(Moved(w, Lock(Acquire(u))))
  {
    forall g: Gid | g < |w.jobs|
      ensures Holding(Moved(w, Lock(Acquire(u))), g) ==> IsLast(Moved(w, Lock(Acquire(u))), g)
    {
      AcquireHolder(w, u, g);
    }
  }

  lemma LockKeepsStages(w: World, step: Step)
    requires WellFormed(w) && StagesMatch(w) && CanMove(w, Lock(step))
    ensures StagesMatch(Moved(w, Lock(step)))
  {
    var w' := Moved(w, Lock(step));
    forall g | 0 <= g < |w.jobs| && Holding(w', g) && w'.stages[g].HasRead? ensures Holding(w, g) {
      assert g == step.g ==> !Before(w.locks.gs[g]);
    }
  }

  lemma LockKeepsSerial(w: World, step: Step, rows0: map<Key, Fields>)
    requires WellFormed(w) && StagesMatch(w) && Serial(w, rows0) && CanMove(w, Lock(step))
    ensures Serial(Moved(w, Lock(step)), rows0)
  {}

  /** A job not among the turns does not matter to them. */
  lemma {:induction false} ReplayIgnores(jobs: seq<Job>, turns: seq<Gid>, applied: set<Gid>, g: Gid,
                                         row: Option<Fields>)
    requires g !in turns
    ensures Replay(jobs, turns, applied + {g}, row) == Replay(jobs, turns, applied, row)
  {
    if turns != [] { ReplayIgnores(jobs, turns[..|turns| - 1], applied, g, row); }
  }

  lemma WriteKeepsSerial(w: World, g: Gid, rows0: map<Key, Fields>)
    requires WellFormed(w) && TurnsTaken(w) && StagesMatch(w) && Serial(w, rows0) && CanMove(w, Write(g, true))
    ensures Serial(Moved(w, Write(g, true)), rows0)
  {
    var w' := Moved(w, Write(g, true));
    var key := w.jobs[g].key;
    forall k ensures Row(w'.rows, k) == Replay(w'.jobs, Turns(w'.turns, k), w'.applied, Row(rows0, k)) {
      var t := Turns(w.turns, k);
      if k == key {
        var before := t[..|t| - 1];
        assert g !in before;
        ReplayIgnores(w.jobs, before, w.applied, g, Row(rows0, k));
        assert Row(w.rows, k) == Replay(w.jobs, before, w.applied, Row(rows0, k));
      } else {
        assert g !in t;
        ReplayIgnores(w.jobs, t, w.applied, g, Row(rows0, k));
      }
    }
  }

  lemma WriteKeepsStages(w: World, g: Gid, applied: bool)
    requires WellFormed(w) && PointsAtHeld(w.locks) && OwnersHold(w.locks) && StagesMatch(w) &&
      CanMove(w, Write(g, applied))
    ensures StagesMatch(Moved(w, Write(g, applied)))
  {
    var w' := Moved(w, Write(g, applied));
    forall u | 0 <= u < |w'.jobs| && Holding(w', u) && w'.stages[u].HasRead?
      ensures w'.stages[u].row == Row(w'.rows, w'.jobs[u].key)
    {
      assert Holding(w, u);
      if w.jobs[u].key == w.jobs[g].key { SameKeySameHolder(w, u, g); }
    }
  }

  lemma LockKeepsShape(w: World, step: Step)
    requires WellFormed(w) && CanMove(w, Lock(step))
    ensures WellFormed(Moved(w, Lock(step))) && Moved(w, Lock(step)).locks == Apply(w.locks, step)
  {}

  lemma LockKeepsTurns(w: World, step: Step)
    requires WellFormed(w) && TurnsTaken(w) && CanMove(w, Lock(step))
    requires PointsAtHeld(Apply(w.locks, step)) && OwnersHold(Apply(w.locks, step))
    ensures TurnsTaken(Moved(w, Lock(step)))
  {
    if step.Acquire? {
      AcquireKeepsOnce(w, step.g);
      AcquireKeepsLast(w, step.g);
    } else {
      SameTurns(w, Moved(w, Lock(step)));
    }
  }

  lemma LockKeepsInv(w: World, step: Step, rows0: map<Key, Fields>)
    requires WorldInv(w, rows0) && CanMove(w, Lock(step))
    ensures WorldInv(Moved(w, Lock(step)), rows0)
  {
    StepKeepsInv(w.locks, step);
    LockKeepsShape(w, step);
    LockKeepsStages(w, step);
    LockKeepsSerial(w, step, rows0);
    LockKeepsTurns(w, step);
  }

  lemma MoveKeepsInv(w: World, m: Move, rows0: map<Key, Fields>)
    requires WorldInv(w, rows0) && CanMove(w, m)
    ensures WorldInv(Moved(w, m), rows0)
  {
    match m
    case Lock(step) => LockKeepsInv(w, step, rows0);
    case Read(g) =>
      ReadKeepsStages(w, g);
      SameTurns(w, Moved(w, m));
      NoWriteKeepsSerial(w, m, rows0);
    case Write(g, applied) =>
      WriteKeepsStages(w, g, applied);
      SameTurns(w, Moved(w, m));
      if applied { WriteKeepsSerial(w, g, rows0); } else { NoWriteKeepsSerial(w, m, rows0); }
  }

  lemma ReadKeepsStages(w: World, g: Gid)
    requires WellFormed(w) && StagesMatch(w) && CanMove(w, Read(g))
    ensures StagesMatch(Moved(w, Read(g)))
  {}

  lemma SameTurns(w: World, w': World)
    requires WellFormed(w) && TurnsTaken(w) && WellFormed(w') && w'.turns == w.turns && w'.jobs == w.jobs
    requires forall g :: 0 <= g < |w.jobs| && Before(w'.locks.gs[g]) ==> Before(w.locks.gs[g])
    requires forall g :: 0 <= g < |w.jobs| && Holding(w', g) ==> Holding(w, g)
    ensures TurnsTaken(w')
  {}

  lemma NoWriteKeepsSerial(w: World, m: Move, rows0: map<Key, Fields>)
    requires WellFormed(w) && Serial(w, rows0) && CanMove(w, m) && (m.Read? || (m.Write? && !m.applied))
    ensures Serial(Moved(w, m), rows0)
  {}

  ghost predicate CanPlay(w: World, moves: seq<Move>)
    requires |w.locks.gs| == |w.jobs| == |w.stages|
    decreases |moves|
  {
    moves != [] ==> CanMove(w, moves[0]) && CanPlay(Moved(w, moves[0]), moves[1..])
  }

  ghost function Play(w: World, moves: seq<Move>): World
    requires |w.locks.gs| == |w.jobs| == |w.stages| && CanPlay(w, moves)
    decreases |moves|
  {
    if moves == [] then w else Play(Moved(w, moves[0]), moves[1..])
  }

  lemma {:induction false} PlayKeepsInv(w: World, moves: seq<Move>, rows0: map<Key, Fields>)
    requires WorldInv(w, rows0) && CanPlay(w, moves)
    ensures WorldInv(Play(w, moves), rows0)
    decreases |moves|
  {
    if moves != [] {
      MoveKeepsInv(w, moves[0], rows0);
      PlayKeepsInv(Moved(w, moves[0]), moves[1..], rows0);
    }
  }

  lemma InitWorldInv(w: World)
    requires Init(w)
    ensures WorldInv(w, w.rows)
  {}

  /** Any interleaving leaves every entry as running its jobs one after another, in the order they had its lock. */
  lemma Serialised(w: World, moves: seq<Move>, key: Key)
    requires Init(w) && CanPlay(w, moves)
    ensures var r := Play(w, moves);
      Row(r.rows, key) == Replay(r.jobs, Turns(r.turns, key), r.applied, Row(w.rows, key))
    ensures forall g :: g in Turns(Play(w, moves).turns, key) ==>
      g < |Play(w, moves).jobs| && Play(w, moves).jobs[g].key == key
    ensures NoRepeats(Turns(Play(w, moves).turns, key))
  {
    InitWorldInv(w);
    PlayKeepsInv(w, moves, w.rows);
    var r := Play(w, moves);
    forall g | g in Turns(r.turns, key) ensures g < |r.jobs| && r.jobs[g].key == key {
      assert TookTurn(r, g, key);
    }
  }

  predicate SuppliesComment(op: Op) {
    match op
    case Update(p) => p.comment.Some?
    case _ => true
  }

  predicate SuppliesEnabled(op: Op) {
    match op
    case Update(p) => p.enabled.Some?
    case _ => true
  }

  /** Later turns that do not supply a field leave it as it is; an update never removes or creates the entry. */
  lemma {:induction false} FieldSurvives(jobs: seq<Job>, earlier: seq<Gid>, later: seq<Gid>, applied: set<Gid>,
                                         row: Option<Fields>)
    requires Replay(jobs, earlier, applied, row).Some?
    requires forall g :: g in later && g in applied && g < |jobs| ==> jobs[g].op.Update?
    ensures var mid, end := Replay(jobs, earlier, applied, row), Replay(jobs, earlier + later, applied, row);
      && end.Some?
      && ((forall g :: g in later && g in applied && g < |jobs| ==> !SuppliesComment(jobs[g].op)) ==>
            end.value.comment == mid.value.comment)
      && ((forall g :: g in later && g in applied && g < |jobs| ==> !SuppliesEnabled(jobs[g].op)) ==>
            end.value.enabled == mid.value.enabled)
  {
    if later == [] {
      assert earlier + later == earlier;
    } else {
      var n := |later| - 1;
      FieldSurvives(jobs, earlier, later[..n], applied, row);
      assert (earlier + later)[..|earlier + later| - 1] == earlier + later[..n];
    }
  }

  /** A removed entry stays away until it is written or added again: an update does not bring it back. */
  lemma {:induction false} GoneStays(jobs: seq<Job>, earlier: seq<Gid>, later: seq<Gid>, applied: set<Gid>,
                                     row: Option<Fields>)
    requires Replay(jobs, earlier, applied, row).None?
    requires forall g :: g in later && g in applied && g < |jobs| ==> jobs[g].op.Update? || jobs[g].op.SyncDelete?
    ensures Replay(jobs, earlier + later, applied, row).None?
  {
    if later == [] {
      assert earlier + later == earlier;
    } else {
      var n := |later| - 1;
      GoneStays(jobs, earlier, later[..n], applied, row);
      assert (earlier + later)[..|earlier + later| - 1] == earlier + later[..n];
    }
  }

  /** What one write leaves of its entry, and that it touches no other. An update leaves what it read with what it
      supplied in place; an add of a stored entry that Pi-hole does not overwrite leaves it. */
  lemma WriteTold(w: World, g: Gid, key: Key)
    requires WellFormed(w) && CanMove(w, Write(g, true))
    ensures var before, after := Row(w.rows, key), Row(Moved(w, Write(g, true)).rows, key);
      if key != w.jobs[g].key then after == before
      else match w.jobs[g].op
        case SyncPut(f) => after == Some(f)
        case SyncAdd(f, overwrites) => after == if before.None? || overwrites then Some(f) else before
        case SyncDelete => after == None
        case Update(p) =>
          && w.stages[g].HasRead? && w.stages[g].row.Some? && after.Some?
          && (p.comment.Some? ==> p.comment == Some(after.value.comment))
          && (p.comment.None? ==> after.value.comment == w.stages[g].row.value.comment)
          && (p.enabled.Some? ==> p.enabled == Some(after.value.enabled))
          && (p.enabled.None? ==> after.value.enabled == w.stages[g].row.value.enabled)
  {}

  // ---- No lost update ----

  /** Whoever has had the lock of its key is among that key's turns. */
  ghost predicate TurnsComplete(w: World)
    requires WellFormed(w)
  {
    forall g :: 0 <= g < |w.jobs| && !Before(w.locks.gs[g]) ==> g in Turns(w.turns, w.jobs[g].key)
  }

  /** A write that was carried out found what it needs: an update its entry, and a comment of allowed length. */
  predicate MayFollow(op: Op, row: Option<Fields>) {
    op.Update? ==> row.Some? && !TooLong(op.patch)
  }

  /** The row that the turn at p came upon. */
  function RowAt(w: World, key: Key, p: nat, row: Option<Fields>): Option<Fields>
    requires p <= |Turns(w.turns, key)|
  {
    Replay(w.jobs, Turns(w.turns, key)[..p], w.applied, row)
  }

  ghost predicate FoundAt(w: World, rows0: map<Key, Fields>, key: Key, p: nat)
    requires p < |Turns(w.turns, key)|
  {
    var g := Turns(w.turns, key)[p];
    g in w.applied && g < |w.jobs| ==> MayFollow(w.jobs[g].op, RowAt(w, key, p, Row(rows0, key)))
  }

  ghost predicate AllFound(w: World, rows0: map<Key, Fields>) {
    forall key, p: nat :: p < |Turns(w.turns, key)| ==> FoundAt(w, rows0, key, p)
  }

  lemma MoveKeepsComplete(w: World, m: Move)
    requires WellFormed(w) && TurnsComplete(w) && CanMove(w, m) && WellFormed(Moved(w, m))
    ensures TurnsComplete(Moved(w, m))
  {
    var w' := Moved(w, m);
    forall g | 0 <= g < |w'.jobs| && !Before(w'.locks.gs[g]) ensures g in Turns(w'.turns, w'.jobs[g].key) {
      if m.Lock? && m.step.Acquire? {
        AcquireAddsTurn(w, m.step.g, w.jobs[g].key);
      }
    }
  }

  lemma LockKeepsFound(w: World, step: Step, rows0: map<Key, Fields>)
    requires WellFormed(w) && StagesMatch(w) && AllFound(w, rows0) && CanMove(w, Lock(step))
    ensures AllFound(Moved(w, Lock(step)), rows0)
  {
    var w' := Moved(w, Lock(step));
    forall key, p: nat | p < |Turns(w'.turns, key)| ensures FoundAt(w', rows0, key, p) {
      if step.Acquire? { AcquireAddsTurn(w, step.g, key); }
      var t, t' := Turns(w.turns, key), Turns(w'.turns, key);
      if p < |t| {
        assert FoundAt(w, rows0, key, p) && t'[..p] == t[..p] && t'[p] == t[p];
      }
    }
  }

  lemma WriteKeepsFound(w: World, g: Gid, rows0: map<Key, Fields>, key: Key, p: nat)
    requires WellFormed(w) && TurnsTaken(w) && StagesMatch(w) && Serial(w, rows0) && CanMove(w, Write(g, true))
    requires p < |Turns(w.turns, key)| && FoundAt(w, rows0, key, p)
    ensures FoundAt(Moved(w, Write(g, true)), rows0, key, p)
  {
    var t := Turns(w.turns, key);
    var own := Turns(w.turns, w.jobs[g].key);
    assert own[|own| - 1] == g;
    if key != w.jobs[g].key {
      assert g in t ==> TookTurn(w, g, key);
    }
    assert g !in t[..p];
    ReplayIgnores(w.jobs, t[..p], w.applied, g, Row(rows0, key));
    if t[p] == g {
      assert p == |t| - 1 && g !in w.applied;
      assert Row(w.rows, key) == RowAt(w, key, p, Row(rows0, key));
    }
  }

  lemma MoveKeepsFound(w: World, m: Move, rows0: map<Key, Fields>)
    requires WorldInv(w, rows0) && AllFound(w, rows0) && CanMove(w, m)
    ensures AllFound(Moved(w, m), rows0)
  {
    match m
    case Lock(step) => LockKeepsFound(w, step, rows0);
    case Read(g) => SameFound(w, Moved(w, m), rows0);
    case Write(g, applied) =>
      if applied {
        forall key, p: nat | p < |Turns(w.turns, key)| ensures FoundAt(Moved(w, m), rows0, key, p) {
          WriteKeepsFound(w, g, rows0, key, p);
        }
      } else {
        SameFound(w, Moved(w, m), rows0);
      }
  }

  lemma SameFound(w: World, w': World, rows0: map<Key, Fields>)
    requires AllFound(w, rows0) && w'.turns == w.turns && w'.jobs == w.jobs && w'.applied == w.applied
    ensures AllFound(w', rows0)
  {
    forall key, p: nat | p < |Turns(w'.turns, key)| ensures FoundAt(w', rows0, key, p) {
      assert FoundAt(w, rows0, key, p);
    }
  }

  lemma {:induction false} PlayKeepsFound(w: World, moves: seq<Move>, rows0: map<Key, Fields>)
    requires WorldInv(w, rows0) && TurnsComplete(w) && AllFound(w, rows0) && CanPlay(w, moves)
    ensures var r := Play(w, moves); WorldInv(r, rows0) && TurnsComplete(r) && AllFound(r, rows0)
    decreases |moves|
  {
    if moves != [] {
      MoveKeepsInv(w, moves[0], rows0);
      MoveKeepsComplete(w, moves[0]);
      MoveKeepsFound(w, moves[0], rows0);
      PlayKeepsFound(Moved(w, moves[0]), moves[1..], rows0);
    }
  }

  /** h had its turn on g's entry after g, and its write was carried out. */
  ghost predicate WroteAfter(w: World, g: Gid, h: Gid)
    requires g < |w.jobs|
  {
    var t := Turns(w.turns, w.jobs[g].key);
    h in w.applied && exists p, q :: 0 <= p < q < |t| && t[p] == g && t[q] == h
  }

  /** The comment that a write gives its entry, and the flag. */
  function GivesComment(op: Op): Option<string> {
    match op
    case Update(p) => p.comment
    case SyncPut(f) => Some(f.comment)
    case SyncAdd(f, true) => Some(f.comment)
    case _ => None
  }

  function GivesEnabled(op: Op): Option<bool> {
    match op
    case Update(p) => p.enabled
    case SyncPut(f) => Some(f.enabled)
    case SyncAdd(f, true) => Some(f.enabled)
    case _ => None
  }

  /** No write after g's replaces what supplies says it supplied: they are updates that did not supply it. */
  ghost predicate Untouched(w: World, g: Gid, supplies: Op -> bool)
    requires g < |w.jobs|
  {
    forall h: Gid :: WroteAfter(w, g, h) && h < |w.jobs| ==> w.jobs[h].op.Update? && !supplies(w.jobs[h].op)
  }

  ghost predicate KeptComment(w: World, g: Gid)
    requires g < |w.jobs|
  {
    var op, row := w.jobs[g].op, Row(w.rows, w.jobs[g].key);
    GivesComment(op).Some? && Untouched(w, g, o => SuppliesComment(o)) ==>
      row.Some? && row.value.comment == GivesComment(op).value
  }

  ghost predicate KeptEnabled(w: World, g: Gid)
    requires g < |w.jobs|
  {
    var op, row := w.jobs[g].op, Row(w.rows, w.jobs[g].key);
    GivesEnabled(op).Some? && Untouched(w, g, o => SuppliesEnabled(o)) ==>
      row.Some? && row.value.enabled == GivesEnabled(op).value
  }

  /** No write after g's is a PUT or an add by a sync. */
  ghost predicate NotBroughtBack(w: World, g: Gid)
    requires g < |w.jobs|
  {
    forall h: Gid :: WroteAfter(w, g, h) && h < |w.jobs| ==> w.jobs[h].op.Update? || w.jobs[h].op.SyncDelete?
  }

  /** In every interleaving of any number of updates and sync writes: what a write gave an entry is still there until
      another write that supplies it, or removes the entry, has had its turn after it; and an entry that a write
      removed is still gone until another adds it. */
  lemma NoLostUpdate(w: World, moves: seq<Move>, g: Gid)
    requires Init(w) && CanPlay(w, moves)
    ensures var r := Play(w, moves); g in r.applied ==> g < |r.jobs| && g in Turns(r.turns, r.jobs[g].key)
    ensures var r := Play(w, moves); g in r.applied ==> KeptComment(r, g) && KeptEnabled(r, g)
    ensures var r := Play(w, moves);
      g in r.applied && r.jobs[g].op.SyncDelete? && NotBroughtBack(r, g) ==> Row(r.rows, r.jobs[g].key).None?
  {
    InitWorldInv(w);
    assert TurnsComplete(w) && AllFound(w, w.rows);
    PlayKeepsFound(w, moves, w.rows);
    var r := Play(w, moves);
    if g in r.applied {
      assert r.stages[g].Written? && !Before(r.locks.gs[g]);
      var t := Turns(r.turns, r.jobs[g].key);
      var p :| 0 <= p < |t| && t[p] == g;
      CommentFrom(r, w.rows, g, p);
      EnabledFrom(r, w.rows, g, p);
      if r.jobs[g].op.SyncDelete? { GoneFrom(r, w.rows, g, p); }
    }
  }

  /** The turns of g's entry up to g's, and those after it. */
  lemma TurnSplit(r: World, rows0: map<Key, Fields>, g: Gid, p: nat)
    requires WellFormed(r) && Serial(r, rows0) && g in r.applied && g < |r.jobs|
    requires p < |Turns(r.turns, r.jobs[g].key)| && Turns(r.turns, r.jobs[g].key)[p] == g
    ensures var t, row := Turns(r.turns, r.jobs[g].key), Row(rows0, r.jobs[g].key);
      && t[..p + 1] + t[p + 1..] == t
      && Replay(r.jobs, t[..p + 1], r.applied, row) == Effect(r.jobs[g].op, RowAt(r, r.jobs[g].key, p, row))
      && forall h :: h in t[p + 1..] && h in r.applied ==> WroteAfter(r, g, h)
  {
    var t := Turns(r.turns, r.jobs[g].key);
    assert t[..p + 1][..p] == t[..p];
    forall h | h in t[p + 1..] && h in r.applied ensures WroteAfter(r, g, h) {
      var q :| 0 <= q < |t[p + 1..]| && t[p + 1..][q] == h;
      assert t[p + 1 + q] == h;
    }
  }

  lemma GoneFrom(r: World, rows0: map<Key, Fields>, g: Gid, p: nat)
    requires WellFormed(r) && Serial(r, rows0) && g in r.applied && g < |r.jobs| && r.jobs[g].op.SyncDelete?
    requires p < |Turns(r.turns, r.jobs[g].key)| && Turns(r.turns, r.jobs[g].key)[p] == g
    ensures NotBroughtBack(r, g) ==> Row(r.rows, r.jobs[g].key).None?
  {
    var t := Turns(r.turns, r.jobs[g].key);
    TurnSplit(r, rows0, g, p);
    if NotBroughtBack(r, g) {
      GoneStays(r.jobs, t[..p + 1], t[p + 1..], r.applied, Row(rows0, r.jobs[g].key));
    }
  }

  lemma CommentFrom(r: World, rows0: map<Key, Fields>, g: Gid, p: nat)
    requires WellFormed(r) && Serial(r, rows0) && AllFound(r, rows0) && g in r.applied && g < |r.jobs|
    requires p < |Turns(r.turns, r.jobs[g].key)| && Turns(r.turns, r.jobs[g].key)[p] == g
    ensures KeptComment(r, g)
  {
    var t := Turns(r.turns, r.jobs[g].key);
    assert FoundAt(r, rows0, r.jobs[g].key, p);
    TurnSplit(r, rows0, g, p);
    if GivesComment(r.jobs[g].op).Some? && Untouched(r, g, o => SuppliesComment(o)) {
      FieldSurvives(r.jobs, t[..p + 1], t[p + 1..], r.applied, Row(rows0, r.jobs[g].key));
    }
  }

  lemma EnabledFrom(r: World, rows0: map<Key, Fields>, g: Gid, p: nat)
    requires WellFormed(r) && Serial(r, rows0) && AllFound(r, rows0) && g in r.applied && g < |r.jobs|
    requires p < |Turns(r.turns, r.jobs[g].key)| && Turns(r.turns, r.jobs[g].key)[p] == g
    ensures KeptEnabled(r, g)
  {
    var t := Turns(r.turns, r.jobs[g].key);
    assert FoundAt(r, rows0, r.jobs[g].key, p);
    TurnSplit(r, rows0, g, p);
    if GivesEnabled(r.jobs[g].op).Some? && Untouched(r, g, o => SuppliesEnabled(o)) {
      FieldSurvives(r.jobs, t[..p + 1], t[p + 1..], r.applied, Row(rows0, r.jobs[g].key));
    }
  }
}
