/** The session id a client's goroutines share: the double-checked login, and the refresh after a 401. */
module Sessions {
  import opened Ordering

  /** What POST /api/auth answered. */
  datatype Login = Granted(sid: string) | Refused

  datatype Result = Ok(sid: string) | Err

  class Client {
    var sid: string

    constructor ()
      ensures sid == ""
    {
      sid := "";
    }

    /** login. */
    method LogIn(answer: Login) returns (ok: bool)
      modifies this
      ensures ok == answer.Granted?
      ensures sid == if answer.Granted? then answer.sid else old(sid)
    {
      ok := answer.Granted?;
      if ok { sid := answer.sid; }
    }

    /** The part of ensureAuth under the write lock. answer is what a login would meet. */
    method EnsureAuth(answer: Login) returns (r: Result)
      modifies this
      ensures (sid, r) == Ensured(old(sid), answer)
      ensures r == if old(sid) != "" || answer.Granted? then Ok(sid) else Err
      ensures sid == if old(sid) == "" && answer.Granted? then answer.sid else old(sid)
    {
      if sid != "" { return Ok(sid); }
      var ok := LogIn(answer);
      if !ok { return Err; }
      return Ok(sid);
    }

    /** handleAuthRetry. */
    method HandleAuthRetry(oldSid: string, answer: Login) returns (r: Result)
      modifies this
      ensures (sid, r) == Refreshed(old(sid), oldSid, answer)
      ensures r == if old(sid) != oldSid || answer.Granted? then Ok(sid) else Err
      ensures old(sid) != oldSid ==> sid == old(sid)
      ensures old(sid) == oldSid ==> sid == if answer.Granted? then answer.sid else ""
      ensures r.Ok? && (answer.Granted? ==> answer.sid != oldSid) ==> r.sid != oldSid
    {
      if sid != oldSid { return Ok(sid); }
      sid := "";
      var ok := LogIn(answer);
      if !ok { return Err; }
      return Ok(sid);
    }
  }

  function Ensured(sid: string, answer: Login): (string, Result) {
    if sid != "" then (sid, Ok(sid))
    else if answer.Granted? then (answer.sid, Ok(answer.sid))
    else (sid, Err)
  }

  function Refreshed(sid: string, oldSid: string, answer: Login): (string, Result) {
    if sid != oldSid then (sid, Ok(sid))
    else if answer.Granted? then (answer.sid, Ok(answer.sid))
    else ("", Err)
  }

  /** A goroutine's place: with no session, past ensureAuth's unlocked look, sending under a session id, or sending
      again under what handleAuthRetry gave it after a 401 met under stale. */
  datatype Place = Idle | Queued | Sending(sid: string) | Replaying(sid: string, stale: string)

  /** issued lists the ids Pi-hole granted; refreshes the ids for which handleAuthRetry sent a login. */
  datatype State = State(sid: string, places: seq<Place>, issued: seq<string>, refreshes: seq<string>)

  /** A goroutine looks at the id without the lock, takes the lock to make sure of one, finishes a request, or meets a
      401 and comes to handleAuthRetry. Each locked part is one step. A replay is sent once, whatever its answer. */
  datatype Step = Look(g: nat) | Ensure(g: nat, answer: Login) | Answered(g: nat) | Unauthorised(g: nat, answer: Login)

  /** Pi-hole grants ids it has not granted before, and none of them empty. */
  predicate FreshAnswer(s: State, answer: Login) {
    answer.Granted? ==> answer.sid != "" && answer.sid !in s.issued
  }

  predicate Enabled(s: State, step: Step) {
    step.g < |s.places| &&
    match step
    case Look(g) => s.places[g].Idle?
    case Ensure(g, answer) => s.places[g].Queued? && FreshAnswer(s, answer)
    case Answered(g) => s.places[g].Sending? || s.places[g].Replaying?
    case Unauthorised(g, answer) => s.places[g].Sending? && FreshAnswer(s, answer)
  }

  function Apply(s: State, step: Step): State
    requires Enabled(s, step)
  {
    match step
    case Look(g) => s.(places := s.places[g := if s.sid != "" then Sending(s.sid) else Queued])
    case Ensure(g, answer) =>
      var (sid, r) := Ensured(s.sid, answer);
      s.(sid := sid, places := s.places[g := if r.Ok? then Sending(r.sid) else Idle],
         issued := if s.sid == "" && answer.Granted? then s.issued + [answer.sid] else s.issued)
    case Answered(g) => s.(places := s.places[g := Idle])
    case Unauthorised(g, answer) =>
      var oldSid := s.places[g].sid;
      var (sid, r) := Refreshed(s.sid, oldSid, answer);
      s.(sid := sid, places := s.places[g := if r.Ok? then Replaying(r.sid, oldSid) else Idle],
         issued := if s.sid == oldSid && answer.Granted? then s.issued + [answer.sid] else s.issued,
         refreshes := if s.sid == oldSid then s.refreshes + [oldSid] else s.refreshes)
  }

  ghost predicate CanRun(s: State, steps: seq<Step>)
    decreases |steps|
  {
    steps != [] ==> Enabled(s, steps[0]) && CanRun(Apply(s, steps[0]), steps[1..])
  }

  ghost function Run(s: State, steps: seq<Step>): State
    requires CanRun(s, steps)
    decreases |steps|
  {
    if steps == [] then s else Run(Apply(s, steps[0]), steps[1..])
  }

  ghost predicate Inv(s: State) {
    && NoRepeats(s.issued) && NoRepeats(s.refreshes)
    && "" !in s.issued
    && (s.sid != "" ==> s.sid in s.issued && s.sid !in s.refreshes)
    && (forall r :: r in s.refreshes ==> r in s.issued)
    && (forall g :: 0 <= g < |s.places| && s.places[g].Sending? ==> s.places[g].sid in s.issued)
    && (forall g :: 0 <= g < |s.places| ==> SoundReplay(s, s.places[g]))
    && |s.issued| == |s.refreshes| + if s.sid != "" then 1 else 0
  }

  /** A replay goes out under another id than the request it repeats: one that Pi-hole granted, or none. */
  predicate SoundReplay(s: State, p: Place) {
    p.Replaying? ==> p.sid != p.stale && p.stale in s.issued && (p.sid in s.issued || p.sid == "")
  }

  lemma RefreshKeepsInv(s: State, g: nat, answer: Login)
    requires Inv(s) && Enabled(s, Unauthorised(g, answer))
    ensures Inv(Apply(s, Unauthorised(g, answer)))
  {
    var after := Apply(s, Unauthorised(g, answer));
    if s.sid == s.places[g].sid { assert s.sid != ""; }
    forall h | 0 <= h < |after.places|
      ensures after.places[h].Sending? ==> after.places[h].sid in after.issued
      ensures SoundReplay(after, after.places[h])
    {
      assert h != g ==> after.places[h] == s.places[h] && SoundReplay(s, s.places[h]);
    }
  }

  lemma OtherKeepsInv(s: State, step: Step)
    requires Inv(s) && Enabled(s, step) && !step.Unauthorised?
    ensures Inv(Apply(s, step))
  {
    var after := Apply(s, step);
    forall h | 0 <= h < |after.places|
      ensures after.places[h].Sending? ==> after.places[h].sid in after.issued
      ensures SoundReplay(after, after.places[h])
    {
      assert h != step.g ==> after.places[h] == s.places[h] && SoundReplay(s, s.places[h]);
    }
  }

  lemma StepKeepsInv(s: State, step: Step)
    requires Inv(s) && Enabled(s, step)
    ensures Inv(Apply(s, step))
  {
    match step
    case Unauthorised(g, answer) => RefreshKeepsInv(s, g, answer);
    case _ => OtherKeepsInv(s, step);
  }

  lemma {:induction false} RunKeepsInv(s: State, steps: seq<Step>)
    requires Inv(s) && CanRun(s, steps)
    ensures Inv(Run(s, steps)) && |Run(s, steps).places| == |s.places|
    decreases |steps|
  {
    if steps != [] {
      StepKeepsInv(s, steps[0]);
      RunKeepsInv(Apply(s, steps[0]), steps[1..]);
    }
  }

  ghost predicate Init(s: State) {
    s.sid == "" && s.issued == [] && s.refreshes == [] && forall g :: 0 <= g < |s.places| ==> s.places[g].Idle?
  }

  /** However many goroutines meet a 401 under one id, one of them logs in for it; every granted id but the current
      one was paid for by exactly one such refresh. */
  lemma OneRefreshPerSession(s: State, steps: seq<Step>)
    requires Init(s) && CanRun(s, steps)
    ensures var r := Run(s, steps);
      && NoRepeats(r.refreshes) && NoRepeats(r.issued)
      && (forall id :: id in r.refreshes ==> id in r.issued)
      && |r.issued| == |r.refreshes| + (if r.sid != "" then 1 else 0)
  {
    RunKeepsInv(s, steps);
  }

  /** In every interleaving a replay is never sent under the id that met the 401, and it is sent under an id that
      Pi-hole granted unless it is sent without one. */
  lemma ReplayNeverStale(s: State, steps: seq<Step>, g: nat)
    requires Init(s) && CanRun(s, steps) && g < |s.places|
    ensures |Run(s, steps).places| == |s.places|
    ensures var r := Run(s, steps);
      r.places[g].Replaying? ==>
        && r.places[g].sid != r.places[g].stale
        && r.places[g].stale in r.issued
        && (r.places[g].sid in r.issued <==> r.places[g].sid != "")
  {
    RunKeepsInv(s, steps);
    assert SoundReplay(Run(s, steps), Run(s, steps).places[g]);
  }

  /** After a 401 in a state that is reached, the request is given up exactly when its id was still the client's and
      the login was refused; otherwise it is replayed, under a granted id exactly when the client held some id as
      handleAuthRetry took the lock. */
  lemma ReplayIssuedExactly(s: State, steps: seq<Step>, g: nat, answer: Login)
    requires Init(s) && CanRun(s, steps) && Enabled(Run(s, steps), Unauthorised(g, answer))
    ensures var r := Run(s, steps);
      var after := Apply(r, Unauthorised(g, answer));
      && g < |after.places|
      && (after.places[g].Idle? <==> r.sid == r.places[g].sid && answer.Refused?)
      && (!after.places[g].Idle? ==>
            && after.places[g].Replaying? && after.places[g].stale == r.places[g].sid
            && after.places[g].sid == after.sid
            && (after.places[g].sid in after.issued <==> r.sid != ""))
  {
    RunKeepsInv(s, steps);
  }

  /** It does happen: two requests meet a 401 under one id, the login for the first is refused, and the second is
      replayed without a session. */
  lemma ReplayWithoutSession(id: string)
    requires id != ""
    ensures var s := State("", [Idle, Idle], [], []);
      var steps := [Look(0), Ensure(0, Granted(id)), Look(1), Unauthorised(0, Refused), Unauthorised(1, Refused)];
      Init(s) && CanRun(s, steps) && Run(s, steps).places == [Idle, Replaying("", id)]
  {
    var s0 := State("", [Idle, Idle], [], []);
    var last := [Unauthorised(1, Refused)];
    var four := [Unauthorised(0, Refused)] + last;
    var three := [Look(1)] + four;
    var two := [Ensure(0, Granted(id))] + three;
    var s1 := State("", [Queued, Idle], [], []);
    var s2 := State(id, [Sending(id), Idle], [id], []);
    var s3 := State(id, [Sending(id), Sending(id)], [id], []);
    var s4 := State("", [Idle, Sending(id)], [id], [id]);
    var s5 := State("", [Idle, Replaying("", id)], [id], [id]);
    OneStep(s4, last[0], [], s5);
    OneStep(s3, four[0], last, s4);
    OneStep(s2, three[0], four, s3);
    OneStep(s1, two[0], three, s2);
    OneStep(s0, Look(0), two, s1);
    assert [Look(0)] + two ==
      [Look(0), Ensure(0, Granted(id)), Look(1), Unauthorised(0, Refused), Unauthorised(1, Refused)];
  }

  lemma OneStep(s: State, step: Step, rest: seq<Step>, after: State)
    requires Enabled(s, step) && Apply(s, step) == after && CanRun(after, rest)
    ensures CanRun(s, [step] + rest) && Run(s, [step] + rest) == Run(after, rest)
  {
    assert ([step] + rest)[1..] == rest;
  }

  /** Goroutines starting together without a session, and meeting no 401, log in successfully once at most, and all
      send under that one id. */
  lemma OneLoginAtStart(s: State, steps: seq<Step>)
    requires Init(s) && CanRun(s, steps) && forall i :: 0 <= i < |steps| ==> !steps[i].Unauthorised?
    ensures var r := Run(s, steps);
      && |r.issued| <= 1
      && (forall g :: 0 <= g < |r.places| && r.places[g].Sending? ==>
          r.issued == [r.places[g].sid] && r.sid == r.places[g].sid)
  {
    RunKeepsInv(s, steps);
    NoRefreshes(s, steps);
    var r := Run(s, steps);
    if r.sid != "" { assert r.issued == [r.sid]; }
  }

  lemma {:induction false} NoRefreshes(s: State, steps: seq<Step>)
    requires CanRun(s, steps) && forall i :: 0 <= i < |steps| ==> !steps[i].Unauthorised?
    ensures Run(s, steps).refreshes == s.refreshes
    decreases |steps|
  {
    if steps != [] { NoRefreshes(Apply(s, steps[0]), steps[1..]); }
  }
}
