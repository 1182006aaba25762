/** The errors a request can end in, and what each one says about retrying and about the change having been made. */
module RequestErrors {

  datatype NetKind = Eof | UnexpectedEof | Reset | Aborted | BrokenPipe | Refused | Timeout | OtherNet

  /** Api is an APIError as it stands: classifyError turns the statuses it knows into types of their own, which carry
      the APIError but do not unwrap to it. Ended is a context cancelled or past its deadline, which an HTTP client
      timeout also reads as. Login wraps what went wrong while a session was being opened. */
  datatype Error =
    | Api(status: nat, retryAfter: nat)
    | AuthRefused
    | NotFound
    | Invalid
    | Forbidden
    | SessionLimit
    | RateLimit
    | Ended
    | Net(kind: NetKind)
    | Other
    | Login(inner: Error)

  function ClassifyError(status: nat, seatsExceeded: bool, retryAfter: nat): Error {
    match status
    case 401 => AuthRefused
    case 404 => NotFound
    case 400 => Invalid
    case 403 => Forbidden
    case 429 => if seatsExceeded then SessionLimit else RateLimit
    case _ => Api(status, retryAfter)
  }

  /** What errors.Is and errors.As find at the end of the chain. */
  function Root(e: Error): Error {
    match e
    case Login(inner) => Root(inner)
    case _ => e
  }

  predicate ServerUnavailable(e: Error) {
    Root(e).Api? && Root(e).status >= 500
  }

  predicate TransientNetErr(e: Error) {
    Root(e).Net? && !Root(e).kind.OtherNet?
  }

  predicate Retryable(e: Error, idempotent: bool) {
    if Root(e).Ended? then false
    else if Root(e).SessionLimit? then false
    else if Root(e).RateLimit? then true
    else if e.Login? then ServerUnavailable(e) || TransientNetErr(e)
    else if !idempotent then false
    else ServerUnavailable(e) || TransientNetErr(e)
  }

  /** Whether a sent request may have been processed although no reply says so. */
  predicate MayHaveApplied(e: Error, live: bool) {
    if e.Login? || Root(e) == Net(Refused) then false
    else if Root(e).Ended? then live
    else Root(e).Net? && !Root(e).kind.OtherNet?
  }

  function RetryAfterOf(e: Error): nat {
    if Root(e).Api? then Root(e).retryAfter else 0
  }

  datatype Method = GET | HEAD | POST | PUT | PATCH | DELETE

  predicate IdempotentMethod(m: Method) {
    m.GET? || m.HEAD?
  }
}

/** Client.Do: retries around login, send, one replay after a 401, and the marking of lost replies. */
module Requests {
  import opened RequestErrors
  import opened Backoff
  import opened Wrappers

  /** What happens to one request. located says whether the reply has a Location header, and processed whether Pi-hole
      carried the request out. */
  datatype Exchange =
    | NotSent(error: Error)
    | Replied(status: nat, located: bool, seatsExceeded: bool, retryAfter: nat, decodes: bool, processed: bool)
    | ReplyLost(error: Error, processed: bool)

  /** A 401 or a 429 is a refusal, and a request that did not go out or met a dead context changed nothing. A reply
      can be lost to any error of the network, of the context, or of reading it. */
  ghost predicate Possible(x: Exchange, live: bool) {
    match x
    case NotSent(e) => e.Ended? || e.Net? || e.Other?
    case Replied(status, _, _, _, _, processed) => live && (status == 401 || status == 429 ==> !processed)
    case ReplyLost(e, _) => live && (e.Ended? || e.Net? || e.Other?)
  }

  predicate Processed(x: Exchange) {
    !x.NotSent? && x.processed
  }

  /** doRequest. A redirect comes back as an error of its own, before its status is looked at. */
  function DoRequest(x: Exchange): Option<Error> {
    match x
    case NotSent(e) => Some(e)
    case ReplyLost(e, _) => Some(e)
    case Replied(status, located, seats, after, decodes, _) =>
      if 300 <= status < 400 && located then Some(Other)
      else if status == 204 then None
      else if status >= 400 then Some(ClassifyError(status, seats, after))
      else if !decodes then Some(Other)
      else None
  }

  /** login fails with a loginError, with a refusal of the password, or with a reply it cannot read. */
  ghost predicate PossibleLogin(r: Option<Error>) {
    r.Some? ==> r.value.Login? || r.value.AuthRefused? || r.value.Other?
  }

  /** What the network and the clock do to one attempt: the outcome of ensureAuth, of the request, of handleAuthRetry
      and of the replay, how long the wait after it is, and whether the caller outlasts it. */
  datatype Attempt = Attempt(auth: Option<Error>, first: Exchange, reauth: Option<Error>, replay: Exchange,
                             random: nat, outlasted: bool)

  ghost predicate PossibleAttempt(a: Attempt, live: bool) {
    Possible(a.first, live) && Possible(a.replay, live) && PossibleLogin(a.auth) && PossibleLogin(a.reauth)
  }

  /** The closure do hands to withRetry: the exchanges it makes and how it ends. */
  function Once(a: Attempt): (seq<Exchange>, Option<Error>) {
    if a.auth.Some? then ([], a.auth)
    else
      var e := DoRequest(a.first);
      if e != Some(AuthRefused) then ([a.first], e)
      else if a.reauth.Some? then ([a.first], a.reauth)
      else ([a.first, a.replay], DoRequest(a.replay))
  }

  /** sleepBackoff's wait. */
  function Wait(attempt: nat, maxDelay: Duration, e: Error, random: nat): int
    requires maxDelay > 0
  {
    if RetryAfterOf(e) > 0 then Min(RetryAfterOf(e), maxDelay) else Jittered(attempt, maxDelay, random)
  }

  datatype Run = Run(exchanges: seq<Exchange>, error: Option<Error>, waited: int)

  /** withRetry from a given attempt on. */
  function RunFrom(attempt: nat, maxRetries: nat, maxDelay: Duration, idempotent: bool, net: nat -> Attempt): (r: Run)
    requires maxDelay > 0
    decreases if attempt <= maxRetries then maxRetries - attempt + 1 else 0
  {
    var a := net(attempt);
    var (xs, e) := Once(a);
    if e.None? || attempt >= maxRetries || !Retryable(e.value, idempotent) then Run(xs, e, 0)
    else
      var w := Wait(attempt, maxDelay, e.value, a.random);
      if !a.outlasted then Run(xs, e, w)
      else
        After(xs, w, RunFrom(attempt + 1, maxRetries, maxDelay, idempotent, net))
  }

  /** A run with some exchanges and some waiting before it. */
  function After(xs: seq<Exchange>, waited: int, rest: Run): Run {
    Run(xs + rest.exchanges, rest.error, waited + rest.waited)
  }

  lemma AfterTwice(xs: seq<Exchange>, w: int, xs': seq<Exchange>, w': int, rest: Run)
    ensures After(xs, w, After(xs', w', rest)) == After(xs + xs', w + w', rest)
  {}

  // ---- A run told from its replies ----

  /** One turn of the retry loop: what it put on the wire, how it ended, and the wait after it. */
  datatype Turn = Turn(wire: seq<Exchange>, end: Option<Error>, waited: int)

  /** What the caller of one exchange gets. */
  ghost predicate Answers(x: Exchange, e: Option<Error>) {
    match x
    case NotSent(error) => e == Some(error)
    case ReplyLost(error, _) => e == Some(error)
    case Replied(status, located, seats, after, decodes, _) =>
      && (e.None? <==> status == 204 || (status < 400 && !(300 <= status && located) && decodes))
      && (e.Some? && status < 400 ==> e == Some(Other))
      && (status == 400 ==> e == Some(Invalid))
      && (status == 401 ==> e == Some(AuthRefused))
      && (status == 403 ==> e == Some(Forbidden))
      && (status == 404 ==> e == Some(NotFound))
      && (status == 429 ==> e == Some(if seats then SessionLimit else RateLimit))
      && (status >= 400 && status !in {400, 401, 403, 404, 429} ==> e == Some(Api(status, after)))
  }

  /** Without a session nothing is sent. The request goes out once; after a 401 it is replayed, and only once, if the
      session could be refreshed. */
  ghost predicate Sends(a: Attempt, t: Turn) {
    if a.auth.Some? then t.wire == [] && t.end == a.auth
    else if !(a.first.Replied? && a.first.status == 401) then t.wire == [a.first] && Answers(a.first, t.end)
    else if a.reauth.Some? then t.wire == [a.first] && t.end == a.reauth
    else t.wire == [a.first, a.replay] && Answers(a.replay, t.end)
  }

  /** What is worth another attempt: being told to slow down, always; a server error or a connection that failed, for
      a request that may be repeated or was not sent at all because the login failed. */
  ghost predicate WorthAnother(e: Error, idempotent: bool) {
    var root := Root(e);
    || root == RateLimit
    || ((idempotent || e.Login?) && ((root.Api? && root.status >= 500) || (root.Net? && !root.kind.OtherNet?)))
  }

  /** The wait after the given attempt: what the server asked for, up to the maximum, or else from half of the doubled
      base, up to the maximum, to the whole of it. */
  ghost predicate WaitsFor(attempt: nat, maxDelay: Duration, e: Error, waited: int) {
    if Root(e).Api? && Root(e).retryAfter > 0 then waited == Min(Root(e).retryAfter, maxDelay)
    else
      && 0 <= waited <= maxDelay
      && (maxDelay <= TWO_59 ==>
            Min(BASE_DELAY * Pow2(attempt), maxDelay) / 2 <= waited <= Min(BASE_DELAY * Pow2(attempt), maxDelay))
  }

  ghost predicate TurnTold(a: Attempt, attempt: nat, maxRetries: nat, maxDelay: Duration, idempotent: bool, t: Turn,
                           last: bool)
  {
    var another := attempt < maxRetries && t.end.Some? && WorthAnother(t.end.value, idempotent);
    && Sends(a, t)
    && (last <==> !another || !a.outlasted)
    && (if another then WaitsFor(attempt, maxDelay, t.end.value, t.waited) else t.waited == 0)
  }

  function Wire(turns: seq<Turn>): seq<Exchange> {
    if turns == [] then [] else turns[0].wire + Wire(turns[1..])
  }

  function Waited(turns: seq<Turn>): int {
    if turns == [] then 0 else turns[0].waited + Waited(turns[1..])
  }

  /** The run made these turns, from a given attempt on. */
  ghost predicate Tells(r: Run, attempt: nat, maxRetries: nat, maxDelay: Duration, idempotent: bool,
                        net: nat -> Attempt, turns: seq<Turn>)
  {
    && turns != []
    && (forall i :: 0 <= i < |turns| ==>
          TurnTold(net(attempt + i), attempt + i, maxRetries, maxDelay, idempotent, turns[i], i == |turns| - 1))
    && r.exchanges == Wire(turns) && r.waited == Waited(turns) && r.error == turns[|turns| - 1].end
  }

  lemma DoRequestAnswers(x: Exchange)
    ensures Answers(x, DoRequest(x))
  {}

  lemma RetryableIsWorth(e: Error, idempotent: bool)
    ensures Retryable(e, idempotent) <==> WorthAnother(e, idempotent)
  {}

  lemma WaitIsFor(attempt: nat, maxDelay: Duration, e: Error, random: nat)
    requires maxDelay > 0
    ensures WaitsFor(attempt, maxDelay, e, Wait(attempt, maxDelay, e, random))
  {
    CeilingExact(maxDelay);
    assert Ceiling(attempt, maxDelay) <= maxDelay;
  }

  lemma OnceSends(a: Attempt, live: bool, waited: int)
    requires PossibleAttempt(a, live)
    ensures Sends(a, Turn(Once(a).0, Once(a).1, waited))
  {
    DoRequestAnswers(a.first);
    DoRequestAnswers(a.replay);
  }

  lemma TellsMore(rest: Run, attempt: nat, maxRetries: nat, maxDelay: Duration, idempotent: bool,
                  net: nat -> Attempt, t: Turn, turns: seq<Turn>)
    requires Tells(rest, attempt + 1, maxRetries, maxDelay, idempotent, net, turns)
    requires TurnTold(net(attempt), attempt, maxRetries, maxDelay, idempotent, t, false)
    ensures Tells(After(t.wire, t.waited, rest), attempt, maxRetries, maxDelay, idempotent, net, [t] + turns)
  {
    var all := [t] + turns;
    assert all[1..] == turns;
    forall i | 0 <= i < |all|
      ensures TurnTold(net(attempt + i), attempt + i, maxRetries, maxDelay, idempotent, all[i], i == |all| - 1)
    {
      if i > 0 {
        assert TurnTold(net(attempt + 1 + (i - 1)), attempt + 1 + (i - 1), maxRetries, maxDelay, idempotent,
                        turns[i - 1], i - 1 == |turns| - 1);
      }
    }
  }

  lemma TellsLast(attempt: nat, maxRetries: nat, maxDelay: Duration, idempotent: bool, net: nat -> Attempt, t: Turn)
    requires TurnTold(net(attempt), attempt, maxRetries, maxDelay, idempotent, t, true)
    ensures Tells(Run(t.wire, t.end, t.waited), attempt, maxRetries, maxDelay, idempotent, net, [t])
  {
    assert Wire([t]) == t.wire + [] == t.wire;
  }

  /** What the loop makes of one attempt is a turn of its. */
  lemma TurnOf(a: Attempt, attempt: nat, maxRetries: nat, maxDelay: Duration, idempotent: bool, live: bool)
    returns (t: Turn)
    requires maxDelay > 0 && PossibleAttempt(a, live)
    ensures (t.wire, t.end) == Once(a)
    ensures var another := attempt < maxRetries && t.end.Some? && Retryable(t.end.value, idempotent);
      && TurnTold(a, attempt, maxRetries, maxDelay, idempotent, t, !(another && a.outlasted))
      && t.waited == if another then Wait(attempt, maxDelay, t.end.value, a.random) else 0
  {
    var (xs, e) := Once(a);
    var another := attempt < maxRetries && e.Some? && Retryable(e.value, idempotent);
    t := Turn(xs, e, if another then Wait(attempt, maxDelay, e.value, a.random) else 0);
    OnceSends(a, live, t.waited);
    if e.Some? {
      RetryableIsWorth(e.value, idempotent);
      WaitIsFor(attempt, maxDelay, e.value, a.random);
    }
  }

  /** Every run is told by its turns. */
  lemma {:induction false} RunTold(attempt: nat, maxRetries: nat, maxDelay: Duration, idempotent: bool,
                                   net: nat -> Attempt, live: bool)
    returns (turns: seq<Turn>)
    requires maxDelay > 0 && attempt <= maxRetries && PossibleNet(net, live)
    ensures Tells(RunFrom(attempt, maxRetries, maxDelay, idempotent, net), attempt, maxRetries, maxDelay, idempotent,
                  net, turns)
    decreases maxRetries - attempt
  {
    assert PossibleAttempt(net(attempt), live);
    var t := TurnOf(net(attempt), attempt, maxRetries, maxDelay, idempotent, live);
    turns := [t];
    if attempt < maxRetries && t.end.Some? && Retryable(t.end.value, idempotent) && net(attempt).outlasted {
      turns := RunTold(attempt + 1, maxRetries, maxDelay, idempotent, net, live);
      TellsMore(RunFrom(attempt + 1, maxRetries, maxDelay, idempotent, net), attempt, maxRetries, maxDelay, idempotent,
                net, t, turns);
      turns := [t] + turns;
    } else {
      TellsLast(attempt, maxRetries, maxDelay, idempotent, net, t);
    }
  }

  /** A run succeeds exactly when its last exchange is a reply that says so. */
  lemma {:induction false} SucceedsExactly(attempt: nat, maxRetries: nat, maxDelay: Duration, idempotent: bool,
                                           net: nat -> Attempt)
    requires maxDelay > 0 && attempt <= maxRetries
    ensures var r := RunFrom(attempt, maxRetries, maxDelay, idempotent, net);
      r.error.None? <==> r.exchanges != [] && Accepted(r.exchanges[|r.exchanges| - 1])
    decreases maxRetries - attempt
  {
    OnceSucceeds(net(attempt));
    var (xs, e) := Once(net(attempt));
    if e.Some? && attempt < maxRetries && Retryable(e.value, idempotent) && net(attempt).outlasted {
      SucceedsExactly(attempt + 1, maxRetries, maxDelay, idempotent, net);
      LastOf(xs, RunFrom(attempt + 1, maxRetries, maxDelay, idempotent, net).exchanges);
    }
  }

  lemma OnceSucceeds(a: Attempt)
    ensures Once(a).1.None? <==> Once(a).0 != [] && Accepted(Once(a).0[|Once(a).0| - 1])
  {}

  lemma LastOf(a: seq<Exchange>, b: seq<Exchange>)
    ensures b == [] ==> a + b == a
    ensures b != [] ==> (a + b)[|a + b| - 1] == b[|b| - 1]
  {}

  /** A 204, or a status below 400, unless it is a redirect, with a body that can be read. */
  predicate Accepted(x: Exchange) {
    x.Replied? && (x.status == 204 || (x.status < 400 && !(300 <= x.status && x.located) && x.decodes))
  }

  datatype Outcome = Success | Failed(error: Error) | Uncertain(error: Error)

  /** What Do makes of the run. */
  function OutcomeOf(m: Method, live: bool, e: Option<Error>): Outcome {
    if e.None? then Success
    else if !IdempotentMethod(m) && MayHaveApplied(e.value, live) then Uncertain(e.value)
    else Failed(e.value)
  }

  class Client {
    const maxRetries: nat
    const maxDelay: Duration

    /** WithRetry's repairs included: a negative count disables retrying, a missing delay takes the default. */
    constructor (maxRetries: int, maxDelay: Duration)
      ensures this.maxRetries == if maxRetries < 0 then 0 else maxRetries
      ensures this.maxDelay == if maxDelay <= 0 then DEFAULT_MAX_DELAY else maxDelay
      ensures this.maxDelay > 0
    {
      this.maxRetries := if maxRetries < 0 then 0 else maxRetries;
      this.maxDelay := if maxDelay <= 0 then DEFAULT_MAX_DELAY else maxDelay;
    }

    /** withRetry around the closure of do. */
    method WithRetry(idempotent: bool, net: nat -> Attempt) returns (r: Run)
      requires maxDelay > 0
      ensures r == RunFrom(0, maxRetries, maxDelay, idempotent, net)
    {
      ghost var whole := RunFrom(0, maxRetries, maxDelay, idempotent, net);
      var attempt, exchanges, waited := 0, [], 0;
      while true
        invariant attempt <= maxRetries
        invariant whole == After(exchanges, waited, RunFrom(attempt, maxRetries, maxDelay, idempotent, net))
        decreases maxRetries - attempt
      {
        var a := net(attempt);
        var (xs, e) := Once(a);
        exchanges := exchanges + xs;
        if e.None? || attempt >= maxRetries || !Retryable(e.value, idempotent) {
          return Run(exchanges, e, waited);
        }
        var d := BackoffDelay(attempt, maxDelay, a.random);
        if RetryAfterOf(e.value) > 0 { d := Min(RetryAfterOf(e.value), maxDelay); }
        waited := waited + d;
        if !a.outlasted { return Run(exchanges, e, waited); }
        ghost var rest := RunFrom(attempt + 1, maxRetries, maxDelay, idempotent, net);
        AfterTwice(exchanges[..|exchanges| - |xs|], waited - d, xs, d, rest);
        attempt := attempt + 1;
      }
    }

    /** Do. live is whether the request's context was still live when it began. */
    method Do(m: Method, live: bool, net: nat -> Attempt) returns (outcome: Outcome, r: Run)
      requires maxDelay > 0
      ensures r == RunFrom(0, maxRetries, maxDelay, IdempotentMethod(m), net)
      ensures outcome.Success? <==> r.exchanges != [] && var x := r.exchanges[|r.exchanges| - 1];
        x.Replied? && (x.status == 204 || (x.status < 400 && !(300 <= x.status && x.located) && x.decodes))
      ensures outcome.Success? <==> r.error.None?
      ensures outcome.Uncertain? <==>
        r.error.Some? && m !in {GET, HEAD} && !r.error.value.Login? && var root := Root(r.error.value);
        if root.Ended? then live else root.Net? && root.kind !in {Refused, OtherNet}
      ensures !outcome.Success? ==> outcome.error == r.error.value
      ensures PossibleNet(net, live) ==>
        exists turns :: Tells(r, 0, maxRetries, maxDelay, IdempotentMethod(m), net, turns)
      ensures PossibleNet(net, live) && !IdempotentMethod(m) ==> DoneAtMostOnce(r, outcome, maxRetries)
    {
      r := WithRetry(IdempotentMethod(m), net);
      outcome := OutcomeOf(m, live, r.error);
      SucceedsExactly(0, maxRetries, maxDelay, IdempotentMethod(m), net);
      if PossibleNet(net, live) {
        ghost var turns := RunTold(0, maxRetries, maxDelay, IdempotentMethod(m), net, live);
      }
      if !IdempotentMethod(m) {
        assert PossibleNet(net, live) ==> DoneAtMostOnce(r, outcome, maxRetries) by {
          if PossibleNet(net, live) { AtMostOnce(m, live, maxRetries, maxDelay, net); }
        }
      }
    }
  }

  ghost predicate PossibleNet(net: nat -> Attempt, live: bool) {
    forall i :: PossibleAttempt(net(i), live)
  }

  function CountProcessed(xs: seq<Exchange>): nat {
    if xs == [] then 0 else (if Processed(xs[0]) then 1 else 0) + CountProcessed(xs[1..])
  }

  lemma {:induction false} CountConcat(a: seq<Exchange>, b: seq<Exchange>)
    ensures CountProcessed(a + b) == CountProcessed(a) + CountProcessed(b)
  {
    if a == [] {
      assert a + b == b;
    } else {
      CountConcat(a[1..], b);
      assert (a + b)[1..] == a[1..] + b;
    }
  }

  /** How the last thing a run did ended, when it was an exchange. */
  ghost predicate EndsWith(r: Run, x: Exchange) {
    r.exchanges != [] && r.exchanges[|r.exchanges| - 1] == x && r.error == DoRequest(x)
  }

  lemma CountShort(x: Exchange, y: Exchange)
    ensures CountProcessed([x]) == if Processed(x) then 1 else 0
    ensures CountProcessed([x, y]) == (if Processed(x) then 1 else 0) + if Processed(y) then 1 else 0
  {
    assert [x][1..] == [] && [x, y][1..] == [y] && [y][1..] == [];
  }

  /** A reply that refused the request. */
  predicate Declined(x: Exchange) {
    x.Replied? && !x.processed
  }

  /** All but the last exchange were refused, and the last decided how it ended if it may have been carried out. */
  ghost predicate SafeRun(r: Run) {
    && CountProcessed(r.exchanges) <= 1
    && (forall i :: 0 <= i < |r.exchanges| - 1 ==> Declined(r.exchanges[i]))
    && (r.exchanges != [] ==> DecidedBy(r, r.exchanges[|r.exchanges| - 1]))
  }

  ghost predicate DecidedBy(r: Run, x: Exchange) {
    Processed(x) || !x.Replied? ==> EndsWith(r, x)
  }

  /** An attempt is carried out in its last exchange at most, and one that may be repeated not at all. */
  lemma OnceIsSafe(a: Attempt, live: bool, waited: int)
    requires PossibleAttempt(a, live)
    ensures var (xs, e) := Once(a);
      && |xs| <= 2 && SafeRun(Run(xs, e, waited))
      && (e.Some? && Retryable(e.value, false) ==> CountProcessed(xs) == 0 && forall x :: x in xs ==> Declined(x))
  {
    CountShort(a.first, a.replay);
  }

  lemma SafeAfter(xs: seq<Exchange>, waited: int, rest: Run)
    requires SafeRun(rest) && CountProcessed(xs) == 0 && forall x :: x in xs ==> Declined(x)
    ensures SafeRun(After(xs, waited, rest))
  {
    CountConcat(xs, rest.exchanges);
    var all := xs + rest.exchanges;
    forall i | 0 <= i < |all| - 1 ensures Declined(all[i]) {
      if i < |xs| { assert xs[i] in xs; }
    }
    if rest.exchanges == [] && xs != [] { assert xs[|xs| - 1] in xs; }
  }

  lemma {:induction false} RunIsSafe(attempt: nat, maxRetries: nat, maxDelay: Duration, net: nat -> Attempt, live: bool)
    requires maxDelay > 0 && attempt <= maxRetries && PossibleNet(net, live)
    ensures var r := RunFrom(attempt, maxRetries, maxDelay, false, net);
      SafeRun(r) && |r.exchanges| <= 2 * (maxRetries - attempt + 1)
    decreases maxRetries - attempt
  {
    var a := net(attempt);
    assert PossibleAttempt(a, live);
    var (xs, e) := Once(a);
    OnceIsSafe(a, live, RunFrom(attempt, maxRetries, maxDelay, false, net).waited);
    if e.Some? && attempt < maxRetries && Retryable(e.value, false) && a.outlasted {
      RunIsSafe(attempt + 1, maxRetries, maxDelay, net, live);
      var w := Wait(attempt, maxDelay, e.value, a.random);
      SafeAfter(xs, w, RunFrom(attempt + 1, maxRetries, maxDelay, false, net));
    }
  }

  /** The errors a lost reply is recognised by. */
  predicate Recognised(e: Error) {
    e.Ended? || (e.Net? && e.kind !in {Refused, OtherNet})
  }

  /** What one call of Do that is not a read comes to: Pi-hole carries it out at most once; a reply that was lost is
      reported as uncertain exactly when its error is one a lost reply is recognised by; the caller is told so only
      when the last request went unanswered, and not after a failed login or a refused connection. */
  ghost predicate DoneAtMostOnce(r: Run, outcome: Outcome, maxRetries: nat) {
    && CountProcessed(r.exchanges) <= 1
    && |r.exchanges| <= 2 * (maxRetries + 1)
    && (forall x :: x in r.exchanges && x.ReplyLost? ==> (outcome.Uncertain? <==> Recognised(x.error)))
    && (outcome.Uncertain? ==> EndsUnanswered(r))
    && (r.error.Some? && (r.error.value.Login? || r.error.value == Net(Refused)) ==> !outcome.Uncertain?)
    && (CountProcessed(r.exchanges) == 1 ==> exists x :: EndsWith(r, x) && Processed(x))
  }

  /** The last request got no answer, and was not refused a connection. */
  ghost predicate EndsUnanswered(r: Run) {
    exists x :: EndsWith(r, x) && (x.ReplyLost? || (x.NotSent? && x.error != Net(Refused)))
  }

  lemma AtMostOnce(m: Method, live: bool, maxRetries: nat, maxDelay: Duration, net: nat -> Attempt)
    requires maxDelay > 0 && PossibleNet(net, live) && !IdempotentMethod(m)
    ensures var r := RunFrom(0, maxRetries, maxDelay, false, net);
      DoneAtMostOnce(r, OutcomeOf(m, live, r.error), maxRetries)
  {
    RunIsSafe(0, maxRetries, maxDelay, net, live);
    var r := RunFrom(0, maxRetries, maxDelay, false, net);
    LostReplyIsUncertain(m, live, maxRetries, maxDelay, net);
    UncertainEndsUnanswered(0, maxRetries, maxDelay, net, live);
    if CountProcessed(r.exchanges) == 1 { ProcessedEnds(r); }
  }

  lemma ProcessedEnds(r: Run)
    requires CountProcessed(r.exchanges) == 1 && SafeRun(r)
    ensures exists x :: EndsWith(r, x) && Processed(x)
  {
    var x := r.exchanges[|r.exchanges| - 1];
    if !Processed(x) { NothingCounted(r.exchanges); }
    assert EndsWith(r, x) && Processed(x);
  }

  lemma {:induction false} NothingCounted(xs: seq<Exchange>)
    requires forall i :: 0 <= i < |xs| ==> !Processed(xs[i])
    ensures CountProcessed(xs) == 0
  {
    if xs != [] { NothingCounted(xs[1..]); }
  }

  /** Whichever request of the call lost its reply, the caller is told exactly when the error is a recognised one. */
  lemma LostReplyIsUncertain(m: Method, live: bool, maxRetries: nat, maxDelay: Duration, net: nat -> Attempt)
    requires maxDelay > 0 && PossibleNet(net, live) && !IdempotentMethod(m)
    ensures var r := RunFrom(0, maxRetries, maxDelay, false, net);
      forall x :: x in r.exchanges && x.ReplyLost? ==>
        (OutcomeOf(m, live, r.error).Uncertain? <==> Recognised(x.error))
  {
    RunIsSafe(0, maxRetries, maxDelay, net, live);
    ExchangesPossible(0, maxRetries, maxDelay, false, net, live);
    var r := RunFrom(0, maxRetries, maxDelay, false, net);
    forall x | x in r.exchanges && x.ReplyLost?
      ensures OutcomeOf(m, live, r.error).Uncertain? <==> Recognised(x.error)
    {
      var i :| 0 <= i < |r.exchanges| && r.exchanges[i] == x;
      assert i == |r.exchanges| - 1 && DecidedBy(r, x);
      assert EndsWith(r, x) && Possible(x, live);
    }
  }

  /** A reply lost to any other error, such as a malformed one: the change was made, and the caller gets a plain
      error. */
  lemma UnrecognisedLossUntold(maxRetries: nat, maxDelay: Duration, net: nat -> Attempt)
    requires maxDelay > 0
    requires forall i :: net(i) == Attempt(None, ReplyLost(Net(OtherNet), true), None, NotSent(Other), 0, true)
    ensures var r := RunFrom(0, maxRetries, maxDelay, false, net);
      && PossibleNet(net, true) && CountProcessed(r.exchanges) == 1
      && OutcomeOf(POST, true, r.error) == Failed(Net(OtherNet))
  {
    var x := ReplyLost(Net(OtherNet), true);
    assert Once(net(0)) == ([x], Some(Net(OtherNet)));
    CountShort(x, x);
  }

  lemma {:induction false} ExchangesPossible(attempt: nat, maxRetries: nat, maxDelay: Duration, idempotent: bool,
                                             net: nat -> Attempt, live: bool)
    requires maxDelay > 0 && attempt <= maxRetries && PossibleNet(net, live)
    ensures forall x :: x in RunFrom(attempt, maxRetries, maxDelay, idempotent, net).exchanges ==> Possible(x, live)
    decreases maxRetries - attempt
  {
    var a := net(attempt);
    assert PossibleAttempt(a, live);
    if attempt < maxRetries { ExchangesPossible(attempt + 1, maxRetries, maxDelay, idempotent, net, live); }
  }

  /** Only an exchange without an answer ends a run in an error that leaves the outcome open. */
  lemma {:induction false} UncertainEndsUnanswered(attempt: nat, maxRetries: nat, maxDelay: Duration,
                                                   net: nat -> Attempt, live: bool)
    requires maxDelay > 0 && attempt <= maxRetries && PossibleNet(net, live)
    ensures var r := RunFrom(attempt, maxRetries, maxDelay, false, net);
      r.error.Some? && MayHaveApplied(r.error.value, live) ==> EndsUnanswered(r)
    decreases maxRetries - attempt
  {
    var a := net(attempt);
    assert PossibleAttempt(a, live);
    var (xs, e) := Once(a);
    if e.None? || attempt >= maxRetries || !Retryable(e.value, false) || !a.outlasted {
      LastAttemptUnanswered(a, live, RunFrom(attempt, maxRetries, maxDelay, false, net));
    } else {
      UncertainEndsUnanswered(attempt + 1, maxRetries, maxDelay, net, live);
      var w := Wait(attempt, maxDelay, e.value, a.random);
      UnansweredAfter(xs, w, RunFrom(attempt + 1, maxRetries, maxDelay, false, net));
    }
  }

  lemma LastAttemptUnanswered(a: Attempt, live: bool, r: Run)
    requires PossibleAttempt(a, live) && (r.exchanges, r.error) == Once(a)
    ensures r.error.Some? && MayHaveApplied(r.error.value, live) ==> EndsUnanswered(r)
  {
    if r.error.Some? && MayHaveApplied(r.error.value, live) {
      assert EndsWith(r, r.exchanges[|r.exchanges| - 1]);
    }
  }

  lemma UnansweredAfter(xs: seq<Exchange>, waited: int, rest: Run)
    ensures EndsUnanswered(rest) ==> EndsUnanswered(After(xs, waited, rest))
  {
    if x :| EndsWith(rest, x) && (x.ReplyLost? || (x.NotSent? && x.error != Net(Refused))) {
      assert EndsWith(After(xs, waited, rest), x);
    }
  }

  /** All the waits of a run together stay within one maximum per retry. */
  lemma {:induction false} WaitsBounded(attempt: nat, maxRetries: nat, maxDelay: Duration, idempotent: bool,
                                        net: nat -> Attempt)
    requires maxDelay > 0 && attempt <= maxRetries
    ensures 0 <= RunFrom(attempt, maxRetries, maxDelay, idempotent, net).waited <= (maxRetries - attempt) * maxDelay
    decreases maxRetries - attempt
  {
    var a := net(attempt);
    var e := Once(a).1;
    if e.Some? { OneWait(attempt, maxDelay, e.value, a.random); }
    if attempt < maxRetries {
      WaitsBounded(attempt + 1, maxRetries, maxDelay, idempotent, net);
      assert (maxRetries - attempt) * maxDelay == (maxRetries - attempt - 1) * maxDelay + maxDelay;
    }
  }

  lemma OneWait(attempt: nat, maxDelay: Duration, e: Error, random: nat)
    requires maxDelay > 0
    ensures 0 <= Wait(attempt, maxDelay, e, random) <= maxDelay
  {}
}
