/** The two-level rate limiter: a token bucket per client address over one per session. Times are in nanoseconds, and
    a bucket counts in sixty-billionths of a token, so that perMinute tokens a minute is perMinute units a nanosecond.
    */
module RateLimiter {
  import opened Wrappers

  const TOKEN := 60_000_000_000
  const IDLE_SESSION_TTL := 180_000_000_000
  const MIN_BURST := 30
  const IP_CEILING_FACTOR := 4
  const MAX_TRACKED_ADDRESSES := 8192
  const MAX_SESSIONS_PER_IP := 64
  const FAILED_AUTH_PER_MINUTE := 15
  const FAILED_AUTH_BURST := 5

  function ComputeBurst(perMinute: nat): (burst: nat)
    ensures burst >= 30 && 4 * burst >= perMinute - 3
    ensures burst > 30 ==> 4 * burst <= perMinute
  {
    if perMinute / 4 < MIN_BURST then MIN_BURST else perMinute / 4
  }

  /** A rate.Limiter's settings, in units per nanosecond and in units. */
  datatype Limit = Limit(rate: nat, capacity: nat)

  datatype Bucket = Bucket(tokens: nat, last: int)

  function Available(l: Limit, b: Bucket, now: int): int {
    var filled := b.tokens + l.rate * (now - b.last);
    if filled < l.capacity then filled else l.capacity
  }

  /** rate.Limiter.Allow at a given time. */
  function Allow(l: Limit, b: Bucket, now: int): (r: (bool, Bucket)) {
    var tokens := Available(l, b, now);
    if tokens >= TOKEN then (true, Bucket(tokens - TOKEN, now)) else (false, b)
  }

  datatype Session = Session(limiter: Bucket, lastSeen: int)

  datatype IpEntry = IpEntry(limiter: Bucket, lastSeen: int, sessions: map<string, Session>)

  type Table = map<string, IpEntry>

  datatype Config = Config(perMinute: nat, burst: nat) {
    function Session(): Limit { Limit(perMinute, burst * TOKEN) }

    function Ip(): Limit { Limit(IP_CEILING_FACTOR * perMinute, IP_CEILING_FACTOR * burst * TOKEN) }
  }

  /** entryForLocked. victim is the address evictOldestLocked drops when the table is full. */
  function EntryFor(c: Config, ips: Table, key: string, now: int, victim: string): Table {
    if key in ips then ips[key := ips[key].(lastSeen := now)]
    else
      var kept := if |ips| >= MAX_TRACKED_ADDRESSES then ips - {victim} else ips;
      kept[key := IpEntry(Bucket(c.Ip().capacity, now), now, map[])]
  }

  /** The rest of limitersFor: the sessions once sid, if any, is looked up. */
  function SessionsFor(c: Config, sessions: map<string, Session>, sid: string, now: int): map<string, Session> {
    if sid == "" then sessions
    else if sid in sessions then sessions[sid := sessions[sid].(lastSeen := now)]
    else if |sessions| >= MAX_SESSIONS_PER_IP then sessions
    else sessions[sid := Session(Bucket(c.Session().capacity, now), now)]
  }

  /** One request through Middleware: the address pays first and always, then the session if it has a bucket. */
  function Admitted(c: Config, ips: Table, key: string, sid: string, now: int, victim: string): (Table, bool) {
    var ips1 := EntryFor(c, ips, key, now, victim);
    var sessions := SessionsFor(c, ips1[key].sessions, sid, now);
    var (ok, limiter) := Allow(c.Ip(), ips1[key].limiter, now);
    if !ok || sid !in sessions || sid == "" then (ips1[key := ips1[key].(limiter := limiter, sessions := sessions)], ok)
    else
      var (sessionOk, b) := Allow(c.Session(), sessions[sid].limiter, now);
      (ips1[key := ips1[key].(limiter := limiter, sessions := sessions[sid := sessions[sid].(limiter := b)])],
       sessionOk)
  }

  /** Penalise. */
  function Penalised(c: Config, ips: Table, key: string, now: int, victim: string): (Table, bool) {
    var ips1 := EntryFor(c, ips, key, now, victim);
    var (ok, limiter) := Allow(c.Ip(), ips1[key].limiter, now);
    (ips1[key := ips1[key].(limiter := limiter)], ok)
  }

  /** evictIdle. */
  function Swept(ips: Table, now: int): Table {
    map k | k in ips && now - ips[k].lastSeen <= IDLE_SESSION_TTL ::
      ips[k].(sessions := map sid | sid in ips[k].sessions && now - ips[k].sessions[sid].lastSeen <= IDLE_SESSION_TTL ::
                            ips[k].sessions[sid])
  }

  class RateLimiter {
    const config: Config
    var ips: Table

    constructor (perMinute: nat, burst: nat)
      ensures config == Config(perMinute, burst) && ips == map[]
    {
      config := Config(perMinute, burst);
      ips := map[];
    }

    /** evictOldestLocked. The loop takes the entries in whatever order the map gives them, and takes the empty key
        for not having found one yet. */
    method EvictOldest() returns (victim: string)
      requires ips != map[]
      modifies this`ips
      ensures victim in old(ips) && ips == old(ips) - {victim}
      ensures "" !in old(ips) ==> forall k :: k in old(ips) ==> old(ips)[victim].lastSeen <= old(ips)[k].lastSeen
    {
      var oldestKey, oldest := "", 0;
      var left := ips.Keys;
      while left != {}
        invariant left <= ips.Keys
        invariant left == ips.Keys ==> oldestKey == ""
        invariant left != ips.Keys ==> oldestKey in ips.Keys - left && oldest == ips[oldestKey].lastSeen
        invariant "" !in ips ==> forall k :: k in ips.Keys - left ==> oldest <= ips[k].lastSeen
      {
        var key :| key in left;
        if oldestKey == "" || ips[key].lastSeen < oldest {
          oldestKey, oldest := key, ips[key].lastSeen;
        }
        left := left - {key};
      }
      victim := oldestKey;
      ips := ips - {victim};
    }

    method EntryForLocked(key: string, now: int) returns (ghost victim: string)
      modifies this`ips
      ensures ips == EntryFor(config, old(ips), key, now, victim)
      ensures Victim(old(ips), key, victim)
    {
      victim := "";
      if key in ips {
        ips := ips[key := ips[key].(lastSeen := now)];
        return;
      }
      if |ips| >= MAX_TRACKED_ADDRESSES {
        var v := EvictOldest();
        victim := v;
      }
      ips := ips[key := IpEntry(Bucket(config.Ip().capacity, now), now, map[])];
    }

    /** Middleware around one request, with limitersFor inside. */
    method Admit(key: string, sid: string, now: int) returns (ok: bool, ghost victim: string)
      modifies this`ips
      ensures config.perMinute == 0 ==> ok && ips == old(ips)
      ensures config.perMinute > 0 ==> (ips, ok) == Admitted(config, old(ips), key, sid, now, victim)
      ensures config.perMinute > 0 ==> Victim(old(ips), key, victim)
    {
      victim := "";
      if config.perMinute == 0 { return true, victim; }
      victim := EntryForLocked(key, now);
      var entry := ips[key];
      var named := sid != "";
      if named {
        if sid in entry.sessions {
          entry := entry.(sessions := entry.sessions[sid := entry.sessions[sid].(lastSeen := now)]);
        } else if |entry.sessions| >= MAX_SESSIONS_PER_IP {
          named := false;
        } else {
          entry := entry.(sessions := entry.sessions[sid := Session(Bucket(config.Session().capacity, now), now)]);
        }
      }
      var (ipOk, limiter) := Allow(config.Ip(), entry.limiter, now);
      entry := entry.(limiter := limiter);
      ok := ipOk;
      if ok && named {
        var (sessionOk, b) := Allow(config.Session(), entry.sessions[sid].limiter, now);
        entry := entry.(sessions := entry.sessions[sid := entry.sessions[sid].(limiter := b)]);
        ok := sessionOk;
      }
      ips := ips[key := entry];
    }

    method Penalise(key: string, now: int) returns (ok: bool, ghost victim: string)
      modifies this`ips
      ensures config.perMinute == 0 ==> ok && ips == old(ips)
      ensures config.perMinute > 0 ==> (ips, ok) == Penalised(config, old(ips), key, now, victim)
      ensures config.perMinute > 0 ==> Victim(old(ips), key, victim)
    {
      victim := "";
      if config.perMinute == 0 { return true, victim; }
      victim := EntryForLocked(key, now);
      var (allowed, limiter) := Allow(config.Ip(), ips[key].limiter, now);
      ips := ips[key := ips[key].(limiter := limiter)];
      ok := allowed;
    }

    method EvictIdle(now: int)
      modifies this`ips
      ensures ips == Swept(old(ips), now)
      ensures forall k :: k in ips <==> k in old(ips) && now - old(ips)[k].lastSeen <= 180_000_000_000
      ensures forall k :: k in ips ==>
        ips[k].limiter == old(ips)[k].limiter && ips[k].lastSeen == old(ips)[k].lastSeen
      ensures forall k, sid :: k in ips ==>
        (sid in ips[k].sessions <==>
          sid in old(ips)[k].sessions && now - old(ips)[k].sessions[sid].lastSeen <= 180_000_000_000)
      ensures forall k, sid :: k in ips && sid in ips[k].sessions ==>
        ips[k].sessions[sid] == old(ips)[k].sessions[sid]
    {
      ghost var was := ips;
      var left := ips.Keys;
      while left != {}
        invariant left <= was.Keys
        invariant forall k :: k in left ==> k in ips && ips[k] == was[k]
        invariant forall k :: k in was.Keys - left ==> (k in ips <==> k in Swept(was, now))
        invariant forall k :: k in was.Keys - left && k in ips ==> ips[k] == Swept(was, now)[k]
        invariant ips.Keys <= was.Keys
      {
        var ip :| ip in left;
        left := left - {ip};
        var entry := ips[ip];
        if now - entry.lastSeen > IDLE_SESSION_TTL {
          ips := ips - {ip};
        } else {
          ips := ips[ip := entry.(sessions := map sid | sid in entry.sessions &&
                                  now - entry.sessions[sid].lastSeen <= IDLE_SESSION_TTL ::
                                                entry.sessions[sid])];
        }
      }
      assert ips.Keys == Swept(was, now).Keys;
    }
  }

  /** What evictOldestLocked may drop to make room for key: an address in the table, and the least recently seen one
      unless the empty key is in it. */
  ghost predicate Victim(ips: Table, key: string, victim: string) {
    key !in ips && |ips| >= MAX_TRACKED_ADDRESSES ==>
      victim in ips && ("" !in ips ==> forall k :: k in ips ==> ips[victim].lastSeen <= ips[k].lastSeen)
  }

  datatype Event =
    | Request(key: string, sid: string, now: int, victim: string)
    | Penalty(key: string, now: int, victim: string)
    | Sweep(now: int)

  function After(c: Config, ips: Table, e: Event): Table {
    match e
    case Request(key, sid, now, victim) => Admitted(c, ips, key, sid, now, victim).0
    case Penalty(key, now, victim) => Penalised(c, ips, key, now, victim).0
    case Sweep(now) => Swept(ips, now)
  }

  /** Whose bucket is looked at: an address's, or that of one session under it. */
  datatype Payer = Address(key: string) | InSession(key: string, sid: string)

  function LimitOf(c: Config, p: Payer): Limit {
    if p.Address? then c.Ip() else c.Session()
  }

  function BucketOf(ips: Table, p: Payer): Option<Bucket> {
    if p.key !in ips then None
    else if p.Address? then Some(ips[p.key].limiter)
    else if p.sid in ips[p.key].sessions then Some(ips[p.key].sessions[p.sid].limiter)
    else None
  }

  /** Whether an event is a request that counts for p. */
  predicate RequestOf(e: Event, p: Payer) {
    e.Request? && e.key == p.key && (p.InSession? ==> e.sid == p.sid)
  }

  /** Whether an event lets something of p's through: a request served, or, for an address, a penalty its ceiling
      still allowed. */
  predicate Passes(c: Config, ips: Table, e: Event, p: Payer) {
    match e
    case Request(key, sid, now, victim) => RequestOf(e, p) && Admitted(c, ips, key, sid, now, victim).1
    case Penalty(key, now, victim) => p == Address(key) && Penalised(c, ips, key, now, victim).1
    case Sweep(_) => false
  }

  ghost predicate BucketGood(l: Limit, b: Bucket, lastSeen: int, now: int) {
    b.tokens <= l.capacity && b.last <= lastSeen <= now
  }

  ghost predicate EntryGood(c: Config, e: IpEntry, now: int) {
    && BucketGood(c.Ip(), e.limiter, e.lastSeen, now)
    && |e.sessions| <= MAX_SESSIONS_PER_IP
    && forall sid :: sid in e.sessions ==>
         BucketGood(c.Session(), e.sessions[sid].limiter, e.sessions[sid].lastSeen, e.lastSeen)
  }

  ghost predicate Good(c: Config, ips: Table, now: int) {
    |ips| <= MAX_TRACKED_ADDRESSES && forall k :: k in ips ==> EntryGood(c, ips[k], now)
  }

  lemma GoodLater(c: Config, ips: Table, from: int, now: int)
    requires Good(c, ips, from) && from <= now
    ensures Good(c, ips, now)
  {}

  ghost predicate VictimOf(ips: Table, e: Event) {
    match e
    case Request(key, _, _, victim) => Victim(ips, key, victim)
    case Penalty(key, _, victim) => Victim(ips, key, victim)
    case Sweep(_) => true
  }

  lemma NonNegative(rate: nat, time: nat)
    ensures rate * time >= 0
  {}

  lemma AllowGood(l: Limit, b: Bucket, lastSeen: int, now: int)
    requires BucketGood(l, b, lastSeen, now)
    ensures 0 <= Available(l, b, now) <= l.capacity
    ensures BucketGood(l, Allow(l, b, now).1, now, now)
    ensures Available(l, Allow(l, b, now).1, now) == Available(l, b, now) - if Allow(l, b, now).0 then TOKEN else 0
  {
    NonNegative(l.rate, now - b.last);
    var b' := Allow(l, b, now).1;
    if Allow(l, b, now).0 {
      assert l.rate * (now - b'.last) == 0;
    }
  }

  lemma EntryForGood(c: Config, ips: Table, key: string, now: int, victim: string)
    requires Good(c, ips, now) && Victim(ips, key, victim)
    ensures Good(c, EntryFor(c, ips, key, now, victim), now)
  {}

  lemma SessionsForGood(c: Config, e: IpEntry, sid: string, now: int)
    requires EntryGood(c, e, now) && e.lastSeen == now
    ensures EntryGood(c, e.(sessions := SessionsFor(c, e.sessions, sid, now)), now)
    ensures var r := SessionsFor(c, e.sessions, sid, now); sid in r && sid != "" ==> r[sid].lastSeen == now
  {}

  /** Charging a session's bucket keeps its entry good. */
  lemma SessionChargedGood(c: Config, e: IpEntry, sid: string, now: int)
    requires EntryGood(c, e, now) && sid in e.sessions && e.sessions[sid].lastSeen == now == e.lastSeen
    ensures EntryGood(c, e.(sessions := e.sessions[sid :=
      e.sessions[sid].(limiter := Allow(c.Session(), e.sessions[sid].limiter, now).1)]), now)
  {}

  lemma OneEntryGood(c: Config, ips: Table, key: string, e: IpEntry, now: int)
    requires Good(c, ips, now) && key in ips && EntryGood(c, e, now)
    ensures Good(c, ips[key := e], now)
  {}

  lemma EntrySeenNow(c: Config, ips: Table, key: string, now: int, victim: string)
    ensures EntryFor(c, ips, key, now, victim)[key].lastSeen == now
  {}

  lemma AdmittedGood(c: Config, ips: Table, key: string, sid: string, now: int, victim: string)
    requires Good(c, ips, now) && Victim(ips, key, victim)
    ensures Good(c, Admitted(c, ips, key, sid, now, victim).0, now)
  {
    EntryForGood(c, ips, key, now, victim);
    EntrySeenNow(c, ips, key, now, victim);
    var ips1 := EntryFor(c, ips, key, now, victim);
    var entry := ips1[key];
    SessionsForGood(c, entry, sid, now);
    var sessions := SessionsFor(c, entry.sessions, sid, now);
    AllowGood(c.Ip(), entry.limiter, now, now);
    var e := entry.(limiter := Allow(c.Ip(), entry.limiter, now).1, sessions := sessions);
    assert EntryGood(c, e, now);
    OneEntryGood(c, ips1, key, e, now);
    if sid in sessions && sid != "" {
      SessionChargedGood(c, e, sid, now);
      OneEntryGood(c, ips1, key, e.(sessions := sessions[sid :=
        sessions[sid].(limiter := Allow(c.Session(), sessions[sid].limiter, now).1)]), now);
    }
  }

  lemma PenalisedGood(c: Config, ips: Table, key: string, now: int, victim: string)
    requires Good(c, ips, now) && Victim(ips, key, victim)
    ensures Good(c, Penalised(c, ips, key, now, victim).0, now)
  {}

  lemma StepKeepsGood(c: Config, ips: Table, e: Event, from: int)
    requires Good(c, ips, from) && from <= e.now && VictimOf(ips, e)
    ensures Good(c, After(c, ips, e), e.now)
  {
    GoodLater(c, ips, from, e.now);
    match e
    case Request(key, sid, now, victim) => AdmittedGood(c, ips, key, sid, now, victim);
    case Penalty(key, now, victim) => PenalisedGood(c, ips, key, now, victim);
    case Sweep(now) => SweptGood(c, ips, now);
  }

  lemma SubsetSmaller<T>(a: set<T>, b: set<T>)
    requires a <= b
    ensures |a| <= |b|
  {
    assert b == a + (b - a);
  }

  lemma SweptGood(c: Config, ips: Table, now: int)
    requires Good(c, ips, now)
    ensures Good(c, Swept(ips, now), now)
  {
    SubsetSmaller(Swept(ips, now).Keys, ips.Keys);
    forall k | k in Swept(ips, now) ensures EntryGood(c, Swept(ips, now)[k], now) {
      assert EntryGood(c, ips[k], now);
      SubsetSmaller(Swept(ips, now)[k].sessions.Keys, ips[k].sessions.Keys);
    }
  }

  /** Events in time order, each eviction as evictOldestLocked would make it. */
  ghost predicate Timely(c: Config, ips: Table, events: seq<Event>, from: int)
    decreases |events|
  {
    events != [] ==> from <= events[0].now && VictimOf(ips, events[0]) &&
                     Timely(c, After(c, ips, events[0]), events[1..], events[0].now)
  }

  function TableAfter(c: Config, ips: Table, events: seq<Event>): Table
    decreases |events|
  {
    if events == [] then ips else TableAfter(c, After(c, ips, events[0]), events[1..])
  }

  function EndTime(events: seq<Event>, from: int): int {
    if events == [] then from else events[|events| - 1].now
  }

  /** However many addresses and session ids come by: at most 8192 addresses, and 64 buckets under each. */
  lemma {:induction false} TableBounded(c: Config, ips: Table, events: seq<Event>, from: int)
    requires Good(c, ips, from) && Timely(c, ips, events, from)
    ensures Good(c, TableAfter(c, ips, events), EndTime(events, from))
    decreases |events|
  {
    if events != [] {
      StepKeepsGood(c, ips, events[0], from);
      TableBounded(c, After(c, ips, events[0]), events[1..], events[0].now);
    }
  }

  /** An empty table is a good one, so the bounds hold in every table a limiter comes to have. */
  lemma TableBoundedFromStart(c: Config, events: seq<Event>, from: int)
    requires Timely(c, map[], events, from)
    ensures var ips := TableAfter(c, map[], events);
      |ips| <= MAX_TRACKED_ADDRESSES && forall k :: k in ips ==> |ips[k].sessions| <= MAX_SESSIONS_PER_IP
  {
    TableBounded(c, map[], events, from);
    var ips := TableAfter(c, map[], events);
    assert forall k :: k in ips ==> EntryGood(c, ips[k], EndTime(events, from));
  }

  /** What p could spend at once: its bucket, or the full one it would get. */
  function Level(c: Config, ips: Table, p: Payer, now: int): int {
    var b := BucketOf(ips, p);
    if b.Some? then Available(LimitOf(c, p), b.value, now) else LimitOf(c, p).capacity
  }

  lemma LevelGrows(c: Config, ips: Table, p: Payer, t: int, t': int)
    requires t <= t'
    ensures Level(c, ips, p, t') <= Level(c, ips, p, t) + LimitOf(c, p).rate * (t' - t)
  {
    NonNegative(LimitOf(c, p).rate, t' - t);
    var b := BucketOf(ips, p);
    if b.Some? { Consecutive(LimitOf(c, p).rate, t - b.value.last, t' - t); }
  }

  /** A bucket idle for longer than the sweep's patience has refilled. */
  predicate RefillsWhileIdle(c: Config) {
    c.perMinute * (IDLE_SESSION_TTL + 1) >= c.burst * TOKEN
  }

  /** Dropping an idle bucket and making a new one changes nothing, at both levels, exactly for these settings. */
  lemma SweepAddsNothing(c: Config)
    ensures RefillsWhileIdle(c) <==>
      forall b: Bucket, now ::
        (b.tokens <= c.Ip().capacity && now - b.last > IDLE_SESSION_TTL ==>
         Available(c.Ip(), b, now) == c.Ip().capacity) &&
        (b.tokens <= c.Session().capacity && now - b.last > IDLE_SESSION_TTL ==>
         Available(c.Session(), b, now) == c.Session().capacity)
  {
    if RefillsWhileIdle(c) {
      forall b: Bucket, now | now - b.last > IDLE_SESSION_TTL
        ensures Available(c.Ip(), b, now) == c.Ip().capacity || b.tokens > c.Ip().capacity
        ensures Available(c.Session(), b, now) == c.Session().capacity || b.tokens > c.Session().capacity
      {
        RefillGrows(c.perMinute, now - b.last);
        RefillGrows(c.Ip().rate, now - b.last);
      }
    } else {
      var b := Bucket(0, 0);
      assert Available(c.Session(), b, IDLE_SESSION_TTL + 1) < c.Session().capacity;
    }
  }

  lemma RefillGrows(rate: nat, idle: int)
    requires idle > IDLE_SESSION_TTL
    ensures rate * idle >= rate * (IDLE_SESSION_TTL + 1)
  {}

  /** With the default burst that is every rate from ten a minute up; the failed-login limiter is among them. */
  lemma DefaultsRefill(perMinute: nat)
    ensures RefillsWhileIdle(Config(perMinute, ComputeBurst(perMinute))) <==> perMinute >= 10
    ensures RefillsWhileIdle(Config(FAILED_AUTH_PER_MINUTE, FAILED_AUTH_BURST))
  {}

  /** p keeps its bucket, but for a sweep that cannot add to it; and a session's request is not let by without one. */
  ghost predicate Stays(c: Config, ips: Table, e: Event, p: Payer) {
    && (BucketOf(ips, p).Some? ==> BucketOf(After(c, ips, e), p).Some? || (e.Sweep? && RefillsWhileIdle(c)))
    && (p.InSession? && RequestOf(e, p) ==> p.sid != "" && BucketOf(After(c, ips, e), p).Some?)
  }

  ghost predicate AlwaysStays(c: Config, ips: Table, events: seq<Event>, p: Payer)
    decreases |events|
  {
    events != [] ==> Stays(c, ips, events[0], p) && AlwaysStays(c, After(c, ips, events[0]), events[1..], p)
  }

  /** The bucket of p, when it has one, was filled up to no later than its entry was seen. */
  lemma BucketOfGood(c: Config, ips: Table, p: Payer, now: int)
    requires Good(c, ips, now)
    ensures BucketOf(ips, p).Some? ==> BucketGood(LimitOf(c, p), BucketOf(ips, p).value, ips[p.key].lastSeen, now)
  {
    if p.key in ips { assert EntryGood(c, ips[p.key], now); }
  }

  lemma SweepPays(c: Config, ips: Table, p: Payer, now: int)
    requires Good(c, ips, now) && Stays(c, ips, Sweep(now), p)
    ensures Level(c, Swept(ips, now), p, now) <= Level(c, ips, p, now)
  {
    BucketOfGood(c, ips, p, now);
    if BucketOf(ips, p).Some? && BucketOf(Swept(ips, now), p).None? {
      assert EntryGood(c, ips[p.key], now);
      SweepAddsNothing(c);
    }
  }

  /** Looking an address up, and making room for it, takes nothing from those who keep their bucket and gives none. */
  lemma EntryForLevel(c: Config, ips: Table, key: string, now: int, victim: string, p: Payer)
    requires Victim(ips, key, victim)
    requires BucketOf(ips, p).Some? ==> BucketOf(EntryFor(c, ips, key, now, victim), p).Some?
    ensures Level(c, EntryFor(c, ips, key, now, victim), p, now) == Level(c, ips, p, now)
  {
    NoTime(c.Ip().rate, now);
  }

  lemma NoTime(rate: nat, now: int)
    ensures rate * (now - now) == 0
  {}

  lemma AddressAfter(c: Config, ips: Table, e: Event, key: string)
    requires !e.Sweep?
    ensures var ips1 := EntryFor(c, ips, e.key, e.now, e.victim);
      && BucketOf(After(c, ips, e), Address(key)) ==
        (if e.key == key then Some(Allow(c.Ip(), ips1[key].limiter, e.now).1) else BucketOf(ips1, Address(key)))
      && (Passes(c, ips, e, Address(key)) ==> e.key == key && Allow(c.Ip(), ips1[key].limiter, e.now).0)
  {}

  /** The address pays for each of its requests and penalties, if it can. */
  lemma AddressPays(c: Config, ips: Table, e: Event, key: string)
    requires Good(c, ips, e.now) && VictimOf(ips, e) && !e.Sweep? && Stays(c, ips, e, Address(key))
    ensures var p := Address(key);
      Level(c, After(c, ips, e), p, e.now) + (if Passes(c, ips, e, p) then TOKEN else 0) <= Level(c, ips, p, e.now)
  {
    var ips1 := EntryFor(c, ips, e.key, e.now, e.victim);
    AddressAfter(c, ips, e, key);
    EntryForLevel(c, ips, e.key, e.now, e.victim, Address(key));
    if e.key == key {
      EntryForGood(c, ips, key, e.now, e.victim);
      BucketOfGood(c, ips1, Address(key), e.now);
      AllowGood(c.Ip(), ips1[key].limiter, ips1[key].lastSeen, e.now);
    }
  }

  /** What a request leaves of a session's bucket: nothing changes but for the session named, which pays when the
      address could, if it can. */
  lemma SessionAfter(c: Config, ips: Table, e: Event, p: Payer)
    requires !e.Sweep? && p.InSession? && (RequestOf(e, p) ==> p.sid != "")
    ensures var ips1 := EntryFor(c, ips, e.key, e.now, e.victim);
      var b := if RequestOf(e, p) && BucketOf(ips1, p).None? && |ips1[e.key].sessions| < MAX_SESSIONS_PER_IP
               then Some(Bucket(c.Session().capacity, e.now)) else BucketOf(ips1, p);
      BucketOf(After(c, ips, e), p) ==
        if RequestOf(e, p) && b.Some? && Allow(c.Ip(), ips1[e.key].limiter, e.now).0
        then Some(Allow(c.Session(), b.value, e.now).1) else b
  {}

  lemma SessionPassesWhen(c: Config, ips: Table, e: Event, p: Payer)
    requires e.Request? && p.InSession? && RequestOf(e, p) && p.sid != ""
    ensures var ips1 := EntryFor(c, ips, e.key, e.now, e.victim);
      var b := if BucketOf(ips1, p).None? && |ips1[e.key].sessions| < MAX_SESSIONS_PER_IP
               then Some(Bucket(c.Session().capacity, e.now)) else BucketOf(ips1, p);
      Passes(c, ips, e, p) ==
        (Allow(c.Ip(), ips1[e.key].limiter, e.now).0 && (b.Some? ==> Allow(c.Session(), b.value, e.now).0))
  {}

  lemma SessionPays(c: Config, ips: Table, e: Event, p: Payer)
    requires Good(c, ips, e.now) && VictimOf(ips, e) && !e.Sweep? && p.InSession? && Stays(c, ips, e, p)
    ensures Level(c, After(c, ips, e), p, e.now) + (if Passes(c, ips, e, p) then TOKEN else 0) <=
      Level(c, ips, p, e.now)
  {
    var ips1 := EntryFor(c, ips, e.key, e.now, e.victim);
    SessionAfter(c, ips, e, p);
    EntryForLevel(c, ips, e.key, e.now, e.victim, p);
    if RequestOf(e, p) {
      SessionPassesWhen(c, ips, e, p);
      EntryForGood(c, ips, e.key, e.now, e.victim);
      BucketOfGood(c, ips1, p, e.now);
      var b := if BucketOf(ips1, p).Some? then BucketOf(ips1, p).value else Bucket(c.Session().capacity, e.now);
      NoTime(c.Session().rate, e.now);
      AllowGood(c.Session(), b, e.now, e.now);
    }
  }

  /** An event takes a token from p's level for each thing it lets through, and gives none back. */
  lemma StepPays(c: Config, ips: Table, e: Event, p: Payer)
    requires Good(c, ips, e.now) && VictimOf(ips, e) && Stays(c, ips, e, p)
    ensures Level(c, After(c, ips, e), p, e.now) + (if Passes(c, ips, e, p) then TOKEN else 0) <=
      Level(c, ips, p, e.now)
  {
    if e.Sweep? {
      SweepPays(c, ips, p, e.now);
    } else if p.Address? {
      AddressPays(c, ips, e, p.key);
    } else {
      SessionPays(c, ips, e, p);
    }
  }

  /** A session that has no bucket, and may not have one, is not limited apart from its address. */
  predicate Unlimited(ips: Table, key: string, sid: string) {
    sid == "" ||
    (key in ips && sid !in ips[key].sessions && |ips[key].sessions| >= MAX_SESSIONS_PER_IP)
  }

  /** A request is served exactly when both levels can pay, and its address pays even when its session cannot. */
  lemma AdmitExact(c: Config, ips: Table, key: string, sid: string, now: int, victim: string)
    requires Good(c, ips, now) && Victim(ips, key, victim)
    ensures var (ips', ok) := Admitted(c, ips, key, sid, now, victim);
      var address := Level(c, ips, Address(key), now);
      && (ok <==>
            address >= TOKEN && (Unlimited(ips, key, sid) || Level(c, ips, InSession(key, sid), now) >= TOKEN))
      && Level(c, ips', Address(key), now) == address - (if address >= TOKEN then TOKEN else 0)
  {
    var ips1 := EntryFor(c, ips, key, now, victim);
    EntryForGood(c, ips, key, now, victim);
    NoTime(c.Ip().rate, now);
    NoTime(c.Session().rate, now);
    assert Level(c, ips1, Address(key), now) == Level(c, ips, Address(key), now);
    assert EntryGood(c, ips1[key], now);
    AllowGood(c.Ip(), ips1[key].limiter, ips1[key].lastSeen, now);
  }

  /** A session with a bucket pays exactly when the request is served. */
  lemma AdmitSessionExact(c: Config, ips: Table, key: string, sid: string, now: int, victim: string)
    requires Good(c, ips, now) && Victim(ips, key, victim) && !Unlimited(ips, key, sid)
    ensures var (ips', ok) := Admitted(c, ips, key, sid, now, victim);
      Level(c, ips', InSession(key, sid), now) ==
        Level(c, ips, InSession(key, sid), now) - if ok then TOKEN else 0
  {
    var ips1 := EntryFor(c, ips, key, now, victim);
    EntryForGood(c, ips, key, now, victim);
    NoTime(c.Session().rate, now);
    assert EntryGood(c, ips1[key], now);
    SessionsForGood(c, ips1[key], sid, now);
    AllowGood(c.Session(), SessionsFor(c, ips1[key].sessions, sid, now)[sid].limiter, now, now);
  }

  /** Looking key up makes room, if it must, by dropping the victim and nothing else. */
  ghost predicate OthersKept(ips: Table, after: Table, key: string, victim: string) {
    forall k :: k != key ==>
      && (k in after <==> k in ips && !(key !in ips && |ips| >= MAX_TRACKED_ADDRESSES && k == victim))
      && (k in after ==> after[k] == ips[k])
  }

  /** Of the table a request changes its own entry, and there the session it names. */
  lemma AdmitTouches(c: Config, ips: Table, key: string, sid: string, now: int, victim: string)
    ensures var after := Admitted(c, ips, key, sid, now, victim).0;
      var before := if key in ips then ips[key].sessions else map[];
      && OthersKept(ips, after, key, victim)
      && key in after && after[key].lastSeen == now
      && (forall s :: s != sid || sid == "" ==>
            && (s in after[key].sessions <==> s in before)
            && (s in before ==> after[key].sessions[s] == before[s]))
      && (sid != "" ==>
            && (sid in after[key].sessions <==> sid in before || |before| < MAX_SESSIONS_PER_IP)
            && (sid in after[key].sessions ==> after[key].sessions[sid].lastSeen == now))
  {}

  /** A failed login is let by exactly when its address could pay, and pays like a request; no session does. */
  lemma PenaliseExact(c: Config, ips: Table, key: string, now: int, victim: string)
    requires Good(c, ips, now) && Victim(ips, key, victim)
    ensures var (after, ok) := Penalised(c, ips, key, now, victim);
      var address := Level(c, ips, Address(key), now);
      && (ok <==> address >= TOKEN)
      && key in after && after[key].lastSeen == now
      && after[key].sessions == (if key in ips then ips[key].sessions else map[])
      && Level(c, after, Address(key), now) == address - (if ok then TOKEN else 0)
      && OthersKept(ips, after, key, victim)
  {
    var ips1 := EntryFor(c, ips, key, now, victim);
    EntryForGood(c, ips, key, now, victim);
    NoTime(c.Ip().rate, now);
    AllowGood(c.Ip(), ips1[key].limiter, ips1[key].lastSeen, now);
  }

  ghost function Passed(c: Config, ips: Table, events: seq<Event>, p: Payer): nat
    decreases |events|
  {
    if events == [] then 0
    else (if Passes(c, ips, events[0], p) then 1 else 0) + Passed(c, After(c, ips, events[0]), events[1..], p)
  }

  /** n passes from one time until another cost no more than p had, with what refilled meanwhile. */
  ghost predicate Affords(c: Config, ips: Table, p: Payer, from: int, until: int, n: nat) {
    TOKEN * n <= Level(c, ips, p, from) + LimitOf(c, p).rate * (until - from)
  }

  lemma NothingSpent(c: Config, ips: Table, p: Payer, from: int, until: int)
    requires Good(c, ips, from) && from <= until
    ensures Affords(c, ips, p, from, until, 0)
  {
    NonNegative(LimitOf(c, p).rate, until - from);
    LevelBounds(c, ips, p, from);
  }

  lemma {:induction false} SpendingBounded(c: Config, ips: Table, events: seq<Event>, p: Payer, from: int, until: int)
    requires Good(c, ips, from) && Timely(c, ips, events, from) && EndTime(events, from) <= until
    requires AlwaysStays(c, ips, events, p)
    ensures Affords(c, ips, p, from, until, Passed(c, ips, events, p))
    decreases |events|
  {
    if events == [] {
      NothingSpent(c, ips, p, from, until);
    } else {
      var e := events[0];
      StepKeepsGood(c, ips, e, from);
      SpendingBounded(c, After(c, ips, e), events[1..], p, e.now, until);
      StepSpending(c, ips, e, p, from, until, Passed(c, After(c, ips, e), events[1..], p));
    }
  }

  lemma StepSpending(c: Config, ips: Table, e: Event, p: Payer, from: int, until: int, rest: nat)
    requires Good(c, ips, from) && from <= e.now && VictimOf(ips, e) && Stays(c, ips, e, p)
    requires Affords(c, After(c, ips, e), p, e.now, until, rest)
    ensures Affords(c, ips, p, from, until, rest + if Passes(c, ips, e, p) then 1 else 0)
  {
    LevelStep(c, ips, e, p, from);
    SpentInTurn(c, After(c, ips, e), ips, p, from, e.now, until, rest, if Passes(c, ips, e, p) then 1 else 0);
  }

  lemma LevelStep(c: Config, ips: Table, e: Event, p: Payer, from: int)
    requires Good(c, ips, from) && from <= e.now && VictimOf(ips, e) && Stays(c, ips, e, p)
    ensures Level(c, After(c, ips, e), p, e.now) + TOKEN * (if Passes(c, ips, e, p) then 1 else 0) <=
      Level(c, ips, p, from) + LimitOf(c, p).rate * (e.now - from)
  {
    GoodLater(c, ips, from, e.now);
    StepPays(c, ips, e, p);
    LevelGrows(c, ips, p, from, e.now);
  }

  lemma SpentInTurn(c: Config, after: Table, ips: Table, p: Payer, from: int, now: int, until: int, rest: nat, n: nat)
    requires Affords(c, after, p, now, until, rest)
    requires Level(c, after, p, now) + TOKEN * n <= Level(c, ips, p, from) + LimitOf(c, p).rate * (now - from)
    ensures Affords(c, ips, p, from, until, rest + n)
  {
    Consecutive(LimitOf(c, p).rate, until - now, now - from);
  }

  lemma Consecutive(rate: nat, a: int, b: int)
    ensures rate * a + rate * b == rate * (a + b)
  {}

  lemma LevelBounds(c: Config, ips: Table, p: Payer, now: int)
    requires Good(c, ips, now)
    ensures 0 <= Level(c, ips, p, now) <= LimitOf(c, p).capacity
  {
    BucketOfGood(c, ips, p, now);
    var b := BucketOf(ips, p);
    if b.Some? { AllowGood(LimitOf(c, p), b.value, ips[p.key].lastSeen, now); }
  }

  /** In any window of nanoseconds, whatever session ids it names, one address gets at most 4 * burst + 4 * perMinute
      * window / 60s requests through. */
  lemma Ceiling(c: Config, ips: Table, events: seq<Event>, key: string, from: int, window: nat)
    requires Good(c, ips, from) && Timely(c, ips, events, from) && EndTime(events, from) <= from + window
    requires AlwaysStays(c, ips, events, Address(key))
    ensures 60_000_000_000 * Passed(c, ips, events, Address(key)) <=
      4 * c.burst * 60_000_000_000 + 4 * c.perMinute * window
  {
    SpendingBounded(c, ips, events, Address(key), from, from + window);
    LevelBounds(c, ips, Address(key), from);
  }

  /** While a session has its bucket, it gets at most burst + perMinute * window / 60s of its own requests through. */
  lemma SessionCeiling(c: Config, ips: Table, events: seq<Event>, key: string, sid: string, from: int, window: nat)
    requires Good(c, ips, from) && Timely(c, ips, events, from) && EndTime(events, from) <= from + window
    requires AlwaysStays(c, ips, events, InSession(key, sid))
    ensures 60_000_000_000 * Passed(c, ips, events, InSession(key, sid)) <=
      c.burst * 60_000_000_000 + c.perMinute * window
  {
    SpendingBounded(c, ips, events, InSession(key, sid), from, from + window);
    LevelBounds(c, ips, InSession(key, sid), from);
  }
}
