/** AwaitRestart: telling from uptimes alone that FTL has restarted since a request was sent. Times are in
    nanoseconds. */
module Restart {
  import opened Wrappers

  const PROCESS_CHANGE_MARGIN := 100_000_000

  /** One probe of /info/ftl: no answer, or an uptime that arrived some time after the probe went out. */
  datatype Probe = Silent | Answer(probed: int, arrived: int, uptime: int)

  /** The answering process cannot have started before this. */
  function StartedFrom(p: Probe): int
    requires p.Answer?
  {
    p.probed - p.uptime
  }

  /** The answering process cannot have started after this. */
  function StartedBy(p: Probe): int
    requires p.Answer?
  {
    p.arrived - p.uptime
  }

  /** The test that ends the wait. seen is the earliest StartedBy of a process seen so far. */
  predicate Confirms(sent: int, seen: Option<int>, p: Probe) {
    p.Answer? && (StartedFrom(p) > sent || (seen.Some? && StartedFrom(p) > seen.value + PROCESS_CHANGE_MARGIN))
  }

  function See(seen: Option<int>, p: Probe): Option<int> {
    if p.Answer? && (seen.None? || StartedBy(p) < seen.value) then Some(StartedBy(p)) else seen
  }

  /** What the probes leave as the earliest StartedBy. */
  function SeenAfter(probes: seq<Probe>): Option<int> {
    if probes == [] then None else See(SeenAfter(probes[..|probes| - 1]), probes[|probes| - 1])
  }

  /** AwaitRestart, on the probes that fit in before its timeout: the probe that ended the wait, or none. */
  method AwaitRestart(sent: int, probes: seq<Probe>) returns (end: Option<nat>)
    ensures end.Some? ==> end.value < |probes| && Ends(sent, probes, end.value)
    ensures end.Some? ==> forall i :: 0 <= i < end.value ==> !Ends(sent, probes, i)
    ensures end.None? ==> forall i :: 0 <= i < |probes| ==> !Ends(sent, probes, i)
  {
    var seen := false;
    var seenStartedBy := 0;
    var i := 0;
    while i < |probes|
      invariant 0 <= i <= |probes|
      invariant (if seen then Some(seenStartedBy) else None) == SeenAfter(probes[..i])
      invariant forall j :: 0 <= j < i ==> !Ends(sent, probes, j)
    {
      var p := probes[i];
      if p.Answer? {
        var startedFrom := p.probed - p.uptime;
        var startedBy := p.arrived - p.uptime;
        if startedFrom > sent || (seen && startedFrom > seenStartedBy + PROCESS_CHANGE_MARGIN) {
          return Some(i);
        }
        if !seen || startedBy < seenStartedBy { seen, seenStartedBy := true, startedBy; }
      }
      assert probes[..i + 1][..i] == probes[..i];
      i := i + 1;
    }
    return None;
  }

  predicate Ends(sent: int, probes: seq<Probe>, i: nat)
    requires i < |probes|
  {
    Confirms(sent, SeenAfter(probes[..i]), probes[i])
  }

  /** An FTL process, from its start to its end. */
  datatype Process = Process(start: int, end: int)

  /** The wait ends at the first answer whose process cannot have started by the time the request was sent, or cannot
      have started by the time that some process seen answering before must have, by a tenth of a second. */
  lemma EndsExactly(sent: int, probes: seq<Probe>, i: nat)
    requires i < |probes|
    ensures Ends(sent, probes, i) <==>
      probes[i].Answer? &&
      (probes[i].probed - probes[i].uptime > sent ||
       exists j :: 0 <= j < i && probes[j].Answer? &&
         probes[i].probed - probes[i].uptime > probes[j].arrived - probes[j].uptime + 100_000_000)
  {
    var before := probes[..i];
    if SeenAfter(before).Some? {
      var k := SeenIsSomeAnswer(before);
      assert before[k] == probes[k];
    }
    forall j | 0 <= j < i && probes[j].Answer?
      ensures SeenAfter(before).Some? && SeenAfter(before).value <= StartedBy(probes[j])
    {
      assert before[j] == probes[j];
      SeenIsLeast(before, j);
    }
  }

  /** What really happened: the processes in order, which of them answered each probe, and when it read its uptime. */
  datatype History = History(processes: seq<Process>, who: seq<nat>, at: seq<int>)

  /** jitter is by how much a clock may be off where an uptime is read. */
  ghost predicate Explains(h: History, probes: seq<Probe>, sent: int, jitter: nat) {
    && |h.who| == |h.at| == |probes|
    && (forall i :: 0 <= i < |h.processes| ==> h.processes[i].start <= h.processes[i].end)
    && (forall i, j :: 0 <= i < j < |h.processes| ==> h.processes[i].end < h.processes[j].start)
    && (forall i :: 0 <= i < |probes| && probes[i].Answer? ==>
          && sent <= probes[i].probed <= h.at[i] <= probes[i].arrived
          && h.who[i] < |h.processes|
          && h.processes[h.who[i]].start <= h.at[i] <= h.processes[h.who[i]].end
          && probes[i].uptime <= h.at[i] - h.processes[h.who[i]].start + jitter
          && h.at[i] - h.processes[h.who[i]].start <= probes[i].uptime + jitter)
  }

  function StartOf(h: History, i: nat): int
    requires i < |h.who| && h.who[i] < |h.processes|
  {
    h.processes[h.who[i]].start
  }

  /** The bound kept belongs to some probe already answered. */
  lemma {:induction false} SeenIsSomeAnswer(probes: seq<Probe>) returns (i: nat)
    requires SeenAfter(probes).Some?
    ensures i < |probes| && probes[i].Answer? && SeenAfter(probes).value == StartedBy(probes[i])
  {
    var n := |probes| - 1;
    if SeenAfter(probes[..n]).Some? {
      i := SeenIsSomeAnswer(probes[..n]);
      if See(SeenAfter(probes[..n]), probes[n]) != SeenAfter(probes[..n]) { i := n; }
    } else {
      i := n;
    }
  }

  /** The bound kept is below that of every probe answered. */
  lemma {:induction false} SeenIsLeast(probes: seq<Probe>, i: nat)
    requires i < |probes| && probes[i].Answer?
    ensures SeenAfter(probes).Some? && SeenAfter(probes).value <= StartedBy(probes[i])
  {
    var n := |probes| - 1;
    if i < n { SeenIsLeast(probes[..n], i); }
  }

  /** When a probe ends the wait by the second test, its process started after the request, whatever failed before, if
      the margin covers the jitter of two readings; by the first test it did so up to the jitter of one. */
  lemma Sound(h: History, probes: seq<Probe>, sent: int, jitter: nat, i: nat)
    requires Explains(h, probes, sent, jitter) && i < |probes| && Ends(sent, probes, i)
    requires 2 * jitter <= PROCESS_CHANGE_MARGIN
    ensures StartOf(h, i) > sent - jitter
    ensures jitter == 0 || StartedFrom(probes[i]) <= sent ==> StartOf(h, i) > sent
  {
    if StartedFrom(probes[i]) <= sent {
      var j := SeenIsSomeAnswer(probes[..i]);
      assert probes[..i][j] == probes[j];
      assert StartOf(h, i) > StartOf(h, j);
      assert h.who[j] < h.who[i];
    }
  }

  /** One process answers twice, and reads its uptime jitter too long and then jitter too short. */
  lemma MarginTooSmall(jitter: nat) returns (h: History, probes: seq<Probe>)
    requires 2 * jitter > PROCESS_CHANGE_MARGIN
    ensures Explains(h, probes, 0, jitter) && |probes| == 2 && Ends(0, probes, 1)
    ensures StartedFrom(probes[1]) <= 0 && StartOf(h, 1) <= 0
  {
    var j := jitter as int;
    h := History([Process(-j, 2)], [0, 0], [1, 2]);
    probes := [Answer(1, 1, 1 + 2 * j), Answer(2, 2, 2)];
    assert probes[..1] == [probes[0]] && probes[..1][..0] == [];
    assert SeenAfter(probes[..1]) == See(SeenAfter([]), probes[0]);
  }

  /** No process that had started by the request is taken for a new one by the second test. */
  ghost predicate SecondTestSound(h: History, probes: seq<Probe>, sent: int, i: nat)
    requires i < |probes| && i < |h.who| && h.who[i] < |h.processes| && probes[i].Answer?
  {
    Ends(sent, probes, i) && StartedFrom(probes[i]) <= sent ==> StartOf(h, i) > sent
  }

  /** The margin is enough for the second test exactly when it covers the jitter twice. */
  lemma MarginExact(jitter: nat)
    ensures (forall h: History, probes: seq<Probe>, sent: int, i: nat ::
               Explains(h, probes, sent, jitter) && i < |probes| && probes[i].Answer? ==>
               SecondTestSound(h, probes, sent, i)) <==>
      2 * jitter <= PROCESS_CHANGE_MARGIN
  {
    if 2 * jitter <= PROCESS_CHANGE_MARGIN {
      forall h: History, probes: seq<Probe>, sent: int, i: nat |
        Explains(h, probes, sent, jitter) && i < |probes| && probes[i].Answer?
        ensures SecondTestSound(h, probes, sent, i)
      {
        if Ends(sent, probes, i) { Sound(h, probes, sent, jitter, i); }
      }
    } else {
      var h, probes := MarginTooSmall(jitter);
      assert !SecondTestSound(h, probes, 0, 1);
    }
  }

  /** The first test has no margin: a process that started just before the request is taken for a new one when the
      uptime is read too short. */
  lemma FirstTestFooled(jitter: nat)
    requires jitter > 0
    ensures var h := History([Process(0, jitter + 1)], [0], [jitter + 1]);
      var probes := [Answer(jitter + 1, jitter + 1, 1)];
      Explains(h, probes, 0, jitter) && Ends(0, probes, 0) && StartOf(h, 0) <= 0
  {}

  function RoundTrip(p: Probe): int
    requires p.Answer?
  {
    p.arrived - p.probed
  }

  /** A probe whose process started more than the probe's round trip and the jitter after the request ends the wait,
      if none before did; so does one whose process started later than one seen before, by the margin, both round
      trips and the jitter twice. */
  lemma Complete(h: History, probes: seq<Probe>, sent: int, jitter: nat, i: nat)
    requires Explains(h, probes, sent, jitter) && i < |probes| && probes[i].Answer?
    requires
      || StartOf(h, i) > sent + RoundTrip(probes[i]) + jitter
      || exists j :: 0 <= j < i && probes[j].Answer? && StartOf(h, i) >
           StartOf(h, j) + PROCESS_CHANGE_MARGIN + RoundTrip(probes[i]) + RoundTrip(probes[j]) + 2 * jitter
    ensures Ends(sent, probes, i)
  {
    if StartOf(h, i) <= sent + RoundTrip(probes[i]) + jitter {
      var j :| 0 <= j < i && probes[j].Answer? && StartOf(h, i) >
        StartOf(h, j) + PROCESS_CHANGE_MARGIN + RoundTrip(probes[i]) + RoundTrip(probes[j]) + 2 * jitter;
      assert probes[..i][j] == probes[j];
      SeenIsLeast(probes[..i], j);
    }
  }

  /** While only processes older than the request answer, by the jitter, the wait goes on, however many probes fail. */
  lemma OldProcessNeverEnds(h: History, probes: seq<Probe>, sent: int, jitter: nat)
    requires Explains(h, probes, sent, jitter) && 2 * jitter <= PROCESS_CHANGE_MARGIN
    requires forall i :: 0 <= i < |probes| && probes[i].Answer? ==> StartOf(h, i) <= sent - jitter
    ensures forall i :: 0 <= i < |probes| ==> !Ends(sent, probes, i)
  {
    forall i | 0 <= i < |probes| && Ends(sent, probes, i) ensures false {
      Sound(h, probes, sent, jitter, i);
    }
  }
}
