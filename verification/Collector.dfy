/** metrics/collector.go: the request and eviction counters. */
module Collectors {
  import opened Base

  datatype Counters = Counters(
    total: nat, hits: nat, misses: nat, bytesServed: int, bytesFetched: int,
    evictions: nat, evictedBytes: int, backendReqs: nat)

  const ZERO := Counters(0, 0, 0, 0, 0, 0, 0, 0)

  function Requested(c: Counters, size: int, hit: bool): Counters {
    if hit then c.(total := c.total + 1, hits := c.hits + 1, bytesServed := c.bytesServed + size)
    else c.(total := c.total + 1, misses := c.misses + 1, bytesFetched := c.bytesFetched + size,
            backendReqs := c.backendReqs + 1)
  }

  function Fetched(c: Counters, size: int): Counters {
    c.(bytesFetched := c.bytesFetched + size)
  }

  function Evicted(c: Counters, size: int): Counters {
    c.(evictions := c.evictions + 1, evictedBytes := c.evictedBytes + size)
  }

  class Collector {
    var total: nat
    var hits: nat
    var misses: nat
    var bytesServed: int
    var bytesFetched: int
    var evictions: nat
    var evictedBytes: int
    var backendReqs: nat

    function View(): Counters
      reads this
    {
      Counters(total, hits, misses, bytesServed, bytesFetched, evictions, evictedBytes, backendReqs)
    }

    constructor ()
      ensures View() == ZERO
    {
      total, hits, misses, bytesServed, bytesFetched := 0, 0, 0, 0, 0;
      evictions, evictedBytes, backendReqs := 0, 0, 0;
    }

    method RecordRequest(size: int, hit: bool)
      modifies this
      ensures View() == Requested(old(View()), size, hit)
    {
      total := total + 1;
      if hit {
        hits := hits + 1;
        bytesServed := bytesServed + size;
      } else {
        misses := misses + 1;
        bytesFetched := bytesFetched + size;
        backendReqs := backendReqs + 1;
      }
    }

    method RecordFetch(size: int)
      modifies this
      ensures View() == Fetched(old(View()), size)
    {
      bytesFetched := bytesFetched + size;
    }

    method RecordEviction(size: int)
      modifies this
      ensures View() == Evicted(old(View()), size)
    {
      evictions := evictions + 1;
      evictedBytes := evictedBytes + size;
    }
  }
}

/** Collector counters under concurrency: requests being recorded while snapshots are taken, interleaved
    at the granularity of single atomic additions and loads. */
module SnapshotRuns {
  import opened Base

  /** A RecordRequest call: it adds to the total first, then to the hits or the misses. */
  datatype Request = Request(hit: bool, phase: RequestPhase)

  datatype RequestPhase = AddTotal | AddOutcome | Recorded

  datatype Counts = Counts(total: nat, hits: nat, misses: nat)

  /** A Snapshot call: it loads the hits, then the misses, then the total. What the counters were when it
      started, and when it was done, is kept as its history. */
  datatype Snapshot =
    | LoadHits(start: Counts)
    | LoadMisses(start: Counts, hits: nat)
    | LoadTotal(start: Counts, hits: nat, misses: nat)
    | Taken(start: Counts, taken: Counts, end: Counts)

  datatype State = State(counts: Counts, requests: seq<Request>, snapshots: seq<Snapshot>)

  datatype Event = BeginRequest(hit: bool) | StepRequest(r: nat) | BeginSnapshot | StepSnapshot(n: nat)

  const INITIAL := State(Counts(0, 0, 0), [], [])

  predicate Enabled(s: State, e: Event) {
    match e
    case StepRequest(r) => r < |s.requests| && s.requests[r].phase != Recorded
    case StepSnapshot(n) => n < |s.snapshots| && !s.snapshots[n].Taken?
    case _ => true
  }

  /** One atomic addition of a request. */
  function Added(c: Counts, x: Request): Counts {
    if x.phase == AddTotal then c.(total := c.total + 1)
    else if x.hit then c.(hits := c.hits + 1)
    else c.(misses := c.misses + 1)
  }

  /** One atomic load of a snapshot. */
  function Loaded(c: Counts, x: Snapshot): Snapshot {
    match x
    case LoadHits(start) => LoadMisses(start, c.hits)
    case LoadMisses(start, h) => LoadTotal(start, h, c.misses)
    case LoadTotal(start, h, m) => Taken(start, Counts(c.total, h, m), c)
    case Taken(_, _, _) => x
  }

  function Step(s: State, e: Event): State
    requires Enabled(s, e)
  {
    match e
    case BeginRequest(hit) => s.(requests := s.requests + [Request(hit, AddTotal)])
    case StepRequest(r) =>
      var x := s.requests[r];
      s.(counts := Added(s.counts, x),
         requests := s.requests[r := x.(phase := if x.phase == AddTotal then AddOutcome else Recorded)])
    case BeginSnapshot => s.(snapshots := s.snapshots + [LoadHits(s.counts)])
    case StepSnapshot(n) => s.(snapshots := s.snapshots[n := Loaded(s.counts, s.snapshots[n])])
  }

  // ---------- What the counters count ----------

  function Started(): Request -> nat {
    (x: Request) => if x.phase == AddTotal then 0 else 1
  }

  function Settled(hit: bool): Request -> nat {
    (x: Request) => if x.phase == Recorded && x.hit == hit then 1 else 0
  }

  /** Whether a request has added to the total but not yet to the hits or misses. */
  function Unsettled(x: Request): nat {
    if x.phase == AddOutcome then 1 else 0
  }

  predicate AtMost(c: Counts, d: Counts) {
    c.total <= d.total && c.hits <= d.hits && c.misses <= d.misses
  }

  ghost predicate SnapshotOk(x: Snapshot, c: Counts) {
    && AtMost(x.start, c)
    && match x
       case LoadHits(_) => true
       case LoadMisses(start, h) => start.hits <= h <= c.hits
       case LoadTotal(start, h, m) => start.hits <= h <= c.hits && start.misses <= m <= c.misses
       case Taken(start, taken, end) => AtMost(start, taken) && AtMost(taken, end) && Consistent(taken)
  }

  predicate Consistent(c: Counts) {
    c.hits + c.misses <= c.total
  }

  /** Each counter is the number of requests that have added to it. */
  ghost predicate Tallied(c: Counts, requests: seq<Request>) {
    && c.total == Tally(requests, Started())
    && c.hits == Tally(requests, Settled(true))
    && c.misses == Tally(requests, Settled(false))
    && c.hits + c.misses + Tally(requests, Unsettled) == c.total
  }

  ghost predicate Inv(s: State) {
    && Tallied(s.counts, s.requests)
    && forall n :: 0 <= n < |s.snapshots| ==> SnapshotOk(s.snapshots[n], s.counts)
  }

  lemma AdditionIsTallied(s: State, r: nat)
    requires Tallied(s.counts, s.requests) && Enabled(s, StepRequest(r))
    ensures Tallied(Step(s, StepRequest(r)).counts, Step(s, StepRequest(r)).requests)
    ensures AtMost(s.counts, Step(s, StepRequest(r)).counts)
  {
    var x := Step(s, StepRequest(r)).requests[r];
    TallyUpdate(s.requests, r, x, Started());
    TallyUpdate(s.requests, r, x, Settled(true));
    TallyUpdate(s.requests, r, x, Settled(false));
    TallyUpdate(s.requests, r, x, Unsettled);
    hide Tally;
  }

  lemma BeginningIsTallied(c: Counts, requests: seq<Request>, hit: bool)
    requires Tallied(c, requests)
    ensures Tallied(c, requests + [Request(hit, AddTotal)])
  {
    var x := Request(hit, AddTotal);
    TallyAppend(requests, x, Started());
    TallyAppend(requests, x, Settled(true));
    TallyAppend(requests, x, Settled(false));
    TallyAppend(requests, x, Unsettled);
  }

  lemma StepKeepsInv(s: State, e: Event)
    requires Inv(s) && Enabled(s, e)
    ensures Inv(Step(s, e))
  {
    match e {
      case BeginRequest(hit) => BeginningIsTallied(s.counts, s.requests, hit);
      case StepRequest(r) =>
        AdditionIsTallied(s, r);
        hide Tallied, Added;
      case _ =>
    }
  }

  predicate ValidRun(s: State, events: seq<Event>)
    decreases |events|
  {
    events != [] ==> Enabled(s, events[0]) && ValidRun(Step(s, events[0]), events[1..])
  }

  function Run(s: State, events: seq<Event>): State
    requires ValidRun(s, events)
    decreases |events|
  {
    if events == [] then s else Run(Step(s, events[0]), events[1..])
  }

  lemma {:induction false} RunKeepsInv(s: State, events: seq<Event>)
    requires Inv(s) && ValidRun(s, events)
    ensures Inv(Run(s, events))
    decreases |events|
  {
    if events != [] {
      StepKeepsInv(s, events[0]);
      RunKeepsInv(Step(s, events[0]), events[1..]);
    }
  }

  lemma InitialInv()
    ensures Inv(INITIAL)
  {
  }

  /** Because of the order of its loads, every snapshot taken while requests are being recorded has at
      least as many requests as hits and misses together. Each of its counts lies between what the counter was
      when the snapshot was begun and what it was when it was done. */
  lemma SnapshotsAreConsistent(s: State, events: seq<Event>, n: nat)
    requires Inv(s) && ValidRun(s, events)
    requires n < |Run(s, events).snapshots| && Run(s, events).snapshots[n].Taken?
    ensures var x := Run(s, events).snapshots[n];
            Consistent(x.taken) && AtMost(x.start, x.taken) && AtMost(x.taken, x.end)
  {
    RunKeepsInv(s, events);
    var t := Run(s, events);
    assert SnapshotOk(t.snapshots[n], t.counts);
  }

  /** How many requests were hits, or were misses. */
  function Outcomes(requests: seq<Request>, hit: bool): nat {
    if requests == [] then 0 else (if requests[0].hit == hit then 1 else 0) + Outcomes(requests[1..], hit)
  }

  ghost predicate Quiescent(s: State) {
    forall r :: 0 <= r < |s.requests| ==> s.requests[r].phase == Recorded
  }

  lemma {:induction false} RecordedTallies(requests: seq<Request>)
    requires forall r :: 0 <= r < |requests| ==> requests[r].phase == Recorded
    ensures Tally(requests, Started()) == |requests|
    ensures Tally(requests, Settled(true)) == Outcomes(requests, true)
    ensures Tally(requests, Settled(false)) == Outcomes(requests, false)
  {
    if requests != [] {
      RecordedTallies(requests[1..]);
    }
  }

  /** A snapshot taken while no request is being recorded has all of them, each as the hit or the miss it was. */
  lemma QuietSnapshot(s: State, n: nat)
    requires Inv(s) && Quiescent(s) && n == |s.snapshots|
    ensures var events := [BeginSnapshot, StepSnapshot(n), StepSnapshot(n), StepSnapshot(n)];
            && ValidRun(s, events) && n < |Run(s, events).snapshots| && Run(s, events).snapshots[n].Taken?
            && Run(s, events).snapshots[n].taken ==
                 Counts(|s.requests|, Outcomes(s.requests, true), Outcomes(s.requests, false))
  {
    RecordedTallies(s.requests);
    var e := StepSnapshot(n);
    var s1 := Step(s, BeginSnapshot);
    var s2 := Step(s1, e);
    var s3 := Step(s2, e);
    RunFirst(s3, e, []);
    RunFirst(s2, e, [e]);
    RunFirst(s1, e, [e, e]);
    RunFirst(s, BeginSnapshot, [e, e, e]);
  }

  /** A request recorded while nothing else happens adds one to the total, and one to the hits or the misses. */
  lemma UndisturbedRequest(s: State, hit: bool, r: nat)
    requires r == |s.requests|
    ensures var events := [BeginRequest(hit), StepRequest(r), StepRequest(r)];
            && ValidRun(s, events)
            && Run(s, events).requests == s.requests + [Request(hit, Recorded)]
            && Run(s, events).counts == Counts(s.counts.total + 1, s.counts.hits + (if hit then 1 else 0),
                                               s.counts.misses + (if hit then 0 else 1))
  {
    var e := StepRequest(r);
    var s1 := Step(s, BeginRequest(hit));
    var s2 := Step(s1, e);
    RunFirst(s2, e, []);
    RunFirst(s1, e, [e]);
    RunFirst(s, BeginRequest(hit), [e, e]);
    assert Step(s2, e).requests == s.requests + [Request(hit, Recorded)];
  }

  lemma RunFirst(s: State, e: Event, rest: seq<Event>)
    requires Enabled(s, e) && ValidRun(Step(s, e), rest)
    ensures ValidRun(s, [e] + rest) && Run(s, [e] + rest) == Run(Step(s, e), rest)
  {
    assert ([e] + rest)[1..] == rest;
  }
}
