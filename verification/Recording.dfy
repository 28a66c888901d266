/** metrics/latency.go under concurrency: any number of recorders and quantile readers, interleaved at
    the granularity of their atomic operations. */
module Recording {
  import opened Base
  import opened Buckets
  import opened Histograms

  /** What a recorder does next. */
  datatype Phase = AddBucket | AddCount | AddSum | LoadMax | SwapMax(cur: nat) | Finished

  datatype Recorder = Recorder(v: nat, phase: Phase)

  /** A QuantileMillis(q) call. It scans after loading `total`; `start` is what the buckets were then, and `end`
      what they were when it had its answer. */
  datatype Reader =
    | Scanning(q: real, total: nat, target: nat, next: nat, seen: nat, start: seq<nat>)
    | Answered(q: real, total: nat, target: nat, bucket: nat, start: seq<nat>, end: seq<nat>)
    | SawNothing
    | FellThrough

  datatype State = State(
    buckets: seq<nat>, count: nat, sum: nat, max: nat,
    recorders: seq<Recorder>, readers: seq<Reader>)

  datatype Event = BeginRecord(v: nat) | StepRecord(t: nat) | BeginQuery(q: real) | StepQuery(r: nat)

  function Initial(): State {
    State(seq(NUM_BUCKETS, _ => 0), 0, 0, 0, [], [])
  }

  /** The histogram has all its buckets, and recorders have durations. */
  ghost predicate Shaped(s: State) {
    |s.buckets| == NUM_BUCKETS && forall t :: 0 <= t < |s.recorders| ==> s.recorders[t].v < TWO_TO_THE_63
  }

  ghost predicate Enabled(s: State, e: Event) {
    Shaped(s) &&
    match e
    case BeginRecord(v) => v < TWO_TO_THE_63
    case StepRecord(t) => t < |s.recorders| && s.recorders[t].phase != Finished
    case BeginQuery(_) => true
    case StepQuery(r) => r < |s.readers| && s.readers[r].Scanning?
  }

  /** One atomic operation of a recorder. */
  function RecorderStep(s: State, t: nat): State
    requires t < |s.recorders| && |s.buckets| == NUM_BUCKETS
    requires 0 <= BucketIndex(s.recorders[t].v) < NUM_BUCKETS
  {
    var r := s.recorders[t];
    match r.phase
    case AddBucket =>
      var i := BucketIndex(r.v);
      s.(buckets := s.buckets[i := s.buckets[i] + 1], recorders := s.recorders[t := r.(phase := AddCount)])
    case AddCount => s.(count := s.count + 1, recorders := s.recorders[t := r.(phase := AddSum)])
    case AddSum =>
      s.(sum := (s.sum + r.v) % TWO_TO_THE_64, recorders := s.recorders[t := r.(phase := LoadMax)])
    case LoadMax =>
      s.(recorders := s.recorders[t := r.(phase := if r.v <= s.max then Finished else SwapMax(s.max))])
    case SwapMax(cur) =>
      if s.max == cur then s.(max := r.v, recorders := s.recorders[t := r.(phase := Finished)])
      else s.(recorders := s.recorders[t := r.(phase := LoadMax)])
    case Finished => s
  }

  /** One bucket load of a reader. */
  function ReaderStep(s: State, r: nat): State
    requires r < |s.readers| && s.readers[r].Scanning? && |s.buckets| == NUM_BUCKETS
  {
    var x := s.readers[r];
    if x.next >= NUM_BUCKETS then s.(readers := s.readers[r := FellThrough])
    else
      var seen := x.seen + s.buckets[x.next];
      s.(readers := s.readers[r :=
        if seen > x.target then Answered(x.q, x.total, x.target, x.next, x.start, s.buckets)
        else x.(next := x.next + 1, seen := seen)])
  }

  function QueryStarted(s: State, q: real): Reader {
    if s.count == 0 then SawNothing else Scanning(q, s.count, Rank(q, s.count), 0, 0, s.buckets)
  }

  function Step(s: State, e: Event): State
    requires Enabled(s, e)
  {
    match e
    case BeginRecord(v) => s.(recorders := s.recorders + [Recorder(v, AddBucket)])
    case StepRecord(t) => ValueInItsBucket(s.recorders[t].v); RecorderStep(s, t)
    case BeginQuery(q) => s.(readers := s.readers + [QueryStarted(s, q)])
    case StepQuery(r) => ReaderStep(s, r)
  }

  // ---------- Tallies over the recorders ----------

  function Bucketed(): Recorder -> nat {
    (r: Recorder) => if r.phase.AddBucket? then 0 else 1
  }

  function BucketedIn(i: int): Recorder -> nat {
    (r: Recorder) => if r.phase.AddBucket? || BucketIndex(r.v) != i then 0 else 1
  }

  function Counted(): Recorder -> nat {
    (r: Recorder) => if r.phase.AddBucket? || r.phase.AddCount? then 0 else 1
  }

  function Summed(): Recorder -> nat {
    (r: Recorder) => if r.phase.AddBucket? || r.phase.AddCount? || r.phase.AddSum? then 0 else r.v
  }

  function SumAll(a: seq<nat>): nat {
    if a == [] then 0 else SumAll(a[..|a| - 1]) + a[|a| - 1]
  }

  lemma {:induction false} SumAllUpdate(a: seq<nat>, i: nat, x: nat)
    requires i < |a|
    ensures SumAll(a[i := x]) == SumAll(a) - a[i] + x
  {
    var front := a[..|a| - 1];
    if i < |a| - 1 {
      assert a[i := x][..|a| - 1] == front[i := x];
      SumAllUpdate(front, i, x);
    } else {
      assert a[i := x][..|a| - 1] == front;
    }
  }

  lemma {:induction false} SumAllZero(a: seq<nat>)
    requires forall i :: 0 <= i < |a| ==> a[i] == 0
    ensures SumAll(a) == 0
  {
    if a != [] {
      SumAllZero(a[..|a| - 1]);
    }
  }

  // ---------- The invariant ----------

  ghost predicate RecorderOk(r: Recorder, max: nat) {
    && r.v < TWO_TO_THE_63
    && (r.phase.SwapMax? ==> r.phase.cur < r.v && r.phase.cur <= max)
    && (r.phase.Finished? ==> r.v <= max)
  }

  ghost predicate ReaderOk(x: Reader, buckets: seq<nat>) {
    match x
    case Scanning(q, total, target, next, seen, start) =>
      && total > 0 && target == Rank(q, total) && |start| == |buckets| == NUM_BUCKETS && next <= NUM_BUCKETS
      && target < total <= SumAll(start)
      && (forall i :: 0 <= i < NUM_BUCKETS ==> start[i] <= buckets[i])
      && SumAll(start[..next]) <= seen <= target && seen <= SumAll(buckets[..next])
    case Answered(q, total, target, bucket, start, end) =>
      && total > 0 && target == Rank(q, total) && total <= SumAll(start) && |start| == |end| == |buckets| == NUM_BUCKETS && bucket < NUM_BUCKETS
      && (forall i :: 0 <= i < NUM_BUCKETS ==> start[i] <= end[i] <= buckets[i])
      && SumAll(start[..bucket]) <= target < SumAll(end[..bucket + 1])
    case SawNothing => true
    case FellThrough => false
  }

  /** The maximum is the value of some recorder, and bounds the values of those that have finished. */
  ghost predicate MaxOk(s: State) {
    && (s.max == 0 || exists t :: 0 <= t < |s.recorders| && s.recorders[t].v == s.max)
    && (forall t :: 0 <= t < |s.recorders| ==> RecorderOk(s.recorders[t], s.max))
  }

  /** The shared words are tallies of how far each recorder has come. */
  ghost predicate Tallied(s: State) {
    && |s.buckets| == NUM_BUCKETS
    && (forall i :: 0 <= i < NUM_BUCKETS ==> s.buckets[i] == Tally(s.recorders, BucketedIn(i)))
    && SumAll(s.buckets) == Tally(s.recorders, Bucketed())
    && s.count == Tally(s.recorders, Counted())
    && s.sum == Tally(s.recorders, Summed()) % TWO_TO_THE_64
  }

  ghost predicate Inv(s: State) {
    && Tallied(s) && MaxOk(s)
    && (forall r :: 0 <= r < |s.readers| ==> ReaderOk(s.readers[r], s.buckets))
  }

  lemma InitialInv()
    ensures Inv(Initial())
  {
    SumAllZero(Initial().buckets);
  }

  lemma WrapSum(a: nat, b: nat)
    ensures (a % TWO_TO_THE_64 + b) % TWO_TO_THE_64 == (a + b) % TWO_TO_THE_64
  {
  }

  lemma BucketKeepsTallies(s: State, t: nat)
    requires Tallied(s) && t < |s.recorders| && 0 <= BucketIndex(s.recorders[t].v) < NUM_BUCKETS
    requires s.recorders[t].phase == AddBucket
    ensures Tallied(RecorderStep(s, t))
  {
    var r' := s.recorders[t].(phase := AddCount);
    var b := BucketIndex(r'.v);
    TallyUpdate(s.recorders, t, r', Bucketed());
    TallyUpdate(s.recorders, t, r', Counted());
    TallyUpdate(s.recorders, t, r', Summed());
    SumAllUpdate(s.buckets, b, s.buckets[b] + 1);
    BucketGrows(s, t, b);
    hide Tally, SumAll, BucketedIn;
  }

  lemma BucketGrows(s: State, t: nat, b: nat)
    requires Tallied(s) && t < |s.recorders| && s.recorders[t].phase == AddBucket
    requires b == BucketIndex(s.recorders[t].v) && b < NUM_BUCKETS
    ensures forall i :: 0 <= i < NUM_BUCKETS ==>
              s.buckets[b := s.buckets[b] + 1][i] ==
              Tally(s.recorders[t := s.recorders[t].(phase := AddCount)], BucketedIn(i))
  {
    forall i | 0 <= i < NUM_BUCKETS
      ensures s.buckets[b := s.buckets[b] + 1][i] ==
              Tally(s.recorders[t := s.recorders[t].(phase := AddCount)], BucketedIn(i))
    {
      TallyUpdate(s.recorders, t, s.recorders[t].(phase := AddCount), BucketedIn(i));
    }
  }

  lemma BucketTalliesUnmoved(s: State, t: nat, r: Recorder)
    requires Tallied(s) && t < |s.recorders| && s.recorders[t].phase != AddBucket
    requires r.v == s.recorders[t].v && r.phase != AddBucket
    ensures forall i :: 0 <= i < NUM_BUCKETS ==> s.buckets[i] == Tally(s.recorders[t := r], BucketedIn(i))
    ensures SumAll(s.buckets) == Tally(s.recorders[t := r], Bucketed())
  {
    TallyUpdate(s.recorders, t, r, Bucketed());
    forall i | 0 <= i < NUM_BUCKETS
      ensures s.buckets[i] == Tally(s.recorders[t := r], BucketedIn(i))
    {
      TallyUpdate(s.recorders, t, r, BucketedIn(i));
    }
  }

  lemma CountAndSumFollow(s: State, t: nat)
    requires Tallied(s) && t < |s.recorders| && 0 <= BucketIndex(s.recorders[t].v) < NUM_BUCKETS
    requires s.recorders[t].phase != AddBucket && s.recorders[t].phase != Finished
    ensures var s' := RecorderStep(s, t);
            && s'.count == Tally(s'.recorders, Counted())
            && s'.sum == Tally(s'.recorders, Summed()) % TWO_TO_THE_64
  {
    var r' := RecorderStep(s, t).recorders[t];
    TallyUpdate(s.recorders, t, r', Counted());
    TallyUpdate(s.recorders, t, r', Summed());
    WrapSum(Tally(s.recorders, Summed()), r'.v);
    hide Tally, SumAll, BucketedIn, Bucketed;
  }

  lemma RecorderKeepsTallies(s: State, t: nat)
    requires Tallied(s) && t < |s.recorders| && 0 <= BucketIndex(s.recorders[t].v) < NUM_BUCKETS
    ensures Tallied(RecorderStep(s, t))
  {
    var r := s.recorders[t];
    if r.phase == AddBucket {
      BucketKeepsTallies(s, t);
    } else if r.phase != Finished {
      var s' := RecorderStep(s, t);
      var r' := s'.recorders[t];
      assert s'.recorders == s.recorders[t := r'] && s'.buckets == s.buckets;
      BucketTalliesUnmoved(s, t, r');
      CountAndSumFollow(s, t);
      hide Tally, SumAll, BucketedIn, Bucketed, RecorderStep;
    }
  }

  lemma BeginKeepsTallies(s: State, v: nat)
    requires Tallied(s)
    ensures Tallied(s.(recorders := s.recorders + [Recorder(v, AddBucket)]))
  {
    var r := Recorder(v, AddBucket);
    TallyAppend(s.recorders, r, Bucketed());
    TallyAppend(s.recorders, r, Counted());
    TallyAppend(s.recorders, r, Summed());
    forall i | 0 <= i < NUM_BUCKETS
      ensures s.buckets[i] == Tally(s.recorders + [r], BucketedIn(i))
    {
      TallyAppend(s.recorders, r, BucketedIn(i));
    }
  }

  lemma RecorderKeepsMax(s: State, t: nat)
    requires MaxOk(s) && t < |s.recorders| && |s.buckets| == NUM_BUCKETS
    requires 0 <= BucketIndex(s.recorders[t].v) < NUM_BUCKETS
    ensures MaxOk(RecorderStep(s, t)) && RecorderStep(s, t).max >= s.max
  {
    var s' := RecorderStep(s, t);
    assert forall i :: 0 <= i < |s.recorders| ==> s'.recorders[i].v == s.recorders[i].v;
    if s'.max != s.max {
      assert s'.recorders[t].v == s'.max;
    } else if s.max != 0 {
      var i :| 0 <= i < |s.recorders| && s.recorders[i].v == s.max;
      assert s'.recorders[i].v == s'.max;
    }
  }

  lemma {:induction false} SumAllMonotone(a: seq<nat>, b: seq<nat>)
    requires |a| == |b| && forall i :: 0 <= i < |a| ==> a[i] <= b[i]
    ensures SumAll(a) <= SumAll(b)
  {
    if a != [] {
      SumAllMonotone(a[..|a| - 1], b[..|b| - 1]);
    }
  }

  lemma ReaderSurvivesGrowth(x: Reader, before: seq<nat>, after: seq<nat>)
    requires ReaderOk(x, before) && |before| == |after| == NUM_BUCKETS
    requires forall i :: 0 <= i < NUM_BUCKETS ==> before[i] <= after[i]
    ensures ReaderOk(x, after)
  {
    if x.Scanning? {
      SumAllMonotone(before[..x.next], after[..x.next]);
    }
  }

  lemma ReadersKeepOk(s: State, s': State)
    requires forall r :: 0 <= r < |s.readers| ==> ReaderOk(s.readers[r], s.buckets)
    requires s'.readers == s.readers && |s.buckets| == |s'.buckets| == NUM_BUCKETS
    requires forall i :: 0 <= i < NUM_BUCKETS ==> s.buckets[i] <= s'.buckets[i]
    ensures forall r :: 0 <= r < |s'.readers| ==> ReaderOk(s'.readers[r], s'.buckets)
  {
    hide ReaderOk;
    forall r | 0 <= r < |s'.readers|
      ensures ReaderOk(s'.readers[r], s'.buckets)
    {
      ReaderSurvivesGrowth(s.readers[r], s.buckets, s'.buckets);
    }
  }

  /** Each bucket a reader loads is at least what it was when the reader loaded the count, so the reader
      cannot run out of buckets before it has seen its target; and at most what it is now. */
  lemma ReaderStaysInScan(x: Reader, buckets: seq<nat>)
    requires ReaderOk(x, buckets) && x.Scanning?
    ensures x.next < NUM_BUCKETS
    ensures SumAll(x.start[..x.next + 1]) <= x.seen + buckets[x.next] <= SumAll(buckets[..x.next + 1])
  {
    assert x.start[..|x.start|] == x.start;
    assert x.start[..x.next + 1][..x.next] == x.start[..x.next];
    assert buckets[..x.next + 1][..x.next] == buckets[..x.next];
  }

  lemma WordsUntouched(s: State, readers: seq<Reader>)
    requires Tallied(s) && MaxOk(s)
    ensures Tallied(s.(readers := readers)) && MaxOk(s.(readers := readers)) && |s.buckets| == NUM_BUCKETS
  {
  }

  lemma ReaderKeepsOk(s: State, r: nat)
    requires Inv(s) && r < |s.readers| && s.readers[r].Scanning?
    ensures Inv(ReaderStep(s, r))
  {
    hide Tallied, MaxOk, SumAll, Rank;
    WordsUntouched(s, ReaderStep(s, r).readers);
    ReaderStaysInScan(s.readers[r], s.buckets);
  }

  lemma QueryStartsOk(s: State, q: real)
    requires Inv(s)
    ensures ReaderOk(QueryStarted(s, q), s.buckets)
  {
    TallyMonotone(s.recorders, Counted(), Bucketed());
    assert s.buckets[..0] == [];
  }

  /** Every atomic step keeps the invariant, under which no step is ruled out for its shape. */
  lemma StepKeepsInv(s: State, e: Event)
    requires Inv(s) && Enabled(s, e)
    ensures Inv(Step(s, e)) && Shaped(Step(s, e))
  {
    hide ReaderStep, Rank, BucketIndex;
    match e {
      case BeginRecord(v) =>
        BeginKeepsTallies(s, v);
        var s' := Step(s, e);
        if s.max != 0 {
          var t :| 0 <= t < |s.recorders| && s.recorders[t].v == s.max;
          assert s'.recorders[t].v == s.max;
        }
      case StepRecord(t) =>
        ValueInItsBucket(s.recorders[t].v);
        RecorderKeepsTallies(s, t);
        RecorderKeepsMax(s, t);
        ReadersKeepOk(s, Step(s, e));
      case BeginQuery(q) => QueryStartsOk(s, q);
      case StepQuery(r) => ReaderKeepsOk(s, r);
    }
  }

  // ---------- Runs ----------

  ghost predicate ValidRun(s: State, events: seq<Event>)
    decreases |events|
  {
    events != [] ==> Enabled(s, events[0]) && ValidRun(Step(s, events[0]), events[1..])
  }

  ghost function Run(s: State, events: seq<Event>): State
    requires ValidRun(s, events)
    decreases |events|
  {
    if events == [] then s else Run(Step(s, events[0]), events[1..])
  }

  lemma {:induction false} RunKeepsInv(s: State, events: seq<Event>)
    requires Inv(s) && ValidRun(s, events)
    ensures Inv(Run(s, events))
    decreases |events|
  {
    if events != [] {
      StepKeepsInv(s, events[0]);
      RunKeepsInv(Step(s, events[0]), events[1..]);
    }
  }

  /** Under every interleaving the bucket total is never below the count, and no quantile reader ever
      falls through its scan. */
  lemma ScanNeverFallsThrough(s: State, events: seq<Event>)
    requires Inv(s) && ValidRun(s, events)
    ensures Run(s, events).count <= SumAll(Run(s, events).buckets)
    ensures forall r :: 0 <= r < |Run(s, events).readers| ==> !Run(s, events).readers[r].FellThrough?
  {
    RunKeepsInv(s, events);
    TallyMonotone(Run(s, events).recorders, Counted(), Bucketed());
  }

  // ---------- What a racing quantile returns ----------

  /** Bucket `i` holds the value of rank `target` among those counted in `buckets`. */
  predicate HoldsRank(buckets: seq<nat>, target: nat, i: nat) {
    i < |buckets| && SumAll(buckets[..i]) <= target < SumAll(buckets[..i + 1])
  }

  lemma {:induction false} PrefixSums(buckets: seq<nat>, m: nat, n: nat)
    requires m <= n <= |buckets|
    ensures SumAll(buckets[..m]) <= SumAll(buckets[..n])
    decreases n
  {
    if m < n {
      assert buckets[..n][..n - 1] == buckets[..n - 1];
      PrefixSums(buckets, m, n - 1);
    }
  }

  /** However recorders race with it, a reader answers with a bucket between the one that holds its rank when it
      has its answer and the one that held it when it loaded the count. */
  lemma AnswerLiesBetween(s: State, events: seq<Event>, r: nat, first: nat, last: nat)
    requires Inv(s) && ValidRun(s, events) && r < |Run(s, events).readers| && Run(s, events).readers[r].Answered?
    requires HoldsRank(Run(s, events).readers[r].start, Run(s, events).readers[r].target, first)
    requires HoldsRank(Run(s, events).readers[r].end, Run(s, events).readers[r].target, last)
    ensures last <= Run(s, events).readers[r].bucket <= first
  {
    RunKeepsInv(s, events);
    var x := Run(s, events).readers[r];
    assert ReaderOk(x, Run(s, events).buckets);
    if x.bucket > first {
      PrefixSums(x.start, first + 1, x.bucket);
    }
    if last > x.bucket {
      PrefixSums(x.end, x.bucket + 1, last);
    }
  }

  /** Nothing recorded in between: the answer is the bucket that holds the rank. */
  lemma UndisturbedAnswer(s: State, events: seq<Event>, r: nat)
    requires Inv(s) && ValidRun(s, events) && r < |Run(s, events).readers| && Run(s, events).readers[r].Answered?
    requires Run(s, events).readers[r].start == Run(s, events).readers[r].end
    ensures var x := Run(s, events).readers[r]; HoldsRank(x.end, x.target, x.bucket)
  {
    RunKeepsInv(s, events);
    assert ReaderOk(Run(s, events).readers[r], Run(s, events).buckets);
  }

  // ---------- Quiescence ----------

  function Values(recs: seq<Recorder>): seq<nat> {
    if recs == [] then [] else [recs[0].v] + Values(recs[1..])
  }

  ghost predicate Quiescent(s: State) {
    forall t :: 0 <= t < |s.recorders| ==> s.recorders[t].phase == Finished
  }

  lemma {:induction false} FinishedTallies(recs: seq<Recorder>, i: int)
    requires forall t :: 0 <= t < |recs| ==> recs[t].phase == Finished
    ensures Tally(recs, BucketedIn(i)) == Count(Values(recs), InBucket(i))
    ensures Tally(recs, Counted()) == |recs| == |Values(recs)|
    ensures Tally(recs, Summed()) == Total(Values(recs))
  {
    if recs != [] {
      FinishedTallies(recs[1..], i);
      assert Values(recs)[1..] == Values(recs[1..]);
    }
  }

  lemma {:induction false} LargestIsMax(recs: seq<Recorder>, max: nat)
    requires forall t :: 0 <= t < |recs| ==> recs[t].v <= max
    requires exists t :: 0 <= t < |recs| && recs[t].v == max
    ensures Largest(Values(recs)) == max
  {
    LargestBounds(recs, max);
    var t :| 0 <= t < |recs| && recs[t].v == max;
    LargestReaches(recs, t);
  }

  lemma {:induction false} LargestBounds(recs: seq<Recorder>, max: nat)
    requires forall t :: 0 <= t < |recs| ==> recs[t].v <= max
    ensures Largest(Values(recs)) <= max
  {
    if recs != [] {
      LargestBounds(recs[1..], max);
      assert Values(recs)[1..] == Values(recs[1..]);
    }
  }

  lemma {:induction false} LargestReaches(recs: seq<Recorder>, t: nat)
    requires t < |recs|
    ensures recs[t].v <= Largest(Values(recs))
  {
    assert Values(recs)[1..] == Values(recs[1..]);
    if t > 0 {
      LargestReaches(recs[1..], t - 1);
    }
  }

  /** Once all recorders have finished, whatever the interleaving was, the shared words hold what
      recording the same values one after the other leaves: buckets, count, sum and the exact maximum. */
  lemma QuiescentIsSequential(s: State, events: seq<Event>)
    requires Inv(s) && ValidRun(s, events) && Quiescent(Run(s, events))
    ensures var t := Run(s, events); var data := Values(t.recorders);
            && |t.buckets| == NUM_BUCKETS
            && (forall i :: 0 <= i < NUM_BUCKETS ==> t.buckets[i] == Count(data, InBucket(i)))
            && t.count == |data| && t.sum == Total(data) % TWO_TO_THE_64
            && t.max == Largest(data)
  {
    RunKeepsInv(s, events);
    var t := Run(s, events);
    forall i | 0 <= i < NUM_BUCKETS
      ensures t.buckets[i] == Count(Values(t.recorders), InBucket(i))
    {
      FinishedTallies(t.recorders, i);
    }
    FinishedTallies(t.recorders, 0);
    if t.max == 0 {
      LargestBounds(t.recorders, 0);
    } else {
      LargestIsMax(t.recorders, t.max);
    }
  }

  // ---------- A recording that nothing disturbs ----------

  /** One step of the recorder that began last. */
  lemma LastRecorderSteps(s: State, others: seq<Recorder>, x: Recorder)
    requires Shaped(s) && s.recorders == others + [x] && x.phase != Finished
    ensures var t := Step(s, StepRecord(|others|));
            && Enabled(s, StepRecord(|others|)) && Shaped(t) && 0 <= BucketIndex(x.v) < NUM_BUCKETS
            && match x.phase
               case AddBucket =>
                 t == s.(buckets := s.buckets[BucketIndex(x.v) := s.buckets[BucketIndex(x.v)] + 1],
                         recorders := others + [Recorder(x.v, AddCount)])
               case AddCount => t == s.(count := s.count + 1, recorders := others + [Recorder(x.v, AddSum)])
               case AddSum =>
                 t == s.(sum := (s.sum + x.v) % TWO_TO_THE_64, recorders := others + [Recorder(x.v, LoadMax)])
               case LoadMax =>
                 t == s.(recorders := others + [Recorder(x.v, if x.v <= s.max then Finished else SwapMax(s.max))])
               case SwapMax(cur) =>
                 cur == s.max ==> t == s.(max := x.v, recorders := others + [Recorder(x.v, Finished)])
  {
    ValueInItsBucket(x.v);
  }

  /** The four or five steps of a recorder that nothing disturbs. */
  function Steps(t: nat, raises: bool): seq<Event> {
    var e := StepRecord(t);
    [e, e, e] + if raises then [e, e] else [e]
  }

  /** What a recorder has done to the words when it comes to the maximum. */
  function ThreeAdditions(s: State, others: seq<Recorder>, v: nat): State
    requires |s.buckets| == NUM_BUCKETS && 0 <= BucketIndex(v) < NUM_BUCKETS
  {
    var i := BucketIndex(v);
    s.(buckets := s.buckets[i := s.buckets[i] + 1], count := s.count + 1, sum := (s.sum + v) % TWO_TO_THE_64,
       recorders := others + [Recorder(v, LoadMax)])
  }

  lemma FirstThreeSteps(s: State, others: seq<Recorder>, v: nat, rest: seq<Event>)
    requires Shaped(s) && s.recorders == others + [Recorder(v, AddBucket)]
    ensures |s.buckets| == NUM_BUCKETS && 0 <= BucketIndex(v) < NUM_BUCKETS && Shaped(ThreeAdditions(s, others, v))
    ensures var e, t := StepRecord(|others|), ThreeAdditions(s, others, v);
            ValidRun(t, rest) ==> ValidRun(s, [e, e, e] + rest) && Run(s, [e, e, e] + rest) == Run(t, rest)
  {
    var e := StepRecord(|others|);
    hide Enabled, Step, Shaped, Run, ValidRun, BucketIndex;
    LastRecorderSteps(s, others, Recorder(v, AddBucket));
    var s1 := Step(s, e);
    LastRecorderSteps(s1, others, Recorder(v, AddCount));
    var s2 := Step(s1, e);
    LastRecorderSteps(s2, others, Recorder(v, AddSum));
    BucketsShaped(s);
    assert Step(s2, e) == ThreeAdditions(s, others, v);
    if ValidRun(ThreeAdditions(s, others, v), rest) {
      RunFirst(s2, e, rest);
      RunFirst(s1, e, [e] + rest);
      RunFirst(s, e, [e] + ([e] + rest));
      assert [e] + ([e] + ([e] + rest)) == [e, e, e] + rest;
    }
  }

  lemma BucketsShaped(s: State)
    requires Shaped(s)
    ensures |s.buckets| == NUM_BUCKETS
  {
  }

  lemma LastSteps(s: State, others: seq<Recorder>, v: nat)
    requires Shaped(s) && s.recorders == others + [Recorder(v, LoadMax)]
    ensures var e := StepRecord(|others|); var rest := if v > s.max then [e, e] else [e];
            && ValidRun(s, rest)
            && Run(s, rest) == s.(max := Max(s.max, v), recorders := others + [Recorder(v, Finished)])
  {
    var e := StepRecord(|others|);
    hide Enabled, Step, Shaped, Run, ValidRun, BucketIndex;
    LastRecorderSteps(s, others, Recorder(v, LoadMax));
    var t := Step(s, e);
    if v > s.max {
      LastRecorderSteps(t, others, Recorder(v, SwapMax(s.max)));
      RunNone(Step(t, e));
      RunFirst(t, e, []);
      RunFirst(s, e, [e]);
      assert [e] + [] == [e] && [e] + [e] == [e, e];
    } else {
      RunNone(t);
      RunFirst(s, e, []);
      assert [e] + [] == [e];
    }
  }

  /** A recorder alone ends after four steps, or five when it raises the maximum. It has counted its value in one
      bucket, added one to the count and the value to the sum, and the maximum is the larger of the two. */
  lemma UndisturbedRecord(s: State, v: nat)
    requires Shaped(s) && v < TWO_TO_THE_63
    ensures var i, run := BucketIndex(v), [BeginRecord(v)] + Steps(|s.recorders|, v > s.max);
            && 0 <= i < NUM_BUCKETS && |s.buckets| == NUM_BUCKETS && ValidRun(s, run)
            && Run(s, run) == s.(buckets := s.buckets[i := s.buckets[i] + 1], count := s.count + 1,
                                 sum := (s.sum + v) % TWO_TO_THE_64, max := Max(s.max, v),
                                 recorders := s.recorders + [Recorder(v, Finished)])
  {
    hide Enabled, Step, Shaped, Run, ValidRun, BucketIndex, Steps;
    var others, e := s.recorders, StepRecord(|s.recorders|);
    var rest := if v > s.max then [e, e] else [e];
    RecordBegins(s, v);
    StepsAre(|s.recorders|, v > s.max);
    var s0 := Step(s, BeginRecord(v));
    FirstThreeSteps(s0, others, v, rest);
    LastSteps(ThreeAdditions(s0, others, v), others, v);
    RunFirst(s, BeginRecord(v), [e, e, e] + rest);
  }

  lemma StepsAre(t: nat, raises: bool)
    ensures var e := StepRecord(t); Steps(t, raises) == [e, e, e] + if raises then [e, e] else [e]
  {
  }

  lemma RecordBegins(s: State, v: nat)
    requires Shaped(s) && v < TWO_TO_THE_63
    ensures Enabled(s, BeginRecord(v)) && Shaped(Step(s, BeginRecord(v)))
    ensures Step(s, BeginRecord(v)) == s.(recorders := s.recorders + [Recorder(v, AddBucket)])
  {
  }

  lemma RunNone(s: State)
    ensures ValidRun(s, []) && Run(s, []) == s
  {
  }

  // ---------- Recorders get done ----------

  /** How many steps a recorder still has to take if the maximum stays as it is. */
  function StepsLeft(r: Recorder, max: nat): nat {
    var swap := if r.v <= max then 1 else 2;
    match r.phase
    case AddBucket => 3 + swap
    case AddCount => 2 + swap
    case AddSum => 1 + swap
    case LoadMax => swap
    case SwapMax(cur) => if cur == max then 1 else 1 + swap
    case Finished => 0
  }

  /** Recording is lock-free: every step of a recorder brings it nearer to its end, and it is only thrown back by
      another one that has just come to its own end. */
  lemma StepComesNearer(s: State, t: nat, u: nat)
    requires Inv(s) && Enabled(s, StepRecord(u)) && t < |s.recorders|
    ensures var s' := Step(s, StepRecord(u));
            && |s'.recorders| == |s.recorders|
            && (t == u ==> StepsLeft(s'.recorders[t], s'.max) == StepsLeft(s.recorders[t], s.max) - 1)
            && (t != u ==> s'.recorders[t] == s.recorders[t])
            && (t != u ==> StepsLeft(s'.recorders[t], s'.max) <= StepsLeft(s.recorders[t], s.max)
                           || s'.recorders[u].phase == Finished)
  {
    ValueInItsBucket(s.recorders[u].v);
    assert RecorderOk(s.recorders[t], s.max) && RecorderOk(s.recorders[u], s.max);
    hide Tallied, BucketIndex;
  }

  /** The next `n` steps of recorder `t`, with no other in between. */
  function Alone(t: nat, n: nat): seq<Event> {
    if n == 0 then [] else [StepRecord(t)] + Alone(t, n - 1)
  }

  lemma FinishedIffNoneLeft(r: Recorder, max: nat)
    ensures r.phase == Finished <==> StepsLeft(r, max) == 0
    ensures StepsLeft(r, max) <= 5
  {
  }

  /** Wherever it stands, and whatever the others have left undone, a recorder that runs alone finishes. */
  lemma {:induction false} AloneFinishes(s: State, t: nat)
    requires Inv(s) && Shaped(s) && t < |s.recorders|
    ensures StepsLeft(s.recorders[t], s.max) <= 5
    ensures var run := Alone(t, StepsLeft(s.recorders[t], s.max));
            && ValidRun(s, run) && t < |Run(s, run).recorders| && Run(s, run).recorders[t].phase == Finished
    decreases StepsLeft(s.recorders[t], s.max)
  {
    hide Inv, Shaped, StepsLeft, Step, Enabled, Run, ValidRun;
    var left := StepsLeft(s.recorders[t], s.max);
    FinishedIffNoneLeft(s.recorders[t], s.max);
    if left == 0 {
      RunNone(s);
    } else {
      MayStep(s, t);
      StepKeepsInv(s, StepRecord(t));
      StepComesNearer(s, t, t);
      AloneFinishes(Step(s, StepRecord(t)), t);
      RunFirst(s, StepRecord(t), Alone(t, left - 1));
    }
  }

  lemma MayStep(s: State, t: nat)
    requires Shaped(s) && t < |s.recorders| && s.recorders[t].phase != Finished
    ensures Enabled(s, StepRecord(t))
  {
  }

  // ---------- A quantile while nothing is recorded ----------

  /** The first `n` bucket loads of reader `r`. */
  function Loads(r: nat, n: nat): seq<Event> {
    if n == 0 then [] else [StepQuery(r)] + Loads(r, n - 1)
  }

  lemma RunFirst(s: State, e: Event, rest: seq<Event>)
    requires Enabled(s, e) && ValidRun(Step(s, e), rest)
    ensures ValidRun(s, [e] + rest) && Run(s, [e] + rest) == Run(Step(s, e), rest)
  {
    assert ([e] + rest)[1..] == rest;
  }

  /** The buckets count the values of `data`, and reader `r` has counted those before its next bucket. */
  ghost predicate CountedSoFar(s: State, r: nat, q: real, data: seq<nat>) {
    && Shaped(s) && data != [] && Durations(data)
    && (forall i :: 0 <= i < NUM_BUCKETS ==> s.buckets[i] == Count(data, InBucket(i)))
    && r < |s.readers| && s.readers[r].Scanning? && s.readers[r].target == Rank(q, |data|)
    && s.readers[r].seen == Count(data, Before(s.readers[r].next))
  }

  lemma LoadCounts(s: State, r: nat, q: real, data: seq<nat>, goal: nat)
    requires CountedSoFar(s, r, q, data) && goal == BucketIndex(OrderStatistic(data, q))
    requires s.readers[r].next <= goal < NUM_BUCKETS
    ensures var t, next := Step(s, StepQuery(r)), s.readers[r].next;
            if next == goal then
              r < |t.readers| && t.readers[r].Answered? && t.readers[r].bucket == goal
            else CountedSoFar(t, r, q, data) && t.readers[r].next == next + 1
  {
    var next := s.readers[r].next;
    CountSplitsAtBucket(data, next);
    ScanStopsAtStatistic(data, q, next + 1);
    hide OrderStatistic, Count, Rank;
  }

  lemma {:induction false} LoadsFind(s: State, r: nat, q: real, data: seq<nat>, goal: nat)
    requires CountedSoFar(s, r, q, data) && goal == BucketIndex(OrderStatistic(data, q))
    requires s.readers[r].next <= goal < NUM_BUCKETS
    ensures var loads := Loads(r, goal + 1 - s.readers[r].next);
            && ValidRun(s, loads) && r < |Run(s, loads).readers|
            && Run(s, loads).readers[r].Answered? && Run(s, loads).readers[r].bucket == goal
    decreases goal - s.readers[r].next
  {
    var next := s.readers[r].next;
    var t := Step(s, StepQuery(r));
    LoadCounts(s, r, q, data, goal);
    hide CountedSoFar, OrderStatistic, Step;
    if next == goal {
      assert Loads(r, 0) == [];
      RunFirst(s, StepQuery(r), []);
    } else {
      LoadsFind(t, r, q, data, goal);
      RunFirst(s, StepQuery(r), Loads(r, goal - next));
    }
  }

  /** A quantile taken while nothing is being recorded scans to the bucket of the order statistic of all the
      values recorded before. */
  lemma QuietQueryAnswers(s: State, q: real)
    requires Inv(s) && Quiescent(s) && s.recorders != []
    ensures var data, r := Values(s.recorders), |s.readers|;
            var goal := BucketIndex(OrderStatistic(data, q));
            && 0 <= goal < NUM_BUCKETS
            && var query := [BeginQuery(q)] + Loads(r, goal + 1);
               && ValidRun(s, query) && r < |Run(s, query).readers|
               && Run(s, query).readers[r].Answered? && Run(s, query).readers[r].bucket == goal
  {
    var data, r := Values(s.recorders), |s.readers|;
    var goal := BucketIndex(OrderStatistic(data, q));
    QueryIsCounting(s, q);
    StatisticInRange(data, q);
    hide *;
    LoadsFind(Step(s, BeginQuery(q)), r, q, data, goal);
    RunFirst(s, BeginQuery(q), Loads(r, goal + 1));
  }

  lemma StatisticInRange(data: seq<nat>, q: real)
    requires data != [] && Durations(data)
    ensures 0 <= BucketIndex(OrderStatistic(data, q)) < NUM_BUCKETS
  {
    StatisticIsRecorded(data, q);
    ValueInItsBucket(OrderStatistic(data, q));
  }

  /** A query begun while nothing is being recorded starts to count all that was recorded before. */
  lemma QueryIsCounting(s: State, q: real)
    requires Inv(s) && Quiescent(s) && s.recorders != []
    ensures Enabled(s, BeginQuery(q)) && Values(s.recorders) != [] && Durations(Values(s.recorders))
    ensures CountedSoFar(Step(s, BeginQuery(q)), |s.readers|, q, Values(s.recorders))
    ensures Step(s, BeginQuery(q)).readers[|s.readers|].next == 0
  {
    var data := Values(s.recorders);
    QuiescentIsSequential(s, []);
    ValuesAreDurations(s.recorders, s.max);
    CountBeforeFirst(data);
    hide Count, Rank, Tally, SumAll;
  }

  lemma {:induction false} ValuesAreDurations(recs: seq<Recorder>, max: nat)
    requires forall t :: 0 <= t < |recs| ==> RecorderOk(recs[t], max)
    ensures Durations(Values(recs)) && |Values(recs)| == |recs|
  {
    if recs != [] {
      ValuesAreDurations(recs[1..], max);
    }
  }
}
