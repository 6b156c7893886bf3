/** Query counting off the query path: countQuery and runCounter of internal/server/stats.go. */
module Counter {

  import opened Options

  const QUEUE_SIZE := 4096
  const BATCH_SIZE := 256

  /** `flushed` lists the batches handed to a flush, `dropped` the counts that found the queue full. */
  datatype State = State(
    queue: seq<string>,
    batch: seq<string>,
    flushed: seq<seq<string>>,
    dropped: seq<string>,
    stopped: bool)

  const INIT := State([], [], [], [], false)

  /** A call of countQuery, or what runCounter's select takes next. */
  datatype Event = Count(member: string) | Receive | Tick | Shutdown

  predicate Enabled(s: State, e: Event) {
    match e
    case Count(_) => true
    case Receive => !s.stopped && s.queue != []
    case Tick => !s.stopped
    case Shutdown => !s.stopped
  }

  function Flush(s: State): State {
    if s.batch == [] then s else s.(flushed := s.flushed + [s.batch], batch := [])
  }

  function Apply(s: State, e: Event): State
    requires Enabled(s, e)
  {
    match e
    case Count(m) =>
      if |s.queue| < QUEUE_SIZE then s.(queue := s.queue + [m]) else s.(dropped := s.dropped + [m])
    case Receive =>
      var s1 := s.(queue := s.queue[1..], batch := s.batch + [s.queue[0]]);
      if |s1.batch| >= BATCH_SIZE then Flush(s1) else s1
    case Tick => Flush(s)
    case Shutdown => Flush(s).(stopped := true)
  }

  /** The state a run reaches, or None when some event of it is not enabled. */
  function Exec(evs: seq<Event>): Option<State> {
    if evs == [] then
      Some(INIT)
    else
      var before := Exec(evs[..|evs| - 1]);
      var e := evs[|evs| - 1];
      if before.Some? && Enabled(before.value, e) then Some(Apply(before.value, e)) else None
  }

  /** The members counted by a run, in order. */
  function Counted(evs: seq<Event>): seq<string> {
    if evs == [] then
      []
    else
      var e := evs[|evs| - 1];
      Counted(evs[..|evs| - 1]) + if e.Count? then [e.member] else []
  }

  function Flat(batches: seq<seq<string>>): seq<string> {
    if batches == [] then [] else Flat(batches[..|batches| - 1]) + batches[|batches| - 1]
  }

  /** Everything accepted, from the oldest flush to the newest queued count. */
  function Pipeline(s: State): seq<string> { Flat(s.flushed) + s.batch + s.queue }

  /** The goroutine's own loop, with its batch as a local variable. */
  method RunCounter(evs: seq<Event>) returns (s: State)
    requires Exec(evs).Some?
    ensures Exec(evs) == Some(s)
  {
    var queue: seq<string> := [];
    var batch: seq<string> := [];
    var flushed: seq<seq<string>> := [];
    var dropped: seq<string> := [];
    var stopped := false;
    for i := 0 to |evs|
      invariant Exec(evs[..i]) == Some(State(queue, batch, flushed, dropped, stopped))
    {
      RunsPrefix(evs, i + 1);
      assert evs[..i + 1][..i] == evs[..i];
      match evs[i]
      case Count(m) =>
        if |queue| < QUEUE_SIZE {
          queue := queue + [m];
        } else {
          dropped := dropped + [m];
        }
      case Receive =>
        batch := batch + [queue[0]];
        queue := queue[1..];
        if |batch| >= BATCH_SIZE {
          flushed, batch := flushed + [batch], [];
        }
      case Tick =>
        if |batch| != 0 {
          flushed, batch := flushed + [batch], [];
        }
      case Shutdown =>
        if |batch| != 0 {
          flushed, batch := flushed + [batch], [];
        }
        stopped := true;
    }
    assert evs[..|evs|] == evs;
    s := State(queue, batch, flushed, dropped, stopped);
  }

  lemma {:induction false} RunsPrefix(evs: seq<Event>, k: nat)
    requires Exec(evs).Some? && k <= |evs|
    ensures Exec(evs[..k]).Some?
  {
    if k == |evs| {
      assert evs[..k] == evs;
    } else {
      RunsPrefix(evs[..|evs| - 1], k);
      assert evs[..|evs| - 1][..k] == evs[..k];
    }
  }

  lemma FlushKeepsPipeline(s: State)
    ensures Pipeline(Flush(s)) == Pipeline(s)
  {
    if s.batch != [] {
      assert (s.flushed + [s.batch])[..|s.flushed|] == s.flushed;
    }
  }

  /** A step moves counts along in order; only an accepted count makes the pipeline grow. */
  lemma StepKeepsPipeline(s: State, e: Event)
    requires Enabled(s, e)
    ensures Pipeline(Apply(s, e)) ==
            if e.Count? && |s.queue| < QUEUE_SIZE then Pipeline(s) + [e.member] else Pipeline(s)
  {
    match e
    case Count(m) =>
    case Receive =>
      var s1 := s.(queue := s.queue[1..], batch := s.batch + [s.queue[0]]);
      assert s.queue == [s.queue[0]] + s.queue[1..];
      FlushKeepsPipeline(s1);
    case _ => FlushKeepsPipeline(s);
  }

  lemma PipelineParts(s: State)
    ensures multiset(Pipeline(s)) == multiset(s.queue) + multiset(s.batch) + multiset(Flat(s.flushed))
  {
  }

  lemma StepConserves(s: State, e: Event)
    requires Enabled(s, e)
    ensures multiset(Apply(s, e).dropped) + multiset(Pipeline(Apply(s, e)))
            == multiset(s.dropped) + multiset(Pipeline(s)) + multiset(if e.Count? then [e.member] else [])
  {
    StepKeepsPipeline(s, e);
  }

  lemma {:induction false} NothingLost(evs: seq<Event>)
    requires Exec(evs).Some?
    ensures multiset(Counted(evs)) == multiset(Exec(evs).value.dropped) + multiset(Pipeline(Exec(evs).value))
  {
    if evs != [] {
      var n := |evs| - 1;
      NothingLost(evs[..n]);
      StepConserves(Exec(evs[..n]).value, evs[n]);
    }
  }

  lemma {:induction false} BatchStaysSmall(evs: seq<Event>)
    requires Exec(evs).Some?
    ensures var s := Exec(evs).value;
            |s.batch| < BATCH_SIZE && |s.queue| <= QUEUE_SIZE && (s.stopped ==> s.batch == [])
  {
    if evs != [] {
      BatchStaysSmall(evs[..|evs| - 1]);
    }
  }

  /**
   Conservation: in every run each counting call is dropped, queued, batched or handed to a flush,
   exactly once. The batch stays below its limit, the queue within its capacity, and after shutdown
   the batch is empty.
   */
  lemma CountConservation(evs: seq<Event>)
    requires Exec(evs).Some?
    ensures var s := Exec(evs).value;
            && multiset(Counted(evs))
               == multiset(s.dropped) + multiset(s.queue) + multiset(s.batch) + multiset(Flat(s.flushed))
            && |s.batch| < BATCH_SIZE && |s.queue| <= QUEUE_SIZE
            && (s.stopped ==> s.batch == [])
  {
    NothingLost(evs);
    PipelineParts(Exec(evs).value);
    BatchStaysSmall(evs);
  }

  /** A tick and a shutdown flush whatever is batched; a receipt flushes when it is the 256th. */
  lemma FlushesWhen(s: State, e: Event)
    requires Enabled(s, e) && |s.batch| < 256
    ensures var s' := Apply(s, e);
            && (e.Tick? || e.Shutdown? ==>
                  s'.batch == [] && s'.flushed == if s.batch == [] then s.flushed else s.flushed + [s.batch])
            && (e.Receive? ==>
                  var b := s.batch + [s.queue[0]];
                  if |b| == 256 then s'.batch == [] && s'.flushed == s.flushed + [b]
                  else s'.batch == b && s'.flushed == s.flushed)
            && (e.Count? ==> s'.flushed == s.flushed && s'.batch == s.batch)
            && (e.Count? && s'.dropped != s.dropped ==> |s.queue| >= 4096)
            && (s'.stopped <==> s.stopped || e.Shutdown?)
  {
  }

  /** In every run, every batch handed to a flush holds between 1 and 256 counts. */
  lemma {:induction false} FlushesAreBatches(evs: seq<Event>)
    requires Exec(evs).Some?
    ensures forall b :: b in Exec(evs).value.flushed ==> 1 <= |b| <= 256
  {
    if evs != [] {
      var n := |evs| - 1;
      FlushesAreBatches(evs[..n]);
      BatchStaysSmall(evs[..n]);
      FlushesWhen(Exec(evs[..n]).value, evs[n]);
    }
  }

  /** The accepted counts are a subsequence of the calls: `at` gives their positions, in order. */
  ghost predicate AcceptedAt(evs: seq<Event>, at: seq<nat>)
    requires Exec(evs).Some?
  {
    var accepted := Pipeline(Exec(evs).value);
    && |at| == |accepted|
    && (forall k :: 0 <= k < |at| ==> at[k] < |evs| && evs[at[k]] == Count(accepted[k]))
    && (forall j, k :: 0 <= j < k < |at| ==> at[j] < at[k])
  }

  /** Counts reach the ranking in the order of the calls. */
  lemma {:induction false} CountsInOrder(evs: seq<Event>) returns (at: seq<nat>)
    requires Exec(evs).Some?
    ensures AcceptedAt(evs, at)
  {
    if evs == [] {
      at := [];
    } else {
      var n := |evs| - 1;
      at := CountsInOrder(evs[..n]);
      var s, e := Exec(evs[..n]).value, evs[n];
      StepKeepsPipeline(s, e);
      var before, after := Pipeline(s), Pipeline(Exec(evs).value);
      assert forall k :: 0 <= k < n ==> evs[..n][k] == evs[k];
      if e.Count? && |s.queue| < QUEUE_SIZE {
        at := at + [n];
        assert after == before + [e.member];
      } else {
        assert after == before;
      }
    }
  }
}
