/**
 The staleness bound is attained: a server cache hit is stamped anew and restarts the client's clock,
 so an answer can be served at almost twice its TTL, plus the time it can travel.
 */
module StalenessExample {

  import opened Options
  import opened Dns
  import opened Keys
  import opened Protocol
  import opened ProtocolTheorems

  /** The server has cached `m`, resolved at instant 0, as late as the delay allows. */
  ghost predicate Seeded(cfg: Config, s: Sys, n: string, t: QType, m: Msg) {
    && s.now == cfg.setDelay
    && s.c == INIT.c
    && s.r.requests == [] && s.r.delivered == 0 && s.r.responses == []
    && s.r.cache == map[CacheKey(n, t) := Cached(m, cfg.setDelay + cfg.CacheLife(m))]
    && s.v.handlers == map[]
    && s.resolved == {Resolution(n, t, m, 0)}
  }

  lemma Seed(cfg: Config, n: string, t: QType, m: Msg) returns (steps: seq<Step>)
    requires cfg.CacheLife(m) > 0
    ensures Exec(cfg, steps).Some? && Seeded(cfg, Exec(cfg, steps).value, n, t, m)
  {
    steps := [];
    var s := INIT;
    assert Exec(cfg, steps) == Some(s);
    var step := Prefetching(PrefetchFetch(0, n, t, m));
    Then(cfg, steps, s, step);
    steps, s := steps + [step], Apply(cfg, s, step);
    step := Tick(cfg.setDelay);
    Then(cfg, steps, s, step);
    steps, s := steps + [step], Apply(cfg, s, step);
    step := Prefetching(PrefetchStore(0, true));
    Then(cfg, steps, s, step);
    steps, s := steps + [step], Apply(cfg, s, step);
  }

  function LastHit(cfg: Config, m: Msg): int { cfg.setDelay + cfg.CacheLife(m) - 1 }

  /** At the last instant before expiry a call has registered and its request has been picked up. */
  ghost predicate Requested(cfg: Config, s: Sys, n: string, t: QType, m: Msg) {
    && s.now == LastHit(cfg, m)
    && s.c == EMPTY_CLIENT.(asked := map[0 := Question(n, t)], since := map[0 := s.now], waits := {0},
                            calls := map[0 := Awaiting(s.now + cfg.block, None)], chans := map[0 := []])
    && s.r.responses == []
    && s.r.cache == map[CacheKey(n, t) := Cached(m, cfg.setDelay + cfg.CacheLife(m))]
    && s.v.handlers == map[0 := Picked(Request(0, n, t))]
    && s.resolved == {Resolution(n, t, m, 0)}
  }

  /** ... and before its request is sent. */
  ghost predicate Asked(cfg: Config, s: Sys, n: string, t: QType, m: Msg) {
    && s.now == LastHit(cfg, m)
    && s.c == EMPTY_CLIENT.(asked := map[0 := Question(n, t)], since := map[0 := s.now], waits := {0}, unsent := {0},
                            calls := map[0 := Awaiting(s.now + cfg.block, None)], chans := map[0 := []])
    && s.r.requests == [] && s.r.delivered == 0 && s.r.responses == []
    && s.r.cache == map[CacheKey(n, t) := Cached(m, cfg.setDelay + cfg.CacheLife(m))]
    && s.v.handlers == map[]
    && s.resolved == {Resolution(n, t, m, 0)}
  }

  lemma AskLate(cfg: Config, n: string, t: QType, m: Msg) returns (steps: seq<Step>)
    requires cfg.CacheLife(m) > 0
    ensures Exec(cfg, steps).Some? && Asked(cfg, Exec(cfg, steps).value, n, t, m)
  {
    steps := Seed(cfg, n, t, m);
    var s := Exec(cfg, steps).value;
    var step := Tick(cfg.CacheLife(m) - 1);
    Then(cfg, steps, s, step);
    steps, s := steps + [step], Apply(cfg, s, step);
    step := Calling(Ask(0, n, t));
    Then(cfg, steps, s, step);
    steps, s := steps + [step], Apply(cfg, s, step);
    step := Calling(Register(0));
    Then(cfg, steps, s, step);
    steps, s := steps + [step], Apply(cfg, s, step);
  }

  lemma SendAndPick(cfg: Config, n: string, t: QType, m: Msg) returns (steps: seq<Step>)
    requires cfg.CacheLife(m) > 0
    ensures Exec(cfg, steps).Some? && Requested(cfg, Exec(cfg, steps).value, n, t, m)
  {
    steps := AskLate(cfg, n, t, m);
    var s := Exec(cfg, steps).value;
    var step := Calling(SendRequest(0));
    Then(cfg, steps, s, step);
    steps, s := steps + [step], Apply(cfg, s, step);
    step := Handling(Pick);
    Then(cfg, steps, s, step);
    steps, s := steps + [step], Apply(cfg, s, step);
  }

  function HitAnswer(cfg: Config, n: string, t: QType, m: Msg): Answer {
    Answer(n, t, m, Parcel(Response(0, n, t, m.rcode, LastHit(cfg, m), Some(m), false), LastHit(cfg, m), 0),
           LastHit(cfg, m) + 2 * Wait(cfg), Some(LastHit(cfg, m) + Wait(cfg)))
  }

  /** The server has answered from its cache, and the caller's wait was renewed as late as could be. */
  ghost predicate Responded(cfg: Config, s: Sys, n: string, t: QType, m: Msg) {
    && s.now == LastHit(cfg, m) + Wait(cfg)
    && s.c == EMPTY_CLIENT.(asked := map[0 := Question(n, t)], since := map[0 := LastHit(cfg, m)], waits := {0},
                            calls := map[0 := Awaiting(s.now + cfg.block, Some(s.now))], chans := map[0 := []])
    && s.r.responses == [HitAnswer(cfg, n, t, m).parcel]
    && s.resolved == {Resolution(n, t, m, 0)}
  }

  lemma Respond(cfg: Config, n: string, t: QType, m: Msg) returns (steps: seq<Step>)
    requires cfg.CacheLife(m) > 0
    ensures Exec(cfg, steps).Some?
    ensures var s := Exec(cfg, steps).value;
            && s.now == LastHit(cfg, m) && s.resolved == {Resolution(n, t, m, 0)}
            && s.r.responses == [HitAnswer(cfg, n, t, m).parcel]
            && s.c == EMPTY_CLIENT.(asked := map[0 := Question(n, t)], since := map[0 := s.now], waits := {0},
                                    calls := map[0 := Awaiting(s.now + cfg.block, None)], chans := map[0 := []])
  {
    steps := SendAndPick(cfg, n, t, m);
    var s := Exec(cfg, steps).value;
    var step := Handling(CacheHit(0));
    Then(cfg, steps, s, step);
    steps, s := steps + [step], Apply(cfg, s, step);
    step := Handling(SendResponse(0, true));
    Then(cfg, steps, s, step);
    steps, s := steps + [step], Apply(cfg, s, step);
  }

  lemma Renew(cfg: Config, n: string, t: QType, m: Msg) returns (steps: seq<Step>)
    requires cfg.CacheLife(m) > 0
    ensures Exec(cfg, steps).Some? && Responded(cfg, Exec(cfg, steps).value, n, t, m)
  {
    steps := Respond(cfg, n, t, m);
    var s := Exec(cfg, steps).value;
    var step := Tick(Wait(cfg));
    Then(cfg, steps, s, step);
    steps, s := steps + [step], Apply(cfg, s, step);
    step := Calling(Confirm(0));
    Then(cfg, steps, s, step);
    steps, s := steps + [step], Apply(cfg, s, step);
  }

  /** The response has reached the caller's channel at the very end of its wait. */
  ghost predicate Delivered(cfg: Config, s: Sys, n: string, t: QType, m: Msg) {
    && s.now == LastHit(cfg, m) + 2 * Wait(cfg)
    && s.c == EMPTY_CLIENT.(asked := map[0 := Question(n, t)], since := map[0 := LastHit(cfg, m)], waits := {0},
                            calls := map[0 := Awaiting(s.now - cfg.slack, Some(LastHit(cfg, m) + Wait(cfg)))], cursor := 1,
                            chans := map[0 := [HitAnswer(cfg, n, t, m).parcel]])
    && s.resolved == {Resolution(n, t, m, 0)}
  }

  lemma Delivery(cfg: Config, n: string, t: QType, m: Msg) returns (steps: seq<Step>)
    requires cfg.CacheLife(m) > 0
    ensures Exec(cfg, steps).Some? && Delivered(cfg, Exec(cfg, steps).value, n, t, m)
  {
    steps := Renew(cfg, n, t, m);
    var s := Exec(cfg, steps).value;
    var step := Tick(Wait(cfg));
    Then(cfg, steps, s, step);
    steps, s := steps + [step], Apply(cfg, s, step);
    step := Dispatching(Lookup);
    Then(cfg, steps, s, step);
    steps, s := steps + [step], Apply(cfg, s, step);
    var p := HitAnswer(cfg, n, t, m).parcel;
    assert s.c.holding == Some(p) && s.c.chans == map[0 := []];
    step := Dispatching(Deliver);
    Then(cfg, steps, s, step);
    steps, s := steps + [step], Apply(cfg, s, step);
    assert s.c.chans[0] == [] + [p] == [p];
    assert s.c.chans == map[0 := [p]];
  }

  /** The caller has its answer. */
  ghost predicate Answered(cfg: Config, s: Sys, n: string, t: QType, m: Msg) {
    && s.now == LastHit(cfg, m) + 2 * Wait(cfg)
    && s.c.local == map[] && s.c.peeks == map[] && s.c.served == []
    && s.c.answers == {HitAnswer(cfg, n, t, m)} && s.c.since == map[0 := LastHit(cfg, m)]
    && s.resolved == {Resolution(n, t, m, 0)}
  }

  lemma Receipt(cfg: Config, n: string, t: QType, m: Msg) returns (steps: seq<Step>)
    requires cfg.CacheLife(m) > 0
    ensures Exec(cfg, steps).Some? && Answered(cfg, Exec(cfg, steps).value, n, t, m)
  {
    steps := Delivery(cfg, n, t, m);
    var s := Exec(cfg, steps).value;
    var step := Calling(Receive(0));
    Then(cfg, steps, s, step);
    steps, s := steps + [step], Apply(cfg, s, step);
    step := Calling(Unregister(0));
    Then(cfg, steps, s, step);
    steps, s := steps + [step], Apply(cfg, s, step);
    step := Calling(Return(0));
    Then(cfg, steps, s, step);
    steps, s := steps + [step], Apply(cfg, s, step);
  }

  /** For every configuration that caches `m`, some call takes its response exactly two waits after registering. */
  lemma TwoWaitsAreTaken(cfg: Config, n: string, t: QType, m: Msg) returns (steps: seq<Step>, a: Answer)
    requires cfg.CacheLife(m) > 0
    ensures Exec(cfg, steps).Some?
    ensures var c := Exec(cfg, steps).value.c;
            && a in c.answers && a.name == n && a.qtype == t && a.wire == m && a.parcel.resp.id in c.since
            && a.takenAt == c.since[a.parcel.resp.id] + 2 * (cfg.block + cfg.slack)
  {
    steps := Receipt(cfg, n, t, m);
    a := HitAnswer(cfg, n, t, m);
  }

  /** The client has stored `m` at this instant, and it was resolved once, at instant 0. */
  ghost predicate StoredLocally(cfg: Config, s: Sys, n: string, t: QType, m: Msg, at: int) {
    && s.now == at && s.resolved == {Resolution(n, t, m, 0)} && s.c.peeks == map[]
    && CacheKey(n, t) in s.c.local
    && s.c.local[CacheKey(n, t)].wire == m && s.c.local[CacheKey(n, t)].expire == at + cfg.LocalLife(m)
  }

  /** ... from a response that travelled for as long as it can. */
  lemma StoreFromResponse(cfg: Config, n: string, t: QType, m: Msg) returns (steps: seq<Step>)
    requires cfg.CacheLife(m) > 0
    ensures Exec(cfg, steps).Some?
    ensures StoredLocally(cfg, Exec(cfg, steps).value, n, t, m, Trip(cfg) + ReadAge(cfg, m) - 1)
  {
    steps := Receipt(cfg, n, t, m);
    var s := Exec(cfg, steps).value;
    var step := Tick(cfg.lag);
    Then(cfg, steps, s, step);
    steps, s := steps + [step], Apply(cfg, s, step);
    step := Caching(Reply(HitAnswer(cfg, n, t, m)));
    Then(cfg, steps, s, step);
    steps, s := steps + [step], Apply(cfg, s, step);
  }

  /** The prefetcher publishes `m`, resolved at instant 0, at once. */
  lemma Publish(cfg: Config, n: string, t: QType, m: Msg) returns (steps: seq<Step>)
    ensures Exec(cfg, steps).Some?
    ensures var s := Exec(cfg, steps).value;
            && s.now == 0 && s.c == EMPTY_CLIENT && s.resolved == {Resolution(n, t, m, 0)}
            && s.r.updates == [Publication(Update(n, t, m.rcode, 0, m), 0)]
  {
    steps := [];
    var s := INIT;
    assert Exec(cfg, steps) == Some(s);
    var step := Prefetching(PrefetchFetch(0, n, t, m));
    Then(cfg, steps, s, step);
    steps, s := steps + [step], Apply(cfg, s, step);
    step := Prefetching(PrefetchStore(0, false));
    Then(cfg, steps, s, step);
    steps, s := steps + [step], Apply(cfg, s, step);
    step := Prefetching(PrefetchPublish(0));
    Then(cfg, steps, s, step);
    steps, s := steps + [step], Apply(cfg, s, step);
  }

  /** ... from an update that travelled for as long as it can. */
  lemma StoreFromUpdate(cfg: Config, n: string, t: QType, m: Msg) returns (steps: seq<Step>)
    ensures Exec(cfg, steps).Some?
    ensures StoredLocally(cfg, Exec(cfg, steps).value, n, t, m, cfg.pushDelay)
  {
    steps := Publish(cfg, n, t, m);
    var s := Exec(cfg, steps).value;
    var step := Tick(cfg.pushDelay);
    Then(cfg, steps, s, step);
    steps, s := steps + [step], Apply(cfg, s, step);
    step := Caching(Warm(0));
    Then(cfg, steps, s, step);
    steps, s := steps + [step], Apply(cfg, s, step);
  }

  /** An entry can be served until its very expiry. */
  lemma ServeAtExpiry(cfg: Config, n: string, t: QType, m: Msg, before: seq<Step>, at: int) returns (steps: seq<Step>, x: Served)
    requires Exec(cfg, before).Some? && StoredLocally(cfg, Exec(cfg, before).value, n, t, m, at)
    requires cfg.LocalLife(m) >= 0
    ensures Exec(cfg, steps).Some? && Exec(cfg, steps).value.resolved == {Resolution(n, t, m, 0)}
    ensures x in Exec(cfg, steps).value.c.served && x == Served(n, t, m, at + cfg.LocalLife(m), true)
  {
    steps := before;
    var s := Exec(cfg, steps).value;
    var step := Tick(cfg.LocalLife(m));
    Then(cfg, steps, s, step);
    steps, s := steps + [step], Apply(cfg, s, step);
    step := Caching(Peek(0, n, t));
    Then(cfg, steps, s, step);
    steps, s := steps + [step], Apply(cfg, s, step);
    step := Caching(Conclude(0));
    Then(cfg, steps, s, step);
    steps, s := steps + [step], Apply(cfg, s, step);
    x := Served(n, t, m, at + cfg.LocalLife(m), true);
    assert s.c.served[|s.c.served| - 1] == x;
  }

  /**
   For every configuration that caches `m`, some run serves `m` from the local cache, resolved once and
   never again, no more than one nanosecond short of the bound of ServedIsGenuineAndFresh.
   */
  lemma BoundIsAttained(cfg: Config, n: string, t: QType, m: Msg) returns (steps: seq<Step>, x: Served)
    requires cfg.CacheLife(m) > 0 && cfg.LocalLife(m) >= 0
    ensures Exec(cfg, steps).Some?
    ensures var s := Exec(cfg, steps).value;
            && s.resolved == {Resolution(n, t, m, 0)}
            && x in s.c.served && x.name == n && x.qtype == t && x.wire == m && x.fromLocal
            && x.at >= ServedAge(cfg, x) - 1
  {
    var before;
    if cfg.pushDelay > Trip(cfg) + ReadAge(cfg, m) {
      before := StoreFromUpdate(cfg, n, t, m);
      steps, x := ServeAtExpiry(cfg, n, t, m, before, cfg.pushDelay);
    } else {
      before := StoreFromResponse(cfg, n, t, m);
      steps, x := ServeAtExpiry(cfg, n, t, m, before, Trip(cfg) + ReadAge(cfg, m) - 1);
    }
  }
}
