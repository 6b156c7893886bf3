/**
 handle, cache and publish of internal/server/server.go, and dispatch of internal/client/client.go, as
 methods that update their objects in place. Run on its own, handle takes the steps that the protocol
 system interleaves with everything else.
 */
module Handle {

  import opened Options
  import opened Dns
  import opened Keys
  import opened Protocol
  import opened ProtocolTheorems

  /** What handle can change in Redis. */
  datatype Effect = Effect(cache: map<string, Cached>, responses: seq<Response>, updates: seq<Update>)

  /** The effect of handling a request at one instant, when upstream gives `upstream`, or fails. */
  function Handled(cfg: Config, e: Effect, req: Request, upstream: Option<Msg>, now: int): Effect {
    var key := CacheKey(req.name, req.qtype);
    if CacheLive(e.cache, key, now) then
      var m := e.cache[key].wire;
      e.(responses := e.responses + [Response(req.id, req.name, req.qtype, m.rcode, now, Some(m), false)])
    else if upstream.None? then
      e.(responses := e.responses + [Response(req.id, req.name, req.qtype, 0, 0, None, true)])
    else
      var m := upstream.value;
      Effect(CacheWrite(cfg, e.cache, req.name, req.qtype, m, now),
             e.responses + [Response(req.id, req.name, req.qtype, m.rcode, now, Some(m), false)],
             e.updates + [Update(req.name, req.qtype, m.rcode, now, m)])
  }

  /** How long handle caches an answer. */
  function Life(cfg: Config, m: Msg): int { CacheTtl(cfg.cacheTTL, cfg.negTTL, m) }

  /** A fresh answer is sent to the caller, announced once, and cached under its own key only. */
  lemma FreshIsAnnounced(cfg: Config, e: Effect, req: Request, m: Msg, now: int)
    requires CacheKey(req.name, req.qtype) in e.cache ==> e.cache[CacheKey(req.name, req.qtype)].expireAt <= now
    ensures var e' := Handled(cfg, e, req, Some(m), now);
            && e'.responses == e.responses + [Response(req.id, req.name, req.qtype, m.rcode, now, Some(m), false)]
            && e'.updates == e.updates + [Update(req.name, req.qtype, m.rcode, now, m)]
            && (Life(cfg, m) <= 0 ==> e'.cache == e.cache)
            && (Life(cfg, m) > 0 ==> e'.cache == e.cache[CacheKey(req.name, req.qtype) := Cached(m, now + Life(cfg, m))])
  {
  }

  /** A failure is reported and leaves no trace, so that the next request asks again. */
  lemma FailureLeavesNoTrace(cfg: Config, e: Effect, req: Request, now: int)
    requires CacheKey(req.name, req.qtype) in e.cache ==> e.cache[CacheKey(req.name, req.qtype)].expireAt <= now
    ensures var e' := Handled(cfg, e, req, None, now);
            && e'.cache == e.cache && e'.updates == e.updates && |e'.responses| == |e.responses| + 1
            && e'.responses == e.responses + [Response(req.id, req.name, req.qtype, 0, 0, None, true)]
  {
  }

  /**
   Until the cached answer expires, every request with the same question gets it, with a new stamp and
   without upstream, a cache write or an update; from its expiry on, upstream decides again.
   */
  lemma SecondRequest(cfg: Config, e: Effect, first: Request, m: Msg, t1: int, second: Request, upstream: Option<Msg>, t2: int)
    requires CacheKey(first.name, first.qtype) in e.cache ==> e.cache[CacheKey(first.name, first.qtype)].expireAt <= t1
    requires second.name == first.name && second.qtype == first.qtype && t1 <= t2
    ensures var e1 := Handled(cfg, e, first, Some(m), t1);
            var e2 := Handled(cfg, e1, second, upstream, t2);
            if t2 < t1 + Life(cfg, m) then
              e2 == e1.(responses := e1.responses + [Response(second.id, second.name, second.qtype, m.rcode, t2, Some(m), false)])
            else
              && |e2.responses| == |e1.responses| + 1 && e2.responses[|e1.responses|].wire == upstream
              && |e2.updates| == |e1.updates| + if upstream.Some? then 1 else 0
  {
    FreshIsAnnounced(cfg, e, first, m, t1);
  }

  /** The Redis keys and streams the server writes. */
  class SharedRedis {
    var cache: map<string, Cached>
    var responses: seq<Response>
    var updates: seq<Update>

    function State(): Effect
      reads this
    {
      Effect(cache, responses, updates)
    }

    constructor ()
      ensures State() == Effect(map[], [], [])
    {
      cache, responses, updates := map[], [], [];
    }

    method CacheAnswer(cfg: Config, name: string, qtype: QType, m: Msg, now: int) returns (ttl: int)
      modifies this`cache
      ensures cache == CacheWrite(cfg, old(cache), name, qtype, m, now)
      ensures ttl == cfg.CacheLife(m)
    {
      ttl := cfg.cacheTTL;
      if m.rcode == RCODE_NAME_ERROR {
        ttl := cfg.negTTL;
      }
      if ttl <= 0 {
        return 0;
      }
      var min := ComputeMinTtl(m);
      if min > 0 && min * SECOND < ttl {
        ttl := min * SECOND;
      }
      cache := cache[CacheKey(name, qtype) := Cached(m, now + ttl)];
    }

    method HandleRequest(cfg: Config, req: Request, upstream: Option<Msg>, now: int)
      modifies this
      ensures State() == Handled(cfg, old(State()), req, upstream, now)
    {
      var resp := Response(req.id, req.name, req.qtype, 0, 0, None, false);
      var key := CacheKey(req.name, req.qtype);
      if key in cache && now < cache[key].expireAt {
        var m := cache[key].wire;
        resp := resp.(wire := Some(m), rcode := m.rcode, resolvedAt := now);
        responses := responses + [resp];
        return;
      }
      if upstream.None? {
        resp := resp.(failed := true);
      } else {
        var m := upstream.value;
        resp := resp.(wire := Some(m), rcode := m.rcode, resolvedAt := now);
        var _ := CacheAnswer(cfg, req.name, req.qtype, m, now);
        updates := updates + [Update(req.name, req.qtype, m.rcode, now, m)];
      }
      responses := responses + [resp];
    }
  }

  // ---------------------------------------------------------------------------
  // handle is a run of the protocol system
  // ---------------------------------------------------------------------------

  function Bare(parcels: seq<Parcel>): (r: seq<Response>)
    ensures |r| == |parcels| && forall i :: 0 <= i < |r| ==> r[i] == parcels[i].resp
  {
    seq(|parcels|, i requires 0 <= i < |parcels| => parcels[i].resp)
  }

  function BareUpdates(pubs: seq<Publication>): (r: seq<Update>)
    ensures |r| == |pubs| && forall i :: 0 <= i < |r| ==> r[i] == pubs[i].upd
  {
    seq(|pubs|, i requires 0 <= i < |pubs| => pubs[i].upd)
  }

  function EffectOf(r: Redis): Effect { Effect(r.cache, Bare(r.responses), BareUpdates(r.updates)) }

  /** The system can take these steps from `s`, and then stands at `s'`. */
  ghost predicate Leads(cfg: Config, s: Sys, steps: seq<Step>, s': Sys)
    decreases |steps|
  {
    if steps == [] then s == s'
    else Enabled(cfg, s, steps[0]) && Leads(cfg, Apply(cfg, s, steps[0]), steps[1..], s')
  }

  lemma LeadsOn(cfg: Config, s: Sys, step: Step, rest: seq<Step>, s': Sys)
    requires Enabled(cfg, s, step) && Leads(cfg, Apply(cfg, s, step), rest, s')
    ensures Leads(cfg, s, [step] + rest, s')
  {
    assert ([step] + rest)[1..] == rest;
  }

  lemma HitRuns(cfg: Config, s: Sys, h: nat, req: Request, upstream: Option<Msg>) returns (steps: seq<Step>, s': Sys)
    requires h in s.v.handlers && s.v.handlers[h] == Picked(req)
    requires CacheLive(s.r.cache, CacheKey(req.name, req.qtype), s.now)
    ensures Leads(cfg, s, steps, s')
    ensures EffectOf(s'.r) == Handled(cfg, EffectOf(s.r), req, upstream, s.now)
    ensures s'.now == s.now && s'.c == s.c && s'.v.handlers == s.v.handlers - {h}
  {
    var s1 := Apply(cfg, s, Handling(CacheHit(h)));
    s' := Apply(cfg, s1, Handling(SendResponse(h, true)));
    LeadsOn(cfg, s1, Handling(SendResponse(h, true)), [], s');
    LeadsOn(cfg, s, Handling(CacheHit(h)), [Handling(SendResponse(h, true))] + [], s');
    steps := [Handling(CacheHit(h))] + ([Handling(SendResponse(h, true))] + []);
    SentEffect(s.r, s'.r, HitParcel(cfg, s, h));
  }

  lemma FailureRuns(cfg: Config, s: Sys, h: nat, req: Request) returns (steps: seq<Step>, s': Sys)
    requires h in s.v.handlers && s.v.handlers[h] == Missed(req)
    ensures Leads(cfg, s, steps, s')
    ensures EffectOf(s'.r) == EffectOf(s.r).(responses := Bare(s.r.responses) + [FailParcel(req, s.now, h).resp])
    ensures s'.now == s.now && s'.c == s.c && s'.v.handlers == s.v.handlers - {h}
  {
    var s1 := Apply(cfg, s, Handling(Fetch(h, None)));
    s' := Apply(cfg, s1, Handling(SendResponse(h, true)));
    LeadsOn(cfg, s1, Handling(SendResponse(h, true)), [], s');
    LeadsOn(cfg, s, Handling(Fetch(h, None)), [Handling(SendResponse(h, true))] + [], s');
    steps := [Handling(Fetch(h, None))] + ([Handling(SendResponse(h, true))] + []);
    SentEffect(s.r, s'.r, FailParcel(req, s.now, h));
  }

  /** Handling a picked request in one go is a run of the system with the same effect on Redis. */
  lemma HandleIsARun(cfg: Config, s: Sys, h: nat, req: Request, upstream: Option<Msg>) returns (steps: seq<Step>, s': Sys)
    requires h in s.v.handlers && s.v.handlers[h] == Picked(req)
    ensures Leads(cfg, s, steps, s')
    ensures EffectOf(s'.r) == Handled(cfg, EffectOf(s.r), req, upstream, s.now)
    ensures s'.now == s.now && s'.c == s.c && s'.v.handlers == s.v.handlers - {h}
  {
    if CacheLive(s.r.cache, CacheKey(req.name, req.qtype), s.now) {
      steps, s' := HitRuns(cfg, s, h, req, upstream);
    } else {
      var s1 := Apply(cfg, s, Handling(CacheMiss(h)));
      assert s1.r == s.r && s1.v.handlers - {h} == s.v.handlers - {h};
      var tail;
      if upstream.None? {
        tail, s' := FailureRuns(cfg, s1, h, req);
      } else {
        var s2 := Apply(cfg, s1, Handling(Fetch(h, upstream)));
        assert s2.r == s.r && s2.v.handlers - {h} == s.v.handlers - {h};
        tail, s' := FetchedRuns(cfg, s2, h, req, upstream.value);
        LeadsOn(cfg, s1, Handling(Fetch(h, upstream)), tail, s');
        tail := [Handling(Fetch(h, upstream))] + tail;
      }
      LeadsOn(cfg, s, Handling(CacheMiss(h)), tail, s');
      steps := [Handling(CacheMiss(h))] + tail;
    }
  }

  lemma SentEffect(r: Redis, r': Redis, p: Parcel)
    requires r' == r.(responses := r.responses + [p])
    ensures EffectOf(r') == EffectOf(r).(responses := Bare(r.responses) + [p.resp])
  {
    assert Bare(r'.responses) == Bare(r.responses) + [p.resp];
  }

  lemma FetchedRuns(cfg: Config, s: Sys, h: nat, req: Request, m: Msg) returns (steps: seq<Step>, s': Sys)
    requires h in s.v.handlers && s.v.handlers[h] == Fetched(req, m, s.now)
    ensures Leads(cfg, s, steps, s')
    ensures var e := EffectOf(s.r);
            EffectOf(s'.r) == Effect(CacheWrite(cfg, e.cache, req.name, req.qtype, m, s.now),
                                     e.responses + [Response(req.id, req.name, req.qtype, m.rcode, s.now, Some(m), false)],
                                     e.updates + [Update(req.name, req.qtype, m.rcode, s.now, m)])
    ensures s'.now == s.now && s'.c == s.c && s'.v.handlers == s.v.handlers - {h}
  {
    var s1 := Apply(cfg, s, Handling(StoreAnswer(h, true)));
    var s2 := Apply(cfg, s1, Handling(PublishAnswer(h)));
    s' := Apply(cfg, s2, Handling(SendResponse(h, true)));
    LeadsOn(cfg, s2, Handling(SendResponse(h, true)), [], s');
    LeadsOn(cfg, s1, Handling(PublishAnswer(h)), [Handling(SendResponse(h, true))] + [], s');
    steps := [Handling(StoreAnswer(h, true))] + ([Handling(PublishAnswer(h))] + ([Handling(SendResponse(h, true))] + []));
    LeadsOn(cfg, s, Handling(StoreAnswer(h, true)), [Handling(PublishAnswer(h))] + ([Handling(SendResponse(h, true))] + []), s');
    SentEffect(s2.r, s'.r, FreshParcel(req, m, s.now, h));
    assert BareUpdates(s2.r.updates) == BareUpdates(s.r.updates) + [Update(req.name, req.qtype, m.rcode, s.now, m)];
  }

  // ---------------------------------------------------------------------------
  // The client's wait table
  // ---------------------------------------------------------------------------

  const CAPACITY := 1

  /** A response for a registered call enters its channel, if there is room; any other is dropped. */
  function Dispatched(chans: map<Id, seq<Parcel>>, p: Parcel): map<Id, seq<Parcel>> {
    if p.resp.id in chans && |chans[p.resp.id]| < CAPACITY
    then chans[p.resp.id := chans[p.resp.id] + [p]] else chans
  }

  /** A response goes into its own channel, and only if that is empty; nothing else changes. */
  lemma DispatchedExact(chans: map<Id, seq<Parcel>>, p: Parcel, id: Id)
    requires id in chans
    ensures Dispatched(chans, p).Keys == chans.Keys
    ensures Dispatched(chans, p)[id] == if id == p.resp.id && chans[id] == [] then [p] else chans[id]
  {
  }

  class Channel {
    var buffer: seq<Parcel>

    constructor ()
      ensures buffer == []
    {
      buffer := [];
    }
  }

  /** The client's `waits` map from request IDs to the channels of the calls. */
  class WaitTable {
    var waits: map<Id, Channel>

    /** Every call has made a channel of its own. */
    ghost predicate Valid()
      reads this
    {
      forall i, j :: i in waits && j in waits && i != j ==> waits[i] != waits[j]
    }

    ghost function Contents(): map<Id, seq<Parcel>>
      reads this, waits.Values
    {
      map id | id in waits :: waits[id].buffer
    }

    constructor ()
      ensures Valid() && Contents() == map[]
    {
      waits := map[];
    }

    method Register(id: Id, ch: Channel)
      requires Valid() && ch !in waits.Values && ch.buffer == []
      modifies this
      ensures Valid() && Contents() == old(Contents())[id := []]
    {
      waits := waits[id := ch];
    }

    method Unregister(id: Id)
      requires Valid()
      modifies this
      ensures Valid() && Contents() == old(Contents()) - {id}
    {
      waits := waits - {id};
    }

    /** `blocked` says that the channel is full, where the send would wait for the caller. */
    method Dispatch(p: Parcel) returns (blocked: bool)
      requires Valid()
      modifies waits.Values
      ensures Valid() && Contents() == Dispatched(old(Contents()), p)
      ensures blocked <==> p.resp.id in waits && |old(Contents())[p.resp.id]| >= CAPACITY
    {
      blocked := false;
      if p.resp.id in waits {
        var ch := waits[p.resp.id];
        if |ch.buffer| < CAPACITY {
          ch.buffer := ch.buffer + [p];
        } else {
          blocked := true;
        }
      }
    }
  }

  /** The channels of the registered calls. */
  function WaitingOn(c: Client): map<Id, seq<Parcel>>
    requires c.waits <= c.chans.Keys
  {
    map id | id in c.waits :: c.chans[id]
  }

  /** The dispatcher reads the next response, and finds its call registered or not. */
  lemma LookupRuns(cfg: Config, s: Sys) returns (s': Sys)
    requires Correlated(s) && s.c.holding.None? && s.c.cursor < |s.r.responses|
    ensures Enabled(cfg, s, Dispatching(Lookup)) && s' == Apply(cfg, s, Dispatching(Lookup)) && Correlated(s')
    ensures var p := s.r.responses[s.c.cursor];
            s'.c == s.c.(cursor := s.c.cursor + 1, holding := if p.resp.id in s.c.waits then Some(p) else None)
  {
    s' := Apply(cfg, s, Dispatching(Lookup));
    DispatchKeepsCorrelated(cfg, s, Lookup);
  }

  /** The dispatcher's send finds the channel empty. */
  lemma DeliverRuns(cfg: Config, s: Sys) returns (s': Sys)
    requires Correlated(s) && s.c.holding.Some?
    ensures Enabled(cfg, s, Dispatching(Deliver)) && s' == Apply(cfg, s, Dispatching(Deliver))
    ensures var p := s.c.holding.value;
            && p.resp.id in s.c.chans && s.c.chans[p.resp.id] == []
            && s'.c == s.c.(chans := s.c.chans[p.resp.id := [p]], holding := None)
  {
    RoomToSend(s);
    s' := Apply(cfg, s, Dispatching(Deliver));
    assert [] + [s.c.holding.value] == [s.c.holding.value];
  }

  lemma DispatchEffect(c: Client, c': Client, p: Parcel)
    requires c.waits <= c.chans.Keys && c'.waits == c.waits
    requires if p.resp.id in c.waits then c.chans[p.resp.id] == [] && c'.chans == c.chans[p.resp.id := [p]]
             else c'.chans == c.chans
    ensures c'.waits <= c'.chans.Keys && WaitingOn(c') == Dispatched(WaitingOn(c), p)
  {
    if p.resp.id in c.waits {
      assert WaitingOn(c)[p.resp.id] + [p] == [p];
      assert WaitingOn(c') == WaitingOn(c)[p.resp.id := [p]];
    } else {
      assert WaitingOn(c') == WaitingOn(c);
    }
  }

  /**
   Dispatching the next response in one go is a run of the protocol system with the same effect on the
   channels of the registered calls. It never blocks.
   */
  lemma DispatchIsARun(cfg: Config, s: Sys) returns (steps: seq<Step>, s': Sys)
    requires Correlated(s) && s.c.holding.None? && s.c.cursor < |s.r.responses|
    ensures s.c.waits <= s.c.chans.Keys && s'.c.waits <= s'.c.chans.Keys
    ensures Leads(cfg, s, steps, s') && s'.c.cursor == s.c.cursor + 1 && s'.c.holding.None?
    ensures var p := s.r.responses[s.c.cursor];
            && WaitingOn(s'.c) == Dispatched(WaitingOn(s.c), p)
            && (p.resp.id in s.c.waits ==> s.c.chans[p.resp.id] == [])
  {
    var s1 := LookupRuns(cfg, s);
    steps := [];
    s' := s1;
    if s1.c.holding.Some? {
      s' := DeliverRuns(cfg, s1);
      LeadsOn(cfg, s1, Dispatching(Deliver), [], s');
      steps := [Dispatching(Deliver)] + [];
    }
    LeadsOn(cfg, s, Dispatching(Lookup), steps, s');
    steps := [Dispatching(Lookup)] + steps;
    DispatchEffect(s.c, s'.c, s.r.responses[s.c.cursor]);
  }
}
