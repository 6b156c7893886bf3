/**
 The request/response protocol between a client and the server over Redis, as one transition system: the
 callers, the dispatcher and the subscriber of internal/client/client.go, the handlers and the
 prefetcher of internal/server/server.go, the two streams, the shared cache and the update channel.
 Every step is atomic and any enabled step may come next.

 A wire-format answer stands for the message it packs. Request IDs are never reused, each request
 entry is delivered once to the consumer group, and a channel is named by the ID it was made for. The
 other clients of the server are seen through the requests they send; module Clients puts any number of
 clients side by side.

 `block` is the client's timeout. Four delays are assumed: `setDelay` bounds the way of a fetched answer
 into the Redis cache, `pushDelay` that of a published one to the client, `slack` how long after its timer
 has fired a select may still take another event, and `lag` the time a caller takes from leaving its
 select to writing the local cache. An answer may also be lost.
 */
module Protocol {

  import opened Options
  import opened Dns
  import opened Keys
  import opened LocalCache

  type Id = nat

  datatype Config = Config(cacheTTL: int, negTTL: int, localTTL: int, block: nat, setDelay: nat, pushDelay: nat, slack: nat, lag: nat) {
    function CacheLife(m: Msg): int { CacheTtl(cacheTTL, negTTL, m) }
    function LocalLife(m: Msg): int { LocalTtl(localTTL, m) }
  }

  datatype Request = Request(id: Id, name: string, qtype: QType)

  datatype Response = Response(
    id: Id, name: string, qtype: QType, rcode: nat, resolvedAt: int, wire: Option<Msg>, failed: bool)

  /** A response with its history: when its answer was read, and which stream entry it answers. */
  datatype Parcel = Parcel(resp: Response, readAt: int, src: nat)

  datatype Update = Update(name: string, qtype: QType, rcode: nat, resolvedAt: int, wire: Msg)

  /** An update with the instant at which upstream gave the answer. */
  datatype Publication = Publication(upd: Update, bornAt: int)

  /** The resolver returned this message for this question at this instant. */
  datatype Resolution = Resolution(name: string, qtype: QType, msg: Msg, at: int)

  datatype Cached = Cached(wire: Msg, expireAt: int)

  /** Where handle stands for one delivered request. */
  datatype Handler =
    | Picked(req: Request)
    | Missed(req: Request)
    | Fetched(req: Request, msg: Msg, at: int)
    | Stored(req: Request, msg: Msg, at: int)
    | Outbound(parcel: Parcel)

  datatype Prefetch = Prefetch(name: string, qtype: QType, msg: Msg, at: int, stored: bool)

  /** Where a call of resolve stands. Its wait is renewed once, at the instant its request is confirmed. */
  datatype Call =
    | Opened
    | Awaiting(deadline: int, confirmed: Option<int>)
    | Finishing(got: Option<Parcel>, at: int, confirmed: Option<int>)
    | Leaving(got: Option<Parcel>, at: int, confirmed: Option<int>)

  /** What a call returned, when it left its select, and when its request was confirmed, if it was. */
  datatype Answer = Answer(name: string, qtype: QType, wire: Msg, parcel: Parcel, takenAt: int, confirmed: Option<int>)
  datatype Snapshot = Snapshot(name: string, qtype: QType, e: Entry)
  datatype Served = Served(name: string, qtype: QType, wire: Msg, at: int, fromLocal: bool)

  /** `since` says when each call registered. */
  datatype Client = Client(
    local: Cache,
    peeks: map<nat, Snapshot>,
    asked: map<Id, Question>,
    since: map<Id, int>,
    unsent: set<Id>,
    waits: set<Id>,
    calls: map<Id, Call>,
    chans: map<Id, seq<Parcel>>,
    holding: Option<Parcel>,
    cursor: nat,
    answers: set<Answer>,
    served: seq<Served>)

  datatype Redis = Redis(
    requests: seq<Request>,
    delivered: nat,
    responses: seq<Parcel>,
    cache: map<string, Cached>,
    updates: seq<Publication>)

  datatype Server = Server(handlers: map<nat, Handler>, prefetches: map<nat, Prefetch>)

  datatype Sys = Sys(now: int, c: Client, r: Redis, v: Server, resolved: set<Resolution>)

  const EMPTY_CLIENT := Client(map[], map[], map[], map[], {}, {}, map[], map[], None, 0, {}, [])

  const INIT := Sys(
    0,
    EMPTY_CLIENT,
    Redis([], 0, [], map[], []),
    Server(map[], map[]),
    {})

  /** A call of resolve. */
  datatype CallStep =
    | Ask(id: Id, name: string, qtype: QType)
    | Register(id: Id)
    | SendRequest(id: Id)
    | LoseRequest(id: Id)
    | Confirm(id: Id)
    | GiveUp(id: Id)
    | Receive(id: Id)
    | Unregister(id: Id)
    | Return(id: Id)

  /** What touches the local cache: resolveQuery, localGet in its two phases, SwapRedis, the subscriber. */
  datatype CacheStep =
    | Reply(a: Answer)
    | Peek(rid: nat, name: string, qtype: QType)
    | Conclude(rid: nat)
    | ClearLocal
    | Warm(i: nat)

  /** The dispatcher looks up a channel, then sends into it; it may also start late or lose its place. */
  datatype DispatchStep = Lookup | Deliver | SkipResponses(n: nat)

  datatype HandleStep =
    | Pick
    | CacheHit(h: nat)
    | CacheMiss(h: nat)
    | Fetch(h: nat, got: Option<Msg>)
    | StoreAnswer(h: nat, ok: bool)
    | PublishAnswer(h: nat)
    | SendResponse(h: nat, ok: bool)

  datatype PrefetchStep =
    | PrefetchFetch(p: nat, name: string, qtype: QType, msg: Msg)
    | PrefetchStore(p: nat, ok: bool)
    | PrefetchPublish(p: nat)

  datatype Step =
    | Tick(dt: nat)
    | Calling(call: CallStep)
    | Caching(cache: CacheStep)
    | Dispatching(dispatch: DispatchStep)
    | OtherSend(id: Id, name: string, qtype: QType)
    | Handling(handle: HandleStep)
    | Prefetching(prefetch: PrefetchStep)

  // ---------------------------------------------------------------------------
  // The shared Redis cache
  // ---------------------------------------------------------------------------

  predicate CacheLive(cache: map<string, Cached>, key: string, now: int) {
    key in cache && now < cache[key].expireAt
  }

  /** Server.cache: nothing is written when caching is off for this answer. */
  function CacheWrite(cfg: Config, cache: map<string, Cached>, name: string, qtype: QType, m: Msg, now: int): map<string, Cached> {
    if cfg.CacheLife(m) <= 0 then cache
    else cache[CacheKey(name, qtype) := Cached(m, now + cfg.CacheLife(m))]
  }

  /** Client.localSet. */
  function LocalWrite(cfg: Config, local: Cache, name: string, qtype: QType, m: Msg, resolvedAt: int, now: int): Cache {
    SetEntry(local, CacheKey(name, qtype), Entry(m, now + cfg.LocalLife(m), resolvedAt))
  }

  // ---------------------------------------------------------------------------
  // Callers
  // ---------------------------------------------------------------------------

  /** Request IDs are random, and never drawn twice. */
  predicate Unused(s: Sys, id: Id) {
    id !in s.c.asked && forall i :: 0 <= i < |s.r.requests| ==> s.r.requests[i].id != id
  }

  predicate CallEnabled(cfg: Config, s: Sys, x: CallStep) {
    var c := s.c;
    match x
    case Ask(id, _, _) => Unused(s, id)
    case Register(id) => id in c.calls && c.calls[id].Opened?
    case SendRequest(id) => id in c.unsent && id in c.asked
    case LoseRequest(id) => id in c.unsent
    case Confirm(id) =>
      && id in c.calls && c.calls[id].Awaiting? && c.calls[id].confirmed.None?
      && id !in c.unsent && s.now <= c.calls[id].deadline + cfg.slack
    case GiveUp(id) => id in c.calls && c.calls[id].Awaiting?
    case Receive(id) =>
      && id in c.calls && c.calls[id].Awaiting? && s.now <= c.calls[id].deadline + cfg.slack
      && id in c.chans && c.chans[id] != []
    case Unregister(id) => id in c.calls && c.calls[id].Finishing?
    case Return(id) => id in c.calls && c.calls[id].Leaving? && id in c.asked
  }

  function CallClient(cfg: Config, s: Sys, x: CallStep): Client
    requires CallEnabled(cfg, s, x)
  {
    var c := s.c;
    match x
    case Ask(id, name, qtype) =>
      c.(asked := c.asked[id := Question(name, qtype)], calls := c.calls[id := Opened], chans := c.chans[id := []])
    case Register(id) =>
      c.(waits := c.waits + {id}, since := c.since[id := s.now], unsent := c.unsent + {id},
         calls := c.calls[id := Awaiting(s.now + cfg.block, None)])
    case SendRequest(id) => c.(unsent := c.unsent - {id})
    case LoseRequest(id) => c.(unsent := c.unsent - {id})
    case Confirm(id) => c.(calls := c.calls[id := Awaiting(s.now + cfg.block, Some(s.now))])
    case GiveUp(id) => c.(calls := c.calls[id := Finishing(None, s.now, c.calls[id].confirmed)])
    case Receive(id) =>
      c.(calls := c.calls[id := Finishing(Some(c.chans[id][0]), s.now, c.calls[id].confirmed)],
         chans := c.chans[id := c.chans[id][1..]])
    case Unregister(id) =>
      var y := c.calls[id];
      c.(calls := c.calls[id := Leaving(y.got, y.at, y.confirmed)], waits := c.waits - {id})
    case Return(id) =>
      var y := c.calls[id];
      var left := c.(calls := c.calls - {id});
      if y.got.None? || y.got.value.resp.failed || y.got.value.resp.wire.None? then left
      else
        var q := c.asked[id];
        var a := Answer(q.name, q.qtype, y.got.value.resp.wire.value, y.got.value, y.at, y.confirmed);
        left.(answers := c.answers + {a})
  }

  function CallRedis(cfg: Config, s: Sys, x: CallStep): Redis
    requires CallEnabled(cfg, s, x)
  {
    if x.SendRequest? then
      var q := s.c.asked[x.id];
      s.r.(requests := s.r.requests + [Request(x.id, q.name, q.qtype)])
    else s.r
  }

  // ---------------------------------------------------------------------------
  // The local cache and the dispatcher
  // ---------------------------------------------------------------------------

  predicate CacheEnabled(cfg: Config, s: Sys, x: CacheStep) {
    match x
    case Reply(a) => a in s.c.answers && s.now <= a.takenAt + cfg.lag
    case Peek(rid, name, qtype) => rid !in s.c.peeks && CacheKey(name, qtype) in s.c.local
    case Conclude(rid) => rid in s.c.peeks
    case ClearLocal => true
    case Warm(i) => i < |s.r.updates| && s.now <= s.r.updates[i].bornAt + cfg.pushDelay
  }

  function CacheClient(cfg: Config, s: Sys, x: CacheStep): Client
    requires CacheEnabled(cfg, s, x)
  {
    var c := s.c;
    match x
    case Reply(a) =>
      c.(local := LocalWrite(cfg, c.local, a.name, a.qtype, a.wire, a.parcel.resp.resolvedAt, s.now),
         served := c.served + [Served(a.name, a.qtype, a.wire, s.now, false)])
    case Peek(rid, name, qtype) =>
      c.(peeks := c.peeks[rid := Snapshot(name, qtype, c.local[CacheKey(name, qtype)])])
    case Conclude(rid) =>
      var q := c.peeks[rid];
      var left := c.(peeks := c.peeks - {rid});
      if s.now > q.e.expire then left.(local := c.local - {CacheKey(q.name, q.qtype)})
      else left.(served := c.served + [Served(q.name, q.qtype, q.e.wire, s.now, true)])
    case ClearLocal => c.(local := map[])
    case Warm(i) =>
      var u := s.r.updates[i].upd;
      c.(local := LocalWrite(cfg, c.local, u.name, u.qtype, u.wire, u.resolvedAt, s.now))
  }

  predicate DispatchEnabled(s: Sys, x: DispatchStep) {
    match x
    case Lookup => s.c.holding.None? && s.c.cursor < |s.r.responses|
    case Deliver =>
      && s.c.holding.Some? && s.c.holding.value.resp.id in s.c.chans
      && |s.c.chans[s.c.holding.value.resp.id]| < 1
    case SkipResponses(n) => s.c.cursor <= n <= |s.r.responses|
  }

  function DispatchClient(s: Sys, x: DispatchStep): Client
    requires DispatchEnabled(s, x)
  {
    var c := s.c;
    match x
    case Lookup =>
      var p := s.r.responses[c.cursor];
      c.(cursor := c.cursor + 1, holding := if p.resp.id in c.waits then Some(p) else None)
    case Deliver =>
      var p := c.holding.value;
      c.(chans := c.chans[p.resp.id := c.chans[p.resp.id] + [p]], holding := None)
    case SkipResponses(n) => c.(cursor := n)
  }

  // ---------------------------------------------------------------------------
  // Handlers
  // ---------------------------------------------------------------------------

  predicate HandleEnabled(cfg: Config, s: Sys, x: HandleStep) {
    match x
    case Pick => s.r.delivered < |s.r.requests|
    case CacheHit(h) =>
      && h in s.v.handlers && s.v.handlers[h].Picked?
      && CacheLive(s.r.cache, CacheKey(s.v.handlers[h].req.name, s.v.handlers[h].req.qtype), s.now)
    case CacheMiss(h) =>
      && h in s.v.handlers && s.v.handlers[h].Picked?
      && !CacheLive(s.r.cache, CacheKey(s.v.handlers[h].req.name, s.v.handlers[h].req.qtype), s.now)
    case Fetch(h, _) => h in s.v.handlers && s.v.handlers[h].Missed?
    case StoreAnswer(h, ok) =>
      && h in s.v.handlers && s.v.handlers[h].Fetched?
      && (ok ==> s.now <= s.v.handlers[h].at + cfg.setDelay)
    case PublishAnswer(h) => h in s.v.handlers && s.v.handlers[h].Stored?
    case SendResponse(h, _) => h in s.v.handlers && s.v.handlers[h].Outbound?
  }

  /** The response to a cache hit is stamped with the present instant. */
  function HitParcel(cfg: Config, s: Sys, h: nat): Parcel
    requires HandleEnabled(cfg, s, CacheHit(h))
  {
    var req := s.v.handlers[h].req;
    var wire := s.r.cache[CacheKey(req.name, req.qtype)].wire;
    Parcel(Response(req.id, req.name, req.qtype, wire.rcode, s.now, Some(wire), false), s.now, h)
  }

  function FreshParcel(req: Request, m: Msg, at: int, h: nat): Parcel {
    Parcel(Response(req.id, req.name, req.qtype, m.rcode, at, Some(m), false), at, h)
  }

  function FailParcel(req: Request, now: int, h: nat): Parcel {
    Parcel(Response(req.id, req.name, req.qtype, 0, 0, None, true), now, h)
  }

  function HandleServer(cfg: Config, s: Sys, x: HandleStep): Server
    requires HandleEnabled(cfg, s, x)
  {
    var v := s.v;
    match x
    case Pick => v.(handlers := v.handlers[s.r.delivered := Picked(s.r.requests[s.r.delivered])])
    case CacheHit(h) => v.(handlers := v.handlers[h := Outbound(HitParcel(cfg, s, h))])
    case CacheMiss(h) => v.(handlers := v.handlers[h := Missed(v.handlers[h].req)])
    case Fetch(h, msg) =>
      var req := v.handlers[h].req;
      v.(handlers := v.handlers[h := if msg.Some? then Fetched(req, msg.value, s.now)
                                     else Outbound(FailParcel(req, s.now, h))])
    case StoreAnswer(h, _) =>
      var f := v.handlers[h];
      v.(handlers := v.handlers[h := Stored(f.req, f.msg, f.at)])
    case PublishAnswer(h) =>
      var f := v.handlers[h];
      v.(handlers := v.handlers[h := Outbound(FreshParcel(f.req, f.msg, f.at, h))])
    case SendResponse(h, _) => v.(handlers := v.handlers - {h})
  }

  function HandleRedis(cfg: Config, s: Sys, x: HandleStep): Redis
    requires HandleEnabled(cfg, s, x)
  {
    var r := s.r;
    match x
    case Pick => r.(delivered := r.delivered + 1)
    case StoreAnswer(h, true) =>
      var f := s.v.handlers[h];
      r.(cache := CacheWrite(cfg, r.cache, f.req.name, f.req.qtype, f.msg, s.now))
    case PublishAnswer(h) =>
      var f := s.v.handlers[h];
      r.(updates := r.updates + [Publication(Update(f.req.name, f.req.qtype, f.msg.rcode, f.at, f.msg), f.at)])
    case SendResponse(h, true) => r.(responses := r.responses + [s.v.handlers[h].parcel])
    case _ => r
  }

  function HandleResolved(cfg: Config, s: Sys, x: HandleStep): set<Resolution>
    requires HandleEnabled(cfg, s, x)
  {
    match x
    case Fetch(h, Some(m)) =>
      var req := s.v.handlers[h].req;
      s.resolved + {Resolution(req.name, req.qtype, m, s.now)}
    case _ => s.resolved
  }

  // ---------------------------------------------------------------------------
  // The prefetcher
  // ---------------------------------------------------------------------------

  predicate PrefetchEnabled(cfg: Config, s: Sys, x: PrefetchStep) {
    match x
    case PrefetchFetch(p, _, _, _) => p !in s.v.prefetches
    case PrefetchStore(p, ok) =>
      && p in s.v.prefetches && !s.v.prefetches[p].stored
      && (ok ==> s.now <= s.v.prefetches[p].at + cfg.setDelay)
    case PrefetchPublish(p) => p in s.v.prefetches && s.v.prefetches[p].stored
  }

  function PrefetchApply(cfg: Config, s: Sys, x: PrefetchStep): Sys
    requires PrefetchEnabled(cfg, s, x)
  {
    var r, v := s.r, s.v;
    match x
    case PrefetchFetch(p, name, qtype, msg) =>
      s.(v := v.(prefetches := v.prefetches[p := Prefetch(name, qtype, msg, s.now, false)]),
         resolved := s.resolved + {Resolution(name, qtype, msg, s.now)})
    case PrefetchStore(p, ok) =>
      var f := v.prefetches[p];
      s.(v := v.(prefetches := v.prefetches[p := f.(stored := true)]),
         r := if ok then r.(cache := CacheWrite(cfg, r.cache, f.name, f.qtype, f.msg, s.now)) else r)
    case PrefetchPublish(p) =>
      var f := v.prefetches[p];
      s.(v := v.(prefetches := v.prefetches - {p}),
         r := r.(updates := r.updates + [Publication(Update(f.name, f.qtype, f.msg.rcode, s.now, f.msg), f.at)]))
  }

  // ---------------------------------------------------------------------------
  // The system
  // ---------------------------------------------------------------------------

  predicate Enabled(cfg: Config, s: Sys, step: Step) {
    match step
    case Tick(_) => true
    case Calling(x) => CallEnabled(cfg, s, x)
    case Caching(x) => CacheEnabled(cfg, s, x)
    case Dispatching(x) => DispatchEnabled(s, x)
    case OtherSend(id, _, _) => Unused(s, id)
    case Handling(x) => HandleEnabled(cfg, s, x)
    case Prefetching(x) => PrefetchEnabled(cfg, s, x)
  }

  function Apply(cfg: Config, s: Sys, step: Step): Sys
    requires Enabled(cfg, s, step)
  {
    match step
    case Tick(dt) => s.(now := s.now + dt)
    case Calling(x) => s.(c := CallClient(cfg, s, x), r := CallRedis(cfg, s, x))
    case Caching(x) => s.(c := CacheClient(cfg, s, x))
    case Dispatching(x) => s.(c := DispatchClient(s, x))
    case OtherSend(id, name, qtype) => s.(r := s.r.(requests := s.r.requests + [Request(id, name, qtype)]))
    case Handling(x) =>
      s.(v := HandleServer(cfg, s, x), r := HandleRedis(cfg, s, x), resolved := HandleResolved(cfg, s, x))
    case Prefetching(x) => PrefetchApply(cfg, s, x)
  }

  /** The state a run reaches, or None when some step of it is not enabled. */
  function Exec(cfg: Config, steps: seq<Step>): Option<Sys> {
    if steps == [] then
      Some(INIT)
    else
      var before := Exec(cfg, steps[..|steps| - 1]);
      var step := steps[|steps| - 1];
      if before.Some? && Enabled(cfg, before.value, step)
      then Some(Apply(cfg, before.value, step)) else None
  }
}
