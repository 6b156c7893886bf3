/**
 The stamps that travel, and the client's local cache as their replay. In every run of the protocol system
 a response and an update carry the instant they should, and the local cache holds, for each question, the
 answer with the latest stamp of those written since it was last removed.
 */
module ProtocolHistory {

  import opened Options
  import opened Dns
  import opened Keys
  import opened LocalCache
  import opened Protocol

  // ---------------------------------------------------------------------------
  // The local cache is the replay of what travelled
  // ---------------------------------------------------------------------------

  /** What a local write stores: the answer, its expiry and the stamp it came with. */
  function Written(cfg: Config, m: Msg, stamp: int, now: int): Entry {
    Entry(m, now + LocalTtl(cfg.localTTL, m), stamp)
  }

  /** The effect of a step on the local cache, in terms of the response or update it is about. */
  function OpsOf(cfg: Config, s: Sys, step: Step): seq<Op>
    requires Enabled(cfg, s, step)
  {
    match step
    case Caching(Reply(a)) =>
      [Op.Set(CacheKey(a.name, a.qtype), Written(cfg, a.wire, a.parcel.resp.resolvedAt, s.now))]
    case Caching(Warm(i)) =>
      var u := s.r.updates[i].upd;
      [Op.Set(CacheKey(u.name, u.qtype), Written(cfg, u.wire, u.resolvedAt, s.now))]
    case Caching(Conclude(rid)) =>
      var q := s.c.peeks[rid];
      if s.now > q.e.expire then [Op.Remove(CacheKey(q.name, q.qtype))] else []
    case Caching(ClearLocal) => [Op.Clear]
    case _ => []
  }

  function HistoryOf(cfg: Config, steps: seq<Step>): seq<Op>
    requires Exec(cfg, steps).Some?
  {
    if steps == [] then []
    else
      var init := steps[..|steps| - 1];
      HistoryOf(cfg, init) + OpsOf(cfg, Exec(cfg, init).value, steps[|steps| - 1])
  }

  lemma ReplayOne(h: seq<Op>, op: Op)
    ensures Replay(h + [op]) == ApplyOp(Replay(h), op)
  {
    assert (h + [op])[..|h|] == h;
  }

  lemma CacheStepReplays(cfg: Config, s: Sys, x: CacheStep, h: seq<Op>)
    requires CacheEnabled(cfg, s, x) && s.c.local == Replay(h)
    ensures CacheClient(cfg, s, x).local == Replay(h + OpsOf(cfg, s, Caching(x)))
  {
    var ops := OpsOf(cfg, s, Caching(x));
    CacheStepOps(cfg, s, x);
    if ops == [] {
      assert h + ops == h;
    } else {
      ReplayOne(h, ops[0]);
      assert ops == [ops[0]];
    }
  }

  lemma CacheStepOps(cfg: Config, s: Sys, x: CacheStep)
    requires CacheEnabled(cfg, s, x)
    ensures var ops, local := OpsOf(cfg, s, Caching(x)), CacheClient(cfg, s, x).local;
            |ops| <= 1 && local == if ops == [] then s.c.local else ApplyOp(s.c.local, ops[0])
  {
  }

  lemma OthersLeaveLocal(cfg: Config, s: Sys, step: Step)
    requires Enabled(cfg, s, step) && !step.Caching?
    ensures Apply(cfg, s, step).c.local == s.c.local && OpsOf(cfg, s, step) == []
  {
    match step
    case Calling(x) => CallLeavesLocal(cfg, s, x);
    case Dispatching(x) => assert DispatchClient(s, x).local == s.c.local;
    case Prefetching(x) => assert PrefetchApply(cfg, s, x).c == s.c;
    case _ =>
  }

  lemma CallLeavesLocal(cfg: Config, s: Sys, x: CallStep)
    requires CallEnabled(cfg, s, x)
    ensures CallClient(cfg, s, x).local == s.c.local
  {
  }

  /** In every run the local cache is the replay of the writes, removals and clears of that run. */
  lemma {:induction false} LocalIsReplay(cfg: Config, steps: seq<Step>)
    requires Exec(cfg, steps).Some?
    ensures Exec(cfg, steps).value.c.local == Replay(HistoryOf(cfg, steps))
  {
    if steps != [] {
      var init, step := steps[..|steps| - 1], steps[|steps| - 1];
      LocalIsReplay(cfg, init);
      var s := Exec(cfg, init).value;
      if step.Caching? {
        CacheStepReplays(cfg, s, step.cache, HistoryOf(cfg, init));
      } else {
        OthersLeaveLocal(cfg, s, step);
        assert HistoryOf(cfg, steps) == HistoryOf(cfg, init);
      }
    }
  }

  /**
   In every run a question is cached exactly when some answer written for it still stands, and then the
   cache holds the latest-arriving of those that came with the latest stamp.
   */
  lemma LocalIsFreshest(cfg: Config, steps: seq<Step>, name: string, qtype: QType)
    requires Exec(cfg, steps).Some?
    ensures var local, h, key := Exec(cfg, steps).value.c.local, HistoryOf(cfg, steps), CacheKey(name, qtype);
            && (key in local <==> exists i :: StandingWrite(h, key, i))
            && (key in local ==> exists i :: Champion(h, key, i) && local[key] == h[i].e)
  {
    LocalIsReplay(cfg, steps);
    CacheIsArgmax(HistoryOf(cfg, steps), CacheKey(name, qtype));
  }

  // ---------------------------------------------------------------------------
  // Single writes
  // ---------------------------------------------------------------------------

  /** What a write leaves: the new answer with its own stamp, unless one with a later stamp stood. */
  ghost predicate Stands(before: Cache, after: Cache, key: string, e: Entry) {
    && key in after
    && after[key] == (if key in before && before[key].resolvedAt > e.resolvedAt then before[key] else e)
    && forall k :: k != key ==> (k in after <==> k in before) && (k in before ==> after[k] == before[k])
  }

  /** A reply is served, and stored with the stamp of its response. */
  lemma ReplyStands(cfg: Config, s: Sys, a: Answer)
    requires CacheEnabled(cfg, s, Reply(a))
    ensures var c' := Apply(cfg, s, Caching(Reply(a))).c;
            && Stands(s.c.local, c'.local, CacheKey(a.name, a.qtype),
                      Entry(a.wire, s.now + LocalTtl(cfg.localTTL, a.wire), a.parcel.resp.resolvedAt))
            && c'.local[CacheKey(a.name, a.qtype)].resolvedAt >= a.parcel.resp.resolvedAt
            && c'.served == s.c.served + [Served(a.name, a.qtype, a.wire, s.now, false)]
  {
  }

  /** An update is stored with its own stamp. */
  lemma WarmStands(cfg: Config, s: Sys, i: nat)
    requires CacheEnabled(cfg, s, Warm(i))
    ensures var u := s.r.updates[i].upd;
            Stands(s.c.local, Apply(cfg, s, Caching(Warm(i))).c.local, CacheKey(u.name, u.qtype),
                   Entry(u.wire, s.now + LocalTtl(cfg.localTTL, u.wire), u.resolvedAt))
  {
  }

  lemma CacheStepNotStale(cfg: Config, s: Sys, x: CacheStep, key: string)
    requires CacheEnabled(cfg, s, x) && key in s.c.local && key in CacheClient(cfg, s, x).local
    ensures CacheClient(cfg, s, x).local[key].resolvedAt >= s.c.local[key].resolvedAt
  {
    match x
    case Reply(a) => ReplyStands(cfg, s, a);
    case Warm(i) => WarmStands(cfg, s, i);
    case _ =>
  }

  /** No step replaces an entry by one that came with an earlier stamp. */
  lemma NoStaleStep(cfg: Config, s: Sys, step: Step, key: string)
    requires Enabled(cfg, s, step) && key in s.c.local && key in Apply(cfg, s, step).c.local
    ensures Apply(cfg, s, step).c.local[key].resolvedAt >= s.c.local[key].resolvedAt
  {
    if step.Caching? {
      CacheStepNotStale(cfg, s, step.cache, key);
    } else {
      OthersLeaveLocal(cfg, s, step);
    }
  }

  // ---------------------------------------------------------------------------
  // The stamps
  // ---------------------------------------------------------------------------

  /** A response with an answer carries its rcode and the instant at which it was read or resolved. */
  predicate ResponseHonest(now: int, p: Parcel) {
    && (p.resp.wire.Some? <==> !p.resp.failed) && p.readAt <= now
    && (p.resp.wire.Some? ==> p.resp.rcode == p.resp.wire.value.rcode && p.resp.resolvedAt == p.readAt)
  }

  predicate HandlerHonest(now: int, x: Handler) {
    match x
    case Picked(_) => true
    case Missed(_) => true
    case Fetched(_, _, at) => at <= now
    case Stored(_, _, at) => at <= now
    case Outbound(p) => ResponseHonest(now, p)
  }

  /** An update is stamped no earlier than its answer was resolved. */
  predicate UpdateHonest(now: int, u: Publication) {
    u.upd.rcode == u.upd.wire.rcode && u.bornAt <= u.upd.resolvedAt <= now
  }

  ghost predicate Honest(s: Sys) {
    && (forall h :: h in s.v.handlers ==> HandlerHonest(s.now, s.v.handlers[h]))
    && (forall p :: p in s.v.prefetches ==> s.v.prefetches[p].at <= s.now)
    && (forall j :: 0 <= j < |s.r.responses| ==> ResponseHonest(s.now, s.r.responses[j]))
    && (forall i :: 0 <= i < |s.r.updates| ==> UpdateHonest(s.now, s.r.updates[i]))
  }

  lemma HandleKeepsHonest(cfg: Config, s: Sys, x: HandleStep)
    requires Honest(s) && HandleEnabled(cfg, s, x)
    ensures Honest(Apply(cfg, s, Handling(x)))
  {
    if !x.Pick? {
      assert HandlerHonest(s.now, s.v.handlers[x.h]);
    }
  }

  lemma PrefetchKeepsHonest(cfg: Config, s: Sys, x: PrefetchStep)
    requires Honest(s) && PrefetchEnabled(cfg, s, x)
    ensures Honest(Apply(cfg, s, Prefetching(x)))
  {
  }

  /** Callers and the dispatcher write no response and no update. */
  lemma ClientKeepsHonest(cfg: Config, s: Sys, s': Sys)
    requires Honest(s) && s.now <= s'.now && s'.v == s.v
    requires s'.r.responses == s.r.responses && s'.r.updates == s.r.updates
    ensures Honest(s')
  {
    forall h | h in s'.v.handlers ensures HandlerHonest(s'.now, s'.v.handlers[h]) {
      assert HandlerHonest(s.now, s.v.handlers[h]);
    }
  }

  lemma {:induction false} ReachableHonest(cfg: Config, steps: seq<Step>)
    ensures Exec(cfg, steps).Some? ==> Honest(Exec(cfg, steps).value)
  {
    if steps != [] && Exec(cfg, steps).Some? {
      var init, step := steps[..|steps| - 1], steps[|steps| - 1];
      ReachableHonest(cfg, init);
      var s := Exec(cfg, init).value;
      match step
      case Handling(x) => HandleKeepsHonest(cfg, s, x);
      case Prefetching(x) => PrefetchKeepsHonest(cfg, s, x);
      case Calling(x) => ClientKeepsHonest(cfg, s, Apply(cfg, s, step));
      case _ => ClientKeepsHonest(cfg, s, Apply(cfg, s, step));
    }
  }

  /** In every run responses and updates carry the rcode of their answer and an honest stamp. */
  lemma StampsAreHonest(cfg: Config, steps: seq<Step>)
    requires Exec(cfg, steps).Some?
    ensures var s := Exec(cfg, steps).value;
            && (forall j :: 0 <= j < |s.r.responses| && s.r.responses[j].resp.wire.Some? ==>
                  var p := s.r.responses[j];
                  p.resp.rcode == p.resp.wire.value.rcode && p.resp.resolvedAt == p.readAt <= s.now && !p.resp.failed)
            && (forall i :: 0 <= i < |s.r.updates| ==>
                  var u := s.r.updates[i];
                  u.upd.rcode == u.upd.wire.rcode && u.bornAt <= u.upd.resolvedAt <= s.now)
  {
    ReachableHonest(cfg, steps);
    var s := Exec(cfg, steps).value;
    forall j | 0 <= j < |s.r.responses| ensures ResponseHonest(s.now, s.r.responses[j]) {}
    forall i | 0 <= i < |s.r.updates| ensures UpdateHonest(s.now, s.r.updates[i]) {}
  }

  /** A handler's update has the stamp of its response; the prefetcher stamps at the instant it publishes. */
  lemma PublishedAs(cfg: Config, s: Sys, h: nat, p: nat)
    ensures HandleEnabled(cfg, s, PublishAnswer(h)) ==>
              var f := s.v.handlers[h];
              && HandleRedis(cfg, s, PublishAnswer(h)).updates
                 == s.r.updates + [Publication(Update(f.req.name, f.req.qtype, f.msg.rcode, f.at, f.msg), f.at)]
              && HandleServer(cfg, s, PublishAnswer(h)).handlers[h].parcel.resp.resolvedAt == f.at
    ensures PrefetchEnabled(cfg, s, PrefetchPublish(p)) ==>
              var f := s.v.prefetches[p];
              PrefetchApply(cfg, s, PrefetchPublish(p)).r.updates
              == s.r.updates + [Publication(Update(f.name, f.qtype, f.msg.rcode, s.now, f.msg), f.at)]
  {
  }
}
