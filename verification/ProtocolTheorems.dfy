/** What the protocol guarantees over every run: correlation, provenance and bounded staleness. */
module ProtocolTheorems {

  import opened Options
  import opened Dns
  import opened Keys
  import opened LocalCache
  import opened Protocol

  // ---------------------------------------------------------------------------
  // Correlation
  // ---------------------------------------------------------------------------

  predicate Answers(resp: Response, req: Request) {
    resp.id == req.id && resp.name == req.name && resp.qtype == req.qtype
  }

  predicate Registered(x: Call) { x.Awaiting? || x.Finishing? }

  /** The wait table holds exactly the calls that have registered and not yet unregistered. */
  ghost predicate WaitsOK(c: Client) {
    forall id :: id in c.waits <==> id in c.calls && Registered(c.calls[id])
  }

  ghost predicate CallsOK(c: Client) {
    && WaitsOK(c)
    && (forall id :: id in c.calls ==> id in c.asked && (id in c.since <==> !c.calls[id].Opened?))
    && c.chans.Keys == c.asked.Keys
    && c.unsent <= c.since.Keys <= c.asked.Keys
  }

  /** Each request was sent once, under an ID of its own, and the client's own after registering. */
  ghost predicate RequestsOK(s: Sys) {
    && (forall i :: 0 <= i < |s.r.requests| && s.r.requests[i].id in s.c.asked ==>
          var q := s.r.requests[i];
          s.c.asked[q.id] == Question(q.name, q.qtype) && q.id !in s.c.unsent && q.id in s.c.since)
    && (forall i, j :: 0 <= i < j < |s.r.requests| ==> s.r.requests[i].id != s.r.requests[j].id)
  }

  predicate HandlerFor(x: Handler, req: Request, h: nat) {
    match x
    case Picked(q) => q == req
    case Missed(q) => q == req
    case Fetched(q, _, _) => q == req
    case Stored(q, _, _) => q == req
    case Outbound(p) => Answers(p.resp, req) && p.src == h
  }

  /** Each delivered request is with its one handler, or answered, or dropped. */
  ghost predicate HandlersOK(s: Sys) {
    && s.r.delivered <= |s.r.requests|
    && (forall h :: h in s.v.handlers ==> h < s.r.delivered && HandlerFor(s.v.handlers[h], s.r.requests[h], h))
    && (forall j :: 0 <= j < |s.r.responses| ==>
          var p := s.r.responses[j];
          p.src < s.r.delivered && p.src !in s.v.handlers && Answers(p.resp, s.r.requests[p.src]))
    && (forall i, j :: 0 <= i < j < |s.r.responses| ==> s.r.responses[i].src != s.r.responses[j].src)
  }

  /** The response is one of those the dispatcher has read. */
  ghost predicate ReadBy(s: Sys, p: Parcel) {
    exists j :: 0 <= j < s.c.cursor && j < |s.r.responses| && s.r.responses[j] == p
  }

  ghost predicate ChannelOK(s: Sys, id: Id, buffer: seq<Parcel>) {
    && |buffer| <= 1
    && forall p :: p in buffer ==>
         p.resp.id == id && ReadBy(s, p) && (s.c.holding.Some? ==> s.c.holding.value.src != p.src)
  }

  ghost predicate DispatchOK(s: Sys) {
    && s.c.cursor <= |s.r.responses|
    && (s.c.holding.Some? ==> ReadBy(s, s.c.holding.value) && s.c.holding.value.resp.id in s.c.chans)
    && (forall id :: id in s.c.chans ==> ChannelOK(s, id, s.c.chans[id]))
  }

  /** The call left its select with a response. */
  predicate HasGot(x: Call) { (x.Finishing? || x.Leaving?) && x.got.Some? }

  /** The answer is what a response the dispatcher has read says about this very question. */
  ghost predicate AnswerOK(s: Sys, a: Answer) {
    && ReadBy(s, a.parcel) && a.parcel.resp.wire == Some(a.wire)
    && a.parcel.resp.name == a.name && a.parcel.resp.qtype == a.qtype
  }

  ghost predicate ResultsOK(s: Sys) {
    && (forall id :: id in s.c.calls && HasGot(s.c.calls[id]) ==>
          s.c.calls[id].got.value.resp.id == id && ReadBy(s, s.c.calls[id].got.value))
    && (forall a :: a in s.c.answers ==> AnswerOK(s, a))
  }

  ghost predicate Correlated(s: Sys) {
    CallsOK(s.c) && RequestsOK(s) && HandlersOK(s) && DispatchOK(s) && ResultsOK(s)
  }

  // Each group of steps keeps the whole invariant. Groups that leave its parts alone do so by a frame.

  /** Nothing that correlation is about has changed. */
  predicate SameCore(s: Sys, s': Sys) {
    && s'.c == s.c.(local := s'.c.local, peeks := s'.c.peeks, served := s'.c.served)
    && s'.r == s.r.(cache := s'.r.cache, updates := s'.r.updates)
    && s'.v.handlers == s.v.handlers
  }

  lemma SameReads(s: Sys, s': Sys)
    requires s.r.responses <= s'.r.responses && s.c.cursor <= s'.c.cursor
    ensures forall p :: ReadBy(s, p) ==> ReadBy(s', p)
  {
    forall p | ReadBy(s, p) ensures ReadBy(s', p) {
      var j :| 0 <= j < s.c.cursor && j < |s.r.responses| && s.r.responses[j] == p;
      assert s'.r.responses[j] == p;
    }
  }

  /** The response stream and the cursor only grow, and calls and answers stay as they are. */
  lemma ResultsStay(s: Sys, s': Sys)
    requires ResultsOK(s) && s'.c.calls == s.c.calls && s'.c.answers == s.c.answers
    requires s.r.responses <= s'.r.responses && s.c.cursor <= s'.c.cursor
    ensures ResultsOK(s')
  {
    SameReads(s, s');
    forall a | a in s'.c.answers ensures AnswerOK(s', a) {
      assert AnswerOK(s, a);
    }
  }

  lemma SameCoreKeepsCorrelated(s: Sys, s': Sys)
    requires Correlated(s) && SameCore(s, s')
    ensures Correlated(s')
  {
    SameReads(s, s');
    ResultsStay(s, s');
    assert HoldingMoves(s, s');
    forall id | id in s'.c.chans ensures ChannelMoves(s, s', id) {}
    DispatchStays(s, s');
  }

  lemma CallKeepsWaits(cfg: Config, s: Sys, x: CallStep)
    requires WaitsOK(s.c) && CallEnabled(cfg, s, x) && s.c.calls.Keys <= s.c.asked.Keys
    ensures WaitsOK(CallClient(cfg, s, x))
  {
  }

  lemma CallKeepsCalls(cfg: Config, s: Sys, x: CallStep)
    requires CallsOK(s.c) && CallEnabled(cfg, s, x)
    ensures CallsOK(CallClient(cfg, s, x))
  {
    CallKeepsWaits(cfg, s, x);
  }

  lemma CallKeepsRequests(cfg: Config, s: Sys, x: CallStep)
    requires CallsOK(s.c) && RequestsOK(s) && CallEnabled(cfg, s, x)
    ensures RequestsOK(s.(c := CallClient(cfg, s, x), r := CallRedis(cfg, s, x)))
  {
    match x
    case SendRequest(id) =>
    case _ => assert CallRedis(cfg, s, x) == s.r;
  }

  /** More requests, of any client, leave handlers and responses as they are. */
  lemma MoreRequests(s: Sys, s': Sys)
    requires HandlersOK(s) && s'.v.handlers == s.v.handlers
    requires s.r.requests <= s'.r.requests && s'.r.delivered == s.r.delivered && s'.r.responses == s.r.responses
    ensures HandlersOK(s')
  {
    assert forall i :: 0 <= i < |s.r.requests| ==> s'.r.requests[i] == s.r.requests[i];
  }

  /** A handler keeps to its request, and leaves the table only by sending. */
  lemma HandlersAdvance(cfg: Config, s: Sys, x: HandleStep)
    requires HandlersOK(s) && HandleEnabled(cfg, s, x)
    ensures var v' := HandleServer(cfg, s, x);
            && (forall h :: h in v'.handlers && h in s.v.handlers ==> HandlerFor(v'.handlers[h], s.r.requests[h], h))
            && (forall h :: h in v'.handlers && h !in s.v.handlers ==>
                  x.Pick? && h == s.r.delivered && v'.handlers[h] == Picked(s.r.requests[h]))
            && (x.SendResponse? ==> x.h !in v'.handlers)
  {
  }

  lemma HandleKeepsHandlers(cfg: Config, s: Sys, x: HandleStep)
    requires HandlersOK(s) && HandleEnabled(cfg, s, x)
    ensures HandlersOK(Apply(cfg, s, Handling(x)))
  {
    HandlersAdvance(cfg, s, x);
  }

  /** Two responses the dispatcher has read with one ID are one response. */
  lemma OneResponse(s: Sys, p: Parcel, q: Parcel)
    requires RequestsOK(s) && HandlersOK(s) && ReadBy(s, p) && ReadBy(s, q)
    requires p.resp.id == q.resp.id
    ensures p.src == q.src
  {
  }

  /** The send into the capacity-1 channel finds room. */
  lemma RoomToSend(s: Sys)
    requires Correlated(s) && s.c.holding.Some?
    ensures s.c.holding.value.resp.id in s.c.chans
    ensures s.c.chans[s.c.holding.value.resp.id] == []
  {
    var p := s.c.holding.value;
    var buffer := s.c.chans[p.resp.id];
    assert ChannelOK(s, p.resp.id, buffer);
    if buffer != [] {
      assert buffer[0] in buffer;
      OneResponse(s, p, buffer[0]);
      assert false;
    }
  }

  /** How a step can change what the dispatcher holds, and one channel. */
  predicate HoldingMoves(s: Sys, s': Sys) {
    || s'.c.holding == s.c.holding
    || s'.c.holding.None?
    || (s.c.holding.None? && s.c.cursor < |s.r.responses| && s'.c.holding == Some(s.r.responses[s.c.cursor])
        && s'.c.cursor > s.c.cursor && s'.c.holding.value.resp.id in s.c.waits)
  }

  ghost predicate ChannelMoves(s: Sys, s': Sys, id: Id)
    requires id in s'.c.chans
  {
    || s'.c.chans[id] == []
    || (id in s.c.chans && s'.c.chans[id] == s.c.chans[id])
    || (s.c.holding.Some? && s'.c.holding.None? && id == s.c.holding.value.resp.id
        && s'.c.chans[id] == [s.c.holding.value])
  }

  lemma CallMovesChannel(cfg: Config, s: Sys, x: CallStep, id: Id)
    requires DispatchOK(s) && CallEnabled(cfg, s, x) && id in CallClient(cfg, s, x).chans
    ensures var c' := CallClient(cfg, s, x);
            c'.chans[id] == [] || (id in s.c.chans && c'.chans[id] == s.c.chans[id])
  {
    if x.Receive? && x.id == id {
      assert ChannelOK(s, id, s.c.chans[id]);
    }
  }

  lemma ChannelStaysOK(s: Sys, s': Sys, id: Id)
    requires HandlersOK(s) && DispatchOK(s) && id in s'.c.chans
    requires HoldingMoves(s, s') && ChannelMoves(s, s', id)
    requires forall p :: ReadBy(s, p) ==> ReadBy(s', p)
    ensures ChannelOK(s', id, s'.c.chans[id])
  {
    if id in s.c.chans {
      assert ChannelOK(s, id, s.c.chans[id]);
    }
    forall p | p in s'.c.chans[id] && s'.c.holding.Some? && s'.c.holding != s.c.holding
      ensures s'.c.holding.value.src != p.src
    {
      var j :| 0 <= j < s.c.cursor && j < |s.r.responses| && s.r.responses[j] == p;
      assert s.r.responses[s.c.cursor].src != p.src;
    }
  }

  lemma HoldingStaysOK(s: Sys, s': Sys)
    requires CallsOK(s.c) && DispatchOK(s) && HoldingMoves(s, s') && s.c.chans.Keys <= s'.c.chans.Keys
    requires s.r.responses <= s'.r.responses && forall p :: ReadBy(s, p) ==> ReadBy(s', p)
    ensures s'.c.holding.Some? ==> ReadBy(s', s'.c.holding.value) && s'.c.holding.value.resp.id in s'.c.chans
  {
    if s'.c.holding.Some? && s'.c.holding != s.c.holding {
      assert s'.r.responses[s.c.cursor] == s.r.responses[s.c.cursor];
    }
  }

  lemma DispatchStays(s: Sys, s': Sys)
    requires CallsOK(s.c) && HandlersOK(s) && DispatchOK(s)
    requires HoldingMoves(s, s') && s.c.chans.Keys <= s'.c.chans.Keys
    requires s.r.responses <= s'.r.responses && s.c.cursor <= s'.c.cursor <= |s'.r.responses|
    requires forall id :: id in s'.c.chans ==> ChannelMoves(s, s', id)
    ensures DispatchOK(s')
  {
    SameReads(s, s');
    HoldingStaysOK(s, s');
    forall id | id in s'.c.chans ensures ChannelOK(s', id, s'.c.chans[id]) {
      ChannelStaysOK(s, s', id);
    }
  }

  lemma CallKeepsDispatch(cfg: Config, s: Sys, x: CallStep)
    requires CallsOK(s.c) && HandlersOK(s) && DispatchOK(s) && CallEnabled(cfg, s, x)
    ensures DispatchOK(Apply(cfg, s, Calling(x)))
  {
    var s' := Apply(cfg, s, Calling(x));
    CallLeaves(cfg, s, x);
    forall id | id in s'.c.chans ensures ChannelMoves(s, s', id) {
      CallMovesChannel(cfg, s, x, id);
    }
    DispatchStays(s, s');
  }

  /** What a call never touches. */
  lemma CallLeavesClient(cfg: Config, s: Sys, x: CallStep)
    requires CallEnabled(cfg, s, x)
    ensures var c' := CallClient(cfg, s, x);
            && c'.holding == s.c.holding && c'.cursor == s.c.cursor && s.c.chans.Keys <= c'.chans.Keys
            && c'.local == s.c.local && c'.peeks == s.c.peeks && c'.served == s.c.served
  {
  }

  lemma CallLeaves(cfg: Config, s: Sys, x: CallStep)
    requires CallEnabled(cfg, s, x)
    ensures var c', r' := CallClient(cfg, s, x), CallRedis(cfg, s, x);
            && c'.holding == s.c.holding && c'.cursor == s.c.cursor && s.c.chans.Keys <= c'.chans.Keys
            && c'.local == s.c.local && c'.peeks == s.c.peeks && c'.served == s.c.served
            && s.r.requests <= r'.requests && r' == s.r.(requests := r'.requests)
  {
    CallLeavesClient(cfg, s, x);
  }

  lemma DispatchMoves(s: Sys, x: DispatchStep)
    requires Correlated(s) && DispatchEnabled(s, x)
    ensures var s' := s.(c := DispatchClient(s, x));
            && HoldingMoves(s, s') && s'.c.chans.Keys == s.c.chans.Keys && s.c.cursor <= s'.c.cursor <= |s.r.responses|
            && s'.c == s.c.(chans := s'.c.chans, holding := s'.c.holding, cursor := s'.c.cursor)
            && forall id :: id in s'.c.chans ==> ChannelMoves(s, s', id)
  {
  }

  lemma DispatchKeepsCorrelated(cfg: Config, s: Sys, x: DispatchStep)
    requires Correlated(s) && DispatchEnabled(s, x)
    ensures Correlated(Apply(cfg, s, Dispatching(x)))
  {
    var s' := Apply(cfg, s, Dispatching(x));
    DispatchMoves(s, x);
    DispatchStays(s, s');
    ResultsStay(s, s');
  }

  lemma HandleLeaves(cfg: Config, s: Sys, x: HandleStep)
    requires HandleEnabled(cfg, s, x)
    ensures var r' := HandleRedis(cfg, s, x);
            && r'.requests == s.r.requests && s.r.responses <= r'.responses
            && s.resolved <= HandleResolved(cfg, s, x)
  {
  }

  lemma HandleKeepsCorrelated(cfg: Config, s: Sys, x: HandleStep)
    requires Correlated(s) && HandleEnabled(cfg, s, x)
    ensures Correlated(Apply(cfg, s, Handling(x)))
  {
    var s' := Apply(cfg, s, Handling(x));
    HandleLeaves(cfg, s, x);
    HandleKeepsHandlers(cfg, s, x);
    forall id | id in s'.c.chans ensures ChannelMoves(s, s', id) {}
    DispatchStays(s, s');
    ResultsStay(s, s');
  }

  lemma OtherKeepsCorrelated(cfg: Config, s: Sys, id: Id, name: string, qtype: QType)
    requires Correlated(s) && Unused(s, id)
    ensures Correlated(Apply(cfg, s, OtherSend(id, name, qtype)))
  {
    var s' := Apply(cfg, s, OtherSend(id, name, qtype));
    MoreRequests(s, s');
    forall k | k in s'.c.chans ensures ChannelMoves(s, s', k) {}
    DispatchStays(s, s');
    ResultsStay(s, s');
  }

  /** A response read under an ID answers the question that was asked under that ID. */
  lemma AnswersOwnCall(s: Sys, id: Id, p: Parcel)
    requires Correlated(s) && ReadBy(s, p) && p.resp.id == id && id in s.c.asked
    ensures s.c.asked[id] == Question(p.resp.name, p.resp.qtype)
  {
    var j :| 0 <= j < s.c.cursor && j < |s.r.responses| && s.r.responses[j] == p;
    assert Answers(p.resp, s.r.requests[p.src]);
  }

  /** Where a call's response comes from: its own channel, or it had it before. */
  lemma CallGets(cfg: Config, s: Sys, x: CallStep, id: Id)
    requires Correlated(s) && CallEnabled(cfg, s, x)
    requires id in CallClient(cfg, s, x).calls && HasGot(CallClient(cfg, s, x).calls[id])
    ensures var p := CallClient(cfg, s, x).calls[id].got.value; p.resp.id == id && ReadBy(s, p)
  {
    if x.Receive? && x.id == id {
      assert ChannelOK(s, id, s.c.chans[id]) && s.c.chans[id][0] in s.c.chans[id];
    }
  }

  lemma CallAnswers(cfg: Config, s: Sys, x: CallStep, a: Answer)
    requires Correlated(s) && CallEnabled(cfg, s, x) && a in CallClient(cfg, s, x).answers
    ensures AnswerOK(s, a)
  {
    if a !in s.c.answers {
      NewAnswer(cfg, s, x, a);
      AnswersOwnCall(s, x.id, a.parcel);
    } else {
      assert AnswerOK(s, a);
    }
  }

  lemma CallKeepsResults(cfg: Config, s: Sys, x: CallStep)
    requires Correlated(s) && CallEnabled(cfg, s, x)
    ensures ResultsOK(Apply(cfg, s, Calling(x)))
  {
    var s' := Apply(cfg, s, Calling(x));
    CallLeaves(cfg, s, x);
    SameReads(s, s');
    forall id | id in s'.c.calls && HasGot(s'.c.calls[id])
      ensures s'.c.calls[id].got.value.resp.id == id && ReadBy(s', s'.c.calls[id].got.value)
    {
      CallGets(cfg, s, x, id);
    }
    forall a | a in s'.c.answers ensures AnswerOK(s', a) {
      CallAnswers(cfg, s, x, a);
    }
  }

  lemma CallKeepsCorrelated(cfg: Config, s: Sys, x: CallStep)
    requires Correlated(s) && CallEnabled(cfg, s, x)
    ensures Correlated(Apply(cfg, s, Calling(x)))
  {
    CallKeepsCalls(cfg, s, x);
    CallKeepsRequests(cfg, s, x);
    CallLeaves(cfg, s, x);
    MoreRequests(s, Apply(cfg, s, Calling(x)));
    CallKeepsDispatch(cfg, s, x);
    CallKeepsResults(cfg, s, x);
  }

  lemma CacheLeavesCore(cfg: Config, s: Sys, x: CacheStep)
    requires CacheEnabled(cfg, s, x)
    ensures SameCore(s, Apply(cfg, s, Caching(x)))
  {
  }

  lemma PrefetchLeavesCore(cfg: Config, s: Sys, x: PrefetchStep)
    requires PrefetchEnabled(cfg, s, x)
    ensures SameCore(s, Apply(cfg, s, Prefetching(x)))
    ensures Apply(cfg, s, Prefetching(x)).c == s.c && Apply(cfg, s, Prefetching(x)).now == s.now
    ensures s.resolved <= Apply(cfg, s, Prefetching(x)).resolved
  {
  }

  lemma KeepsCorrelated(cfg: Config, s: Sys, step: Step)
    requires Correlated(s) && Enabled(cfg, s, step)
    ensures Correlated(Apply(cfg, s, step))
  {
    match step
    case Tick(_) => SameCoreKeepsCorrelated(s, Apply(cfg, s, step));
    case Calling(x) => CallKeepsCorrelated(cfg, s, x);
    case Caching(x) =>
      CacheLeavesCore(cfg, s, x);
      SameCoreKeepsCorrelated(s, Apply(cfg, s, step));
    case Dispatching(x) => DispatchKeepsCorrelated(cfg, s, x);
    case OtherSend(id, name, qtype) => OtherKeepsCorrelated(cfg, s, id, name, qtype);
    case Handling(x) => HandleKeepsCorrelated(cfg, s, x);
    case Prefetching(x) =>
      PrefetchLeavesCore(cfg, s, x);
      SameCoreKeepsCorrelated(s, Apply(cfg, s, step));
  }

  /** How a call can be answered: it has a response without an error and with an answer. */
  predicate Answerable(x: Call) { HasGot(x) && !x.got.value.resp.failed && x.got.value.resp.wire.Some? }

  /**
   The life of a call: opened, registered and about to send; given up, it waits no more and has nothing;
   unregistered, it leaves the wait table; and on its return it adds an answer exactly when it has one.
   */
  lemma CallLifecycle(cfg: Config, s: Sys, x: CallStep)
    requires CallsOK(s.c) && CallEnabled(cfg, s, x)
    ensures var c, c' := s.c, CallClient(cfg, s, x);
            match x
            case Ask(id, n, t) => id in c'.calls && c'.calls[id].Opened? && id !in c'.waits && c'.asked[id] == Question(n, t)
            case Register(id) => id in c'.waits && id in c'.unsent && id in c'.calls && c'.calls[id].Awaiting?
            case SendRequest(id) => id !in c'.unsent && c'.calls == c.calls
            case LoseRequest(id) => id !in c'.unsent && c'.calls == c.calls
            case Confirm(id) => c'.calls[id] == Awaiting(s.now + cfg.block, Some(s.now)) && id in c'.waits
            case GiveUp(id) => c'.calls[id].Finishing? && c'.calls[id].got.None? && id in c'.waits
            case Receive(id) => c'.calls[id].Finishing? && c'.calls[id].got == Some(c.chans[id][0]) && id in c'.waits
            case Unregister(id) => c'.calls[id].Leaving? && c'.calls[id].got == c.calls[id].got && id !in c'.waits
            case Return(id) => id !in c'.calls && (c'.answers == c.answers || Answerable(c.calls[id]))
    ensures x.Return? && Answerable(s.c.calls[x.id]) ==>
              exists a :: a in CallClient(cfg, s, x).answers && a.parcel == s.c.calls[x.id].got.value
  {
    if x.Return? && Answerable(s.c.calls[x.id]) {
      var y, q := s.c.calls[x.id], s.c.asked[x.id];
      assert Answer(q.name, q.qtype, y.got.value.resp.wire.value, y.got.value, y.at, y.confirmed) in CallClient(cfg, s, x).answers;
    }
  }

  /** One more step of a run. */
  lemma Then(cfg: Config, steps: seq<Step>, s: Sys, step: Step)
    requires Exec(cfg, steps) == Some(s) && Enabled(cfg, s, step)
    ensures Exec(cfg, steps + [step]) == Some(Apply(cfg, s, step))
  {
    assert (steps + [step])[..|steps|] == steps;
  }

  lemma {:induction false} ReachableCorrelated(cfg: Config, steps: seq<Step>)
    ensures Exec(cfg, steps).Some? ==> Correlated(Exec(cfg, steps).value)
  {
    if steps != [] && Exec(cfg, steps).Some? {
      var init, step := steps[..|steps| - 1], steps[|steps| - 1];
      ReachableCorrelated(cfg, init);
      KeepsCorrelated(cfg, Exec(cfg, init).value, step);
    }
  }

  /**
   In every run: the wait table holds exactly the calls that have registered and not yet unregistered;
   no two responses on the stream carry one ID, whichever client asked; a call that leaves its select
   with a response has its own; and the dispatcher's send never blocks, even when the caller gave up and
   unregistered between the lookup and the send.
   */
  lemma Correlation(cfg: Config, steps: seq<Step>)
    requires Exec(cfg, steps).Some?
    ensures var s := Exec(cfg, steps).value;
            && (forall id :: id in s.c.waits <==> id in s.c.calls && Registered(s.c.calls[id]))
            && (forall i, j :: 0 <= i < j < |s.r.responses| ==>
                  s.r.responses[i].resp.id != s.r.responses[j].resp.id)
            && (forall id :: id in s.c.calls && HasGot(s.c.calls[id]) ==>
                  var resp := s.c.calls[id].got.value.resp;
                  resp.id == id && id in s.c.asked && s.c.asked[id] == Question(resp.name, resp.qtype))
            && (s.c.holding.Some? ==> Enabled(cfg, s, Dispatching(Deliver)))
  {
    ReachableCorrelated(cfg, steps);
    var s := Exec(cfg, steps).value;
    if s.c.holding.Some? {
      RoomToSend(s);
    }
    forall id | id in s.c.calls && HasGot(s.c.calls[id])
      ensures var resp := s.c.calls[id].got.value.resp;
              resp.id == id && id in s.c.asked && s.c.asked[id] == Question(resp.name, resp.qtype)
    {
      AnswersOwnCall(s, id, s.c.calls[id].got.value);
    }
    forall i, j | 0 <= i < j < |s.r.responses|
      ensures s.r.responses[i].resp.id != s.r.responses[j].resp.id
    {
      OneIdEach(s, i, j);
    }
  }

  lemma OneIdEach(s: Sys, i: nat, j: nat)
    requires RequestsOK(s) && HandlersOK(s) && i < j < |s.r.responses|
    ensures s.r.responses[i].resp.id != s.r.responses[j].resp.id
  {
    var a, b := s.r.responses[i].src, s.r.responses[j].src;
    assert Answers(s.r.responses[i].resp, s.r.requests[a]) && Answers(s.r.responses[j].resp, s.r.requests[b]);
    assert a != b;
    assert if a < b then s.r.requests[a].id != s.r.requests[b].id else s.r.requests[b].id != s.r.requests[a].id;
  }

  // ---------------------------------------------------------------------------
  // How long a response can travel
  // ---------------------------------------------------------------------------

  /** How long one select can take, from when its timer is armed. */
  function Wait(cfg: Config): nat { cfg.block + cfg.slack }

  /** A response is taken within one wait of registering, or of a confirmation that came within one. */
  predicate TakenOnTime(cfg: Config, since: int, at: int, confirmed: Option<int>) {
    match confirmed
    case None => at <= since + Wait(cfg)
    case Some(t) => t <= since + Wait(cfg) && at <= t + Wait(cfg)
  }

  predicate CallOnTime(cfg: Config, since: int, x: Call) {
    match x
    case Opened => true
    case Awaiting(deadline, confirmed) => TakenOnTime(cfg, since, deadline + cfg.slack, confirmed)
    case Finishing(got, at, confirmed) => got.Some? ==> TakenOnTime(cfg, since, at, confirmed)
    case Leaving(got, at, confirmed) => got.Some? ==> TakenOnTime(cfg, since, at, confirmed)
  }

  predicate AnswerOnTime(cfg: Config, since: map<Id, int>, a: Answer) {
    a.parcel.resp.id in since && TakenOnTime(cfg, since[a.parcel.resp.id], a.takenAt, a.confirmed)
  }

  /** Every call that leaves its select with a response does so on time. */
  ghost predicate CallsOnTime(cfg: Config, s: Sys) {
    && (forall id :: id in s.c.since ==> s.c.since[id] <= s.now)
    && (forall id :: id in s.c.calls && id in s.c.since ==> CallOnTime(cfg, s.c.since[id], s.c.calls[id]))
    && (forall a :: a in s.c.answers ==> AnswerOnTime(cfg, s.c.since, a))
  }

  predicate ParcelLater(since: map<Id, int>, p: Parcel) { p.resp.id in since ==> since[p.resp.id] <= p.readAt }

  predicate HandlerLater(since: map<Id, int>, x: Handler) {
    match x
    case Picked(_) => true
    case Missed(_) => true
    case Fetched(q, _, at) => q.id in since ==> since[q.id] <= at
    case Stored(q, _, at) => q.id in since ==> since[q.id] <= at
    case Outbound(p) => ParcelLater(since, p)
  }

  /** The answer to a call was read after the call registered. */
  ghost predicate ReadLater(s: Sys) {
    && (forall h :: h in s.v.handlers ==> HandlerLater(s.c.since, s.v.handlers[h]))
    && (forall j :: 0 <= j < |s.r.responses| ==> ParcelLater(s.c.since, s.r.responses[j]))
  }

  lemma OtherCallsStay(cfg: Config, s: Sys, x: CallStep, id: Id)
    requires CallEnabled(cfg, s, x) && id != x.id
    ensures var c' := CallClient(cfg, s, x);
            && (id in c'.calls <==> id in s.c.calls) && (id in s.c.calls ==> c'.calls[id] == s.c.calls[id])
            && (id in c'.since <==> id in s.c.since) && (id in s.c.since ==> c'.since[id] == s.c.since[id])
  {
  }

  lemma OwnCallOnTime(cfg: Config, s: Sys, x: CallStep)
    requires CallsOK(s.c) && CallsOnTime(cfg, s) && CallEnabled(cfg, s, x)
    requires x.id in CallClient(cfg, s, x).calls && x.id in CallClient(cfg, s, x).since
    ensures CallOnTime(cfg, CallClient(cfg, s, x).since[x.id], CallClient(cfg, s, x).calls[x.id])
  {
    if x.id in s.c.calls && x.id in s.c.since {
      assert CallOnTime(cfg, s.c.since[x.id], s.c.calls[x.id]);
    }
  }

  lemma CallMovesOnTime(cfg: Config, s: Sys, x: CallStep, id: Id)
    requires CallsOK(s.c) && CallsOnTime(cfg, s) && CallEnabled(cfg, s, x)
    requires id in CallClient(cfg, s, x).calls && id in CallClient(cfg, s, x).since
    ensures CallOnTime(cfg, CallClient(cfg, s, x).since[id], CallClient(cfg, s, x).calls[id])
  {
    if id == x.id {
      OwnCallOnTime(cfg, s, x);
    } else {
      OtherCallsStay(cfg, s, x, id);
    }
  }

  /** Only a return adds an answer, and it is what the call left its select with. */
  lemma NewAnswer(cfg: Config, s: Sys, x: CallStep, a: Answer)
    requires CallEnabled(cfg, s, x) && a in CallClient(cfg, s, x).answers && a !in s.c.answers
    ensures x.Return? && x.id in s.c.calls && HasGot(s.c.calls[x.id])
    ensures a.parcel == s.c.calls[x.id].got.value && a.takenAt == s.c.calls[x.id].at && x.id in s.c.asked
    ensures a.confirmed == s.c.calls[x.id].confirmed
    ensures a.parcel.resp.wire == Some(a.wire) && s.c.asked[x.id] == Question(a.name, a.qtype)
  {
  }

  lemma ReturnOnTime(cfg: Config, s: Sys, x: CallStep, a: Answer)
    requires CallsOK(s.c) && ResultsOK(s) && CallsOnTime(cfg, s) && CallEnabled(cfg, s, x)
    requires a in CallClient(cfg, s, x).answers
    ensures AnswerOnTime(cfg, s.c.since, a)
  {
    if a !in s.c.answers {
      NewAnswer(cfg, s, x, a);
      assert CallOnTime(cfg, s.c.since[x.id], s.c.calls[x.id]);
    }
  }

  lemma SinceGrows(cfg: Config, s: Sys, x: CallStep)
    requires CallsOK(s.c) && CallEnabled(cfg, s, x)
    ensures forall id :: id in s.c.since ==> id in CallClient(cfg, s, x).since && CallClient(cfg, s, x).since[id] == s.c.since[id]
    ensures forall id :: id in CallClient(cfg, s, x).since && id !in s.c.since ==> CallClient(cfg, s, x).since[id] == s.now
  {
  }

  lemma CallKeepsOnTime(cfg: Config, s: Sys, x: CallStep)
    requires Correlated(s) && CallsOnTime(cfg, s) && CallEnabled(cfg, s, x)
    ensures CallsOnTime(cfg, Apply(cfg, s, Calling(x)))
  {
    var c' := CallClient(cfg, s, x);
    SinceGrows(cfg, s, x);
    forall id | id in c'.calls && id in c'.since ensures CallOnTime(cfg, c'.since[id], c'.calls[id]) {
      CallMovesOnTime(cfg, s, x, id);
    }
    forall a | a in c'.answers ensures AnswerOnTime(cfg, c'.since, a) {
      ReturnOnTime(cfg, s, x, a);
    }
  }

  /** Time passes, and nothing that these bounds are about changes. */
  lemma SameCoreKeepsOnTime(cfg: Config, s: Sys, s': Sys)
    requires CallsOnTime(cfg, s) && ReadLater(s) && SameCore(s, s') && s.now <= s'.now
    ensures CallsOnTime(cfg, s') && ReadLater(s')
  {
  }

  lemma DispatchKeepsOnTime(cfg: Config, s: Sys, x: DispatchStep)
    requires CallsOnTime(cfg, s) && ReadLater(s) && DispatchEnabled(s, x)
    ensures CallsOnTime(cfg, Apply(cfg, s, Dispatching(x))) && ReadLater(Apply(cfg, s, Dispatching(x)))
  {
    var c' := DispatchClient(s, x);
    assert c'.since == s.c.since && c'.calls == s.c.calls && c'.answers == s.c.answers;
  }

  /** A call that registers now has sent nothing yet, so nobody can have answered it. */
  lemma RegisterIsNew(cfg: Config, s: Sys, id: Id)
    requires Correlated(s) && CallEnabled(cfg, s, Register(id))
    ensures forall i :: 0 <= i < |s.r.requests| ==> s.r.requests[i].id != id
  {
  }

  lemma CallKeepsReadLater(cfg: Config, s: Sys, x: CallStep)
    requires Correlated(s) && ReadLater(s) && CallEnabled(cfg, s, x)
    ensures ReadLater(Apply(cfg, s, Calling(x)))
  {
    if x.Register? {
      RegisterIsNew(cfg, s, x.id);
      forall h | h in s.v.handlers ensures HandlerLater(s.c.since[x.id := s.now], s.v.handlers[h]) {
        assert HandlerLater(s.c.since, s.v.handlers[h]) && HandlerFor(s.v.handlers[h], s.r.requests[h], h);
      }
      forall j | 0 <= j < |s.r.responses| ensures ParcelLater(s.c.since[x.id := s.now], s.r.responses[j]) {
        assert Answers(s.r.responses[j].resp, s.r.requests[s.r.responses[j].src]);
      }
    } else {
      assert CallClient(cfg, s, x).since == s.c.since;
    }
  }

  lemma HandleKeepsReadLater(cfg: Config, s: Sys, x: HandleStep)
    requires CallsOnTime(cfg, s) && ReadLater(s) && HandleEnabled(cfg, s, x)
    ensures ReadLater(Apply(cfg, s, Handling(x)))
  {
    if !x.Pick? {
      assert HandlerLater(s.c.since, s.v.handlers[x.h]);
    }
  }

  lemma KeepsOnTime(cfg: Config, s: Sys, step: Step)
    requires Correlated(s) && CallsOnTime(cfg, s) && ReadLater(s) && Enabled(cfg, s, step)
    ensures CallsOnTime(cfg, Apply(cfg, s, step)) && ReadLater(Apply(cfg, s, step))
  {
    match step
    case Tick(_) => SameCoreKeepsOnTime(cfg, s, Apply(cfg, s, step));
    case Calling(x) =>
      CallKeepsOnTime(cfg, s, x);
      CallKeepsReadLater(cfg, s, x);
    case Caching(x) =>
      CacheLeavesCore(cfg, s, x);
      SameCoreKeepsOnTime(cfg, s, Apply(cfg, s, step));
    case Dispatching(x) => DispatchKeepsOnTime(cfg, s, x);
    case OtherSend(_, _, _) =>
    case Handling(x) => HandleKeepsReadLater(cfg, s, x);
    case Prefetching(x) =>
      PrefetchLeavesCore(cfg, s, x);
      SameCoreKeepsOnTime(cfg, s, Apply(cfg, s, step));
  }

  lemma {:induction false} ReachableOnTime(cfg: Config, steps: seq<Step>)
    ensures Exec(cfg, steps).Some? ==> CallsOnTime(cfg, Exec(cfg, steps).value) && ReadLater(Exec(cfg, steps).value)
  {
    if steps != [] && Exec(cfg, steps).Some? {
      var init, step := steps[..|steps| - 1], steps[|steps| - 1];
      ReachableOnTime(cfg, init);
      ReachableCorrelated(cfg, init);
      KeepsOnTime(cfg, Exec(cfg, init).value, step);
    }
  }

  /**
   In every run a call that returns an answer took it within one wait of registering or, if its request
   was confirmed, within one wait of that confirmation, which itself came within one of registering; so
   within two waits at most.
   */
  lemma CallTakesTwoWaits(cfg: Config, steps: seq<Step>, a: Answer)
    requires Exec(cfg, steps).Some? && a in Exec(cfg, steps).value.c.answers
    ensures var since := Exec(cfg, steps).value.c.since;
            && a.parcel.resp.id in since
            && var t := since[a.parcel.resp.id];
               && TakenOnTime(cfg, t, a.takenAt, a.confirmed)
               && a.takenAt <= t + 2 * (cfg.block + cfg.slack)
  {
    ReachableOnTime(cfg, steps);
    assert AnswerOnTime(cfg, Exec(cfg, steps).value.c.since, a);
  }

  /** The longest way of a response: two waits of the caller, and the lag before its local write. */
  function Trip(cfg: Config): nat { 2 * Wait(cfg) + cfg.lag }

  /** Whatever was received was read no longer ago than the caller could wait. */
  lemma TripBound(cfg: Config, s: Sys, a: Answer)
    requires Correlated(s) && CallsOnTime(cfg, s) && ReadLater(s) && CacheEnabled(cfg, s, Reply(a))
    ensures s.now <= a.parcel.readAt + Trip(cfg)
  {
    var j :| 0 <= j < s.c.cursor && j < |s.r.responses| && s.r.responses[j] == a.parcel;
    assert ParcelLater(s.c.since, s.r.responses[j]) && AnswerOnTime(cfg, s.c.since, a);
  }

  // ---------------------------------------------------------------------------
  // Provenance and staleness
  // ---------------------------------------------------------------------------

  /** The resolver returned this message for this very question, at or after `since`. */
  ghost predicate Backed(resolved: set<Resolution>, name: string, qtype: QType, m: Msg, since: int) {
    exists x :: x in resolved && x.name == name && x.qtype == qtype && x.msg == m && since <= x.at
  }

  /** The age an answer can have when it is read for a response. */
  function ReadAge(cfg: Config, m: Msg): int { cfg.CacheLife(m) + cfg.setDelay }

  /** The age an answer can have when the client stores it, from a response or from a published update. */
  function ArrivalAge(cfg: Config, m: Msg): int {
    var asked := Trip(cfg) + ReadAge(cfg, m);
    if cfg.pushDelay > asked then cfg.pushDelay else asked
  }

  /** The age an answer can have when its local entry expires. */
  function LocalAge(cfg: Config, m: Msg): int { cfg.LocalLife(m) + ArrivalAge(cfg, m) }

  ghost predicate ParcelFresh(cfg: Config, resolved: set<Resolution>, p: Parcel) {
    p.resp.wire.Some? ==>
      Backed(resolved, p.resp.name, p.resp.qtype, p.resp.wire.value, p.readAt - ReadAge(cfg, p.resp.wire.value))
  }

  ghost predicate CacheFresh(cfg: Config, s: Sys) {
    forall n: string, t: QType :: CacheKey(n, t) in s.r.cache ==>
      var x := s.r.cache[CacheKey(n, t)];
      Backed(s.resolved, n, t, x.wire, x.expireAt - ReadAge(cfg, x.wire))
  }

  ghost predicate LocalFresh(cfg: Config, resolved: set<Resolution>, local: Cache) {
    forall n: string, t: QType :: CacheKey(n, t) in local ==>
      var e := local[CacheKey(n, t)];
      Backed(resolved, n, t, e.wire, e.expire - LocalAge(cfg, e.wire))
  }

  ghost predicate HandlerFresh(cfg: Config, resolved: set<Resolution>, x: Handler) {
    match x
    case Picked(_) => true
    case Missed(_) => true
    case Fetched(q, m, at) => Backed(resolved, q.name, q.qtype, m, at)
    case Stored(q, m, at) => Backed(resolved, q.name, q.qtype, m, at)
    case Outbound(p) => ParcelFresh(cfg, resolved, p)
  }

  ghost predicate ServerFresh(cfg: Config, s: Sys) {
    && (forall h :: h in s.v.handlers ==> HandlerFresh(cfg, s.resolved, s.v.handlers[h]))
    && (forall p :: p in s.v.prefetches ==>
          var f := s.v.prefetches[p];
          Backed(s.resolved, f.name, f.qtype, f.msg, f.at))
  }

  ghost predicate StreamsFresh(cfg: Config, s: Sys) {
    && (forall j :: 0 <= j < |s.r.responses| ==> ParcelFresh(cfg, s.resolved, s.r.responses[j]))
    && (forall i :: 0 <= i < |s.r.updates| ==>
          var u := s.r.updates[i];
          Backed(s.resolved, u.upd.name, u.upd.qtype, u.upd.wire, u.bornAt))
  }

  ghost predicate PeeksFresh(cfg: Config, s: Sys) {
    forall rid :: rid in s.c.peeks ==>
      var q := s.c.peeks[rid];
      Backed(s.resolved, q.name, q.qtype, q.e.wire, q.e.expire - LocalAge(cfg, q.e.wire))
  }

  /** The oldest an answer can be when it is served. */
  function ServedAge(cfg: Config, x: Served): int {
    if x.fromLocal then LocalAge(cfg, x.wire) else Trip(cfg) + ReadAge(cfg, x.wire)
  }

  ghost predicate ServedOK(cfg: Config, resolved: set<Resolution>, x: Served) {
    Backed(resolved, x.name, x.qtype, x.wire, x.at - ServedAge(cfg, x))
  }

  ghost predicate ServedFresh(cfg: Config, s: Sys) {
    forall i :: 0 <= i < |s.c.served| ==> ServedOK(cfg, s.resolved, s.c.served[i])
  }

  ghost predicate Fresh(cfg: Config, s: Sys) {
    && CacheFresh(cfg, s) && LocalFresh(cfg, s.resolved, s.c.local) && ServerFresh(cfg, s)
    && StreamsFresh(cfg, s) && PeeksFresh(cfg, s) && ServedFresh(cfg, s)
  }

  lemma BackedStays(a: set<Resolution>, b: set<Resolution>, n: string, t: QType, m: Msg, since: int, later: int)
    requires Backed(a, n, t, m, later) && a <= b && since <= later
    ensures Backed(b, n, t, m, since)
  {
    var x :| x in a && x.name == n && x.qtype == t && x.msg == m && later <= x.at;
    assert x in b;
  }

  lemma AllBackedStays(a: set<Resolution>, b: set<Resolution>)
    requires a <= b
    ensures forall n, t, m, since :: Backed(a, n, t, m, since) ==> Backed(b, n, t, m, since)
  {
    forall n, t, m, since | Backed(a, n, t, m, since) ensures Backed(b, n, t, m, since) {
      BackedStays(a, b, n, t, m, since, since);
    }
  }

  /** A cache write of a backed answer keeps the cache backed, since keys are injective. */
  lemma CacheWriteFresh(cfg: Config, s: Sys, resolved: set<Resolution>, name: string, qtype: QType, m: Msg, at: int)
    requires CacheFresh(cfg, s) && s.resolved <= resolved
    requires Backed(resolved, name, qtype, m, at) && s.now <= at + cfg.setDelay
    ensures var cache := CacheWrite(cfg, s.r.cache, name, qtype, m, s.now);
            forall n: string, t: QType :: CacheKey(n, t) in cache ==>
              var x := cache[CacheKey(n, t)];
              Backed(resolved, n, t, x.wire, x.expireAt - ReadAge(cfg, x.wire))
  {
    var cache := CacheWrite(cfg, s.r.cache, name, qtype, m, s.now);
    forall n: string, t: QType | CacheKey(n, t) in cache
      ensures var x := cache[CacheKey(n, t)];
              Backed(resolved, n, t, x.wire, x.expireAt - ReadAge(cfg, x.wire))
    {
      var x := cache[CacheKey(n, t)];
      if CacheKey(n, t) == CacheKey(name, qtype) && cfg.CacheLife(m) > 0 {
        CacheKeyInjective(n, t, name, qtype);
        BackedStays(resolved, resolved, n, t, m, x.expireAt - ReadAge(cfg, m), at);
      } else {
        BackedStays(s.resolved, resolved, n, t, x.wire, x.expireAt - ReadAge(cfg, x.wire), x.expireAt - ReadAge(cfg, x.wire));
      }
    }
  }

  /** Likewise for a local write of an answer that was resolved at or after `born`. */
  lemma LocalWriteFresh(cfg: Config, resolved: set<Resolution>, local: Cache, now: int, name: string, qtype: QType, m: Msg, stamp: int, born: int)
    requires LocalFresh(cfg, resolved, local)
    requires Backed(resolved, name, qtype, m, born) && now <= born + ArrivalAge(cfg, m)
    ensures LocalFresh(cfg, resolved, LocalWrite(cfg, local, name, qtype, m, stamp, now))
  {
    var local' := LocalWrite(cfg, local, name, qtype, m, stamp, now);
    forall n: string, t: QType | CacheKey(n, t) in local'
      ensures var e := local'[CacheKey(n, t)];
              Backed(resolved, n, t, e.wire, e.expire - LocalAge(cfg, e.wire))
    {
      if CacheKey(n, t) == CacheKey(name, qtype) {
        CacheKeyInjective(n, t, name, qtype);
        BackedStays(resolved, resolved, n, t, m, now + cfg.LocalLife(m) - LocalAge(cfg, m), born);
      }
    }
  }

  lemma LocalShrinkFresh(cfg: Config, resolved: set<Resolution>, local: Cache, resolved': set<Resolution>, local': Cache)
    requires LocalFresh(cfg, resolved, local) && resolved <= resolved'
    requires forall k :: k in local' ==> k in local && local'[k] == local[k]
    ensures LocalFresh(cfg, resolved', local')
  {
    AllBackedStays(resolved, resolved');
  }

  lemma HandleKeepsCacheFresh(cfg: Config, s: Sys, x: HandleStep)
    requires CacheFresh(cfg, s) && ServerFresh(cfg, s) && HandleEnabled(cfg, s, x)
    ensures CacheFresh(cfg, Apply(cfg, s, Handling(x)))
  {
    AllBackedStays(s.resolved, HandleResolved(cfg, s, x));
    match x
    case StoreAnswer(h, true) =>
      var f := s.v.handlers[h];
      assert HandlerFresh(cfg, s.resolved, f);
      CacheWriteFresh(cfg, s, s.resolved, f.req.name, f.req.qtype, f.msg, f.at);
    case _ =>
      assert HandleRedis(cfg, s, x).cache == s.r.cache;
  }

  lemma PrefetchKeepsCacheFresh(cfg: Config, s: Sys, x: PrefetchStep)
    requires CacheFresh(cfg, s) && ServerFresh(cfg, s) && PrefetchEnabled(cfg, s, x)
    ensures CacheFresh(cfg, PrefetchApply(cfg, s, x))
  {
    AllBackedStays(s.resolved, PrefetchApply(cfg, s, x).resolved);
    match x
    case PrefetchStore(p, true) =>
      var f := s.v.prefetches[p];
      CacheWriteFresh(cfg, s, s.resolved, f.name, f.qtype, f.msg, f.at);
    case _ =>
      assert PrefetchApply(cfg, s, x).r.cache == s.r.cache;
  }

  /** A cached answer that is still live was resolved recently enough to be read now. */
  lemma HitIsFresh(cfg: Config, s: Sys, h: nat)
    requires CacheFresh(cfg, s) && HandleEnabled(cfg, s, CacheHit(h))
    ensures ParcelFresh(cfg, s.resolved, HitParcel(cfg, s, h))
  {
    var q := s.v.handlers[h].req;
    var x := s.r.cache[CacheKey(q.name, q.qtype)];
    BackedStays(s.resolved, s.resolved, q.name, q.qtype, x.wire, s.now - ReadAge(cfg, x.wire), x.expireAt - ReadAge(cfg, x.wire));
  }

  lemma FreshParcelIsFresh(cfg: Config, resolved: set<Resolution>, q: Request, m: Msg, at: int, h: nat)
    requires Backed(resolved, q.name, q.qtype, m, at)
    ensures ParcelFresh(cfg, resolved, FreshParcel(q, m, at, h))
  {
    LifetimeCeilings(cfg.cacheTTL, cfg.negTTL, m);
    BackedStays(resolved, resolved, q.name, q.qtype, m, at - ReadAge(cfg, m), at);
  }

  /** The handler that moves is backed by what it just read or fetched. */
  lemma HandlerMovesFresh(cfg: Config, s: Sys, x: HandleStep)
    requires CacheFresh(cfg, s) && ServerFresh(cfg, s) && HandleEnabled(cfg, s, x) && !x.Pick? && !x.SendResponse?
    ensures HandlerFresh(cfg, HandleResolved(cfg, s, x), HandleServer(cfg, s, x).handlers[x.h])
  {
    var f := s.v.handlers[x.h];
    assert HandlerFresh(cfg, s.resolved, f);
    match x
    case CacheHit(h) => HitIsFresh(cfg, s, h);
    case Fetch(h, got) =>
      if got.Some? {
        assert Resolution(f.req.name, f.req.qtype, got.value, s.now) in HandleResolved(cfg, s, x);
      }
    case PublishAnswer(h) => FreshParcelIsFresh(cfg, s.resolved, f.req, f.msg, f.at, h);
    case _ =>
  }

  lemma HandlerStaysFresh(cfg: Config, a: set<Resolution>, b: set<Resolution>, x: Handler)
    requires HandlerFresh(cfg, a, x) && a <= b
    ensures HandlerFresh(cfg, b, x)
  {
    AllBackedStays(a, b);
  }

  lemma HandleKeepsServerFresh(cfg: Config, s: Sys, x: HandleStep)
    requires CacheFresh(cfg, s) && ServerFresh(cfg, s) && HandleEnabled(cfg, s, x)
    ensures ServerFresh(cfg, Apply(cfg, s, Handling(x)))
  {
    var v', resolved := HandleServer(cfg, s, x), HandleResolved(cfg, s, x);
    AllBackedStays(s.resolved, resolved);
    forall h | h in v'.handlers ensures HandlerFresh(cfg, resolved, v'.handlers[h]) {
      if !x.Pick? && !x.SendResponse? && x.h == h {
        HandlerMovesFresh(cfg, s, x);
      } else if h in s.v.handlers && v'.handlers[h] == s.v.handlers[h] {
        HandlerStaysFresh(cfg, s.resolved, resolved, s.v.handlers[h]);
      }
    }
  }

  lemma PrefetchKeepsServerFresh(cfg: Config, s: Sys, x: PrefetchStep)
    requires ServerFresh(cfg, s) && PrefetchEnabled(cfg, s, x)
    ensures ServerFresh(cfg, PrefetchApply(cfg, s, x))
  {
    var s' := PrefetchApply(cfg, s, x);
    AllBackedStays(s.resolved, s'.resolved);
    forall h | h in s'.v.handlers ensures HandlerFresh(cfg, s'.resolved, s'.v.handlers[h]) {
      HandlerStaysFresh(cfg, s.resolved, s'.resolved, s.v.handlers[h]);
    }
    if x.PrefetchFetch? {
      assert Resolution(x.name, x.qtype, x.msg, s.now) in s'.resolved;
    }
  }

  lemma HandleKeepsStreamsFresh(cfg: Config, s: Sys, x: HandleStep)
    requires ServerFresh(cfg, s) && StreamsFresh(cfg, s) && HandleEnabled(cfg, s, x)
    ensures StreamsFresh(cfg, Apply(cfg, s, Handling(x)))
  {
    AllBackedStays(s.resolved, HandleResolved(cfg, s, x));
    if !x.Pick? {
      assert HandlerFresh(cfg, s.resolved, s.v.handlers[x.h]);
    }
  }

  lemma PrefetchKeepsStreamsFresh(cfg: Config, s: Sys, x: PrefetchStep)
    requires ServerFresh(cfg, s) && StreamsFresh(cfg, s) && PrefetchEnabled(cfg, s, x)
    ensures StreamsFresh(cfg, PrefetchApply(cfg, s, x))
  {
    AllBackedStays(s.resolved, PrefetchApply(cfg, s, x).resolved);
  }

  /** An answer that was received is backed, because the stream entry it came from is. */
  lemma AnswerIsFresh(cfg: Config, s: Sys, a: Answer)
    requires ResultsOK(s) && StreamsFresh(cfg, s) && a in s.c.answers
    ensures Backed(s.resolved, a.name, a.qtype, a.wire, a.parcel.readAt - ReadAge(cfg, a.wire))
  {
    assert AnswerOK(s, a);
    var j :| 0 <= j < s.c.cursor && j < |s.r.responses| && s.r.responses[j] == a.parcel;
    assert ParcelFresh(cfg, s.resolved, s.r.responses[j]);
  }

  lemma ReplyKeepsLocalFresh(cfg: Config, s: Sys, a: Answer)
    requires Correlated(s) && CallsOnTime(cfg, s) && ReadLater(s) && Fresh(cfg, s) && CacheEnabled(cfg, s, Reply(a))
    ensures LocalFresh(cfg, s.resolved, LocalWrite(cfg, s.c.local, a.name, a.qtype, a.wire, a.parcel.resp.resolvedAt, s.now))
  {
    AnswerIsFresh(cfg, s, a);
    TripBound(cfg, s, a);
    LocalWriteFresh(cfg, s.resolved, s.c.local, s.now, a.name, a.qtype, a.wire, a.parcel.resp.resolvedAt,
                    a.parcel.readAt - ReadAge(cfg, a.wire));
  }

  lemma WarmKeepsLocalFresh(cfg: Config, s: Sys, i: nat)
    requires Fresh(cfg, s) && CacheEnabled(cfg, s, Warm(i))
    ensures var u := s.r.updates[i].upd;
            LocalFresh(cfg, s.resolved, LocalWrite(cfg, s.c.local, u.name, u.qtype, u.wire, u.resolvedAt, s.now))
  {
    var u := s.r.updates[i].upd;
    LocalWriteFresh(cfg, s.resolved, s.c.local, s.now, u.name, u.qtype, u.wire, u.resolvedAt, s.r.updates[i].bornAt);
  }

  lemma CacheKeepsLocalFresh(cfg: Config, s: Sys, x: CacheStep)
    requires Correlated(s) && CallsOnTime(cfg, s) && ReadLater(s) && Fresh(cfg, s) && CacheEnabled(cfg, s, x)
    ensures LocalFresh(cfg, s.resolved, CacheClient(cfg, s, x).local)
  {
    match x
    case Reply(a) => ReplyKeepsLocalFresh(cfg, s, a);
    case Warm(i) => WarmKeepsLocalFresh(cfg, s, i);
    case _ => LocalShrinkFresh(cfg, s.resolved, s.c.local, s.resolved, CacheClient(cfg, s, x).local);
  }

  /** A new peek is of a local entry. */
  lemma PeeksMove(cfg: Config, s: Sys, x: CacheStep, rid: nat)
    requires CacheEnabled(cfg, s, x) && rid in CacheClient(cfg, s, x).peeks
    ensures var q := CacheClient(cfg, s, x).peeks[rid];
            || (rid in s.c.peeks && q == s.c.peeks[rid])
            || (CacheKey(q.name, q.qtype) in s.c.local && q.e == s.c.local[CacheKey(q.name, q.qtype)])
  {
  }

  lemma CacheKeepsPeeksFresh(cfg: Config, s: Sys, x: CacheStep)
    requires PeeksFresh(cfg, s) && LocalFresh(cfg, s.resolved, s.c.local) && CacheEnabled(cfg, s, x)
    ensures PeeksFresh(cfg, s.(c := CacheClient(cfg, s, x)))
  {
    var c' := CacheClient(cfg, s, x);
    forall rid | rid in c'.peeks
      ensures Backed(s.resolved, c'.peeks[rid].name, c'.peeks[rid].qtype, c'.peeks[rid].e.wire,
                     c'.peeks[rid].e.expire - LocalAge(cfg, c'.peeks[rid].e.wire))
    {
      PeeksMove(cfg, s, x, rid);
    }
  }

  lemma ReplyServesFresh(cfg: Config, s: Sys, a: Answer)
    requires Correlated(s) && CallsOnTime(cfg, s) && ReadLater(s) && Fresh(cfg, s) && CacheEnabled(cfg, s, Reply(a))
    ensures ServedOK(cfg, s.resolved, Served(a.name, a.qtype, a.wire, s.now, false))
  {
    AnswerIsFresh(cfg, s, a);
    TripBound(cfg, s, a);
    BackedStays(s.resolved, s.resolved, a.name, a.qtype, a.wire,
                s.now - Trip(cfg) - ReadAge(cfg, a.wire), a.parcel.readAt - ReadAge(cfg, a.wire));
  }

  lemma ConcludeServesFresh(cfg: Config, s: Sys, rid: nat)
    requires PeeksFresh(cfg, s) && CacheEnabled(cfg, s, Conclude(rid)) && s.now <= s.c.peeks[rid].e.expire
    ensures var q := s.c.peeks[rid]; ServedOK(cfg, s.resolved, Served(q.name, q.qtype, q.e.wire, s.now, true))
  {
    var q := s.c.peeks[rid];
    BackedStays(s.resolved, s.resolved, q.name, q.qtype, q.e.wire,
                s.now - LocalAge(cfg, q.e.wire), q.e.expire - LocalAge(cfg, q.e.wire));
  }

  lemma CacheKeepsServedFresh(cfg: Config, s: Sys, x: CacheStep)
    requires Correlated(s) && CallsOnTime(cfg, s) && ReadLater(s) && Fresh(cfg, s) && CacheEnabled(cfg, s, x)
    ensures ServedFresh(cfg, s.(c := CacheClient(cfg, s, x)))
  {
    match x
    case Reply(a) => ReplyServesFresh(cfg, s, a);
    case Conclude(rid) =>
      if s.now <= s.c.peeks[rid].e.expire {
        ConcludeServesFresh(cfg, s, rid);
      }
    case _ =>
      assert CacheClient(cfg, s, x).served == s.c.served;
  }

  /** The client's own copies stay backed as resolutions are added and nothing else changes. */
  lemma ClientStaysFresh(cfg: Config, s: Sys, s': Sys)
    requires LocalFresh(cfg, s.resolved, s.c.local) && PeeksFresh(cfg, s) && ServedFresh(cfg, s)
    requires s'.c == s.c && s.resolved <= s'.resolved
    ensures LocalFresh(cfg, s'.resolved, s'.c.local) && PeeksFresh(cfg, s') && ServedFresh(cfg, s')
  {
    AllBackedStays(s.resolved, s'.resolved);
    forall i | 0 <= i < |s'.c.served| ensures ServedOK(cfg, s'.resolved, s'.c.served[i]) {
      assert ServedOK(cfg, s.resolved, s.c.served[i]);
    }
  }

  lemma HandleKeepsFresh(cfg: Config, s: Sys, x: HandleStep)
    requires Fresh(cfg, s) && HandleEnabled(cfg, s, x)
    ensures Fresh(cfg, Apply(cfg, s, Handling(x)))
  {
    HandleKeepsCacheFresh(cfg, s, x);
    HandleKeepsServerFresh(cfg, s, x);
    HandleKeepsStreamsFresh(cfg, s, x);
    HandleLeaves(cfg, s, x);
    ClientStaysFresh(cfg, s, Apply(cfg, s, Handling(x)));
  }

  lemma PrefetchKeepsFresh(cfg: Config, s: Sys, x: PrefetchStep)
    requires Fresh(cfg, s) && PrefetchEnabled(cfg, s, x)
    ensures Fresh(cfg, PrefetchApply(cfg, s, x))
  {
    PrefetchKeepsCacheFresh(cfg, s, x);
    PrefetchKeepsServerFresh(cfg, s, x);
    PrefetchKeepsStreamsFresh(cfg, s, x);
    PrefetchLeavesCore(cfg, s, x);
    ClientStaysFresh(cfg, s, PrefetchApply(cfg, s, x));
  }

  /** Where every copy of an answer is the same, every copy is backed. */
  lemma SameCopiesFresh(cfg: Config, s: Sys, s': Sys)
    requires Fresh(cfg, s) && s'.resolved == s.resolved && s'.v == s.v
    requires s'.r == s.r.(requests := s'.r.requests)
    requires s'.c.local == s.c.local && s'.c.peeks == s.c.peeks && s'.c.served == s.c.served
    ensures Fresh(cfg, s')
  {
  }

  lemma DispatchKeepsFresh(cfg: Config, s: Sys, x: DispatchStep)
    requires Fresh(cfg, s) && DispatchEnabled(s, x)
    ensures Fresh(cfg, Apply(cfg, s, Dispatching(x)))
  {
    SameCopiesFresh(cfg, s, Apply(cfg, s, Dispatching(x)));
  }

  lemma CallKeepsFresh(cfg: Config, s: Sys, x: CallStep)
    requires Fresh(cfg, s) && CallEnabled(cfg, s, x)
    ensures Fresh(cfg, Apply(cfg, s, Calling(x)))
  {
    CallLeaves(cfg, s, x);
    SameCopiesFresh(cfg, s, Apply(cfg, s, Calling(x)));
  }

  lemma CacheKeepsFresh(cfg: Config, s: Sys, x: CacheStep)
    requires Correlated(s) && CallsOnTime(cfg, s) && ReadLater(s) && Fresh(cfg, s) && CacheEnabled(cfg, s, x)
    ensures Fresh(cfg, Apply(cfg, s, Caching(x)))
  {
    CacheKeepsLocalFresh(cfg, s, x);
    CacheKeepsPeeksFresh(cfg, s, x);
    CacheKeepsServedFresh(cfg, s, x);
  }

  lemma KeepsFresh(cfg: Config, s: Sys, step: Step)
    requires Correlated(s) && CallsOnTime(cfg, s) && ReadLater(s) && Fresh(cfg, s) && Enabled(cfg, s, step)
    ensures Fresh(cfg, Apply(cfg, s, step))
  {
    match step
    case Tick(_) => SameCopiesFresh(cfg, s, Apply(cfg, s, step));
    case Calling(x) => CallKeepsFresh(cfg, s, x);
    case Caching(x) => CacheKeepsFresh(cfg, s, x);
    case Dispatching(x) => DispatchKeepsFresh(cfg, s, x);
    case OtherSend(_, _, _) => SameCopiesFresh(cfg, s, Apply(cfg, s, step));
    case Handling(x) => HandleKeepsFresh(cfg, s, x);
    case Prefetching(x) => PrefetchKeepsFresh(cfg, s, x);
  }

  lemma {:induction false} ReachableFresh(cfg: Config, steps: seq<Step>)
    ensures Exec(cfg, steps).Some? ==> Fresh(cfg, Exec(cfg, steps).value)
  {
    if steps != [] && Exec(cfg, steps).Some? {
      var init, step := steps[..|steps| - 1], steps[|steps| - 1];
      ReachableFresh(cfg, init);
      ReachableCorrelated(cfg, init);
      ReachableOnTime(cfg, init);
      KeepsFresh(cfg, Exec(cfg, init).value, step);
    }
  }

  /**
   Provenance and bounded staleness: every answer ever served for a question is a message the resolver
   returned for that question, no longer ago than its lifetime in the Redis cache, its lifetime in the
   local cache (when served from there) and the time it can travel.
   */
  lemma ServedIsGenuineAndFresh(cfg: Config, steps: seq<Step>, i: nat)
    requires Exec(cfg, steps).Some? && i < |Exec(cfg, steps).value.c.served|
    ensures var s := Exec(cfg, steps).value;
            var x := s.c.served[i];
            Backed(s.resolved, x.name, x.qtype, x.wire, x.at - ServedAge(cfg, x))
  {
    ReachableFresh(cfg, steps);
    assert ServedOK(cfg, Exec(cfg, steps).value.resolved, Exec(cfg, steps).value.c.served[i]);
  }

  /** The travel allowance: a cached answer and its response, or a published update. */
  function Delay(cfg: Config): int {
    if cfg.pushDelay > Trip(cfg) + cfg.setDelay then cfg.pushDelay else Trip(cfg) + cfg.setDelay
  }

  /** When the answer carries a positive TTL, it is served no later than twice that TTL, plus delay. */
  lemma ServedWithinTwiceTtl(cfg: Config, steps: seq<Step>, i: nat)
    requires Exec(cfg, steps).Some? && i < |Exec(cfg, steps).value.c.served|
    requires MinTtl(Exec(cfg, steps).value.c.served[i].wire) > 0
    ensures var s := Exec(cfg, steps).value;
            var x := s.c.served[i];
            Backed(s.resolved, x.name, x.qtype, x.wire,
                   x.at - 2 * MinTtl(x.wire) * SECOND - Delay(cfg))
  {
    ServedIsGenuineAndFresh(cfg, steps, i);
    var s := Exec(cfg, steps).value;
    var x := s.c.served[i];
    BackedStays(s.resolved, s.resolved, x.name, x.qtype, x.wire,
                x.at - 2 * MinTtl(x.wire) * SECOND - Delay(cfg), x.at - ServedAge(cfg, x));
  }
}
