/**
 The preferred-IP cache under concurrency. Any number of resolutions of one (name, type) interleave
 their loads, checks, bumps, races and stores over the shared Redis hash, while time passes. Keys
 never interact, so the system follows a single one.

 Every store operation lands, if at all, within the operation timeout of the call that issued it. The
 HSET and the EXPIRE of StorePref travel in one pipeline without a transaction, so Redis may take other
 commands between them; `atomic` says that it never does.
 */
module PrefSystem {

  import opened Options
  import opened Dns
  import opened Pref

  datatype Config = Config(pref: PrefConfig, opTimeout: int, concurrency: nat, atomic: bool)

  /** Where one resolution stands; `start` is when its current store operation's context began. */
  datatype Phase =
    | Started(start: int)
    | Loaded(start: int, entry: PrefEntry, epoch: nat)
    | Committed(start: int, epoch: nat)
    | Racing
    | Storing(start: int, entry: PrefEntry)
    | Expiring(start: int, ttl: int)

  /** One store that took effect. */
  datatype Record = Record(entry: PrefEntry, at: int)

  /**
   `log` is the history of stores, so |log| numbers the current entry's epoch. `reuses[e]` counts the
   resolutions that reused the entry of epoch e, and `strays` the bumps that found no key.
   */
  datatype State = State(
    now: int,
    cell: Cell,
    agents: map<nat, Phase>,
    log: seq<Record>,
    reuses: multiset<nat>,
    strays: nat)

  const INIT := State(0, None, map[], [], multiset{}, 0)

  datatype Step =
    | Tick(dt: nat)
    | Begin(id: nat)
    | Load(id: nat)
    | LoseLoad(id: nat)
    | Check(id: nat, inAnswer: bool)
    | Bump(id: nat)
    | LoseBump(id: nat)
    | RaceDone(id: nat, ip: Option<string>, via: string, rtt: int)
    | Store(id: nat)
    | Hset(id: nat)
    | Expire(id: nat)
    | LoseStore(id: nat)

  predicate InFlightPhase(p: Phase) { p.Loaded? || p.Committed? }

  /** The resolutions between their load and their bump. */
  function InFlight(s: State): set<nat> {
    set id | id in s.agents && InFlightPhase(s.agents[id])
  }

  predicate Enabled(cfg: Config, s: State, step: Step) {
    match step
    case Tick(_) => true
    case Begin(id) => id !in s.agents
    case Load(id) =>
      && id in s.agents && s.agents[id].Started?
      && s.now <= s.agents[id].start + cfg.opTimeout
      && |InFlight(s)| < cfg.concurrency
    case LoseLoad(id) => id in s.agents && s.agents[id].Started?
    case Check(id, _) => id in s.agents && s.agents[id].Loaded?
    case Bump(id) =>
      id in s.agents && s.agents[id].Committed? && s.now <= s.agents[id].start + cfg.opTimeout
    case LoseBump(id) => id in s.agents && s.agents[id].Committed?
    case RaceDone(id, ip, _, _) =>
      id in s.agents && s.agents[id].Racing? && (ip.Some? ==> ip.value != "")
    case Store(id) =>
      id in s.agents && s.agents[id].Storing? && s.now <= s.agents[id].start + cfg.opTimeout
    case Hset(id) =>
      && !cfg.atomic
      && id in s.agents && s.agents[id].Storing? && s.now <= s.agents[id].start + cfg.opTimeout
    case Expire(id) =>
      id in s.agents && s.agents[id].Expiring? && s.now <= s.agents[id].start + cfg.opTimeout
    case LoseStore(id) => id in s.agents && (s.agents[id].Storing? || s.agents[id].Expiring?)
  }

  function Move(s: State, id: nat, p: Phase): State { s.(agents := s.agents[id := p]) }

  function Finish(s: State, id: nat): State { s.(agents := s.agents - {id}) }

  function ApplyLoad(s: State, id: nat): State
    requires id in s.agents && s.agents[id].Started?
  {
    var e := LoadCell(s.cell, s.now);
    if e.None? then Move(s, id, Racing)
    else if e.value.ip.None? then Finish(s, id)
    else Move(s, id, Loaded(s.agents[id].start, e.value, |s.log|))
  }

  function ApplyCheck(cfg: Config, s: State, id: nat, inAnswer: bool): State
    requires id in s.agents && s.agents[id].Loaded?
  {
    var a := s.agents[id];
    var ips := if inAnswer && a.entry.ip.Some? then [a.entry.ip.value] else [];
    match Decide(cfg.pref, Some(a.entry), s.now, ips)
    case KeepAnswer => Finish(s, id)
    case MustRace => Move(s, id, Racing)
    case Reuse(_) => Move(s, id, Committed(a.start, a.epoch)).(reuses := s.reuses + multiset{a.epoch})
  }

  function ApplyBump(s: State, id: nat): State {
    Finish(s, id).(
      cell := BumpCell(s.cell, s.now),
      strays := if Live(s.cell, s.now) then s.strays else s.strays + 1)
  }

  function ApplyStore(cfg: Config, s: State, id: nat): State
    requires id in s.agents && s.agents[id].Storing?
  {
    var e := s.agents[id].entry;
    Finish(s, id).(
      cell := StoreCell(e, TtlFor(cfg.pref, e.ip), s.now),
      log := s.log + [Record(e, s.now)])
  }

  function ApplyHset(cfg: Config, s: State, id: nat): State
    requires id in s.agents && s.agents[id].Storing?
  {
    var a := s.agents[id];
    Move(s, id, Expiring(a.start, TtlFor(cfg.pref, a.entry.ip))).(
      cell := HsetCell(s.cell, a.entry, s.now),
      log := s.log + [Record(a.entry, s.now)])
  }

  function ApplyExpire(s: State, id: nat): State
    requires id in s.agents && s.agents[id].Expiring?
  {
    Finish(s, id).(cell := ExpireCell(s.cell, s.agents[id].ttl, s.now))
  }

  function Apply(cfg: Config, s: State, step: Step): State
    requires Enabled(cfg, s, step)
  {
    match step
    case Tick(dt) => s.(now := s.now + dt)
    case Begin(id) => Move(s, id, Started(s.now))
    case Load(id) => ApplyLoad(s, id)
    case LoseLoad(id) => Move(s, id, Racing)
    case Check(id, inAnswer) => ApplyCheck(cfg, s, id, inAnswer)
    case Bump(id) => ApplyBump(s, id)
    case LoseBump(id) => Finish(s, id)
    case RaceDone(id, ip, via, rtt) => Move(s, id, Storing(s.now, FreshEntry(ip, via, rtt, s.now)))
    case Store(id) => ApplyStore(cfg, s, id)
    case Hset(id) => ApplyHset(cfg, s, id)
    case Expire(id) => ApplyExpire(s, id)
    case LoseStore(id) => Finish(s, id)
  }

  /** The state a run reaches, or None when some step of it is not enabled. */
  function Exec(cfg: Config, steps: seq<Step>): Option<State> {
    if steps == [] then
      Some(INIT)
    else
      var before := Exec(cfg, steps[..|steps| - 1]);
      var step := steps[|steps| - 1];
      if before.Some? && Enabled(cfg, before.value, step)
      then Some(Apply(cfg, before.value, step)) else None
  }

  /** A configuration EnablePref can produce. */
  predicate Tuned(cfg: Config) {
    && cfg.pref.ttl > 0 && cfg.pref.negTTL > 0 && cfg.pref.recheckHits > 0 && cfg.pref.recheckAge > 0
    && cfg.opTimeout > 0 && cfg.concurrency > 0
  }

  // ---------------------------------------------------------------------------
  // What holds in every configuration
  // ---------------------------------------------------------------------------

  /** The hash holds the fields of a store, bumped some number of times. */
  predicate Holds(h: Hash, e: PrefEntry) {
    && h.ip == Some(e.ip.GetOr(""))
    && h.updated == Some(e.updated / SECOND)
    && h.hits.Some? && h.hits.value >= 1
  }

  predicate HasAddress(h: Hash) { h.ip.Some? && h.ip.value != "" }

  /** A hash with an address, and any hash while no bump has strayed, is the last store's. */
  predicate CellTracks(s: State) {
    s.cell.Some? && (s.strays == 0 || HasAddress(s.cell.value)) ==>
      s.log != [] && var e := s.log[|s.log| - 1].entry; Holds(s.cell.value, e) && (e.ip.Some? ==> e.ip.value != "")
  }

  predicate PhaseOK(cfg: Config, s: State, p: Phase) {
    match p
    case Loaded(_, e, epoch) =>
      && 0 < epoch <= |s.log|
      && e.hits >= 1 && e.ip.Some? && e.ip == s.log[epoch - 1].entry.ip
      && e.updated <= s.log[epoch - 1].entry.updated
    case Committed(_, epoch) => 0 < epoch <= |s.log| && cfg.pref.recheckHits > 1
    case Storing(_, e) => e.hits == 1 && (e.ip.Some? ==> e.ip.value != "")
    case _ => true
  }

  ghost predicate Sane(cfg: Config, s: State) {
    && CellTracks(s)
    && forall id :: id in s.agents ==> PhaseOK(cfg, s, s.agents[id])
  }

  lemma StepKeepsTrack(cfg: Config, s: State, step: Step)
    requires Sane(cfg, s) && Enabled(cfg, s, step)
    ensures CellTracks(Apply(cfg, s, step))
  {
    match step
    case Store(id) => assert PhaseOK(cfg, s, s.agents[id]);
    case Hset(id) => assert PhaseOK(cfg, s, s.agents[id]);
    case _ =>
  }

  lemma LogGrows(cfg: Config, s: State, step: Step)
    requires Enabled(cfg, s, step)
    ensures s.log <= Apply(cfg, s, step).log
  {
  }

  /** Resolutions stay as they are while the log grows; the one that moves is right about the last store. */
  lemma PhaseStays(cfg: Config, s: State, s': State, p: Phase)
    requires PhaseOK(cfg, s, p) && s.log <= s'.log
    ensures PhaseOK(cfg, s', p)
  {
  }

  lemma PhaseMoves(cfg: Config, s: State, step: Step, id: nat)
    requires Sane(cfg, s) && Enabled(cfg, s, step) && id in Apply(cfg, s, step).agents
    requires id !in s.agents || Apply(cfg, s, step).agents[id] != s.agents[id]
    ensures PhaseOK(cfg, Apply(cfg, s, step), Apply(cfg, s, step).agents[id])
  {
    if id in s.agents {
      assert PhaseOK(cfg, s, s.agents[id]);
    }
  }

  lemma StepKeepsPhase(cfg: Config, s: State, step: Step, id: nat)
    requires Sane(cfg, s) && Enabled(cfg, s, step) && id in Apply(cfg, s, step).agents
    ensures PhaseOK(cfg, Apply(cfg, s, step), Apply(cfg, s, step).agents[id])
  {
    if id in s.agents && Apply(cfg, s, step).agents[id] == s.agents[id] {
      LogGrows(cfg, s, step);
      PhaseStays(cfg, s, Apply(cfg, s, step), s.agents[id]);
    } else {
      PhaseMoves(cfg, s, step, id);
    }
  }

  lemma {:induction false} ReachableSane(cfg: Config, steps: seq<Step>)
    ensures Exec(cfg, steps).Some? ==> Sane(cfg, Exec(cfg, steps).value)
  {
    if steps != [] && Exec(cfg, steps).Some? {
      var init, step := steps[..|steps| - 1], steps[|steps| - 1];
      ReachableSane(cfg, init);
      var s := Exec(cfg, init).value;
      StepKeepsTrack(cfg, s, step);
      forall id | id in Apply(cfg, s, step).agents
        ensures PhaseOK(cfg, Apply(cfg, s, step), Apply(cfg, s, step).agents[id])
      {
        StepKeepsPhase(cfg, s, step, id);
      }
    }
  }

  /**
   In every run of every configuration, a reused address is the winner of the race it came from, which
   is no older than recheckAge.
   */
  lemma ReuseIsYoung(cfg: Config, steps: seq<Step>, id: nat, ips: seq<string>)
    requires Exec(cfg, steps).Some?
    requires id in Exec(cfg, steps).value.agents && Exec(cfg, steps).value.agents[id].Loaded?
    ensures var s := Exec(cfg, steps).value;
            var a := s.agents[id];
            var d := Decide(cfg.pref, Some(a.entry), s.now, ips);
            d.Reuse? ==>
              && 0 < a.epoch <= |s.log|
              && var race := s.log[a.epoch - 1].entry;
                 Some(d.ip) == race.ip && d.ip in ips && s.now - race.updated <= cfg.pref.recheckAge
  {
    ReachableSane(cfg, steps);
    var s := Exec(cfg, steps).value;
    assert PhaseOK(cfg, s, s.agents[id]);
  }

  /** While no bump has strayed, a negative entry that can be loaded was stored by a race with no finisher. */
  lemma UnstrayedNegatives(cfg: Config, steps: seq<Step>)
    requires Exec(cfg, steps).Some? && Exec(cfg, steps).value.strays == 0
    ensures var s := Exec(cfg, steps).value;
            var e := LoadCell(s.cell, s.now);
            e.Some? && e.value.ip.None? ==> s.log != [] && s.log[|s.log| - 1].entry.ip.None?
  {
    ReachableSane(cfg, steps);
  }

  // ---------------------------------------------------------------------------
  // No fabricated negative entries
  // ---------------------------------------------------------------------------

  /** Every entry outlives the longest delay between reading it and bumping it. */
  predicate Outlives(cfg: Config) {
    cfg.pref.recheckAge + cfg.opTimeout < cfg.pref.ttl && cfg.opTimeout < cfg.pref.negTTL
  }

  predicate Safe(cfg: Config) { Tuned(cfg) && cfg.atomic && (Outlives(cfg) || cfg.pref.recheckHits <= 1) }

  /** The cell is the last store, with its expiry, bumped some number of times. */
  ghost predicate CellIsLastStore(cfg: Config, s: State) {
    if s.log == [] then
      s.cell.None?
    else
      var r := s.log[|s.log| - 1];
      && s.cell.Some? && Holds(s.cell.value, r.entry)
      && s.cell.value.expireAt == Some(r.at + TtlFor(cfg.pref, r.entry.ip))
      && r.entry.updated <= r.at <= s.now
      && (r.entry.ip.Some? ==> r.entry.ip.value != "")
  }

  /** The key a resolution has read outlives its bump: it is still there, or was stored anew since. */
  predicate Guarded(cfg: Config, s: State, start: int, updated: int) {
    && start <= s.now
    && s.cell.Some? && s.cell.value.expireAt.Some?
    && var expireAt := s.cell.value.expireAt.value;
       || expireAt >= updated + cfg.pref.ttl
       || expireAt >= start + cfg.pref.ttl
       || expireAt >= start + cfg.pref.negTTL
  }

  ghost predicate AgentOK(cfg: Config, s: State, p: Phase) {
    match p
    case Started(start) => start <= s.now
    case Loaded(start, e, _) => Guarded(cfg, s, start, e.updated)
    case Committed(start, _) => Guarded(cfg, s, start, start - cfg.pref.recheckAge)
    case Racing => true
    case Storing(_, e) => e.updated <= s.now
    case Expiring(_, _) => false
  }

  ghost predicate Inv(cfg: Config, s: State) {
    && Sane(cfg, s)
    && s.strays == 0
    && CellIsLastStore(cfg, s)
    && forall id :: id in s.agents ==> AgentOK(cfg, s, s.agents[id])
  }

  /** The entry read was young enough, so its key, or a later store's, is still alive. */
  lemma BumpFindsKey(cfg: Config, s: State, id: nat)
    requires Safe(cfg) && Inv(cfg, s) && Enabled(cfg, s, Bump(id))
    ensures Live(s.cell, s.now)
  {
    assert AgentOK(cfg, s, s.agents[id]) && PhaseOK(cfg, s, s.agents[id]);
  }

  lemma StepKeepsCell(cfg: Config, s: State, step: Step)
    requires Safe(cfg) && Inv(cfg, s) && Enabled(cfg, s, step)
    ensures Apply(cfg, s, step).strays == 0 && CellIsLastStore(cfg, Apply(cfg, s, step))
  {
    match step
    case Bump(id) => BumpFindsKey(cfg, s, id);
    case Store(id) => assert AgentOK(cfg, s, s.agents[id]) && PhaseOK(cfg, s, s.agents[id]);
    case _ =>
  }

  /** Resolutions other than the one that moves stay as they were. */
  lemma StepKeepsOthers(cfg: Config, s: State, step: Step, id: nat)
    requires Safe(cfg) && Inv(cfg, s) && Enabled(cfg, s, step)
    requires id in s.agents && id in Apply(cfg, s, step).agents
    requires Apply(cfg, s, step).agents[id] == s.agents[id]
    ensures AgentOK(cfg, Apply(cfg, s, step), s.agents[id])
  {
    assert AgentOK(cfg, s, s.agents[id]);
    match step
    case Bump(b) => BumpFindsKey(cfg, s, b);
    case _ =>
  }

  lemma StepMovesOne(cfg: Config, s: State, step: Step, id: nat)
    requires Safe(cfg) && Inv(cfg, s) && Enabled(cfg, s, step)
    requires id in Apply(cfg, s, step).agents
    requires id !in s.agents || Apply(cfg, s, step).agents[id] != s.agents[id]
    ensures AgentOK(cfg, Apply(cfg, s, step), Apply(cfg, s, step).agents[id])
  {
    if id in s.agents {
      assert AgentOK(cfg, s, s.agents[id]) && PhaseOK(cfg, s, s.agents[id]);
    }
  }

  lemma StepKeepsInv(cfg: Config, s: State, step: Step)
    requires Safe(cfg) && Inv(cfg, s) && Enabled(cfg, s, step) && Sane(cfg, Apply(cfg, s, step))
    ensures Inv(cfg, Apply(cfg, s, step))
  {
    var s' := Apply(cfg, s, step);
    StepKeepsCell(cfg, s, step);
    forall id | id in s'.agents ensures AgentOK(cfg, s', s'.agents[id]) {
      if id in s.agents && s'.agents[id] == s.agents[id] {
        StepKeepsOthers(cfg, s, step, id);
      } else {
        StepMovesOne(cfg, s, step, id);
      }
    }
  }

  lemma {:induction false} ReachableInv(cfg: Config, steps: seq<Step>)
    requires Safe(cfg)
    ensures Exec(cfg, steps).Some? ==> Inv(cfg, Exec(cfg, steps).value)
  {
    if steps != [] {
      ReachableInv(cfg, steps[..|steps| - 1]);
      ReachableSane(cfg, steps);
      if Exec(cfg, steps).Some? {
        StepKeepsInv(cfg, Exec(cfg, steps[..|steps| - 1]).value, steps[|steps| - 1]);
      }
    }
  }

  /**
   In every run of a safe configuration, no bump ever finds its key missing, and a negative entry
   that can be loaded was stored by a race with no finisher and expires negTTL after that store.
   */
  lemma NegativesAreGenuine(cfg: Config, steps: seq<Step>)
    requires Safe(cfg) && Exec(cfg, steps).Some?
    ensures var s := Exec(cfg, steps).value;
            && s.strays == 0
            && var e := LoadCell(s.cell, s.now);
               e.Some? && e.value.ip.None? ==>
                 && s.log != []
                 && var r := s.log[|s.log| - 1];
                    && r.entry.ip.None?
                    && s.cell.value.expireAt == Some(r.at + cfg.pref.negTTL)
                    && s.now < r.at + cfg.pref.negTTL
  {
    ReachableInv(cfg, steps);
  }

  lemma NothingToBump(cfg: Config, s: State, step: Step)
    requires cfg.pref.recheckHits <= 1 && Sane(cfg, s) && Enabled(cfg, s, step)
    ensures !step.Bump?
  {
  }

  /** Where nothing is ever reused, nothing is ever bumped. */
  lemma {:induction false} WithoutReuse(cfg: Config, steps: seq<Step>)
    requires cfg.pref.recheckHits <= 1 && Exec(cfg, steps).Some?
    ensures Exec(cfg, steps).value.strays == 0
  {
    if steps != [] {
      var init, step := steps[..|steps| - 1], steps[|steps| - 1];
      WithoutReuse(cfg, init);
      ReachableSane(cfg, init);
      NothingToBump(cfg, Exec(cfg, init).value, step);
    }
  }

  // ---------------------------------------------------------------------------
  // The condition is exact
  // ---------------------------------------------------------------------------

  /** No run of this configuration has a bump that finds its key missing. */
  ghost predicate NeverStrays(cfg: Config) {
    forall steps :: Exec(cfg, steps).Some? ==> Exec(cfg, steps).value.strays == 0
  }

  ghost predicate LosesNoBump(steps: seq<Step>) { forall k :: 0 <= k < |steps| ==> !steps[k].LoseBump? }

  /** A run without lost bumps that reaches this state. */
  ghost predicate Reaches(cfg: Config, steps: seq<Step>, s: State) {
    Exec(cfg, steps) == Some(s) && LosesNoBump(steps)
  }

  /** One more step of a run. */
  lemma Then(cfg: Config, steps: seq<Step>, s: State, step: Step)
    requires Reaches(cfg, steps, s) && Enabled(cfg, s, step) && !step.LoseBump?
    ensures Reaches(cfg, steps + [step], Apply(cfg, s, step))
  {
    assert (steps + [step])[..|steps|] == steps;
  }

  function WinAt(t: int): PrefEntry { FreshEntry(Some("a"), "icmp", 0, t) }

  /** A resolution that fails to load and races. */
  lemma StartRace(cfg: Config, steps: seq<Step>, s: State, id: nat) returns (steps': seq<Step>)
    requires Reaches(cfg, steps, s) && id !in s.agents
    ensures Reaches(cfg, steps', s.(agents := s.agents[id := Racing]))
  {
    Then(cfg, steps, s, Begin(id));
    var s1 := Apply(cfg, s, Begin(id));
    Then(cfg, steps + [Begin(id)], s1, LoseLoad(id));
    steps' := steps + [Begin(id)] + [LoseLoad(id)];
    assert s1.agents[id := Racing] == s.agents[id := Racing];
  }

  /** The only store so far landed at instant t, the present; resolution 2 is still racing. */
  ghost predicate StoredAt(cfg: Config, s: State, t: int) {
    && s.now == t && s.cell == StoreCell(WinAt(t), cfg.pref.ttl, t) && s.strays == 0
    && |s.log| == 1 && s.agents == map[2 := Racing] && s.reuses == multiset{}
  }

  lemma StoreFirst(cfg: Config, t: nat) returns (steps: seq<Step>, s: State)
    requires Tuned(cfg)
    ensures Reaches(cfg, steps, s) && StoredAt(cfg, s, t)
  {
    var st := TwoRacing(cfg, t);
    var s0 := INIT.(now := t, agents := map[2 := Racing, 0 := Racing]);
    var done := RaceDone(0, Some("a"), "icmp", 0);
    Then(cfg, st, s0, done);
    var s1 := Apply(cfg, s0, done);
    Then(cfg, st + [done], s1, Store(0));
    steps, s := st + [done] + [Store(0)], Apply(cfg, s1, Store(0));
    assert s.agents == map[2 := Racing];
  }

  lemma TwoRacing(cfg: Config, t: nat) returns (steps: seq<Step>)
    ensures Reaches(cfg, steps, INIT.(now := t, agents := map[2 := Racing, 0 := Racing]))
  {
    assert Reaches(cfg, [], INIT);
    Then(cfg, [], INIT, Tick(t));
    var s := INIT.(now := t);
    steps := StartRace(cfg, [] + [Tick(t)], s, 2);
    steps := StartRace(cfg, steps, s.(agents := s.agents[2 := Racing]), 0);
    assert INIT.agents[2 := Racing][0 := Racing] == map[2 := Racing, 0 := Racing];
  }

  /** The entry in the cell can be loaded now and is within the throttle's limits. */
  predicate Reusable(cfg: Config, s: State) {
    var e := LoadCell(s.cell, s.now);
    && e.Some? && e.value.ip.Some?
    && e.value.hits < cfg.pref.recheckHits && s.now - e.value.updated <= cfg.pref.recheckAge
  }

  function CommittedState(s: State, id: nat): State {
    s.(agents := s.agents[id := Committed(s.now, |s.log|)], reuses := s.reuses + multiset{|s.log|})
  }

  /** A resolution loads the stored winner and decides to reuse it. */
  lemma CommitOnce(cfg: Config, steps: seq<Step>, s: State, id: nat) returns (steps': seq<Step>)
    requires Tuned(cfg) && Reaches(cfg, steps, s) && id !in s.agents
    requires |InFlight(s)| < cfg.concurrency && Reusable(cfg, s)
    ensures Reaches(cfg, steps', CommittedState(s, id))
  {
    Then(cfg, steps, s, Begin(id));
    var s1 := Apply(cfg, s, Begin(id));
    assert InFlight(s1) == InFlight(s);
    Then(cfg, steps + [Begin(id)], s1, Load(id));
    var s2 := Apply(cfg, s1, Load(id));
    var check := Check(id, true);
    Then(cfg, steps + [Begin(id)] + [Load(id)], s2, check);
    steps' := steps + [Begin(id)] + [Load(id)] + [check];
    assert Apply(cfg, s2, check).agents == CommittedState(s, id).agents;
  }

  /** If the positive lifetime is too short, the key can expire between the load and the bump. */
  lemma ShortTtlStrays(cfg: Config) returns (steps: seq<Step>)
    requires Tuned(cfg) && cfg.pref.recheckHits > 1
    requires cfg.pref.ttl <= cfg.pref.recheckAge + cfg.opTimeout
    ensures Exec(cfg, steps).Some? && Exec(cfg, steps).value.strays == 1
  {
    var t := if cfg.pref.ttl - 1 <= cfg.pref.recheckAge then cfg.pref.ttl - 1 else cfg.pref.recheckAge;
    var s;
    steps, s := StoreFirst(cfg, 0);
    Then(cfg, steps, s, Tick(t));
    steps, s := steps + [Tick(t)], Apply(cfg, s, Tick(t));
    assert InFlight(s) == {};
    steps := CommitOnce(cfg, steps, s, 1);
    s := CommittedState(s, 1);
    Then(cfg, steps, s, Tick(cfg.pref.ttl - t));
    steps, s := steps + [Tick(cfg.pref.ttl - t)], Apply(cfg, s, Tick(cfg.pref.ttl - t));
    Then(cfg, steps, s, Bump(1));
    steps := steps + [Bump(1)];
  }

  /** If the negative lifetime is too short, another race's negative entry can expire in between. */
  lemma ShortNegTtlStrays(cfg: Config) returns (steps: seq<Step>)
    requires Tuned(cfg) && cfg.pref.recheckHits > 1
    requires cfg.pref.negTTL <= cfg.opTimeout
    ensures Exec(cfg, steps).Some? && Exec(cfg, steps).value.strays == 1
  {
    var s;
    steps, s := StoreFirst(cfg, 0);
    assert InFlight(s) == {};
    steps := CommitOnce(cfg, steps, s, 1);
    s := CommittedState(s, 1);
    var done := RaceDone(2, None, "", 0);
    Then(cfg, steps, s, done);
    steps, s := steps + [done], Apply(cfg, s, done);
    Then(cfg, steps, s, Store(2));
    steps, s := steps + [Store(2)], Apply(cfg, s, Store(2));
    Then(cfg, steps, s, Tick(cfg.pref.negTTL));
    steps, s := steps + [Tick(cfg.pref.negTTL)], Apply(cfg, s, Tick(cfg.pref.negTTL));
    Then(cfg, steps, s, Bump(1));
    steps := steps + [Bump(1)];
  }

  /** A second winner is written over a key that expires in a nanosecond, its EXPIRE still under way. */
  lemma HsetOverExpiring(cfg: Config) returns (steps: seq<Step>, s: State)
    requires Tuned(cfg) && !cfg.atomic
    ensures Reaches(cfg, steps, s) && s.now == cfg.pref.ttl * SECOND && s.strays == 0
    ensures s.agents == map[2 := Expiring(s.now, cfg.pref.ttl)]
    ensures s.cell == Some(StoreCell(WinAt(s.now), 1, s.now).value)
  {
    var t: nat := cfg.pref.ttl * SECOND + 1 - cfg.pref.ttl;
    steps, s := StoreFirst(cfg, t);
    Then(cfg, steps, s, Tick(cfg.pref.ttl - 1));
    steps, s := steps + [Tick(cfg.pref.ttl - 1)], Apply(cfg, s, Tick(cfg.pref.ttl - 1));
    var done := RaceDone(2, Some("a"), "icmp", 0);
    Then(cfg, steps, s, done);
    steps, s := steps + [done], Apply(cfg, s, done);
    Then(cfg, steps, s, Hset(2));
    steps, s := steps + [Hset(2)], Apply(cfg, s, Hset(2));
    assert s.agents == map[2 := Expiring(s.now, cfg.pref.ttl)];
  }

  /**
   If the two commands of a store can be separated, no lifetimes help: a winner written over an
   expiring key is reused before its EXPIRE lands, and is gone when the bump does.
   */
  lemma SplitStoreStrays(cfg: Config) returns (steps: seq<Step>)
    requires Tuned(cfg) && !cfg.atomic && cfg.pref.recheckHits > 1
    ensures Exec(cfg, steps).Some? && Exec(cfg, steps).value.strays == 1
  {
    var s;
    steps, s := HsetOverExpiring(cfg);
    assert InFlight(s) == {};
    assert LoadCell(s.cell, s.now).value.updated == s.now;
    steps := CommitOnce(cfg, steps, s, 1);
    s := CommittedState(s, 1);
    Then(cfg, steps, s, Tick(1));
    steps, s := steps + [Tick(1)], Apply(cfg, s, Tick(1));
    Then(cfg, steps, s, Expire(2));
    steps, s := steps + [Expire(2)], Apply(cfg, s, Expire(2));
    Then(cfg, steps, s, Bump(1));
    steps := steps + [Bump(1)];
  }

  /**
   The condition is exact: negative entries are never fabricated, in any run, if and only if nothing
   is ever reused, or stores are atomic and both lifetimes outlast the load-to-bump delay.
   */
  lemma NeverStraysIff(cfg: Config)
    requires Tuned(cfg)
    ensures NeverStrays(cfg) <==> cfg.pref.recheckHits <= 1 || (cfg.atomic && Outlives(cfg))
  {
    if cfg.pref.recheckHits <= 1 {
      forall steps | Exec(cfg, steps).Some? ensures Exec(cfg, steps).value.strays == 0 {
        WithoutReuse(cfg, steps);
      }
    } else if Safe(cfg) {
      forall steps | Exec(cfg, steps).Some? ensures Exec(cfg, steps).value.strays == 0 {
        ReachableInv(cfg, steps);
      }
    } else {
      var steps;
      if !cfg.atomic {
        steps := SplitStoreStrays(cfg);
      } else if cfg.pref.ttl <= cfg.pref.recheckAge + cfg.opTimeout {
        steps := ShortTtlStrays(cfg);
      } else {
        steps := ShortNegTtlStrays(cfg);
      }
      assert Exec(cfg, steps).value.strays != 0;
    }
  }

  // ---------------------------------------------------------------------------
  // The revalidation throttle
  // ---------------------------------------------------------------------------

  /** The resolutions that have loaded the entry of epoch e, with hits to spare, and not decided. */
  function Deciding(cfg: Config, s: State, e: nat): set<nat> {
    set id | id in s.agents && s.agents[id].Loaded? && s.agents[id].epoch == e
             && s.agents[id].entry.hits < cfg.pref.recheckHits
  }

  /** The resolutions that have decided to reuse the entry of epoch e and not yet bumped. */
  function Bumping(s: State, e: nat): set<nat> {
    set id | id in s.agents && s.agents[id].Committed? && s.agents[id].epoch == e
  }

  function Quota(cfg: Config): int { cfg.pref.recheckHits - 2 + cfg.concurrency }

  /** Each reuse of the entry in the cell was counted in its hits, or its bump is on the way. */
  predicate HitsCount(s: State) {
    s.cell.Some? && HasAddress(s.cell.value) ==>
      s.reuses[|s.log|] + 1 <= s.cell.value.hits.GetOr(0) + |Bumping(s, |s.log|)|
  }

  ghost predicate Throttled(cfg: Config, s: State) {
    && (forall e: nat :: s.reuses[e] + |Deciding(cfg, s, e)| <= Quota(cfg))
    && HitsCount(s)
    && (forall e: nat :: e > |s.log| ==> s.reuses[e] == 0)
  }

  lemma DecidingAndBumping(cfg: Config, s: State, e: nat)
    ensures |Deciding(cfg, s, e)| + |Bumping(s, e)| <= |InFlight(s)|
  {
    var d, b := Deciding(cfg, s, e), Bumping(s, e);
    assert d !! b;
    assert |d + b| == |d| + |b|;
    assert InFlight(s) == (d + b) + (InFlight(s) - (d + b));
  }

  /** How a step changes the two sets of one epoch. */
  lemma SetsAfterCheck(cfg: Config, s: State, id: nat, p: Phase, e: nat)
    requires id in s.agents
    ensures var s' := Move(s, id, p);
            && Deciding(cfg, s', e) <= Deciding(cfg, s, e) + {id}
            && (!p.Loaded? || p.epoch != e ==> Deciding(cfg, s', e) == Deciding(cfg, s, e) - {id})
            && (!p.Committed? || p.epoch != e ==> Bumping(s', e) == Bumping(s, e) - {id})
            && (p.Committed? && p.epoch == e ==> Bumping(s', e) == Bumping(s, e) + {id})
  {
  }

  lemma SetsAfterFinish(cfg: Config, s: State, id: nat, e: nat)
    ensures Deciding(cfg, Finish(s, id), e) == Deciding(cfg, s, e) - {id}
    ensures Bumping(Finish(s, id), e) == Bumping(s, e) - {id}
  {
  }

  /** A load with hits to spare: those who reused before either bumped the hits or are in flight. */
  lemma LoadWithinQuota(cfg: Config, s: State, id: nat, l: PrefEntry)
    requires Throttled(cfg, s) && Enabled(cfg, s, Load(id))
    requires LoadCell(s.cell, s.now) == Some(l) && l.ip.Some? && l.hits < cfg.pref.recheckHits
    ensures var s' := Move(s, id, Loaded(s.agents[id].start, l, |s.log|));
            s.reuses[|s.log|] + |Deciding(cfg, s', |s.log|)| <= Quota(cfg)
  {
    var s' := Move(s, id, Loaded(s.agents[id].start, l, |s.log|));
    var e := |s.log|;
    assert Bumping(s', e) == Bumping(s, e);
    DecidingAndBumping(cfg, s', e);
    assert InFlight(s') == InFlight(s) + {id};
  }

  /** Loading moves one resolution, and not into the set of those about to bump. */
  lemma SetsAfterLoad(cfg: Config, s: State, id: nat, e: nat)
    requires Enabled(cfg, s, Load(id))
    ensures var s', l := Apply(cfg, s, Load(id)), LoadCell(s.cell, s.now);
            && Bumping(s', e) == Bumping(s, e)
            && (!(l.Some? && l.value.ip.Some? && e == |s.log| && l.value.hits < cfg.pref.recheckHits)
                ==> Deciding(cfg, s', e) == Deciding(cfg, s, e))
  {
  }

  lemma LoadKeepsThrottle(cfg: Config, s: State, id: nat)
    requires Throttled(cfg, s) && Enabled(cfg, s, Load(id))
    ensures Throttled(cfg, Apply(cfg, s, Load(id)))
  {
    var s' := Apply(cfg, s, Load(id));
    var l := LoadCell(s.cell, s.now);
    SetsAfterLoad(cfg, s, id, |s.log|);
    forall e: nat ensures s'.reuses[e] + |Deciding(cfg, s', e)| <= Quota(cfg) {
      SetsAfterLoad(cfg, s, id, e);
      if l.Some? && l.value.ip.Some? && e == |s.log| && l.value.hits < cfg.pref.recheckHits {
        LoadWithinQuota(cfg, s, id, l.value);
      }
    }
  }

  /** The counts of one epoch before and after: reuses move from the deciding to the bumping. */
  ghost predicate Shifts(cfg: Config, s: State, s': State, e: nat) {
    && s'.reuses[e] + |Deciding(cfg, s', e)| <= s.reuses[e] + |Deciding(cfg, s, e)|
    && s'.reuses[e] - |Bumping(s', e)| == s.reuses[e] - |Bumping(s, e)|
  }

  lemma CommitShifts(cfg: Config, s: State, id: nat, e: nat)
    requires id in s.agents && s.agents[id].Loaded? && s.agents[id].entry.hits < cfg.pref.recheckHits
    ensures var a := s.agents[id];
            Shifts(cfg, s, Move(s, id, Committed(a.start, a.epoch)).(reuses := s.reuses + multiset{a.epoch}), e)
  {
    var a := s.agents[id];
    SetsAfterCheck(cfg, s, id, Committed(a.start, a.epoch), e);
    var s' := Move(s, id, Committed(a.start, a.epoch)).(reuses := s.reuses + multiset{a.epoch});
    assert Deciding(cfg, s', e) == Deciding(cfg, s, e) - {id};
    assert Bumping(s', e) == if e == a.epoch then Bumping(s, e) + {id} else Bumping(s, e);
  }

  lemma DropShifts(cfg: Config, s: State, id: nat, e: nat)
    requires id in s.agents && s.agents[id].Loaded?
    ensures Shifts(cfg, s, Finish(s, id), e) && Shifts(cfg, s, Move(s, id, Racing), e)
  {
    SetsAfterFinish(cfg, s, id, e);
    SetsAfterCheck(cfg, s, id, Racing, e);
    assert Bumping(s, e) - {id} == Bumping(s, e);
  }

  lemma CheckShifts(cfg: Config, s: State, id: nat, inAnswer: bool, e: nat)
    requires Enabled(cfg, s, Check(id, inAnswer))
    ensures var s' := Apply(cfg, s, Check(id, inAnswer));
            && s'.log == s.log && s'.cell == s.cell && Shifts(cfg, s, s', e)
            && (s'.reuses[e] == s.reuses[e] || e == s.agents[id].epoch)
  {
    var a := s.agents[id];
    if a.entry.hits < cfg.pref.recheckHits {
      CommitShifts(cfg, s, id, e);
    }
    DropShifts(cfg, s, id, e);
  }

  lemma CheckKeepsThrottle(cfg: Config, s: State, id: nat, inAnswer: bool)
    requires Sane(cfg, s) && Throttled(cfg, s) && Enabled(cfg, s, Check(id, inAnswer))
    ensures Throttled(cfg, Apply(cfg, s, Check(id, inAnswer)))
  {
    var s' := Apply(cfg, s, Check(id, inAnswer));
    assert PhaseOK(cfg, s, s.agents[id]);
    CheckShifts(cfg, s, id, inAnswer, |s.log|);
    forall e: nat
      ensures s'.reuses[e] + |Deciding(cfg, s', e)| <= Quota(cfg)
      ensures e > |s.log| ==> s'.reuses[e] == 0
    {
      CheckShifts(cfg, s, id, inAnswer, e);
    }
  }

  /** A bump that finds its key moves its count into the hits; a stray one leaves no address. */
  lemma BumpKeepsThrottle(cfg: Config, s: State, id: nat)
    requires Sane(cfg, s) && Throttled(cfg, s) && Enabled(cfg, s, Bump(id))
    ensures Throttled(cfg, Apply(cfg, s, Bump(id)))
  {
    var s' := Apply(cfg, s, Bump(id));
    forall e: nat
      ensures s'.reuses[e] + |Deciding(cfg, s', e)| <= Quota(cfg)
      ensures |Bumping(s', e)| >= |Bumping(s, e)| - 1
    {
      SetsAfterFinish(cfg, s, id, e);
    }
  }

  /** A store, atomic or not, begins an epoch that nobody has reused. */
  lemma StoreKeepsThrottle(cfg: Config, s: State, id: nat)
    requires Sane(cfg, s) && Throttled(cfg, s) && Enabled(cfg, s, Store(id))
    ensures Throttled(cfg, Apply(cfg, s, Store(id)))
  {
    var s' := Apply(cfg, s, Store(id));
    assert PhaseOK(cfg, s, s.agents[id]);
    forall e: nat ensures s'.reuses[e] + |Deciding(cfg, s', e)| <= Quota(cfg) {
      SetsAfterFinish(cfg, s, id, e);
    }
  }

  lemma HsetKeepsThrottle(cfg: Config, s: State, id: nat)
    requires Sane(cfg, s) && Throttled(cfg, s) && Enabled(cfg, s, Hset(id))
    ensures Throttled(cfg, Apply(cfg, s, Hset(id)))
  {
    var s' := Apply(cfg, s, Hset(id));
    assert PhaseOK(cfg, s, s.agents[id]);
    forall e: nat ensures s'.reuses[e] + |Deciding(cfg, s', e)| <= Quota(cfg) {
      SetsAfterCheck(cfg, s, id, s'.agents[id], e);
    }
  }

  predicate TouchesNoReuse(step: Step) {
    step.Tick? || step.Begin? || step.LoseLoad? || step.RaceDone? || step.Expire? || step.LoseStore?
  }

  lemma OtherSets(cfg: Config, s: State, step: Step, e: nat)
    requires Enabled(cfg, s, step) && TouchesNoReuse(step)
    ensures var s' := Apply(cfg, s, step);
            Deciding(cfg, s', e) == Deciding(cfg, s, e) && Bumping(s', e) == Bumping(s, e)
  {
  }

  lemma OtherStepsKeepThrottle(cfg: Config, s: State, step: Step)
    requires Throttled(cfg, s) && Enabled(cfg, s, step) && TouchesNoReuse(step)
    ensures Throttled(cfg, Apply(cfg, s, step))
  {
    var s' := Apply(cfg, s, step);
    OtherSets(cfg, s, step, |s.log|);
    forall e: nat ensures s'.reuses[e] + |Deciding(cfg, s', e)| <= Quota(cfg) {
      OtherSets(cfg, s, step, e);
    }
  }

  lemma {:induction false} ReachableThrottle(cfg: Config, steps: seq<Step>)
    requires Tuned(cfg) && LosesNoBump(steps)
    ensures Exec(cfg, steps).Some? ==> Throttled(cfg, Exec(cfg, steps).value)
  {
    if steps == [] {
      assert forall e: nat :: Deciding(cfg, INIT, e) == {};
    } else if Exec(cfg, steps).Some? {
      var init, step := steps[..|steps| - 1], steps[|steps| - 1];
      ReachableThrottle(cfg, init);
      ReachableSane(cfg, init);
      var s := Exec(cfg, init).value;
      match step
      case Load(id) => LoadKeepsThrottle(cfg, s, id);
      case Check(id, b) => CheckKeepsThrottle(cfg, s, id, b);
      case Bump(id) => BumpKeepsThrottle(cfg, s, id);
      case Store(id) => StoreKeepsThrottle(cfg, s, id);
      case Hset(id) => HsetKeepsThrottle(cfg, s, id);
      case LoseBump(id) => assert false;
      case _ => OtherStepsKeepThrottle(cfg, s, step);
    }
  }

  /**
   The throttle, in every configuration: when no bump is lost and at most c resolutions are between
   load and bump, one race's winner is reused at most recheckHits - 2 + c times; so recheckHits - 1
   times when they run in turn.
   */
  lemma ReuseIsThrottled(cfg: Config, steps: seq<Step>, epoch: nat)
    requires Tuned(cfg) && Exec(cfg, steps).Some? && LosesNoBump(steps)
    ensures Exec(cfg, steps).value.reuses[epoch] <= cfg.pref.recheckHits - 2 + cfg.concurrency
  {
    ReachableThrottle(cfg, steps);
  }

  // ---------------------------------------------------------------------------
  // The throttle is tight
  // ---------------------------------------------------------------------------

  /** At instant 0 only resolution 2 is about, racing, and the stored winner has been used `hits` times. */
  ghost predicate Resting(cfg: Config, s: State, hits: int) {
    && s.now == 0 && s.agents == map[2 := Racing] && |s.log| == 1
    && s.cell == StoreCell(WinAt(0).(hits := hits), cfg.pref.ttl, 0)
    && s.reuses[1] == hits - 1
  }

  /** One more reuse of the stored winner by a resolution on its own. */
  lemma ReuseOnce(cfg: Config, steps: seq<Step>, s: State, hits: int) returns (steps': seq<Step>, s': State)
    requires Tuned(cfg) && Reaches(cfg, steps, s)
    requires Resting(cfg, s, hits) && hits < cfg.pref.recheckHits
    ensures Reaches(cfg, steps', s') && Resting(cfg, s', hits + 1)
  {
    assert InFlight(s) == {};
    steps' := CommitOnce(cfg, steps, s, 1);
    var s1 := CommittedState(s, 1);
    Then(cfg, steps', s1, Bump(1));
    steps', s' := steps' + [Bump(1)], Apply(cfg, s1, Bump(1));
    assert s'.agents == map[2 := Racing];
  }

  /** A winner can be reused n times in turn, for every n below recheckHits. */
  lemma {:induction false} ReuseInTurn(cfg: Config, n: nat) returns (steps: seq<Step>, s: State)
    requires Tuned(cfg) && n < cfg.pref.recheckHits
    ensures Reaches(cfg, steps, s) && Resting(cfg, s, n + 1)
  {
    if n == 0 {
      steps, s := StoreFirst(cfg, 0);
    } else {
      steps, s := ReuseInTurn(cfg, n - 1);
      steps, s := ReuseOnce(cfg, steps, s, n);
    }
  }

  /** Resolutions 3, ..., k + 2 have decided to reuse the stored winner, and none has bumped. */
  ghost predicate Crowded(cfg: Config, s: State, k: nat) {
    && s.now == 0 && |s.log| == 1
    && s.cell == StoreCell(WinAt(0).(hits := cfg.pref.recheckHits - 1), cfg.pref.ttl, 0)
    && s.reuses[1] == cfg.pref.recheckHits - 2 + k
    && |InFlight(s)| == k && forall id :: id in s.agents ==> id < k + 3
  }

  lemma {:induction false} Crowd(cfg: Config, k: nat) returns (steps: seq<Step>, s: State)
    requires Tuned(cfg) && cfg.pref.recheckHits > 1 && k <= cfg.concurrency
    ensures Reaches(cfg, steps, s) && Crowded(cfg, s, k)
  {
    if k == 0 {
      steps, s := ReuseInTurn(cfg, cfg.pref.recheckHits - 2);
      assert InFlight(s) == {};
    } else {
      var s0;
      steps, s0 := Crowd(cfg, k - 1);
      steps := CommitOnce(cfg, steps, s0, k + 2);
      s := CommittedState(s0, k + 2);
      assert InFlight(s) == InFlight(s0) + {k + 2};
    }
  }

  /** The quota is reached, in turn and concurrently, by every configuration that reuses at all. */
  lemma QuotaIsReached(cfg: Config) returns (steps: seq<Step>)
    requires Tuned(cfg) && cfg.pref.recheckHits > 1
    ensures Exec(cfg, steps).Some? && LosesNoBump(steps)
    ensures Exec(cfg, steps).value.reuses[1] == cfg.pref.recheckHits - 2 + cfg.concurrency
  {
    var s;
    steps, s := Crowd(cfg, cfg.concurrency);
  }
}
