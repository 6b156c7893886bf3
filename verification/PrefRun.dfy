/**
 applyRace as a run of the preference system: taken by itself, it goes through the steps that the system
 interleaves, and leaves in the Redis hash what the method over the backend leaves there.
 */
module PrefRun {

  import opened Options
  import opened Dns
  import opened Narrow
  import Race
  import RaceTheorems
  import opened Pref
  import opened PrefSystem

  /** The system can take these steps from `s`, and then stands at `s'`. */
  ghost predicate Leads(cfg: Config, s: State, steps: seq<Step>, s': State)
    decreases |steps|
  {
    if steps == [] then s == s'
    else Enabled(cfg, s, steps[0]) && Leads(cfg, Apply(cfg, s, steps[0]), steps[1..], s')
  }

  lemma LeadsOn(cfg: Config, s: State, step: Step, rest: seq<Step>, s': State)
    requires Enabled(cfg, s, step) && Leads(cfg, Apply(cfg, s, step), rest, s')
    ensures Leads(cfg, s, [step] + rest, s')
  {
    assert ([step] + rest)[1..] == rest;
  }

  lemma TickTo(cfg: Config, s: State, t: int)
    requires s.now <= t
    ensures Enabled(cfg, s, Tick(t - s.now)) && Apply(cfg, s, Tick(t - s.now)) == s.(now := t)
  {
  }

  /** Time passes until an instant, and then a step is taken. */
  lemma TickThen(cfg: Config, s: State, t: int, step: Step, rest: seq<Step>, s': State)
    requires s.now <= t && Enabled(cfg, s.(now := t), step)
    requires Leads(cfg, Apply(cfg, s.(now := t), step), rest, s')
    ensures Leads(cfg, s, [Tick(t - s.now)] + ([step] + rest), s')
  {
    LeadsOn(cfg, s.(now := t), step, rest, s');
    TickTo(cfg, s, t);
    LeadsOn(cfg, s, Tick(t - s.now), [step] + rest, s');
  }

  /** The store operations of one applyRace are in order and each within its timeout. */
  predicate InTime(cfg: Config, s: State, clock: Clock) {
    && s.now <= clock.load <= clock.check <= clock.bump <= s.now + cfg.opTimeout
    && clock.check <= clock.stamp <= clock.store <= clock.expire <= clock.stamp + cfg.opTimeout
    && (cfg.atomic ==> clock.expire == clock.store)
  }

  /** The end of a race: its outcome is stored, in one step or in two. */
  lemma RaceAndStore(cfg: Config, s: State, id: nat, v: Race.Verdict, clock: Clock) returns (steps: seq<Step>, s': State)
    requires id in s.agents && s.agents[id].Racing? && s.now <= clock.stamp <= clock.store <= clock.expire
    requires clock.expire <= clock.stamp + cfg.opTimeout && (cfg.atomic ==> clock.expire == clock.store)
    requires v.Winner? ==> v.ip != ""
    ensures Leads(cfg, s, steps, s') && s'.agents == s.agents - {id} && s'.reuses == s.reuses
    ensures var e := Pref.Outcome(v, clock.stamp);
            && s'.cell == ExpireCell(HsetCell(s.cell, e, clock.store), TtlFor(cfg.pref, e.ip), clock.expire)
            && s'.log == s.log + [Record(e, clock.store)]
  {
    var e := Pref.Outcome(v, clock.stamp);
    var done := RaceDone(id, e.ip, e.via, e.rtt);
    var s1 := Apply(cfg, s.(now := clock.stamp), done);
    if clock.expire == clock.store {
      s' := Apply(cfg, s1.(now := clock.store), Store(id));
      TickThen(cfg, s1, clock.store, Store(id), [], s');
      steps := [Tick(clock.store - s1.now)] + ([Store(id)] + []);
      HsetThenExpire(s.cell, e, TtlFor(cfg.pref, e.ip), clock.store);
      assert s'.agents == s.agents - {id};
    } else {
      steps, s' := StoreInTwo(cfg, s1, id, e, clock);
    }
    TickThen(cfg, s, clock.stamp, done, steps, s');
    steps := [Tick(clock.stamp - s.now)] + ([done] + steps);
  }

  lemma StoreInTwo(cfg: Config, s: State, id: nat, e: PrefEntry, clock: Clock) returns (steps: seq<Step>, s': State)
    requires id in s.agents && s.agents[id] == Storing(clock.stamp, e) && !cfg.atomic
    requires s.now <= clock.store <= clock.expire <= clock.stamp + cfg.opTimeout
    ensures Leads(cfg, s, steps, s') && s'.agents == s.agents - {id} && s'.reuses == s.reuses
    ensures s'.cell == ExpireCell(HsetCell(s.cell, e, clock.store), TtlFor(cfg.pref, e.ip), clock.expire)
    ensures s'.log == s.log + [Record(e, clock.store)]
  {
    var s1 := Apply(cfg, s.(now := clock.store), Hset(id));
    s' := Apply(cfg, s1.(now := clock.expire), Expire(id));
    TickThen(cfg, s1, clock.expire, Expire(id), [], s');
    TickThen(cfg, s, clock.store, Hset(id), [Tick(clock.expire - s1.now)] + ([Expire(id)] + []), s');
    steps := [Tick(clock.store - s.now)] + ([Hset(id)] + ([Tick(clock.expire - s1.now)] + ([Expire(id)] + [])));
    assert s'.agents == s.agents - {id};
  }

  /** The world of one applyRace that consults this cell, over an answer whose addresses print as something. */
  ghost predicate Consults(cfg: Config, w: World, c: Cell, clock: Clock, m: Msg, qtype: QType) {
    && w.pref == Some(cfg.pref) && w.loaded == LoadCell(c, clock.load) && w.checkAt == clock.check
    && Possible(w, m, qtype) && Contested(m, qtype) && "" !in AnswerIPs(m.answer, qtype)
  }

  lemma WinnerHasText(cfg: Config, w: World, c: Cell, clock: Clock, m: Msg, qtype: QType)
    requires Consults(cfg, w, c, clock, m, qtype)
    ensures RaceVerdict(w, m, qtype).Winner? ==> RaceVerdict(w, m, qtype).ip != ""
  {
    var rc := RaceConfig(w, m, qtype);
    var k := RaceTheorems.DecidingPrefix(rc, w.events);
    RaceTheorems.AdmissiblePrefix(rc, w.events, k);
    RaceTheorems.VerdictExact(rc, w.events[..k], RaceVerdict(w, m, qtype));
  }

  /** The check of a loaded address comes to what applyPref decides. */
  lemma CheckDecides(cfg: Config, s: State, id: nat, w: World, c: Cell, clock: Clock, m: Msg, qtype: QType)
    requires Consults(cfg, w, c, clock, m, qtype) && s.now == clock.check
    requires id in s.agents && s.agents[id].Loaded? && w.loaded == Some(s.agents[id].entry) && w.loaded.value.ip.Some?
    ensures var a := s.agents[id];
            var s' := Apply(cfg, s, Check(id, a.entry.ip.value in AnswerIPs(m.answer, qtype)));
            && s'.cell == s.cell && s'.log == s.log && s'.now == s.now
            && (DecideIn(w, m, qtype).Reuse? ==> s'.agents == s.agents[id := Committed(a.start, a.epoch)])
            && (DecideIn(w, m, qtype).MustRace? ==> s'.agents == s.agents[id := Racing])
            && !DecideIn(w, m, qtype).KeepAnswer?
            && s'.reuses == if DecideIn(w, m, qtype).Reuse? then s.reuses + multiset{a.epoch} else s.reuses
  {
  }

  /** Where a load leaves a resolution. */
  lemma LoadMoves(cfg: Config, s: State, id: nat, t: int)
    requires id !in s.agents && |InFlight(s)| < cfg.concurrency && s.now <= t <= s.now + cfg.opTimeout
    ensures var s0 := Apply(cfg, s, Begin(id)).(now := t);
            && Enabled(cfg, s0, Load(id))
            && var s1, l := Apply(cfg, s0, Load(id)), LoadCell(s.cell, t);
               && s1.cell == s.cell && s1.log == s.log && s1.reuses == s.reuses && s1.now == t
               && s1.agents == (if l.None? then s.agents[id := Racing]
                                else if l.value.ip.None? then s.agents
                                else s.agents[id := Loaded(s.now, l.value, |s.log|)])
  {
    var s0 := Apply(cfg, s, Begin(id)).(now := t);
    assert InFlight(s0) == InFlight(s);
  }

  /** What storePref is called with after the race. */
  function RaceEntry(w: World, clock: Clock, m: Msg, qtype: QType): PrefEntry
    requires Race.AllInRange(RaceConfig(w, m, qtype), w.events)
    requires Race.Run(RaceConfig(w, m, qtype), w.events).Done?
  {
    Pref.Outcome(RaceVerdict(w, m, qtype), clock.stamp)
  }

  /** From a load that found an address on: a check, and then a bump or a race and a store. */
  lemma LoadedRuns(cfg: Config, s: State, id: nat, w: World, c: Cell, clock: Clock, m: Msg, qtype: QType)
    returns (steps: seq<Step>, s': State)
    requires Consults(cfg, w, c, clock, m, qtype)
    requires id in s.agents && s.agents[id].Loaded? && w.loaded == Some(s.agents[id].entry) && w.loaded.value.ip.Some?
    requires s.now <= clock.check <= clock.bump <= s.agents[id].start + cfg.opTimeout
    requires clock.check <= clock.stamp <= clock.store <= clock.expire <= clock.stamp + cfg.opTimeout
    requires cfg.atomic ==> clock.expire == clock.store
    ensures Leads(cfg, s, steps, s') && s'.agents == s.agents - {id}
    ensures s'.cell == CellAfter(w, s.cell, clock, m, qtype)
    ensures s'.log == if DecideIn(w, m, qtype).MustRace? then s.log + [Record(RaceEntry(w, clock, m, qtype), clock.store)] else s.log
    ensures s'.reuses == if DecideIn(w, m, qtype).Reuse? then s.reuses + multiset{s.agents[id].epoch} else s.reuses
  {
    var check := Check(id, s.agents[id].entry.ip.value in AnswerIPs(m.answer, qtype));
    CheckDecides(cfg, s.(now := clock.check), id, w, c, clock, m, qtype);
    var s1 := Apply(cfg, s.(now := clock.check), check);
    if DecideIn(w, m, qtype).Reuse? {
      s' := Apply(cfg, s1.(now := clock.bump), Bump(id));
      TickThen(cfg, s1, clock.bump, Bump(id), [], s');
      steps := [Tick(clock.bump - s1.now)] + ([Bump(id)] + []);
      assert s'.agents == s.agents - {id};
    } else {
      WinnerHasText(cfg, w, c, clock, m, qtype);
      steps, s' := RaceAndStore(cfg, s1, id, RaceVerdict(w, m, qtype), clock);
      assert s1.agents - {id} == s.agents - {id};
    }
    TickThen(cfg, s, clock.check, check, steps, s');
    steps := [Tick(clock.check - s.now)] + ([check] + steps);
  }

  /** What a run of applyRace leaves: the cell, and its traces in the log and among the reuses. */
  ghost predicate Leaves(cfg: Config, s: State, s': State, w: World, clock: Clock, m: Msg, qtype: QType)
    requires Possible(w, m, qtype)
  {
    var ips := AnswerIPs(m.answer, qtype);
    && s'.cell == CellAfter(w, s.cell, clock, m, qtype)
    && s'.log == (if CallsForRace(w, ips) then s.log + [Record(RaceEntry(w, clock, m, qtype), clock.store)] else s.log)
    && s'.reuses == (if w.loaded.Some? && Usable(cfg.pref, w.loaded.value, w.checkAt, ips)
                     then s.reuses + multiset{|s.log|} else s.reuses)
  }

  /** From the load on, whatever it found. */
  lemma AfterLoad(cfg: Config, s: State, s1: State, id: nat, w: World, clock: Clock, m: Msg, qtype: QType)
    returns (steps: seq<Step>, s': State)
    requires id !in s.agents && InTime(cfg, s, clock) && Consults(cfg, w, s.cell, clock, m, qtype)
    requires s1.cell == s.cell && s1.log == s.log && s1.reuses == s.reuses && s1.now == clock.load
    requires s1.agents == (if w.loaded.None? then s.agents[id := Racing]
                           else if w.loaded.value.ip.None? then s.agents
                           else s.agents[id := Loaded(s.now, w.loaded.value, |s.log|)])
    ensures Leads(cfg, s1, steps, s') && s'.agents == s.agents && Leaves(cfg, s, s', w, clock, m, qtype)
  {
    DecidesBy(w, m, qtype);
    if w.loaded.None? {
      WinnerHasText(cfg, w, s.cell, clock, m, qtype);
      steps, s' := RaceAndStore(cfg, s1, id, RaceVerdict(w, m, qtype), clock);
    } else if w.loaded.value.ip.None? {
      steps, s' := [], s1;
    } else {
      steps, s' := LoadedRuns(cfg, s1, id, w, s.cell, clock, m, qtype);
    }
    assert s'.agents == s.agents;
  }

  /**
   One applyRace by itself is a run of the system, which leaves in the cell what RunApplyRace leaves there
   and no resolution behind; the run logs a store exactly when a race is called for, and counts a reuse
   exactly when the loaded entry is usable.
   */
  lemma ApplyRaceIsARun(cfg: Config, s: State, id: nat, w: World, clock: Clock, m: Msg, qtype: QType)
    returns (steps: seq<Step>, s': State)
    requires id !in s.agents && |InFlight(s)| < cfg.concurrency && InTime(cfg, s, clock)
    requires Consults(cfg, w, s.cell, clock, m, qtype)
    ensures Leads(cfg, s, steps, s') && s'.agents == s.agents && Leaves(cfg, s, s', w, clock, m, qtype)
  {
    var s0 := Apply(cfg, s, Begin(id));
    LoadMoves(cfg, s, id, clock.load);
    var s1 := Apply(cfg, s0.(now := clock.load), Load(id));
    steps, s' := AfterLoad(cfg, s, s1, id, w, clock, m, qtype);
    TickThen(cfg, s0, clock.load, Load(id), steps, s');
    steps := [Tick(clock.load - s0.now)] + ([Load(id)] + steps);
    LeadsOn(cfg, s, Begin(id), steps, s');
    steps := [Begin(id)] + steps;
  }
}
