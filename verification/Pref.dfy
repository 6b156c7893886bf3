/**
 The preferred-IP cache (internal/resolver/pref.go and pref_redis.go) and applyRace, which consults
 it before racing. One Redis hash per (name, type) holds the outcome of the last race.
 */
module Pref {

  import opened Options
  import opened Dns
  import opened Narrow
  import opened Race
  import opened RaceTheorems
  import Keys

  // ---------------------------------------------------------------------------
  // The Redis hash
  // ---------------------------------------------------------------------------

  /** The fields of one hash, each possibly absent, and the key's expiry, if it has one. */
  datatype Hash = Hash(
    ip: Option<string>,
    via: Option<string>,
    rttUs: Option<int>,
    hits: Option<int>,
    updated: Option<int>,
    expireAt: Option<int>)

  const EMPTY_HASH := Hash(None, None, None, None, None, None)

  type Cell = Option<Hash>

  /** The key exists for Redis: it was written and has not expired. */
  predicate Live(c: Cell, now: int) {
    c.Some? && (c.value.expireAt.Some? ==> now < c.value.expireAt.value)
  }

  datatype PrefEntry = PrefEntry(ip: Option<string>, via: string, rtt: int, hits: int, updated: int)

  const MICROSECOND := 1000

  /** The instant of Go's zero time.Time, in Unix nanoseconds. */
  const ZERO_TIME := -62_135_596_800 * SECOND

  /** LoadPref: an absent or empty `ip` field reads as a negative entry. */
  function LoadCell(c: Cell, now: int): Option<PrefEntry> {
    if !Live(c, now) then
      None
    else
      var h := c.value;
      Some(PrefEntry(
        if h.ip.Some? && h.ip.value != "" then h.ip else None,
        h.via.GetOr(""),
        h.rttUs.GetOr(0) * MICROSECOND,
        h.hits.GetOr(0),
        if h.updated.Some? then h.updated.value * SECOND else ZERO_TIME))
  }

  /** StorePref when its HSET and EXPIRE land together. Instants are kept to whole seconds. */
  function StoreCell(e: PrefEntry, ttl: int, now: int): Cell {
    Some(Hash(
      Some(e.ip.GetOr("")),
      Some(e.via),
      Some(e.rtt / MICROSECOND),
      Some(e.hits),
      Some(e.updated / SECOND),
      Some(now + ttl)))
  }

  /** StorePref's two pipelined commands. HSET leaves a live key's expiry as it is ... */
  function HsetCell(c: Cell, e: PrefEntry, now: int): Cell {
    var h := if Live(c, now) then c.value else EMPTY_HASH;
    Some(h.(ip := Some(e.ip.GetOr("")), via := Some(e.via), rttUs := Some(e.rtt / MICROSECOND),
            hits := Some(e.hits), updated := Some(e.updated / SECOND)))
  }

  /** ... and EXPIRE does nothing to a key that does not exist. */
  function ExpireCell(c: Cell, ttl: int, now: int): Cell {
    if Live(c, now) then Some(c.value.(expireAt := Some(now + ttl))) else c
  }

  /** BumpPref: HINCRBY creates the hash, with no expiry, when the key does not exist. */
  function BumpCell(c: Cell, now: int): Cell {
    var h := if Live(c, now) then c.value else EMPTY_HASH;
    Some(h.(hits := Some(h.hits.GetOr(0) + 1)))
  }

  /**
   Storing and loading gives the entry back until it expires, with its instant floored to seconds:
   the age computed from a loaded entry never understates its true age, by up to a second.
   */
  lemma StoreLoadRoundTrip(e: PrefEntry, ttl: int, at: int, now: int)
    requires at <= now < at + ttl
    requires e.ip.Some? ==> e.ip.value != ""
    ensures var l := LoadCell(StoreCell(e, ttl, at), now);
            && l.Some? && l.value.ip == e.ip && l.value.via == e.via && l.value.hits == e.hits
            && l.value.updated <= e.updated < l.value.updated + SECOND
            && l.value.rtt <= e.rtt < l.value.rtt + MICROSECOND
  {
  }

  /** Whatever the key held, HSET and EXPIRE at one instant leave the stored entry and nothing else. */
  lemma HsetThenExpire(c: Cell, e: PrefEntry, ttl: int, now: int)
    ensures ExpireCell(HsetCell(c, e, now), ttl, now) == StoreCell(e, ttl, now)
  {
  }

  /** An entry is there exactly until its lifetime is over. */
  lemma StoredUntil(e: PrefEntry, ttl: int, at: int, now: int)
    ensures LoadCell(StoreCell(e, ttl, at), now).Some? <==> now < at + ttl
  {
  }

  /** Missing fields load as Go's zero values: here, of a hash that holds nothing but a hit count. */
  lemma LoadOfCountOnly(hits: int, now: int)
    ensures LoadCell(Some(Hash(None, None, None, Some(hits), None, None)), now)
            == Some(PrefEntry(None, "", 0, hits, -62_135_596_800 * 1_000_000_000))
  {
  }

  /** A bump of a live key adds one hit and keeps everything else, the expiry included. */
  lemma BumpLoads(c: Cell, now: int, later: int)
    requires Live(c, now) && now <= later
    ensures LoadCell(BumpCell(c, now), later).Some? <==> LoadCell(c, later).Some?
    ensures LoadCell(c, later).Some? ==>
              var l, l' := LoadCell(c, later).value, LoadCell(BumpCell(c, now), later).value;
              && l'.hits == l.hits + 1
              && l'.ip == l.ip && l'.via == l.via && l'.rtt == l.rtt && l'.updated == l.updated
  {
  }

  /** A bump that finds no key leaves a negative entry that never expires. */
  lemma StrayBumpIsForever(c: Cell, now: int, later: int)
    requires !Live(c, now) && now <= later
    ensures var l := LoadCell(BumpCell(c, now), later); l.Some? && l.value.ip.None?
    ensures BumpCell(c, now).value.expireAt.None?
  {
  }

  /** redisPrefBackend over the hashes it stores. */
  class RedisPrefBackend {
    var hashes: map<string, Hash>

    function CellAt(key: string): Cell
      reads this
    {
      if key in hashes then Some(hashes[key]) else None
    }

    constructor ()
      ensures hashes == map[]
    {
      hashes := map[];
    }

    method LoadPref(key: string, now: int) returns (e: Option<PrefEntry>)
      ensures e == LoadCell(CellAt(key), now)
    {
      if key !in hashes || !Live(Some(hashes[key]), now) {
        return None;
      }
      var h := hashes[key];
      var entry := PrefEntry(None, h.via.GetOr(""), 0, 0, ZERO_TIME);
      if h.ip.Some? && h.ip.value != "" {
        entry := entry.(ip := h.ip);
      }
      if h.rttUs.Some? {
        entry := entry.(rtt := h.rttUs.value * MICROSECOND);
      }
      if h.hits.Some? {
        entry := entry.(hits := h.hits.value);
      }
      if h.updated.Some? {
        entry := entry.(updated := h.updated.value * SECOND);
      }
      return Some(entry);
    }

    /** The HSET is taken at one instant and the EXPIRE at another. */
    method StorePref(key: string, e: PrefEntry, ttl: int, now: int, later: int)
      modifies this
      ensures CellAt(key) == ExpireCell(HsetCell(old(CellAt(key)), e, now), ttl, later)
      ensures now == later ==> CellAt(key) == StoreCell(e, ttl, now)
      ensures hashes == old(hashes)[key := CellAt(key).value]
    {
      var ipStr := "";
      if e.ip.Some? {
        ipStr := e.ip.value;
      }
      var h := if key in hashes && Live(Some(hashes[key]), now) then hashes[key] else EMPTY_HASH;
      h := h.(ip := Some(ipStr), via := Some(e.via), rttUs := Some(e.rtt / MICROSECOND),
              hits := Some(e.hits), updated := Some(e.updated / SECOND));
      if Live(Some(h), later) {
        h := h.(expireAt := Some(later + ttl));
      }
      hashes := hashes[key := h];
    }

    method BumpPref(key: string, now: int)
      modifies this
      ensures CellAt(key) == BumpCell(old(CellAt(key)), now)
      ensures hashes == old(hashes)[key := CellAt(key).value]
    {
      var h := if key in hashes && Live(Some(hashes[key]), now) then hashes[key] else EMPTY_HASH;
      hashes := hashes[key := h.(hits := Some(h.hits.GetOr(0) + 1))];
    }
  }

  // ---------------------------------------------------------------------------
  // applyPref and storePref
  // ---------------------------------------------------------------------------

  datatype PrefConfig = PrefConfig(ttl: int, negTTL: int, recheckHits: int, recheckAge: int)

  datatype Decision = KeepAnswer | Reuse(ip: string) | MustRace

  /** What applyPref makes of a loaded entry at instant `now`. */
  function Decide(cfg: PrefConfig, loaded: Option<PrefEntry>, now: int, ips: seq<string>): Decision {
    if loaded.None? then MustRace
    else
      var e := loaded.value;
      if e.ip.None? then KeepAnswer
      else if e.hits >= cfg.recheckHits || now - e.updated > cfg.recheckAge then MustRace
      else if e.ip.value !in ips then MustRace
      else Reuse(e.ip.value)
  }

  function TtlFor(cfg: PrefConfig, ip: Option<string>): int {
    if ip.None? then cfg.negTTL else cfg.ttl
  }

  /** The entry storePref writes: a first hit, stamped with the instant of the call. */
  function FreshEntry(ip: Option<string>, via: string, rtt: int, stamp: int): PrefEntry {
    PrefEntry(ip, via, rtt, 1, stamp)
  }

  function ViaText(via: Via): string {
    match via
    case Tcp(_, port) => "tcp/" + Keys.Itoa(port)
    case Icmp => "icmp"
  }

  function Outcome(v: Verdict, stamp: int): PrefEntry {
    match v
    case NoWinner => FreshEntry(None, "", 0, stamp)
    case Winner(ip, via, rtt) => FreshEntry(Some(ip), ViaText(via), rtt, stamp)
  }

  // ---------------------------------------------------------------------------
  // applyRace
  // ---------------------------------------------------------------------------

  /** The answer holds two or more addresses of the queried type. */
  predicate Raceable(m: Msg, qtype: QType) {
    && m.rcode == RCODE_SUCCESS
    && (qtype == TYPE_A || qtype == TYPE_AAAA)
    && |AnswerIPs(m.answer, qtype)| >= 2
  }

  /** Everything applyRace meets from outside: the loaded entry, the clock and the race's events. */
  datatype World = World(
    pref: Option<PrefConfig>,
    loaded: Option<PrefEntry>,
    checkAt: int,
    ports: seq<nat>,
    icmp: bool,
    events: seq<Event>)

  function RaceConfig(w: World, m: Msg, qtype: QType): Config {
    Config(AnswerIPs(m.answer, qtype), w.ports, w.icmp)
  }

  /** The events are those of a race over this message, and it returns. */
  ghost predicate Possible(w: World, m: Msg, qtype: QType) {
    var cfg := RaceConfig(w, m, qtype);
    Admissible(cfg, w.events) && Run(cfg, w.events).Done?
  }

  function DecideIn(w: World, m: Msg, qtype: QType): Decision {
    if w.pref.None? then MustRace
    else Decide(w.pref.value, w.loaded, w.checkAt, AnswerIPs(m.answer, qtype))
  }

  function RaceVerdict(w: World, m: Msg, qtype: QType): Verdict
    requires AllInRange(RaceConfig(w, m, qtype), w.events)
    requires Run(RaceConfig(w, m, qtype), w.events).Done?
  {
    Run(RaceConfig(w, m, qtype), w.events).v
  }

  function ApplyRace(w: World, m: Msg, qtype: QType): Msg
    requires AllInRange(RaceConfig(w, m, qtype), w.events)
    requires Run(RaceConfig(w, m, qtype), w.events).Done?
  {
    if !Raceable(m, qtype) then
      m
    else
      match DecideIn(w, m, qtype)
      case KeepAnswer => m
      case Reuse(ip) => Narrowed(m, qtype, ip)
      case MustRace =>
        match RaceVerdict(w, m, qtype)
        case NoWinner => m
        case Winner(ip, _, _) => Narrowed(m, qtype, ip)
  }

  /** The instants at which applyRace touches the store. */
  datatype Clock = Clock(load: int, check: int, bump: int, stamp: int, store: int, expire: int)

  /** What one applyRace leaves in the cell it consults. */
  function CellAfter(w: World, c: Cell, clock: Clock, m: Msg, qtype: QType): Cell
    requires AllInRange(RaceConfig(w, m, qtype), w.events)
    requires Run(RaceConfig(w, m, qtype), w.events).Done?
  {
    if !Raceable(m, qtype) || w.pref.None? then
      c
    else
      match DecideIn(w, m, qtype)
      case KeepAnswer => c
      case Reuse(_) => BumpCell(c, clock.bump)
      case MustRace =>
        var e := Outcome(RaceVerdict(w, m, qtype), clock.stamp);
        ExpireCell(HsetCell(c, e, clock.store), TtlFor(w.pref.value, e.ip), clock.expire)
  }

  /** The key is that of the first question's name, as it stands in the message. */
  function KeyOf(tab: Keys.TypeTable, m: Msg, qtype: QType): string {
    Keys.PrefKey(tab, if m.question == [] then "" else m.question[0].name, qtype)
  }

  /** applyPref: the final message, or None when a race must run. */
  method ApplyPref(backend: RedisPrefBackend, key: string, cfg: PrefConfig, clock: Clock, ips: seq<string>, m: Msg, qtype: QType)
    returns (out: Option<Msg>)
    modifies backend
    ensures var d := Decide(cfg, LoadCell(old(backend.CellAt(key)), clock.load), clock.check, ips);
            match d
            case MustRace => out == None && backend.hashes == old(backend.hashes)
            case KeepAnswer => out == Some(m) && backend.hashes == old(backend.hashes)
            case Reuse(ip) =>
              && out == Some(Narrowed(m, qtype, ip))
              && backend.hashes == old(backend.hashes)[key := BumpCell(old(backend.CellAt(key)), clock.bump).value]
  {
    var e := backend.LoadPref(key, clock.load);
    if e.None? {
      return None;
    }
    if e.value.ip.None? {
      return Some(m);
    }
    if e.value.hits >= cfg.recheckHits || clock.check - e.value.updated > cfg.recheckAge {
      return None;
    }
    var found := IpIn(ips, e.value.ip.value);
    if !found {
      return None;
    }
    backend.BumpPref(key, clock.bump);
    var narrowed := NarrowMsg(m, qtype, e.value.ip.value);
    return Some(narrowed);
  }

  /** applyRace with applyPref and storePref, over the backend's hashes. */
  method RunApplyRace(backend: RedisPrefBackend, tab: Keys.TypeTable, w: World, clock: Clock, m: Msg, qtype: QType)
    returns (out: Msg)
    requires AllInRange(RaceConfig(w, m, qtype), w.events)
    requires Run(RaceConfig(w, m, qtype), w.events).Done?
    requires w.loaded == LoadCell(backend.CellAt(KeyOf(tab, m, qtype)), clock.load) && w.checkAt == clock.check
    modifies backend
    ensures out == ApplyRace(w, m, qtype)
    ensures backend.CellAt(KeyOf(tab, m, qtype)) == CellAfter(w, old(backend.CellAt(KeyOf(tab, m, qtype))), clock, m, qtype)
    ensures forall k :: k != KeyOf(tab, m, qtype) ==> backend.CellAt(k) == old(backend.CellAt(k))
  {
    if m.rcode != RCODE_SUCCESS || (qtype != TYPE_A && qtype != TYPE_AAAA) {
      return m;
    }
    var ips := ComputeAnswerIPs(m.answer, qtype);
    if |ips| < 2 {
      return m;
    }
    var key := KeyOf(tab, m, qtype);
    if w.pref.Some? {
      var settled := ApplyPref(backend, key, w.pref.value, clock, ips, m, qtype);
      if settled.Some? {
        return settled.value;
      }
    }
    var verdict := PickWinner(RaceConfig(w, m, qtype), w.events);
    var v := verdict.v;
    if w.pref.Some? {
      var e := Outcome(v, clock.stamp);
      backend.StorePref(key, e, TtlFor(w.pref.value, e.ip), clock.store, clock.expire);
    }
    match v
    case NoWinner =>
      return m;
    case Winner(ip, _, _) =>
      out := NarrowMsg(m, qtype, ip);
  }

  // ---------------------------------------------------------------------------
  // Racing may narrow an answer, never break one
  // ---------------------------------------------------------------------------

  /** `at` lists exactly the positions of the records with no address of the queried type, or with `ip`. */
  ghost predicate SelectedAt(rrs: seq<RR>, qtype: QType, ip: string, at: seq<nat>) {
    forall i: nat :: i in at <==> i < |rrs| && RecordIP(rrs[i], qtype) in {None, Some(ip)}
  }

  /** `out` is `m` with its addresses of the queried type cut down to the one address `ip`. */
  ghost predicate NarrowedTo(m: Msg, qtype: QType, ip: string, out: Msg) {
    && ip in AnswerIPs(m.answer, qtype)
    && AnswerIPs(out.answer, qtype) == [ip]
    && out == m.(answer := out.answer)
    && (exists at: seq<nat> :: SubsequenceAt(out.answer, m.answer, at) && SelectedAt(m.answer, qtype, ip, at))
  }

  /** A successful answer with two or more addresses of the queried type, A or AAAA. */
  predicate Contested(m: Msg, qtype: QType) {
    m.rcode == 0 && (qtype == 1 || qtype == 28) && |AnswerIPs(m.answer, qtype)| >= 2
  }

  /** For every store contents and every race, the answer comes back whole or properly narrowed. */
  lemma NarrowingNeverBreaks(w: World, m: Msg, qtype: QType)
    requires Possible(w, m, qtype)
    ensures var out := ApplyRace(w, m, qtype);
            out == m || (Contested(m, qtype) && exists ip :: NarrowedTo(m, qtype, ip, out))
  {
    var ips := AnswerIPs(m.answer, qtype);
    if Raceable(m, qtype) {
      match DecideIn(w, m, qtype)
      case KeepAnswer =>
      case Reuse(ip) => NarrowedIsSafe(m, qtype, ip);
      case MustRace =>
        var cfg := RaceConfig(w, m, qtype);
        var k := DecidingPrefix(cfg, w.events);
        AdmissiblePrefix(cfg, w.events, k);
        VerdictExact(cfg, w.events[..k], RaceVerdict(w, m, qtype));
        match RaceVerdict(w, m, qtype)
        case NoWinner =>
        case Winner(ip, _, _) => NarrowedIsSafe(m, qtype, ip);
    }
  }

  lemma NarrowedIsSafe(m: Msg, qtype: QType, ip: string)
    requires ip in AnswerIPs(m.answer, qtype)
    ensures NarrowedTo(m, qtype, ip, Narrowed(m, qtype, ip))
  {
    var out := Narrowed(m, qtype, ip);
    NarrowedIPs(m.answer, qtype, ip);
    KeptInOrder(m.answer, qtype, ip);
    KeptAtExact(m.answer, qtype, ip);
    var at := KeptAt(m.answer, qtype, ip);
    assert SubsequenceAt(out.answer, m.answer, at) && SelectedAt(m.answer, qtype, ip, at);
  }

  // ---------------------------------------------------------------------------
  // What decides the answer, and what is remembered
  // ---------------------------------------------------------------------------

  /** The loaded entry names an address of the answer and has neither hits nor age against it. */
  predicate Usable(cfg: PrefConfig, e: PrefEntry, now: int, ips: seq<string>) {
    && e.ip.Some? && e.ip.value in ips
    && e.hits < cfg.recheckHits && now - e.updated <= cfg.recheckAge
  }

  /** Nothing remembered settles the matter. */
  predicate CallsForRace(w: World, ips: seq<string>) {
    w.pref.Some? && w.loaded.Some? ==>
      w.loaded.value.ip.Some? && !Usable(w.pref.value, w.loaded.value, w.checkAt, ips)
  }

  /** The verdict of this world's race over these addresses. */
  ghost predicate Races(w: World, ips: seq<string>, v: Verdict) {
    var cfg := Config(ips, w.ports, w.icmp);
    && AllInRange(cfg, w.events)
    && exists k :: 0 <= k <= |w.events| && Decides(cfg, w.events[..k], v)
  }

  lemma RacesOnce(w: World, m: Msg, qtype: QType, v: Verdict)
    requires Possible(w, m, qtype) && Races(w, AnswerIPs(m.answer, qtype), v)
    ensures RaceVerdict(w, m, qtype) == v
  {
    var cfg := RaceConfig(w, m, qtype);
    var k :| 0 <= k <= |w.events| && Decides(cfg, w.events[..k], v);
    DoneIsFinal(cfg, w.events, k);
  }

  /** The winner is an address of the answer. */
  lemma WinnerListed(w: World, m: Msg, qtype: QType, v: Verdict)
    requires Possible(w, m, qtype) && Races(w, AnswerIPs(m.answer, qtype), v) && v.Winner?
    ensures v.ip in AnswerIPs(m.answer, qtype)
  {
    var cfg := RaceConfig(w, m, qtype);
    var k :| 0 <= k <= |w.events| && Decides(cfg, w.events[..k], v);
    AdmissiblePrefix(cfg, w.events, k);
    VerdictExact(cfg, w.events[..k], v);
  }

  /** When a race is called for, its winner is what the answer is narrowed to. */
  lemma RaceDecides(w: World, m: Msg, qtype: QType, v: Verdict)
    requires Possible(w, m, qtype) && Contested(m, qtype)
    requires var ips := AnswerIPs(m.answer, qtype); CallsForRace(w, ips) && Races(w, ips, v)
    ensures v.Winner? ==> NarrowedTo(m, qtype, v.ip, ApplyRace(w, m, qtype))
    ensures v.NoWinner? ==> ApplyRace(w, m, qtype) == m
  {
    RacesOnce(w, m, qtype, v);
    DecidesBy(w, m, qtype);
    if v.Winner? {
      WinnerListed(w, m, qtype, v);
      NarrowedIsSafe(m, qtype, v.ip);
      assert ApplyRace(w, m, qtype) == Narrowed(m, qtype, v.ip);
    }
  }

  /** applyPref decides by these conditions, and by no others. */
  lemma DecidesBy(w: World, m: Msg, qtype: QType)
    ensures var ips := AnswerIPs(m.answer, qtype);
            var d := DecideIn(w, m, qtype);
            && (CallsForRace(w, ips) <==> d.MustRace?)
            && (w.pref.Some? && w.loaded.Some? && Usable(w.pref.value, w.loaded.value, w.checkAt, ips) ==>
                  d == Reuse(w.loaded.value.ip.value))
  {
  }

  /** A usable entry decides without a race, and the answer is narrowed to that very address. */
  lemma EntryDecides(w: World, m: Msg, qtype: QType)
    requires Possible(w, m, qtype) && Contested(m, qtype) && w.pref.Some? && w.loaded.Some?
    requires Usable(w.pref.value, w.loaded.value, w.checkAt, AnswerIPs(m.answer, qtype))
    ensures NarrowedTo(m, qtype, w.loaded.value.ip.value, ApplyRace(w, m, qtype))
  {
    DecidesBy(w, m, qtype);
    assert ApplyRace(w, m, qtype) == Narrowed(m, qtype, w.loaded.value.ip.value);
    NarrowedIsSafe(m, qtype, w.loaded.value.ip.value);
  }

  /** A negative entry keeps the answer whole, and so does an answer that nobody contests. */
  lemma NothingToNarrow(w: World, m: Msg, qtype: QType)
    requires Possible(w, m, qtype)
    requires !Contested(m, qtype) || (w.pref.Some? && w.loaded.Some? && w.loaded.value.ip.None?)
    ensures ApplyRace(w, m, qtype) == m
  {
  }

  /** How a winner is written down. */
  predicate WrittenAs(via: Via, text: string) {
    match via
    case Tcp(_, port) => text == "tcp/" + Keys.Itoa(port)
    case Icmp => text == "icmp"
  }

  /**
   A race is remembered. When HSET and EXPIRE land together, then until the lifetime of its kind is over,
   and not after, the key loads the race's outcome: the winner with its means and round trip, or none,
   with one hit and the instant of the call floored to seconds.
   */
  lemma RaceIsRemembered(w: World, c: Cell, clock: Clock, m: Msg, qtype: QType, v: Verdict, now: int)
    requires Possible(w, m, qtype) && Contested(m, qtype) && w.pref.Some?
    requires var ips := AnswerIPs(m.answer, qtype); CallsForRace(w, ips) && Races(w, ips, v)
    requires clock.expire == clock.store && (v.Winner? ==> v.ip != "")
    ensures var l := LoadCell(CellAfter(w, c, clock, m, qtype), now);
            && (l.Some? <==> now < clock.store + if v.Winner? then w.pref.value.ttl else w.pref.value.negTTL)
            && (l.Some? ==>
                  && l.value.hits == 1 && l.value.updated <= clock.stamp < l.value.updated + 1_000_000_000
                  && (v.NoWinner? ==> l.value.ip.None?)
                  && (v.Winner? ==>
                        && l.value.ip == Some(v.ip) && WrittenAs(v.via, l.value.via)
                        && l.value.rtt <= v.rtt < l.value.rtt + 1000))
  {
    RacesOnce(w, m, qtype, v);
    var e := Outcome(v, clock.stamp);
    HsetThenExpire(c, e, TtlFor(w.pref.value, e.ip), clock.store);
    StoredUntil(e, TtlFor(w.pref.value, e.ip), clock.store, now);
  }

  /** A reuse is counted: the live key loads one more hit, and nothing else is new. */
  lemma ReuseIsCounted(w: World, c: Cell, clock: Clock, m: Msg, qtype: QType, now: int)
    requires Possible(w, m, qtype) && Contested(m, qtype) && w.pref.Some? && w.loaded.Some?
    requires Usable(w.pref.value, w.loaded.value, w.checkAt, AnswerIPs(m.answer, qtype))
    requires Live(c, clock.bump) && clock.bump <= now && Live(c, now)
    ensures var l, l' := LoadCell(c, now), LoadCell(CellAfter(w, c, clock, m, qtype), now);
            l.Some? && l' == Some(l.value.(hits := l.value.hits + 1))
  {
    BumpLoads(c, clock.bump, now);
  }

  /** Without a preference cache, a contest or a positive entry, nothing is written. */
  lemma NothingToRemember(w: World, c: Cell, clock: Clock, m: Msg, qtype: QType)
    requires Possible(w, m, qtype)
    requires w.pref.None? || !Contested(m, qtype) || (w.loaded.Some? && w.loaded.value.ip.None?)
    ensures CellAfter(w, c, clock, m, qtype) == c
  {
  }

  /** A narrowed answer is final: applying the race to it again, in any world, returns it. */
  lemma NarrowedIsFinal(w: World, m: Msg, qtype: QType, again: World)
    requires Possible(w, m, qtype) && ApplyRace(w, m, qtype) != m
    requires Possible(again, ApplyRace(w, m, qtype), qtype)
    ensures ApplyRace(again, ApplyRace(w, m, qtype), qtype) == ApplyRace(w, m, qtype)
  {
    NarrowingNeverBreaks(w, m, qtype);
  }

  /** A race that a first-port connect to the first address wins at once. */
  lemma FirstConnectWins(ips: seq<string>)
    requires ips != []
    ensures var cfg, tr := Config(ips, [443], false), [TcpDone(0, 0, 1, true)];
            Admissible(cfg, tr) && Run(cfg, tr) == Done(Winner(ips[0], Tcp(0, 443), 1))
  {
    var cfg, tr := Config(ips, [443], false), [TcpDone(0, 0, 1, true)];
    assert tr[..0] == [];
    assert Run(cfg, []) == Running(Init(cfg));
  }

  /** A race that narrows the answer to its first address. */
  lemma SomeRaceNarrows(m: Msg, qtype: QType) returns (w: World)
    requires Raceable(m, qtype)
    ensures Possible(w, m, qtype) && ApplyRace(w, m, qtype) == Narrowed(m, qtype, AnswerIPs(m.answer, qtype)[0])
  {
    FirstConnectWins(AnswerIPs(m.answer, qtype));
    w := World(None, None, 0, [443], false, [TcpDone(0, 0, 1, true)]);
  }

  lemma NarrowedDiffers(m: Msg, qtype: QType)
    requires Raceable(m, qtype)
    ensures Narrowed(m, qtype, AnswerIPs(m.answer, qtype)[0]) != m
  {
    NarrowedIPs(m.answer, qtype, AnswerIPs(m.answer, qtype)[0]);
  }

  /**
   An answer that came back whole may still be narrowed by a later race: a message is untouched by
   every possible race exactly when it holds fewer than two candidate addresses.
   */
  lemma UntouchableIff(m: Msg, qtype: QType)
    ensures (forall w :: Possible(w, m, qtype) ==> ApplyRace(w, m, qtype) == m) <==> !Contested(m, qtype)
  {
    if Raceable(m, qtype) {
      var w := SomeRaceNarrows(m, qtype);
      NarrowedDiffers(m, qtype);
    }
  }
}
