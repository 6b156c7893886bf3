/** DNS messages, and the cache lifetimes derived from them. */
module Dns {

  type QType = t: nat | t < 0x1_0000
  type Ttl = t: nat | t < 0x1_0000_0000

  const TYPE_A: QType := 1
  const TYPE_AAAA: QType := 28
  const RCODE_SUCCESS := 0
  const RCODE_NAME_ERROR := 3

  /** Nanoseconds in a second: durations and instants are in nanoseconds throughout. */
  const SECOND := 1_000_000_000

  datatype RR =
    | A(name: string, ttl: Ttl, ip: string)
    | AAAA(name: string, ttl: Ttl, ip: string)
    | SOA(name: string, ttl: Ttl, minttl: Ttl)
    | Other(name: string, rrtype: QType, ttl: Ttl, data: string)

  datatype Question = Question(name: string, qtype: QType)

  datatype Msg = Msg(
    id: nat,
    rcode: nat,
    question: seq<Question>,
    answer: seq<RR>,
    ns: seq<RR>,
    extra: seq<RR>)

  // ---------------------------------------------------------------------------
  // MinTTL
  // ---------------------------------------------------------------------------

  /** The TTL values a record contributes; section 5 of RFC 2308 adds the SOA minimum. */
  predicate Offers(rr: RR, authority: bool, t: Ttl) {
    t == rr.ttl || (authority && rr.SOA? && t == rr.minttl)
  }

  /** `t` is one of the TTLs of the message's answer and authority records. */
  ghost predicate CarriesTtl(m: Msg, t: Ttl) {
    || (exists i :: 0 <= i < |m.answer| && Offers(m.answer[i], false, t))
    || (exists i :: 0 <= i < |m.ns| && Offers(m.ns[i], true, t))
  }

  /** `r` is the least positive TTL the message carries, or 0 when it carries none. */
  ghost predicate IsMinTtl(m: Msg, r: Ttl) {
    && (r > 0 ==> CarriesTtl(m, r))
    && forall t: Ttl :: CarriesTtl(m, t) && t > 0 ==> 0 < r <= t
  }

  function Consider(min: Ttl, ttl: Ttl): Ttl {
    if ttl > 0 && (min == 0 || ttl < min) then ttl else min
  }

  function ScanAnswer(rrs: seq<RR>): Ttl {
    if rrs == [] then 0 else Consider(ScanAnswer(rrs[..|rrs| - 1]), rrs[|rrs| - 1].ttl)
  }

  function ScanNs(min: Ttl, rrs: seq<RR>): Ttl {
    if rrs == [] then
      min
    else
      var rr := rrs[|rrs| - 1];
      var m := Consider(ScanNs(min, rrs[..|rrs| - 1]), rr.ttl);
      if rr.SOA? then Consider(m, rr.minttl) else m
  }

  function MinTtl(m: Msg): Ttl { ScanNs(ScanAnswer(m.answer), m.ns) }

  /** The two loops of MinTTL over its running minimum. */
  method ComputeMinTtl(m: Msg) returns (min: Ttl)
    ensures min == MinTtl(m)
    ensures IsMinTtl(m, min)
  {
    min := 0;
    for i := 0 to |m.answer|
      invariant min == ScanAnswer(m.answer[..i])
    {
      assert m.answer[..i + 1][..i] == m.answer[..i];
      min := Consider(min, m.answer[i].ttl);
    }
    assert m.answer[..|m.answer|] == m.answer;
    for i := 0 to |m.ns|
      invariant min == ScanNs(ScanAnswer(m.answer), m.ns[..i])
    {
      assert m.ns[..i + 1][..i] == m.ns[..i];
      var rr := m.ns[i];
      min := Consider(min, rr.ttl);
      if rr.SOA? {
        min := Consider(min, rr.minttl);
      }
    }
    assert m.ns[..|m.ns|] == m.ns;
    MinTtlExact(m);
  }

  lemma {:induction false} ScanAnswerExact(rrs: seq<RR>)
    ensures var r := ScanAnswer(rrs);
            && (r > 0 ==> exists i :: 0 <= i < |rrs| && Offers(rrs[i], false, r))
            && forall i :: 0 <= i < |rrs| && rrs[i].ttl > 0 ==> 0 < r <= rrs[i].ttl
  {
    if rrs != [] {
      var n := |rrs| - 1;
      var init := rrs[..n];
      ScanAnswerExact(init);
      var r := ScanAnswer(rrs);
      if r > 0 {
        if r == rrs[n].ttl {
          assert Offers(rrs[n], false, r);
        } else {
          var i :| 0 <= i < n && Offers(init[i], false, r);
          assert Offers(rrs[i], false, r);
        }
      }
      assert forall i :: 0 <= i < n ==> init[i] == rrs[i];
    }
  }

  lemma {:induction false} ScanNsExact(min: Ttl, rrs: seq<RR>)
    ensures var r := ScanNs(min, rrs);
            && (r > 0 ==> r == min || exists i :: 0 <= i < |rrs| && Offers(rrs[i], true, r))
            && (min > 0 ==> 0 < r <= min)
            && forall i, t: Ttl :: 0 <= i < |rrs| && Offers(rrs[i], true, t) && t > 0 ==> 0 < r <= t
  {
    if rrs != [] {
      var n := |rrs| - 1;
      var init := rrs[..n];
      ScanNsExact(min, init);
      var r := ScanNs(min, rrs);
      if r > 0 && r != min {
        if Offers(rrs[n], true, r) {
        } else {
          var i :| 0 <= i < n && Offers(init[i], true, r);
          assert Offers(rrs[i], true, r);
        }
      }
      assert forall i :: 0 <= i < n ==> init[i] == rrs[i];
    }
  }

  /** MinTTL is the minimum over all positive TTLs carried, including the SOA minimum, or 0. */
  lemma MinTtlExact(m: Msg)
    ensures IsMinTtl(m, MinTtl(m))
  {
    ScanAnswerExact(m.answer);
    ScanNsExact(ScanAnswer(m.answer), m.ns);
    var r := MinTtl(m);
    forall t: Ttl | CarriesTtl(m, t) && t > 0 ensures 0 < r <= t {
      if i :| 0 <= i < |m.answer| && Offers(m.answer[i], false, t) {
      }
    }
  }

  // ---------------------------------------------------------------------------
  // Cache lifetimes
  // ---------------------------------------------------------------------------

  /** The lifetime Server.cache gives an answer; 0 means that it is not cached. */
  function CacheTtl(cacheTTL: int, negTTL: int, m: Msg): int {
    var ceiling := if m.rcode == RCODE_NAME_ERROR then negTTL else cacheTTL;
    if ceiling <= 0 then
      0
    else
      var min := MinTtl(m);
      if min > 0 && min * SECOND < ceiling then min * SECOND else ceiling
  }

  /** The lifetime Client.localSet gives an answer. */
  function LocalTtl(localTTL: int, m: Msg): int {
    var min := MinTtl(m);
    if min > 0 then min * SECOND else localTTL
  }

  /** No cache outlives a record: both lifetimes stay within every positive TTL carried. */
  lemma LifetimesWithinRecords(cacheTTL: int, negTTL: int, localTTL: int, m: Msg, t: Ttl)
    requires CarriesTtl(m, t) && t > 0
    ensures 0 <= CacheTtl(cacheTTL, negTTL, m) <= t * SECOND
    ensures 0 < LocalTtl(localTTL, m) <= t * SECOND
  {
    MinTtlExact(m);
  }

  /**
   The Redis lifetime is the greatest allowed: the ceiling in force, or a TTL of the message; and it is
   within both.
   */
  lemma CacheLifeExact(cacheTTL: int, negTTL: int, m: Msg, ceiling: int)
    requires ceiling == (if m.rcode == 3 then negTTL else cacheTTL) && ceiling > 0
    ensures var life := CacheTtl(cacheTTL, negTTL, m);
            && (life == ceiling || exists t: Ttl :: CarriesTtl(m, t) && t > 0 && life == t * 1_000_000_000)
            && life <= ceiling
            && forall t: Ttl :: CarriesTtl(m, t) && t > 0 ==> life <= t * 1_000_000_000
  {
    MinTtlExact(m);
  }

  /** The local lifetime is the least positive TTL of the message, and localTTL only where there is none. */
  lemma LocalLifeExact(localTTL: int, m: Msg)
    ensures var life := LocalTtl(localTTL, m);
            if exists t: Ttl :: CarriesTtl(m, t) && t > 0 then
              && (exists t: Ttl :: CarriesTtl(m, t) && t > 0 && life == t * 1_000_000_000)
              && forall t: Ttl :: CarriesTtl(m, t) && t > 0 ==> life <= t * 1_000_000_000
            else life == localTTL
  {
    MinTtlExact(m);
  }

  /**
   The Redis entry outlives no record at all exactly when the answer is not cached or no record has TTL
   0, since such records are ignored.
   */
  lemma WithinAllRecordsIff(cacheTTL: int, negTTL: int, m: Msg)
    ensures (forall t: Ttl :: CarriesTtl(m, t) ==> CacheTtl(cacheTTL, negTTL, m) <= t * SECOND)
            <==> CacheTtl(cacheTTL, negTTL, m) == 0 || !CarriesTtl(m, 0)
  {
    LifetimeCeilings(cacheTTL, negTTL, m);
    forall t: Ttl | CarriesTtl(m, t) && t > 0 ensures CacheTtl(cacheTTL, negTTL, m) <= t * SECOND {
      LifetimesWithinRecords(cacheTTL, negTTL, 0, m, t);
    }
  }

  /** An answer whose only record must not be cached is cached for as long as the ceiling allows. */
  lemma ZeroTtlIsCached(cacheTTL: int, negTTL: int)
    requires cacheTTL > 0
    ensures var m := Msg(0, RCODE_SUCCESS, [], [A("a.", 0, "1")], [], []);
            CarriesTtl(m, 0) && CacheTtl(cacheTTL, negTTL, m) == cacheTTL
  {
    var m := Msg(0, RCODE_SUCCESS, [], [A("a.", 0, "1")], [], []);
    assert Offers(m.answer[0], false, 0);
    MinTtlExact(m);
  }

  /** The configured ceilings hold, and caching is off exactly when the ceiling in force is. */
  lemma LifetimeCeilings(cacheTTL: int, negTTL: int, m: Msg)
    ensures CacheTtl(cacheTTL, negTTL, m) >= 0
    ensures CacheTtl(cacheTTL, negTTL, m) == 0 <==>
              (if m.rcode == RCODE_NAME_ERROR then negTTL else cacheTTL) <= 0
    ensures m.rcode == RCODE_NAME_ERROR && negTTL > 0 ==> CacheTtl(cacheTTL, negTTL, m) <= negTTL
    ensures m.rcode != RCODE_NAME_ERROR && cacheTTL > 0 ==> CacheTtl(cacheTTL, negTTL, m) <= cacheTTL
  {
  }
}
