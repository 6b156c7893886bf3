/** Narrowing an answer to one address: answerIPs, ipIn and narrow of internal/resolver/race.go. */
module Narrow {

  import opened Options
  import opened Dns

  /** recordIP: the address of a record whose type is the queried address type. */
  function RecordIP(rr: RR, qtype: QType): Option<string> {
    if qtype == TYPE_A && rr.A? then Some(rr.ip)
    else if qtype == TYPE_AAAA && rr.AAAA? then Some(rr.ip)
    else None
  }

  /** A records count for type 1, AAAA records for type 28, with their own address; nothing else counts. */
  lemma RecordIPExact(rr: RR, qtype: QType)
    ensures RecordIP(rr, qtype).Some? <==> (qtype == 1 && rr.A?) || (qtype == 28 && rr.AAAA?)
    ensures RecordIP(rr, qtype).Some? ==> RecordIP(rr, qtype).value == rr.ip
  {
  }

  // ---------------------------------------------------------------------------
  // answerIPs
  // ---------------------------------------------------------------------------

  function AnswerIPs(rrs: seq<RR>, qtype: QType): seq<string> {
    if rrs == [] then
      []
    else
      var ips := AnswerIPs(rrs[..|rrs| - 1], qtype);
      var ip := RecordIP(rrs[|rrs| - 1], qtype);
      if ip.Some? && ip.value !in ips then ips + [ip.value] else ips
  }

  /** `ips[k]` first occurs at record `at[k]`, and the records `at` are in answer order. */
  ghost predicate FirstOccurrences(rrs: seq<RR>, qtype: QType, ips: seq<string>, at: seq<nat>) {
    && |at| == |ips|
    && (forall k :: 0 <= k < |at| ==> at[k] < |rrs| && RecordIP(rrs[at[k]], qtype) == Some(ips[k]))
    && (forall k, i :: 0 <= k < |at| && 0 <= i < at[k] ==> RecordIP(rrs[i], qtype) != Some(ips[k]))
    && (forall j, k :: 0 <= j < k < |at| ==> at[j] < at[k])
  }

  /** answerIPs, with its `seen` map as a set. */
  method ComputeAnswerIPs(rrs: seq<RR>, qtype: QType) returns (ips: seq<string>)
    ensures ips == AnswerIPs(rrs, qtype)
  {
    ips := [];
    var seen: set<string> := {};
    for i := 0 to |rrs|
      invariant ips == AnswerIPs(rrs[..i], qtype)
      invariant forall s :: s in seen <==> s in ips
    {
      assert rrs[..i + 1][..i] == rrs[..i];
      var ip := RecordIP(rrs[i], qtype);
      if ip.Some? && ip.value !in seen {
        seen := seen + {ip.value};
        ips := ips + [ip.value];
      }
    }
    assert rrs[..|rrs|] == rrs;
  }

  /** The result lists exactly the addresses of the queried type. */
  lemma {:induction false} AnswerIPsExact(rrs: seq<RR>, qtype: QType)
    ensures forall s :: s in AnswerIPs(rrs, qtype) <==> exists i :: 0 <= i < |rrs| && RecordIP(rrs[i], qtype) == Some(s)
  {
    if rrs != [] {
      var n := |rrs| - 1;
      var init := rrs[..n];
      AnswerIPsExact(init, qtype);
      forall s | s in AnswerIPs(init, qtype) ensures exists i :: 0 <= i < |rrs| && RecordIP(rrs[i], qtype) == Some(s) {
        var i :| 0 <= i < n && RecordIP(init[i], qtype) == Some(s);
        assert RecordIP(rrs[i], qtype) == Some(s);
      }
      forall s, i | 0 <= i < |rrs| && RecordIP(rrs[i], qtype) == Some(s) ensures s in AnswerIPs(rrs, qtype) {
        if i < n {
          assert RecordIP(init[i], qtype) == Some(s);
        }
      }
    }
  }

  /** The records at which the listed addresses first occur. */
  function FirstAt(rrs: seq<RR>, qtype: QType): seq<nat> {
    if rrs == [] then
      []
    else
      var n: nat := |rrs| - 1;
      var at := FirstAt(rrs[..n], qtype);
      var ip := RecordIP(rrs[n], qtype);
      if ip.Some? && ip.value !in AnswerIPs(rrs[..n], qtype) then at + [n] else at
  }

  /** The addresses are listed in the order of their first occurrence. */
  lemma {:induction false} AnswerIPsOrder(rrs: seq<RR>, qtype: QType)
    ensures FirstOccurrences(rrs, qtype, AnswerIPs(rrs, qtype), FirstAt(rrs, qtype))
  {
    if rrs != [] {
      var n := |rrs| - 1;
      var init := rrs[..n];
      var ips, at := AnswerIPs(init, qtype), FirstAt(init, qtype);
      AnswerIPsOrder(init, qtype);
      assert FirstOccurrences(rrs, qtype, ips, at) by {
        assert forall i :: 0 <= i < n ==> init[i] == rrs[i];
      }
      var ip := RecordIP(rrs[n], qtype);
      if ip.Some? && ip.value !in ips {
        forall i | 0 <= i < n ensures RecordIP(rrs[i], qtype) != ip {
          AnswerIPsExact(init, qtype);
          assert init[i] == rrs[i];
        }
      }
    }
  }

  /** No address is listed twice. */
  lemma AnswerIPsDistinct(rrs: seq<RR>, qtype: QType)
    ensures var ips := AnswerIPs(rrs, qtype); forall j, k :: 0 <= j < k < |ips| ==> ips[j] != ips[k]
  {
    AnswerIPsOrder(rrs, qtype);
    var ips, at := AnswerIPs(rrs, qtype), FirstAt(rrs, qtype);
    forall j, k | 0 <= j < k < |ips| ensures ips[j] != ips[k] {
      assert RecordIP(rrs[at[j]], qtype) != Some(ips[k]);
    }
  }

  /** ipIn, a linear search. */
  method IpIn(ips: seq<string>, want: string) returns (found: bool)
    ensures found <==> want in ips
  {
    for i := 0 to |ips|
      invariant want !in ips[..i]
    {
      if ips[i] == want {
        return true;
      }
    }
    assert ips[..|ips|] == ips;
    return false;
  }

  // ---------------------------------------------------------------------------
  // narrow
  // ---------------------------------------------------------------------------

  predicate Keeps(rr: RR, qtype: QType, winner: string) {
    var ip := RecordIP(rr, qtype);
    ip.None? || ip.value == winner
  }

  function Kept(rrs: seq<RR>, qtype: QType, winner: string): seq<RR> {
    if rrs == [] then
      []
    else
      var init := Kept(rrs[..|rrs| - 1], qtype, winner);
      if Keeps(rrs[|rrs| - 1], qtype, winner) then init + [rrs[|rrs| - 1]] else init
  }

  function Narrowed(m: Msg, qtype: QType, winner: string): Msg {
    m.(answer := Kept(m.answer, qtype, winner))
  }

  /** narrow: the copied answer is filtered in place, the write index trailing the read index. */
  method NarrowMsg(m: Msg, qtype: QType, winner: string) returns (out: Msg)
    ensures out == Narrowed(m, qtype, winner)
  {
    if m.answer == [] {
      return m;
    }
    var buf := new RR[|m.answer|](i requires 0 <= i < |m.answer| => m.answer[i]);
    var w := 0;
    for r := 0 to buf.Length
      invariant 0 <= w <= r
      invariant buf[..w] == Kept(m.answer[..r], qtype, winner)
      invariant forall i :: r <= i < buf.Length ==> buf[i] == m.answer[i]
    {
      assert m.answer[..r + 1][..r] == m.answer[..r];
      var rr := buf[r];
      if Keeps(rr, qtype, winner) {
        buf[w] := rr;
        w := w + 1;
        assert buf[..w] == Kept(m.answer[..r], qtype, winner) + [rr];
      }
    }
    assert m.answer[..buf.Length] == m.answer;
    out := m.(answer := buf[..w]);
  }

  /** `sub` is `rrs` with some records left out: `at` gives the positions kept, in order. */
  ghost predicate SubsequenceAt(sub: seq<RR>, rrs: seq<RR>, at: seq<nat>) {
    && |at| == |sub|
    && (forall k :: 0 <= k < |at| ==> at[k] < |rrs| && sub[k] == rrs[at[k]])
    && (forall j, k :: 0 <= j < k < |at| ==> at[j] < at[k])
  }

  /** The positions of the records kept. */
  function KeptAt(rrs: seq<RR>, qtype: QType, winner: string): seq<nat> {
    if rrs == [] then
      []
    else
      var n: nat := |rrs| - 1;
      var init := KeptAt(rrs[..n], qtype, winner);
      if Keeps(rrs[n], qtype, winner) then init + [n] else init
  }

  /** An order-preserving subsequence. */
  lemma {:induction false} KeptInOrder(rrs: seq<RR>, qtype: QType, winner: string)
    ensures SubsequenceAt(Kept(rrs, qtype, winner), rrs, KeptAt(rrs, qtype, winner))
  {
    if rrs != [] {
      var n := |rrs| - 1;
      var init := rrs[..n];
      KeptInOrder(init, qtype, winner);
      assert SubsequenceAt(Kept(init, qtype, winner), rrs, KeptAt(init, qtype, winner)) by {
        assert forall i :: 0 <= i < n ==> init[i] == rrs[i];
      }
    }
  }

  /** The positions kept are exactly those of the records that Keeps selects. */
  lemma {:induction false} KeptAtExact(rrs: seq<RR>, qtype: QType, winner: string)
    ensures forall i: nat :: i in KeptAt(rrs, qtype, winner) <==> i < |rrs| && Keeps(rrs[i], qtype, winner)
  {
    if rrs != [] {
      var n := |rrs| - 1;
      KeptAtExact(rrs[..n], qtype, winner);
      assert forall i :: 0 <= i < n ==> rrs[..n][i] == rrs[i];
    }
  }

  /** Every record kept was there, and every record that Keeps selects is kept. */
  lemma {:induction false} KeptMembers(rrs: seq<RR>, qtype: QType, winner: string)
    ensures forall rr :: rr in Kept(rrs, qtype, winner) <==> rr in rrs && Keeps(rr, qtype, winner)
  {
    if rrs != [] {
      var n := |rrs| - 1;
      KeptMembers(rrs[..n], qtype, winner);
      assert rrs == rrs[..n] + [rrs[n]];
    }
  }

  /** Narrowing to one of the answer's addresses leaves exactly that address. */
  lemma {:induction false} NarrowedIPs(rrs: seq<RR>, qtype: QType, winner: string)
    ensures AnswerIPs(Kept(rrs, qtype, winner), qtype) == if winner in AnswerIPs(rrs, qtype) then [winner] else []
  {
    if rrs != [] {
      var n := |rrs| - 1;
      var kept := Kept(rrs[..n], qtype, winner);
      NarrowedIPs(rrs[..n], qtype, winner);
      assert (kept + [rrs[n]])[..|kept|] == kept;
    }
  }

  /** Narrowing either makes the least TTL 0 or leaves it no smaller. */
  lemma NarrowingKeepsTtl(m: Msg, qtype: QType, winner: string)
    ensures var r := MinTtl(Narrowed(m, qtype, winner)); r == 0 || r >= MinTtl(m) > 0
  {
    var out := Narrowed(m, qtype, winner);
    var r := MinTtl(out);
    MinTtlExact(m);
    MinTtlExact(out);
    KeptMembers(m.answer, qtype, winner);
    if r > 0 {
      assert CarriesTtl(m, r) by {
        if i :| 0 <= i < |out.answer| && Offers(out.answer[i], false, r) {
          var rr := out.answer[i];
          assert rr in m.answer;
          var j :| 0 <= j < |m.answer| && m.answer[j] == rr;
          assert Offers(m.answer[j], false, r);
        } else {
          var i :| 0 <= i < |out.ns| && Offers(out.ns[i], true, r);
          assert Offers(m.ns[i], true, r);
        }
      }
    }
  }
}
