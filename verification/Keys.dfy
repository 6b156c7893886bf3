/** The string keys: CacheKey, the ranking members and the prefetch schedule keys. */
module Keys {

  import opened Options
  import opened Dns

  // ---------------------------------------------------------------------------
  // Decimal printing
  // ---------------------------------------------------------------------------

  function Digit(d: nat): char
    requires d < 10
  {
    '0' + d as char
  }

  function DigitValue(c: char): nat {
    if '0' <= c <= '9' then (c - '0') as nat else 0
  }

  /** strconv.Itoa on a non-negative number. */
  function Itoa(n: nat): string {
    if n < 10 then [Digit(n)] else Itoa(n / 10) + [Digit(n % 10)]
  }

  function Atoi(s: string): nat {
    if s == [] then 0 else Atoi(s[..|s| - 1]) * 10 + DigitValue(s[|s| - 1])
  }

  lemma {:induction false} ItoaRoundTrip(n: nat)
    ensures Atoi(Itoa(n)) == n
    ensures ':' !in Itoa(n) && '|' !in Itoa(n) && '.' !in Itoa(n)
  {
    if n < 10 {
      assert Itoa(n)[..0] == [];
    } else {
      ItoaRoundTrip(n / 10);
      assert Itoa(n)[..|Itoa(n)| - 1] == Itoa(n / 10);
    }
  }

  // ---------------------------------------------------------------------------
  // The last separator
  // ---------------------------------------------------------------------------

  /** strings.LastIndex for a single character. */
  function LastIndex(s: string, c: char): (i: int)
    ensures -1 <= i < |s|
    ensures i >= 0 ==> s[i] == c
    ensures c !in s[i + 1..]
  {
    if s == [] then -1
    else if s[|s| - 1] == c then |s| - 1
    else
      var i := LastIndex(s[..|s| - 1], c);
      SuffixStep(s, c, i);
      i
  }

  lemma SuffixStep(s: string, c: char, i: int)
    requires s != [] && s[|s| - 1] != c && -1 <= i < |s| - 1 && c !in s[..|s| - 1][i + 1..]
    ensures c !in s[i + 1..]
  {
    assert s[i + 1..] == s[..|s| - 1][i + 1..] + [s[|s| - 1]];
  }

  lemma {:induction false} LastIndexAt(a: string, c: char, b: string)
    requires c !in b
    ensures LastIndex(a + [c] + b, c) == |a|
  {
    if b == [] {
      assert a + [c] + b == a + [c];
    } else {
      var s := a + [c] + b;
      assert s[|s| - 1] == b[|b| - 1];
      assert s[..|s| - 1] == a + [c] + b[..|b| - 1];
      LastIndexAt(a, c, b[..|b| - 1]);
    }
  }

  /** A string splits at its last separator in one way. */
  lemma SplitUnique(a: string, b: string, a': string, b': string, c: char)
    requires c !in b && c !in b'
    requires a + [c] + b == a' + [c] + b'
    ensures a == a' && b == b'
  {
    LastIndexAt(a, c, b);
    LastIndexAt(a', c, b');
    var s := a + [c] + b;
    assert a == s[..|a|] == a';
    assert b == s[|a| + 1..] == b';
  }

  // ---------------------------------------------------------------------------
  // CacheKey
  // ---------------------------------------------------------------------------

  const PREFIX_CACHE := "dns:cache:"

  function CacheKey(name: string, qtype: QType): string {
    PREFIX_CACHE + name + ":" + Itoa(qtype)
  }

  /** Distinct questions never share a cache key, even when a name contains ':'. */
  lemma CacheKeyInjective(n: string, t: QType, n': string, t': QType)
    requires CacheKey(n, t) == CacheKey(n', t')
    ensures n == n' && t == t'
  {
    ItoaRoundTrip(t);
    ItoaRoundTrip(t');
    SplitUnique(PREFIX_CACHE + n, Itoa(t), PREFIX_CACHE + n', Itoa(t'), ':');
    assert n == (PREFIX_CACHE + n)[|PREFIX_CACHE|..];
    assert n' == (PREFIX_CACHE + n')[|PREFIX_CACHE|..];
  }

  // ---------------------------------------------------------------------------
  // Names
  // ---------------------------------------------------------------------------

  function LowerChar(c: char): char {
    if 'A' <= c <= 'Z' then c - 'A' + 'a' else c
  }

  function Lower(s: string): (r: string)
    ensures |r| == |s|
    ensures forall i :: 0 <= i < |s| ==> r[i] == LowerChar(s[i])
  {
    seq(|s|, i requires 0 <= i < |s| => LowerChar(s[i]))
  }

  /** The same character, or the two cases of one letter. */
  predicate SameLetter(a: char, b: char) {
    || a == b
    || ('A' <= a <= 'Z' && b as int == a as int + 32)
    || ('A' <= b <= 'Z' && a as int == b as int + 32)
  }

  predicate SameLetters(s: string, t: string) { |s| == |t| && forall i :: 0 <= i < |s| ==> SameLetter(s[i], t[i]) }

  /** Lower-casing identifies exactly the names that differ in case, and leaves no capital. */
  lemma LowerExact(s: string, t: string)
    ensures Lower(s) == Lower(t) <==> SameLetters(s, t)
    ensures forall i :: 0 <= i < |Lower(s)| ==> !('A' <= Lower(s)[i] <= 'Z')
    ensures SameLetters(s, Lower(s))
  {
    if Lower(s) == Lower(t) {
      forall i | 0 <= i < |s| ensures SameLetter(s[i], t[i]) {
        assert Lower(s)[i] == Lower(t)[i];
      }
    }
  }

  function TrailingSlashes(s: string): nat {
    if s == [] || s[|s| - 1] != '\\' then 0 else 1 + TrailingSlashes(s[..|s| - 1])
  }

  /** dns.IsFqdn: a final dot that is not escaped. */
  predicate IsFqdn(s: string) {
    s != [] && s[|s| - 1] == '.' && TrailingSlashes(s[..|s| - 1]) % 2 == 0
  }

  function Fqdn(s: string): string { if IsFqdn(s) then s else s + "." }

  /** The form in which the client, the counter and the prefetcher name a domain. */
  function Canonical(s: string): string { Lower(Fqdn(s)) }

  lemma {:induction false} LowerKeepsSlashes(s: string)
    ensures TrailingSlashes(Lower(s)) == TrailingSlashes(s)
  {
    if s != [] {
      assert Lower(s)[..|s| - 1] == Lower(s[..|s| - 1]);
      LowerKeepsSlashes(s[..|s| - 1]);
    }
  }

  lemma LowerKeepsFqdn(s: string)
    ensures IsFqdn(Lower(s)) <==> IsFqdn(s)
  {
    if s != [] {
      assert Lower(s)[..|s| - 1] == Lower(s[..|s| - 1]);
      LowerKeepsSlashes(s[..|s| - 1]);
    }
  }

  lemma FqdnReachedIff(s: string)
    ensures IsFqdn(Fqdn(s)) <==> TrailingSlashes(s) % 2 == 0
  {
    if !IsFqdn(s) {
      assert (s + ".")[..|s|] == s;
    }
  }

  lemma LowerTwice(s: string)
    ensures Lower(Lower(s)) == Lower(s)
  {
  }

  lemma {:induction false} SameLettersSameSlashes(s: string, t: string)
    requires SameLetters(s, t)
    ensures TrailingSlashes(s) == TrailingSlashes(t)
  {
    if s != [] {
      var n := |s| - 1;
      assert SameLetter(s[n], t[n]);
      assert SameLetters(s[..n], t[..n]);
      SameLettersSameSlashes(s[..n], t[..n]);
    }
  }

  /** Names that differ in case alone share one canonical form, and so one cache key. */
  lemma CaseDoesNotMatter(s: string, t: string, qtype: QType)
    requires SameLetters(s, t)
    ensures Canonical(s) == Canonical(t) && CacheKey(Canonical(s), qtype) == CacheKey(Canonical(t), qtype)
  {
    if s != [] {
      var n := |s| - 1;
      assert SameLetter(s[n], t[n]) && SameLetters(s[..n], t[..n]);
      SameLettersSameSlashes(s[..n], t[..n]);
    }
    assert SameLetters(Fqdn(s), Fqdn(t));
    LowerExact(Fqdn(s), Fqdn(t));
  }

  /** A name that is not fully qualified gets a final dot, and nothing else changes but its case. */
  lemma CanonicalExact(s: string)
    ensures SameLetters(if IsFqdn(s) then s else s + ".", Canonical(s))
  {
    LowerExact(Fqdn(s), Fqdn(s));
  }

  /** A canonical name is a fixed point exactly when the name did not end in an escape. */
  lemma CanonicalIdempotentIff(s: string)
    ensures Canonical(Canonical(s)) == Canonical(s) <==> TrailingSlashes(s) % 2 == 0
  {
    var c := Canonical(s);
    LowerKeepsFqdn(Fqdn(s));
    FqdnReachedIff(s);
    if IsFqdn(c) {
      LowerTwice(Fqdn(s));
    } else {
      assert |Canonical(c)| == |c| + 1;
    }
  }

  // ---------------------------------------------------------------------------
  // Ranking members
  // ---------------------------------------------------------------------------

  /** The library's type table: dns.TypeToString and dns.StringToType. */
  datatype TypeTable = TypeTable(names: map<QType, string>, types: map<string, QType>)

  /** Registered types parse back, and type names contain no '|', '.' or ':'. */
  ghost predicate WellFormed(tab: TypeTable) {
    && (forall t :: t in tab.names ==> tab.names[t] in tab.types && tab.types[tab.names[t]] == t)
    && (forall s :: s in tab.types ==> s != [] && '|' !in s && '.' !in s && ':' !in s)
  }

  function TypeString(tab: TypeTable, t: QType): string {
    if t in tab.names then tab.names[t] else "TYPE" + Itoa(t)
  }

  function CountMember(tab: TypeTable, name: string, qtype: QType): string {
    Canonical(name) + "|" + TypeString(tab, qtype)
  }

  function ParseMember(tab: TypeTable, m: string): Option<(string, QType)> {
    var i := LastIndex(m, '|');
    if i <= 0 || i == |m| - 1 then None
    else if m[i + 1..] !in tab.types then None
    else Some((m[..i], tab.types[m[i + 1..]]))
  }

  /** A member parses back to the canonical name and its type, even when the name contains '|'. */
  lemma MemberRoundTrip(tab: TypeTable, name: string, qtype: QType)
    requires WellFormed(tab) && qtype in tab.names
    ensures ParseMember(tab, CountMember(tab, name, qtype)) == Some((Canonical(name), qtype))
  {
    var a, b := Canonical(name), tab.names[qtype];
    LastIndexAt(a, '|', b);
    var m := CountMember(tab, name, qtype);
    assert m == a + ['|'] + b;
    assert m[..|a|] == a && m[|a| + 1..] == b;
  }

  /** The member is this name, a bar and the name of this type. */
  ghost predicate IsMember(tab: TypeTable, m: string, name: string, qtype: QType) {
    exists ty :: ty in tab.types && tab.types[ty] == qtype && m == name + "|" + ty
  }

  lemma SplitMember(m: string, name: string, ty: string)
    requires '|' !in ty && m == name + "|" + ty
    ensures LastIndex(m, '|') == |name| && m[..|name|] == name && m[|name| + 1..] == ty
  {
    LastIndexAt(name, '|', ty);
    assert m == name + ['|'] + ty;
  }

  /** A member parses exactly when it is a non-empty name, a bar and the name of a type. */
  lemma ParseMemberIff(tab: TypeTable, m: string, name: string, qtype: QType)
    requires WellFormed(tab)
    ensures ParseMember(tab, m) == Some((name, qtype)) <==> name != [] && IsMember(tab, m, name, qtype)
  {
    if ParseMember(tab, m) == Some((name, qtype)) {
      var i := LastIndex(m, '|');
      assert m == m[..i] + "|" + m[i + 1..];
    }
    if IsMember(tab, m, name, qtype) {
      var ty :| ty in tab.types && tab.types[ty] == qtype && m == name + "|" + ty;
      SplitMember(m, name, ty);
    }
  }

  /** The literal shapes of the keys. */
  lemma KeyShapes()
    ensures CacheKey("a.", 6) == "dns:cache:a.:6"
    ensures DynamicKey("a.|A") == "dyn|a.|A"
  {
  }

  /** A member is the canonical name, a bar and the type's name, or TYPE and its number if it has none. */
  lemma MemberShape(tab: TypeTable, name: string, qtype: QType)
    ensures qtype !in tab.names ==> CountMember(tab, name, qtype) == Canonical(name) + "|TYPE" + Itoa(qtype)
    ensures qtype in tab.names ==> CountMember(tab, name, qtype) == Canonical(name) + "|" + tab.names[qtype]
  {
  }

  // ---------------------------------------------------------------------------
  // Preference keys
  // ---------------------------------------------------------------------------

  const PREFIX_PREF := "dns:pref:"

  function PrefKey(tab: TypeTable, name: string, qtype: QType): string {
    PREFIX_PREF + name + ":" + TypeString(tab, qtype)
  }

  /** Distinct questions never share a preference key, so their entries never meet. */
  lemma PrefKeyInjective(tab: TypeTable, n: string, t: QType, n': string, t': QType)
    requires WellFormed(tab) && t in tab.names && t' in tab.names
    requires PrefKey(tab, n, t) == PrefKey(tab, n', t')
    ensures n == n' && t == t'
  {
    SplitUnique(PREFIX_PREF + n, tab.names[t], PREFIX_PREF + n', tab.names[t'], ':');
    assert n == (PREFIX_PREF + n)[|PREFIX_PREF|..];
    assert n' == (PREFIX_PREF + n')[|PREFIX_PREF|..];
  }

  /** ... nor a cache key's name. */
  lemma PrefKeyIsNoCacheKey(tab: TypeTable, n: string, t: QType, n': string, t': QType)
    ensures PrefKey(tab, n, t) != CacheKey(n', t')
    ensures PrefKey(tab, n, t)[..9] == "dns:pref:"
  {
    assert PrefKey(tab, n, t)[4] == 'p' && CacheKey(n', t')[4] == 'c';
  }

  // ---------------------------------------------------------------------------
  // Prefetched names
  // ---------------------------------------------------------------------------

  /**
   A prefetch of a counted request refreshes the very cache key the request reads. The client sends
   canonical names, so this holds exactly when the name asked for did not end in an escape.
   */
  lemma PrefetchWarmsRequestKeyIff(tab: TypeTable, asked: string, qtype: QType)
    requires WellFormed(tab) && qtype in tab.names
    ensures var sent := Canonical(asked);
            var parsed := ParseMember(tab, CountMember(tab, sent, qtype));
            && parsed.Some? && parsed.value.1 == qtype
            && (CacheKey(parsed.value.0, qtype) == CacheKey(sent, qtype) <==> TrailingSlashes(asked) % 2 == 0)
  {
    var sent := Canonical(asked);
    MemberRoundTrip(tab, sent, qtype);
    CanonicalIdempotentIff(asked);
    if CacheKey(Canonical(sent), qtype) == CacheKey(sent, qtype) {
      CacheKeyInjective(Canonical(sent), qtype, sent, qtype);
    }
  }

  /** A name from a DNS message is fully qualified, and then the condition is met. */
  lemma PrefetchWarmsWireNames(tab: TypeTable, asked: string, qtype: QType)
    requires WellFormed(tab) && qtype in tab.names && IsFqdn(asked)
    ensures var sent := Canonical(asked);
            var parsed := ParseMember(tab, CountMember(tab, sent, qtype));
            parsed.Some? && CacheKey(parsed.value.0, parsed.value.1) == CacheKey(sent, qtype)
  {
    PrefetchWarmsRequestKeyIff(tab, asked, qtype);
  }

  // ---------------------------------------------------------------------------
  // Schedule keys
  // ---------------------------------------------------------------------------

  function FixedKey(domain: string): string { Canonical(domain) }

  function DynamicKey(member: string): string { "dyn|" + member }

  lemma CanonicalEndsInDot(s: string)
    ensures Canonical(s) != [] && Canonical(s)[|Canonical(s)| - 1] == '.'
  {
    assert Fqdn(s)[|Fqdn(s)| - 1] == '.';
  }

  lemma ParsedEndsInType(tab: TypeTable, member: string)
    requires WellFormed(tab) && ParseMember(tab, member).Some?
    ensures member != [] && member[|member| - 1] != '.'
  {
    var t := member[LastIndex(member, '|') + 1..];
    assert t in tab.types;
    assert t[|t| - 1] in t;
  }

  /** Fixed and dynamic schedule keys share one map and never collide. */
  lemma ScheduleKeysDisjoint(tab: TypeTable, domain: string, member: string)
    requires WellFormed(tab) && ParseMember(tab, member).Some?
    ensures FixedKey(domain) != DynamicKey(member)
  {
    CanonicalEndsInDot(domain);
    ParsedEndsInType(tab, member);
    assert DynamicKey(member)[|DynamicKey(member)| - 1] == member[|member| - 1];
  }

  lemma DynamicKeyInjective(m: string, m': string)
    requires DynamicKey(m) == DynamicKey(m')
    ensures m == m'
  {
    assert m == DynamicKey(m)[4..] && m' == DynamicKey(m')[4..];
  }
}
