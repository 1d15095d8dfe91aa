/** The cache of inbound SYNs and the history it summarises. */
module SynCache {
  import opened Bytes
  import opened TcpOptions
  import opened TcpShaping

  const TTL_MS: nat := 4000
  const LIMIT: nat := 4096

  /** One inbound SYN as the recorder saw it, at tick at. */
  datatype Seen = Seen(key: nat, hadTS: bool, tsval: uint32, at: nat)

  function FlowOf(s: Seen): SynFlow {
    SynFlow(s.hadTS, s.tsval, s.at + TTL_MS)
  }

  /** Address and port, both in network order, packed into one key. */
  function FlowKey(ip: seq<byte>, port: seq<byte>): nat
    requires |ip| == 4 && |port| == 2
  {
    Dec32(ip, 0) as int * 0x1_0000 + Dec16(port, 0)
  }

  /** Two clients never share a key. */
  lemma FlowKeyInjective(ip1: seq<byte>, port1: seq<byte>, ip2: seq<byte>, port2: seq<byte>)
    requires |ip1| == |ip2| == 4 && |port1| == |port2| == 2
    ensures FlowKey(ip1, port1) == FlowKey(ip2, port2) <==> ip1 == ip2 && port1 == port2
  {
    hide Dec32, Dec16;
    if FlowKey(ip1, port1) == FlowKey(ip2, port2) {
      Unpack(Dec32(ip1, 0), Dec16(port1, 0), Dec32(ip2, 0), Dec16(port2, 0));
      Dec32RoundTrip(ip1, 0);
      Dec32RoundTrip(ip2, 0);
      Dec16RoundTrip(port1, 0);
      Dec16RoundTrip(port2, 0);
      assert ip1 == ip1[0..4] && ip2 == ip2[0..4] && port1 == port1[0..2] && port2 == port2[0..2];
    }
  }

  lemma Unpack(a: uint32, p: uint16, b: uint32, q: uint16)
    requires a as int * 0x1_0000 + p == b as int * 0x1_0000 + q
    ensures a == b && p == q
  {
  }

  /** The packets the recorder takes: IPv4, a whole TCP header, all inside the buffer. */
  predicate WellFormedSyn(s: seq<byte>) {
    && |s| >= 24 && s[0] / 16 == 4
    && |s| >= s[0] % 16 * 4 + 20
    && var tcp := s[s[0] % 16 * 4..];
       20 <= tcp[12] / 16 * 4 <= |tcp|
  }

  /** What a well-formed SYN says, keyed by its source address and port. */
  function ReadSyn(s: seq<byte>, now: nat): Seen
    requires WellFormedSyn(s)
  {
    var tcp := s[s[0] % 16 * 4..];
    var t := Scan(tcp[20..tcp[12] / 16 * 4], 0);
    Seen(FlowKey(s[12..16], tcp[0..2]), t.Some?, if t.Some? then t.value else 0, now)
  }

  /** The map after one more record; a map past the limit is dropped first. */
  function Insert(m: map<nat, SynFlow>, s: Seen): map<nat, SynFlow> {
    (if |m| > LIMIT then map[] else m)[s.key := FlowOf(s)]
  }

  /** The client of an outbound packet: its destination address and port. */
  function ClientKey(s: seq<byte>, ihl: nat): nat
    requires 20 <= ihl && ihl + 4 <= |s|
  {
    FlowKey(s[16..20], s[ihl + 2..ihl + 4])
  }

  function Lookup(m: map<nat, SynFlow>, s: seq<byte>, ihl: nat, now: nat): Option<SynFlow>
    requires 20 <= ihl
  {
    if |s| < ihl + 4 then None
    else
      var k := ClientKey(s, ihl);
      if k in m && m[k].exp >= now then Some(m[k]) else None
  }

  // ----- the history -----

  function CacheOf(h: seq<Seen>): map<nat, SynFlow> {
    if h == [] then map[] else Insert(CacheOf(h[..|h| - 1]), h[|h| - 1])
  }

  /** The last SYN of a client. */
  function Latest(h: seq<Seen>, key: nat): (r: Option<Seen>)
    ensures r.Some? ==> r.value in h && r.value.key == key
  {
    if h == [] then None
    else if h[|h| - 1].key == key then Some(h[|h| - 1])
    else Latest(h[..|h| - 1], key)
  }

  function Clients(h: seq<Seen>): set<nat> {
    set i | 0 <= i < |h| :: h[i].key
  }

  lemma {:induction false} CacheBounded(h: seq<Seen>)
    ensures |CacheOf(h)| <= 4097
  {
    if h != [] {
      var m, s := CacheOf(h[..|h| - 1]), h[|h| - 1];
      CacheBounded(h[..|h| - 1]);
      var b: map<nat, SynFlow> := if |m| > LIMIT then map[] else m;
      assert b[s.key := FlowOf(s)].Keys == b.Keys + {s.key};
      assert |b[s.key := FlowOf(s)]| == |b[s.key := FlowOf(s)].Keys| && |b| == |b.Keys|;
    }
  }

  /** A cached record is the latest one of its client. */
  lemma {:induction false} CacheSound(h: seq<Seen>, key: nat)
    requires key in CacheOf(h)
    ensures Latest(h, key).Some? && CacheOf(h)[key] == FlowOf(Latest(h, key).value)
  {
    if h != [] && h[|h| - 1].key != key {
      CacheSound(h[..|h| - 1], key);
    }
  }

  /** i is the place of a SYN of that client since which the map was never found over the limit. */
  predicate LiveSince(h: seq<Seen>, key: nat, i: nat) {
    i < |h| && h[i].key == key && forall j :: i < j < |h| ==> |CacheOf(h[..j])| <= LIMIT
  }

  /** One more SYN: an earlier place stays alive if the map was not over the limit just before. */
  lemma LiveStep(h: seq<Seen>, key: nat, i: nat)
    requires h != [] && i < |h| - 1
    ensures var g := h[..|h| - 1]; LiveSince(h, key, i) <==> LiveSince(g, key, i) && |CacheOf(g)| <= LIMIT
  {
    hide CacheOf;
    var g := h[..|h| - 1];
    assert forall j :: 0 <= j <= |g| ==> g[..j] == h[..j];
    assert h[..|h| - 1] == g;
  }

  lemma CacheStep(h: seq<Seen>, key: nat)
    requires h != []
    ensures var g, s := h[..|h| - 1], h[|h| - 1];
            key in CacheOf(h) <==> s.key == key || (|CacheOf(g)| <= LIMIT && key in CacheOf(g))
  {
    hide FlowOf;
  }

  /** Exactly what the map holds: the clients with a SYN since which it was not dropped. */
  lemma {:induction false} CacheExact(h: seq<Seen>, key: nat)
    ensures key in CacheOf(h) <==> exists i: nat :: LiveSince(h, key, i)
  {
    if h != [] {
      var g, n := h[..|h| - 1], |h| - 1;
      CacheExact(g, key);
      CacheStep(h, key);
      forall i: nat | i < n
        ensures LiveSince(h, key, i) <==> LiveSince(g, key, i) && |CacheOf(g)| <= LIMIT
      {
        LiveStep(h, key, i);
      }
      hide CacheOf;
      assert LiveSince(h, key, n) <==> h[n].key == key;
    }
  }

  /** Up to the limit nothing is ever dropped: a client whose SYN was seen is cached. */
  lemma {:induction false} CacheComplete(h: seq<Seen>)
    requires |Clients(h)| <= LIMIT
    ensures CacheOf(h).Keys == Clients(h)
  {
    if h != [] {
      var g, s := h[..|h| - 1], h[|h| - 1];
      assert Clients(h) == Clients(g) + {s.key};
      Subset(Clients(g), Clients(h));
      CacheComplete(g);
      assert |CacheOf(g)| == |CacheOf(g).Keys|;
    }
  }

  lemma {:induction false} Subset(a: set<nat>, b: set<nat>)
    requires a <= b
    ensures |a| <= |b|
  {
    assert b == a + (b - a);
  }

  /**
   * A hit for an outbound packet is the record of the latest SYN from that very client, at most
   * 4000 ms old; with at most 4096 clients every such SYN is found.
   */
  lemma LookupIsLatest(h: seq<Seen>, s: seq<byte>, ihl: nat, now: nat)
    requires 20 <= ihl && ihl + 4 <= |s|
    ensures var r, l := Lookup(CacheOf(h), s, ihl, now), Latest(h, ClientKey(s, ihl));
            && (r.Some? ==> l.Some? && r.value == FlowOf(l.value) && now <= l.value.at + TTL_MS)
            && (|Clients(h)| <= LIMIT ==> (r.Some? <==> l.Some? && now <= l.value.at + TTL_MS))
  {
    var k := ClientKey(s, ihl);
    if k in CacheOf(h) {
      CacheSound(h, k);
    }
    if |Clients(h)| <= LIMIT {
      CacheComplete(h);
    }
  }
}
