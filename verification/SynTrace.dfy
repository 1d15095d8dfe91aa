/** Runs of the packet loop: inbound SYNs recorded, outbound packets rewritten, in any order. */
module SynTrace {
  import opened Bytes
  import opened TcpOptions
  import opened TcpSegment
  import opened TcpShaping
  import opened TcpTheorems
  import opened SynCache
  import opened PacketRules

  datatype Event = Inbound(pkt: seq<byte>, now: nat) | Outbound(pkt: seq<byte>, clk: Clock)

  /** What the loop carries from packet to packet. */
  datatype World = World(cache: map<nat, SynFlow>, id: IpIdState)

  function Next(w: World, e: Event, p: Profile): World {
    match e
    case Inbound(s, now) => if WellFormedSyn(s) then w.(cache := Insert(w.cache, ReadSyn(s, now))) else w
    case Outbound(s, clk) => w.(id := Egress(s, p, w.id, w.cache, clk).1)
  }

  function After(tr: seq<Event>, p: Profile, w: World): World {
    if tr == [] then w else Next(After(tr[..|tr| - 1], p, w), tr[|tr| - 1], p)
  }

  /** The well-formed SYNs of a trace, in order. */
  function History(tr: seq<Event>): seq<Seen> {
    if tr == [] then []
    else
      var e := tr[|tr| - 1];
      History(tr[..|tr| - 1]) + if e.Inbound? && WellFormedSyn(e.pkt) then [ReadSyn(e.pkt, e.now)] else []
  }

  /** Outbound packets never disturb the cache: it is the summary of the inbound SYNs alone. */
  lemma {:induction false} CacheIsHistory(tr: seq<Event>, p: Profile, id: IpIdState)
    ensures After(tr, p, World(map[], id)).cache == CacheOf(History(tr))
  {
    if tr != [] {
      var e := tr[|tr| - 1];
      CacheIsHistory(tr[..|tr| - 1], p, id);
      if e.Inbound? && WellFormedSyn(e.pkt) {
        var h, x := History(tr[..|tr| - 1]), ReadSyn(e.pkt, e.now);
        assert (h + [x])[..|h|] == h;
        assert CacheOf(h + [x]) == Insert(CacheOf(h), x);
      } else {
        assert History(tr) == History(tr[..|tr| - 1]);
      }
    }
  }

  /** What leaves for packet s after the trace. */
  function Sent(tr: seq<Event>, s: seq<byte>, p: Profile, id: IpIdState, clk: Clock): seq<byte> {
    var w := After(tr, p, World(map[], id));
    Egress(s, p, w.id, w.cache, clk).0
  }

  // ----- who is answered, in addresses and ports -----

  datatype Endpoint = Endpoint(address: seq<byte>, port: seq<byte>)

  /** Where a recorded SYN comes from. */
  function Source(a: seq<byte>): Endpoint
    requires WellFormedSyn(a)
  {
    Endpoint(a[12..16], a[Ihl(a)..Ihl(a) + 2])
  }

  /** Where an outbound packet goes. */
  function Destination(s: seq<byte>): Endpoint
    requires WholeIpv4(s) && HasTcp(s, Ihl(s))
  {
    Endpoint(s[16..20], s[Ihl(s) + 2..Ihl(s) + 4])
  }

  /** The option bytes of a recorded SYN. */
  function OptionsOf(a: seq<byte>): seq<byte>
    requires WellFormedSyn(a)
  {
    a[Ihl(a) + 20..Ihl(a) + a[Ihl(a) + 12] / 16 * 4]
  }

  /** The latest SYN of the trace that came from this endpoint, and when. */
  function LatestFrom(tr: seq<Event>, from: Endpoint): (r: Option<Event>)
    ensures r.Some? ==> r.value.Inbound? && WellFormedSyn(r.value.pkt) && Source(r.value.pkt) == from
  {
    if tr == [] then None
    else
      var e := tr[|tr| - 1];
      if e.Inbound? && WellFormedSyn(e.pkt) && Source(e.pkt) == from then Some(e) else LatestFrom(tr[..|tr| - 1], from)
  }

  /** The endpoints that SYNs of the trace came from. */
  function Sources(tr: seq<Event>): set<Endpoint> {
    set i | 0 <= i < |tr| && tr[i].Inbound? && WellFormedSyn(tr[i].pkt) :: Source(tr[i].pkt)
  }

  /** The record of a SYN at its time, with what the scan finds in its option bytes. */
  function Recorded(e: Event): Seen
    requires e.Inbound? && WellFormedSyn(e.pkt)
  {
    var t := Scan(OptionsOf(e.pkt), 0);
    Seen(KeyOf(Source(e.pkt)), t.Some?, if t.Some? then t.value else 0, e.now)
  }

  function KeyOf(x: Endpoint): nat {
    if |x.address| == 4 && |x.port| == 2 then FlowKey(x.address, x.port) else 0
  }

  /** The recorder reads source and options where they stand. */
  lemma RecordedIs(e: Event)
    requires e.Inbound? && WellFormedSyn(e.pkt)
    ensures ReadSyn(e.pkt, e.now) == Recorded(e)
  {
    hide FlowKey, Scan;
    var a, ihl := e.pkt, Ihl(e.pkt);
    var hl := a[ihl + 12] / 16 * 4;
    assert a[ihl..][20..hl] == a[ihl + 20..ihl + hl] && a[ihl..][0..2] == a[ihl..ihl + 2];
  }

  /** The lookup's key is the one under which a SYN from the packet's destination was recorded. */
  lemma KeysMeet(a: seq<byte>, now: nat, s: seq<byte>)
    requires WellFormedSyn(a) && WholeIpv4(s) && HasTcp(s, Ihl(s))
    ensures ReadSyn(a, now).key == ClientKey(s, Ihl(s)) <==> Source(a) == Destination(s)
  {
    hide FlowKey, Scan;
    RecordedIs(Inbound(a, now));
    FlowKeyInjective(Source(a).address, Source(a).port, Destination(s).address, Destination(s).port);
  }

  lemma {:induction false} LatestIs(tr: seq<Event>, s: seq<byte>)
    requires WholeIpv4(s) && HasTcp(s, Ihl(s))
    ensures var l := LatestFrom(tr, Destination(s));
            Latest(History(tr), ClientKey(s, Ihl(s))) == if l.Some? then Some(Recorded(l.value)) else None
  {
    hide ReadSyn, Recorded, WellFormedSyn, Destination, ClientKey;
    if tr != [] {
      var n := |tr| - 1;
      LatestIs(tr[..n], s);
      var h := History(tr[..n]);
      if tr[n].Inbound? && WellFormedSyn(tr[n].pkt) {
        KeysMeet(tr[n].pkt, tr[n].now, s);
        RecordedIs(tr[n]);
        var x := ReadSyn(tr[n].pkt, tr[n].now);
        assert (h + [x])[..|h|] == h;
      } else {
        assert h + [] == h;
      }
    }
  }

  lemma {:induction false} ClientsAre(tr: seq<Event>)
    ensures |Clients(History(tr))| <= |Sources(tr)|
  {
    hide WellFormedSyn, Source, ReadSyn, Recorded, KeyOf;
    HistoryKeys(tr);
    KeysFewer(Sources(tr), Clients(History(tr)));
  }

  lemma SourcesGrow(tr: seq<Event>, n: nat)
    requires n <= |tr|
    ensures Sources(tr[..n]) <= Sources(tr)
  {
    hide WellFormedSyn, Source;
    forall x | x in Sources(tr[..n])
      ensures x in Sources(tr)
    {
      var i :| 0 <= i < n && tr[..n][i].Inbound? && WellFormedSyn(tr[..n][i].pkt) && x == Source(tr[..n][i].pkt);
      assert tr[i] == tr[..n][i];
    }
  }

  lemma ClientsStep(h: seq<Seen>, x: Seen)
    ensures Clients(h + [x]) == Clients(h) + {x.key}
  {
    var g := h + [x];
    forall k | k in Clients(h)
      ensures k in Clients(g)
    {
      var i :| 0 <= i < |h| && h[i].key == k;
      assert g[i].key == k;
    }
    assert g[|h|].key == x.key;
  }

  lemma {:induction false} HistoryKeys(tr: seq<Event>)
    ensures forall k :: k in Clients(History(tr)) ==> exists x :: x in Sources(tr) && KeyOf(x) == k
  {
    hide WellFormedSyn, Source, KeyOf;
    if tr != [] {
      var n := |tr| - 1;
      HistoryKeys(tr[..n]);
      SourcesGrow(tr, n);
      if tr[n].Inbound? && WellFormedSyn(tr[n].pkt) {
        RecordedIs(tr[n]);
        var x := ReadSyn(tr[n].pkt, tr[n].now);
        hide ReadSyn;
        ClientsStep(History(tr[..n]), x);
        assert Source(tr[n].pkt) in Sources(tr);
      } else {
        assert History(tr) == History(tr[..n]);
      }
    }
  }

  lemma {:induction false} KeysFewer(xs: set<Endpoint>, ks: set<nat>)
    requires forall k :: k in ks ==> exists x :: x in xs && KeyOf(x) == k
    ensures |ks| <= |xs|
    decreases |ks|
  {
    if ks != {} {
      var k :| k in ks;
      var x :| x in xs && KeyOf(x) == k;
      forall j | j in ks - {k}
        ensures exists y :: y in xs - {x} && KeyOf(y) == j
      {
        var y :| y in xs && KeyOf(y) == j;
      }
      KeysFewer(xs - {x}, ks - {k});
    }
  }

  /** A whole outbound SYN-ACK. */
  predicate SynAckPacket(s: seq<byte>) {
    WholeIpv4(s) && s[9] == 6 && HasTcp(s, Ihl(s)) && s[Ihl(s) + 13] / 2 % 2 == 1 && s[Ihl(s) + 13] / 16 % 2 == 1
  }

  /** The record that a SYN-ACK is shaped with after the trace, if there is one. */
  function FlowFor(tr: seq<Event>, s: seq<byte>, clk: Clock): Option<SynFlow>
    requires SynAckPacket(s)
  {
    Lookup(CacheOf(History(tr)), s, Ihl(s), clk.lookup)
  }

  /**
   * It is that of the latest SYN which came from the packet's destination, at most 4000 ms old, with the timestamp that
   * SYN's options carry; and with SYNs from at most 4096 endpoints in the trace there is one whenever there was such a
   * SYN.
   */
  lemma FlowIsAnswered(tr: seq<Event>, s: seq<byte>, clk: Clock)
    requires SynAckPacket(s)
    ensures var f, e := FlowFor(tr, s, clk), LatestFrom(tr, Destination(s));
            && (f.Some? ==> e.Some? && clk.lookup <= e.value.now + 4000)
            && (f.Some? ==> var t := Scan(OptionsOf(e.value.pkt), 0);
                            f.value.hadTS == t.Some? && f.value.tsval == if t.Some? then t.value else 0)
            && (|Sources(tr)| <= 4096 && e.Some? && clk.lookup <= e.value.now + 4000 ==> f.Some?)
  {
    LatestIs(tr, s);
    ClientsAre(tr);
    hide Scan, OptionsOf, Sources, Clients, CacheOf, History, LatestFrom, Destination, WholeIpv4, HasTcp, Lookup, Latest, ClientKey;
    LookupIsLatest(History(tr), s, Ihl(s), clk.lookup);
  }

  /** A SYN-ACK whose client has an unexpired record in the cache. */
  predicate CachedSynAck(tr: seq<Event>, s: seq<byte>, clk: Clock) {
    SynAckPacket(s) && FlowFor(tr, s, clk).Some?
  }

  /** The SYN being answered: the latest one that came from the packet's destination. */
  function Answered(tr: seq<Event>, s: seq<byte>, clk: Clock): (e: Event)
    requires CachedSynAck(tr, s, clk)
    ensures e.Inbound? && WellFormedSyn(e.pkt)
  {
    FlowIsAnswered(tr, s, clk);
    LatestFrom(tr, Destination(s)).value
  }

  /** The timestamp in its options, as a receiver reads them. */
  function AnsweredTimestamp(tr: seq<Event>, s: seq<byte>, clk: Clock): Option<uint32>
    requires CachedSynAck(tr, s, clk)
  {
    Scan(OptionsOf(Answered(tr, s, clk).pkt), 0)
  }

  /** The outbound SYN-ACK is shaped with the record of the SYN it answers. */
  lemma SentShaped(tr: seq<Event>, s: seq<byte>, p: Profile, id: IpIdState, clk: Clock) returns (g: Segment, c: Ctx)
    requires SynAckPacket(s)
    ensures Valid(g) && g.opts == Split(s, Ihl(s)).opts
    ensures c == Ctx(p, FlowFor(tr, s, clk), clk, s[Ihl(s) + 13])
    ensures var r := Sent(tr, s, p, id, clk);
            HasTcp(r, Ihl(s)) && Split(r, Ihl(s)) == Shape(g, c)
  {
    var w := After(tr, p, World(map[], id));
    CacheIsHistory(tr, p, id);
    hide After, History, CacheOf, Shape, IpStage, Dec16, NextId, TcpStage, WellFormedSyn, ReadSyn, Split;
    var ihl := Ihl(s);
    var t := IpStage(s, p, NextId(p, s[9], w.id).0);
    IpStageKeeps(s, p, NextId(p, s[9], w.id).0);
    SameTcp(s, t, ihl);
    SameContext(s, t, ihl, p, w.cache, clk);
    g, c := Split(t, ihl), CtxOf(t, ihl, p, w.cache, clk);
    SameOptions(s, t, ihl);
    TcpStageKeeps(t, ihl, p, w.cache, clk);
  }

  /**
   * Under a Linux profile with options configured, over every trace: the SYN-ACK with at least 12
   * option bytes that answers a cached SYN without timestamp leaves with a legal option block in
   * which there is no timestamp.
   */
  lemma NoTimestampForSilentClient(tr: seq<Event>, s: seq<byte>, p: Profile, id: IpIdState, clk: Clock)
    requires CachedSynAck(tr, s, clk) && |Split(s, Ihl(s)).opts| >= 12
    requires p.ecnEcho && p.optionsCount > 0 && p.windowScale > 0
    requires AnsweredTimestamp(tr, s, clk) == None
    ensures var r := Sent(tr, s, p, id, clk);
            && HasTcp(r, Ihl(s))
            && var l := Parse(Split(r, Ihl(s)).opts);
               l.Some? && Standard(l.value) && Timeless(l.value)
  {
    var g, c := SentShaped(tr, s, p, id, clk);
    FlowIsAnswered(tr, s, clk);
    assert IsSynAck(c.flags) && c.flow.Some? && !c.flow.value.hadTS;
    hide *;
    NoTimestampAnswered(g, c);
    EmittedLegal(g, c);
  }

  /**
   * With timestamps on and SACK as second option, over every trace: a 12- or 20-byte SYN-ACK that
   * answers a cached SYN with a nonzero TSval leaves with a legal option block whose timestamp
   * echoes exactly that value.
   */
  lemma TimestampForTalkingClient(tr: seq<Event>, s: seq<byte>, p: Profile, id: IpIdState, clk: Clock)
    requires CachedSynAck(tr, s, clk) && |Split(s, Ihl(s)).opts| in {12, 20}
    requires p.timestamps && p.opt1 == SACK_PERM && p.optionsCount > 0 && p.windowScale > 0
    requires AnsweredTimestamp(tr, s, clk).Some? && AnsweredTimestamp(tr, s, clk).value != 0
    ensures var r := Sent(tr, s, p, id, clk);
            && HasTcp(r, Ihl(s))
            && var l := Parse(Split(r, Ihl(s)).opts);
               && l.Some? && Standard(l.value)
               && var t := FirstTimestamp(l.value);
                  t.Some? && t.value.tsecr == AnsweredTimestamp(tr, s, clk).value
  {
    var g, c := SentShaped(tr, s, p, id, clk);
    FlowIsAnswered(tr, s, clk);
    hide FlowFor, Scan, LatestFrom, OptionsOf, Shape, Emitted, Sent, Parse, Split;
    TimestampEchoed(g, c);
    EmittedLegal(g, c);
  }
}
