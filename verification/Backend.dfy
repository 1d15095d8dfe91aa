/** The WinDivert backend: its SYN cache, its IP-ID counter and the packet entry points. */
module Backend {
  import opened Bytes
  import opened TcpOptions
  import opened TcpSegment
  import opened TcpShaping
  import opened SynCache
  import opened PacketRules
  import E = Egress

  /** DF on or off in the 16-bit fragment field; says whether it had to change. */
  method PutDf(pkt: array<byte>, on: bool) returns (changed: bool)
    requires pkt.Length >= 20
    modifies pkt
    ensures pkt[..] == SetDf(old(pkt[..]), on)
    ensures !changed ==> pkt[..] == old(pkt[..])
  {
    var fo: int := Dec16(pkt[..], 6);
    var curDF := fo / 0x4000 % 2 == 1;
    assert fo / 0x4000 % 2 == pkt[6] / 64 % 2;
    changed := curDF != on;
    if changed {
      fo := if on then fo + 0x4000 else fo - 0x4000;
      ghost var s := pkt[..];
      PutUint16(pkt, 6, fo);
      assert Enc16(fo) == [SetDf(s, on)[6], s[7]];
      assert pkt[..] == SetDf(s, on);
    }
  }

  /** The identification, unless it is already there. */
  method PutId(pkt: array<byte>, id: uint16) returns (changed: bool)
    requires pkt.Length >= 20
    modifies pkt
    ensures pkt[..] == old(pkt[..])[4 := id / 0x100][5 := id % 0x100]
    ensures !changed ==> pkt[..] == old(pkt[..])
  {
    ghost var s := pkt[..];
    changed := Dec16(pkt[..], 4) != id;
    if changed {
      PutUint16(pkt, 4, id);
      assert pkt[..] == s[4 := id / 0x100][5 := id % 0x100];
    } else {
      assert s[4] == id / 0x100 && s[5] == id % 0x100;
    }
  }

  /** applyICMP: DF clear, and code 0 in the echo replies of a Windows profile. */
  method ApplyICMP(pkt: array<byte>, ihl: nat, winQuirks: bool) returns (changed: bool)
    requires 20 <= ihl && pkt.Length >= 20
    modifies pkt
    ensures pkt[..] == var t := SetDf(old(pkt[..]), false);
                       if winQuirks && |t| >= ihl + 2 && t[ihl] == 0 then t[ihl + 1 := 0] else t
    ensures !changed ==> pkt[..] == old(pkt[..])
  {
    changed := PutDf(pkt, false);
    if winQuirks && pkt.Length >= ihl + 2 {
      if pkt[ihl] == 0 && pkt[ihl + 1] != 0 {
        pkt[ihl + 1] := 0;
        changed := true;
      }
    }
  }

  /** applyPortUnreachable: outer TTL and DF only, the quote stays verbatim. */
  method ApplyPortUnreachable(pkt: array<byte>, ihl: nat, ttl: byte) returns (changed: bool)
    requires 20 <= ihl && pkt.Length >= 20
    modifies pkt
    ensures pkt[..] == if |old(pkt[..])| < ihl + 8 then old(pkt[..])
                       else SetDf(old(pkt[..])[8 := if ttl > 0 then ttl else old(pkt[8])], false)
    ensures !changed ==> pkt[..] == old(pkt[..])
  {
    if pkt.Length < ihl + 8 {
      return false;
    }
    changed := false;
    if ttl > 0 && pkt[8] != ttl {
      pkt[8] := ttl;
      changed := true;
    }
    var c := PutDf(pkt, false);
    changed := changed || c;
  }

  /** The ICMP branch: port-unreachable messages apart from all others. */
  method EditIcmp(pkt: array<byte>, ihl: nat, p: Profile) returns (changed: bool)
    requires 20 <= ihl && pkt.Length >= 20 && (p.ttl > 0 ==> pkt[8] == p.ttl)
    modifies pkt
    ensures pkt[..] == IcmpStage(old(pkt[..]), ihl, p)
    ensures !changed ==> pkt[..] == old(pkt[..])
  {
    ghost var t := pkt[..];
    if pkt.Length >= ihl + 2 && pkt[ihl] == 3 && pkt[ihl + 1] == 3 {
      changed := ApplyPortUnreachable(pkt, ihl, p.ttl);
      assert t[8 := if p.ttl > 0 then p.ttl else t[8]] == t;
    } else {
      changed := ApplyICMP(pkt, ihl, p.winQuirks);
    }
  }

  /** The recorder's guards and fields, read at offsets into the packet. */
  lemma SynOnWire(s: seq<byte>, now: nat)
    ensures WellFormedSyn(s) <==>
            && |s| >= 24 && s[0] / 16 == 4
            && |s| >= s[0] % 16 * 4 + 20
            && 20 <= s[s[0] % 16 * 4 + 12] / 16 * 4 <= |s| - s[0] % 16 * 4
    ensures WellFormedSyn(s) ==>
              var ihl := s[0] % 16 * 4;
              var t := Scan(s[ihl + 20..ihl + s[ihl + 12] / 16 * 4], 0);
              ReadSyn(s, now) ==
              Seen(FlowKey(s[12..16], s[ihl..ihl + 2]), t.Some?, if t.Some? then t.value else 0, now)
  {
    hide FlowKey, Scan;
    if WellFormedSyn(s) {
      var ihl := s[0] % 16 * 4;
      var hl := s[ihl + 12] / 16 * 4;
      assert s[ihl..][20..hl] == s[ihl + 20..ihl + hl] && s[ihl..][0..2] == s[ihl..ihl + 2];
    }
  }

  lemma RecordOne(h: seq<Seen>, x: Seen)
    ensures CacheOf(h + [x]) == Insert(CacheOf(h), x)
  {
    assert (h + [x])[..|h|] == h;
  }

  class WindowsBackend {
    var synCache: map<nat, SynFlow>
    var counter: uint16
    var seed: bv32
    ghost var history: seq<Seen>

    /** The cache summarises the SYNs recorded so far. */
    ghost predicate Valid()
      reads this
    {
      synCache == CacheOf(history)
    }

    constructor ()
      ensures Valid() && history == [] && IdState() == IpIdState(0, 0x9e3779b9)
    {
      synCache, counter, seed, history := map[], 0, 0x9e3779b9, [];
    }

    function IdState(): IpIdState
      reads this
    {
      IpIdState(counter, seed)
    }

    method RecordInboundSyn(pkt: array<byte>, now: nat)
      requires Valid()
      modifies this`synCache, this`history
      ensures Valid()
      ensures history == old(history) + if WellFormedSyn(pkt[..]) then [ReadSyn(pkt[..], now)] else []
    {
      hide FlowKey, Scan, WellFormedSyn, ReadSyn, CacheOf;
      ghost var s := pkt[..];
      SynOnWire(s, now);
      if pkt.Length < 24 || pkt[0] / 16 != 4 {
        return;
      }
      var ihl := pkt[0] as int % 16 * 4;
      if pkt.Length < ihl + 20 {
        return;
      }
      var tcpHL := pkt[ihl + 12] / 16 * 4;
      if tcpHL < 20 || pkt.Length - ihl < tcpHL {
        return;
      }
      var key := FlowKey(pkt[12..16], pkt[ihl..ihl + 2]);
      var hadTS, tsval := ScanSynTimestamp(pkt, ihl + 20, ihl + tcpHL);
      assert pkt[12..16] == s[12..16] && pkt[ihl..ihl + 2] == s[ihl..ihl + 2];
      assert pkt[ihl + 20..ihl + tcpHL] == s[ihl + 20..ihl + tcpHL];
      RecordOne(history, ReadSyn(s, now));
      if |synCache| > LIMIT {
        synCache := map[];
      }
      synCache := synCache[key := SynFlow(hadTS, tsval, now + TTL_MS)];
      history := history + [ReadSyn(s, now)];
    }

    method LookupSynFlow(pkt: array<byte>, ihl: nat, now: nat) returns (r: Option<SynFlow>)
      requires 20 <= ihl
      ensures r == Lookup(synCache, pkt[..], ihl, now)
    {
      if pkt.Length < ihl + 4 {
        return None;
      }
      var key := FlowKey(pkt[16..20], pkt[ihl + 2..ihl + 4]);
      assert pkt[..][16..20] == pkt[16..20] && pkt[..][ihl + 2..ihl + 4] == pkt[ihl + 2..ihl + 4];
      if key !in synCache || synCache[key].exp < now {
        return None;
      }
      return Some(synCache[key]);
    }

    /** applyTCP: the packet that comes out is the shaped segment, in place unless it was resized. */
    method ApplyTCP(pkt: array<byte>, ihl: nat, p: Profile, clk: Clock) returns (out: array<byte>, changed: bool)
      requires 20 <= ihl <= pkt.Length
      modifies pkt
      ensures out == pkt || fresh(out)
      ensures out[..] == TcpStage(old(pkt[..]), ihl, p, synCache, clk)
      ensures !changed ==> out == pkt && out[..] == old(pkt[..])
    {
      hide Wire, Shape;
      if pkt.Length - ihl < 20 {
        return pkt, false;
      }
      var tcpHL: nat := pkt[ihl + 12] / 16 * 4;
      if tcpHL < 20 || pkt.Length - ihl < tcpHL {
        return pkt, false;
      }
      ghost var s := pkt[..];
      var flags := pkt[ihl + 13];
      var optLen := tcpHL - 20;
      var flow := None;
      if IsSynAck(flags) {
        flow := LookupSynFlow(pkt, ihl, clk.lookup);
      }
      var c := Ctx(p, flow, clk, flags);
      ghost var g := Split(s, ihl);
      assert c == CtxOf(s, ihl, p, synCache, clk);
      out, changed := E.ShapeInPlace(pkt, ihl, optLen, g, c);
    }

    /** applyEgress: what leaves is what the packet rules say, and an unset flag means nothing changed. */
    method ApplyEgress(pkt: array<byte>, p: Profile, clk: Clock) returns (out: array<byte>, changed: bool)
      requires Ipv4(pkt[..]) && pkt[9] == 6 ==> Ihl(pkt[..]) <= pkt.Length
      modifies pkt, this`counter, this`seed
      ensures out == pkt || fresh(out)
      ensures (out[..], IdState()) == Egress(old(pkt[..]), p, old(IdState()), synCache, clk)
      ensures !changed ==> out == pkt && out[..] == old(pkt[..])
    {
      if pkt.Length < 20 {
        return pkt, false;
      }
      if pkt[0] / 16 != 4 {
        return pkt, false;
      }
      hide NextId, IpStage, TcpStage, IcmpStage;
      ghost var s := pkt[..];
      var proto := pkt[9];
      changed := EditIpHeader(pkt, p, proto);
      ghost var t := pkt[..];
      IpStageKeeps(s, p, NextId(p, proto, old(IdState())).0);
      var ihl: nat := pkt[0] % 16 * 4;
      out := pkt;
      if ihl < 20 {
        return;
      }
      if proto == 6 {
        var tcpChanged;
        out, tcpChanged := ApplyTCP(pkt, ihl, p, clk);
        changed := changed || tcpChanged;
      } else if proto == 1 {
        var c := EditIcmp(pkt, ihl, p);
        changed := changed || c;
      }
    }

    /** TTL, DF and identification. */
    method EditIpHeader(pkt: array<byte>, p: Profile, proto: byte) returns (changed: bool)
      requires pkt.Length >= 20 && pkt[9] == proto
      modifies pkt, this`counter, this`seed
      ensures IdState() == NextId(p, proto, old(IdState())).1
      ensures pkt[..] == IpStage(old(pkt[..]), p, NextId(p, proto, old(IdState())).0)
      ensures !changed ==> pkt[..] == old(pkt[..])
    {
      hide NextId, SetDf;
      ghost var s := pkt[..];
      changed := false;
      if p.ttl > 0 && pkt[8] != p.ttl {
        pkt[8] := p.ttl;
        changed := true;
      }
      assert pkt[..] == s[8 := if p.ttl > 0 then p.ttl else s[8]];
      var c := PutDf(pkt, p.dfBit);
      changed := changed || c;
      ghost var s2 := pkt[..];
      var newID := NextIpId(p, proto);
      c := PutId(pkt, newID);
      changed := changed || c;
    }

    /** The IP identification of the next packet. */
    method NextIpId(p: Profile, proto: byte) returns (id: uint16)
      modifies this`counter, this`seed
      ensures (id, IdState()) == NextId(p, proto, old(IdState()))
    {
      hide Low16, XorShift;
      if p.winQuirks {
        match p.ipid {
          case Zero => id := 0;
          case Random =>
            seed := XorShift(seed);
            id := Low16(seed);
          case Incremental =>
            counter := (counter as int + 1) % 0x1_0000;
            id := counter;
        }
      } else if proto == 1 {
        counter := (counter as int + 1) % 0x1_0000;
        id := counter;
      } else {
        id := 0;
      }
    }
  }
}
