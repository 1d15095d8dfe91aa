/** The egress rules for a whole IPv4 packet, and what they keep. */
module PacketRules {
  import opened Bytes
  import opened TcpSegment
  import opened TcpShaping
  import opened TcpTheorems
  import opened SynCache

  /** The shared IP-ID counter and the xorshift seed. */
  datatype IpIdState = IpIdState(counter: uint16, seed: bv32)

  function Left13(s: bv32): bv32 { s ^ (s << 13) }
  function Top15(s: bv32): bv32 { s >> 17 }
  function Right17(s: bv32): bv32 { s ^ Top15(s) }
  function Left5(s: bv32): bv32 { s ^ (s << 5) }

  function XorShift(s: bv32): bv32 {
    Left5(Right17(Left13(s)))
  }

  /** uint16(s) */
  function Low16(s: bv32): uint16 {
    (s & 0xFFFF) as int
  }

  /** The next IP identification, and the state behind it. */
  function NextId(p: Profile, proto: byte, st: IpIdState): (uint16, IpIdState) {
    var bumped: uint16 := (st.counter + 1) as int % 0x1_0000;
    if p.winQuirks then
      match p.ipid
      case Zero => (0, st)
      case Random =>
        var s := XorShift(st.seed);
        (Low16(s), st.(seed := s))
      case Incremental => (bumped, st.(counter := bumped))
    else if proto == 1 then (bumped, st.(counter := bumped))
    else (0, st)
  }

  predicate HasDf(s: seq<byte>)
    requires |s| >= 20
  {
    s[6] / 64 % 2 == 1
  }

  function SetDf(s: seq<byte>, on: bool): (r: seq<byte>)
    requires |s| >= 20
    ensures |r| == |s| && HasDf(r) == on
  {
    s[6 := if HasDf(s) == on then s[6] else if on then s[6] + 64 else s[6] - 64]
  }

  /** TTL, DF and identification of the outer header. */
  function IpStage(s: seq<byte>, p: Profile, id: uint16): (r: seq<byte>)
    requires |s| >= 20
    ensures |r| == |s|
  {
    var t := s[8 := if p.ttl > 0 then p.ttl else s[8]];
    SetDf(t, p.dfBit)[4 := id / 0x100][5 := id % 0x100]
  }

  predicate PortUnreachable(s: seq<byte>, ihl: nat) {
    |s| >= ihl + 2 && s[ihl] == 3 && s[ihl + 1] == 3
  }

  /** ICMP leaves with DF clear; a Windows profile forces echo-reply code 0. */
  function IcmpStage(s: seq<byte>, ihl: nat, p: Profile): (r: seq<byte>)
    requires 20 <= ihl && |s| >= 20
    ensures |r| == |s|
  {
    if PortUnreachable(s, ihl) then (if |s| >= ihl + 8 then SetDf(s, false) else s)
    else
      var t := SetDf(s, false);
      if p.winQuirks && |s| >= ihl + 2 && s[ihl] == 0 then t[ihl + 1 := 0] else t
  }

  function CtxOf(s: seq<byte>, ihl: nat, p: Profile, m: map<nat, SynFlow>, clk: Clock): Ctx
    requires HasTcp(s, ihl)
  {
    var f := s[ihl + 13];
    Ctx(p, if IsSynAck(f) then Lookup(m, s, ihl, clk.lookup) else None, clk, f)
  }

  function TcpStage(s: seq<byte>, ihl: nat, p: Profile, m: map<nat, SynFlow>, clk: Clock): seq<byte> {
    if HasTcp(s, ihl) then Wire(Shape(Split(s, ihl), CtxOf(s, ihl, p, m, clk))) else s
  }

  predicate Ipv4(s: seq<byte>) {
    |s| >= 20 && s[0] / 16 == 4
  }

  function Ihl(s: seq<byte>): nat
    requires |s| >= 1
  {
    s[0] % 16 * 4
  }

  /** applyEgress on the bytes of a packet. */
  function Egress(s: seq<byte>, p: Profile, st: IpIdState, m: map<nat, SynFlow>, clk: Clock): (seq<byte>, IpIdState) {
    if !Ipv4(s) then (s, st)
    else
      var (id, st') := NextId(p, s[9], st);
      var t := IpStage(s, p, id);
      if Ihl(s) < 20 then (t, st')
      else if s[9] == 6 then (TcpStage(t, Ihl(s), p, m, clk), st')
      else if s[9] == 1 then (IcmpStage(t, Ihl(s), p), st')
      else (t, st')
  }

  // ----- what every packet keeps -----

  /** The packets WinDivert hands over: an IPv4 packet whose total length is its size. */
  predicate WholeIpv4(s: seq<byte>) {
    Ipv4(s) && 20 <= Ihl(s) <= |s| && Dec16(s, 2) == |s|
  }

  lemma SameContext(s: seq<byte>, t: seq<byte>, ihl: nat, p: Profile, m: map<nat, SynFlow>, clk: Clock)
    requires HasTcp(s, ihl) && HasTcp(t, ihl) && |t| == |s| && forall k :: 9 <= k < |s| ==> t[k] == s[k]
    ensures CtxOf(t, ihl, p, m, clk) == CtxOf(s, ihl, p, m, clk)
  {
    assert t[16..20] == s[16..20] && t[ihl + 2..ihl + 4] == s[ihl + 2..ihl + 4];
  }

  lemma SameOptions(s: seq<byte>, t: seq<byte>, ihl: nat)
    requires HasTcp(s, ihl) && HasTcp(t, ihl) && |t| == |s| && forall k :: 9 <= k < |s| ==> t[k] == s[k]
    ensures Split(t, ihl).opts == Split(s, ihl).opts
  {
  }

  /** How long a packet will be when it leaves, read off packet, profile, cache and clock. */
  function SentSize(s: seq<byte>, p: Profile, m: map<nat, SynFlow>, clk: Clock): nat
    requires WholeIpv4(s)
  {
    if s[9] == 6 && HasTcp(s, Ihl(s)) then TcpSize(s, Ihl(s), p, m, clk) else |s|
  }

  function TcpSize(s: seq<byte>, ihl: nat, p: Profile, m: map<nat, SynFlow>, clk: Clock): nat
    requires HasTcp(s, ihl)
  {
    var o := Split(s, ihl).opts;
    |s| - |o| + SentLength(o, CtxOf(s, ihl, p, m, clk))
  }

  lemma TcpStageKeeps(s: seq<byte>, ihl: nat, p: Profile, m: map<nat, SynFlow>, clk: Clock)
    requires HasTcp(s, ihl) && Dec16(s, 2) == |s|
    ensures var r := TcpStage(s, ihl, p, m, clk);
            && HasTcp(r, ihl) && |r| == TcpSize(s, ihl, p, m, clk) <= |s| + 12
            && (Dec16(r, 2) == |r| <==> |r| < 0x1_0000)
            && r[..2] == s[..2] && r[4..ihl + 12] == s[4..ihl + 12] && r[ihl + 16..ihl + 20] == s[ihl + 16..ihl + 20]
            && Split(r, ihl) == Shape(Split(s, ihl), CtxOf(s, ihl, p, m, clk))
            && Split(r, ihl).payload == Split(s, ihl).payload
  {
    hide Shape, Wire, Kept, CtxOf, Lookup, NextId, SentLength;
    var g, c := Split(s, ihl), CtxOf(s, ihl, p, m, clk);
    var r := Shape(g, c);
    assert Dec16(g.ip, 2) == Dec16(s, 2);
    ShapeKeeps(g, c);
    WireLength(g, r);
    KeptPieces(g, r);
    SplitWire(r);
    KeptBytes(g, r);
  }

  lemma KeptPieces(g: Segment, r: Segment)
    requires Valid(g) && Valid(r) && Kept(g, r)
    ensures |r.ip| == |g.ip| && r.payload == g.payload
  {
  }

  lemma KeptBytes(g: Segment, r: Segment)
    requires Valid(g) && Valid(r) && Kept(g, r)
    ensures var n := |g.ip|;
            && n + 20 <= |Wire(g)| && n + 20 <= |Wire(r)|
            && Wire(r)[..2] == Wire(g)[..2]
            && Wire(r)[4..n + 12] == Wire(g)[4..n + 12]
            && Wire(r)[n + 16..n + 20] == Wire(g)[n + 16..n + 20]
            && Dec16(Wire(r), 2) == Dec16(r.ip, 2)
  {
    var n := |g.ip|;
    assert Wire(g)[..2] == g.ip[..2] && Wire(r)[..2] == r.ip[..2];
    assert Wire(g)[4..n + 12] == g.ip[4..] + g.hdr[..12];
    assert Wire(r)[4..n + 12] == r.ip[4..] + r.hdr[..12];
    assert Wire(g)[n + 16..n + 20] == g.hdr[16..] && Wire(r)[n + 16..n + 20] == r.hdr[16..];
  }

  /** The outer header after the rules: addresses kept, TTL, DF and id as told. */
  predicate Outer(s: seq<byte>, r: seq<byte>, p: Profile, id: uint16)
    requires WholeIpv4(s)
  {
    && Ipv4(r) && Ihl(r) == Ihl(s) <= |r|
    && r[12..Ihl(s)] == s[12..Ihl(s)] && r[9] == s[9] && r[1] == s[1]
    && (p.ttl > 0 ==> r[8] == p.ttl)
    && Dec16(r, 4) == id
    && (s[9] != 1 ==> HasDf(r) == p.dfBit)
  }

  predicate SameTransport(s: seq<byte>, r: seq<byte>, ihl: nat)
    requires 20 <= ihl && HasTcp(s, ihl)
  {
    && HasTcp(r, ihl)
    && r[ihl..ihl + 12] == s[ihl..ihl + 12]
    && Split(r, ihl).payload == Split(s, ihl).payload
    && |r| == ihl + DataOffset(Split(r, ihl).hdr) + |Split(r, ihl).payload|
  }

  predicate SameBehindHeader(s: seq<byte>, r: seq<byte>, ihl: nat, but: int) {
    |r| == |s| && forall k :: ihl <= k < |s| && k != but ==> r[k] == s[k]
  }

  /**
   * For every profile, cache and clock: a whole IPv4 packet leaves with its addresses and protocol and with the
   * profile's TTL and the next identification. Its total length field is its size exactly when its new size, known
   * beforehand, fits the field; up to 65523 bytes it always does. A TCP packet keeps ports, sequence and
   * acknowledgement numbers and every payload byte, and its data offset is its real header length. Any other packet
   * keeps its size and, but for the code of an ICMP echo reply, every byte behind the IP header.
   */
  lemma EgressKeeps(s: seq<byte>, p: Profile, st: IpIdState, m: map<nat, SynFlow>, clk: Clock)
    requires WholeIpv4(s)
    ensures var r := Egress(s, p, st, m, clk).0;
            && Outer(s, r, p, NextId(p, s[9], st).0)
            && |r| == SentSize(s, p, m, clk) <= |s| + 12 && (WholeIpv4(r) <==> SentSize(s, p, m, clk) < 0x1_0000)
            && if s[9] == 6 && HasTcp(s, Ihl(s)) then SameTransport(s, r, Ihl(s))
               else SameBehindHeader(s, r, Ihl(s), if s[9] == 1 then Ihl(s) + 1 else -1)
  {
    hide TcpStage, NextId, SetDf, IpStage, Outer, SameTransport, SameBehindHeader, IcmpStage, SentSize, HasTcp, WholeIpv4, SizedRight;
    HeaderRoom(s);
    var id := NextId(p, s[9], st).0;
    if s[9] == 6 {
      TcpKeeps(s, p, id, m, clk);
      SizedRightIs(s, TcpStage(IpStage(s, p, id), Ihl(s), p, m, clk), p, m, clk);
    } else {
      OtherKeeps(s, p, id, m, clk);
      var t := IpStage(s, p, id);
      SizedRightIs(s, if s[9] == 1 then IcmpStage(t, Ihl(s), p) else t, p, m, clk);
    }
  }

  /** The size is the one told beforehand, and the total length says it when it can. */
  predicate SizedRight(s: seq<byte>, r: seq<byte>, p: Profile, m: map<nat, SynFlow>, clk: Clock)
    requires WholeIpv4(s)
  {
    |r| == SentSize(s, p, m, clk) <= |s| + 12 && (WholeIpv4(r) <==> |r| < 0x1_0000)
  }

  lemma SizedRightIs(s: seq<byte>, r: seq<byte>, p: Profile, m: map<nat, SynFlow>, clk: Clock)
    requires WholeIpv4(s) && SizedRight(s, r, p, m, clk)
    ensures |r| == SentSize(s, p, m, clk) <= |s| + 12 && (WholeIpv4(r) <==> SentSize(s, p, m, clk) < 0x1_0000)
  {
  }

  lemma TcpKeeps(s: seq<byte>, p: Profile, id: uint16, m: map<nat, SynFlow>, clk: Clock)
    requires WholeIpv4(s) && s[9] == 6
    ensures var r := TcpStage(IpStage(s, p, id), Ihl(s), p, m, clk);
            && Outer(s, r, p, id) && SizedRight(s, r, p, m, clk)
            && if HasTcp(s, Ihl(s)) then SameTransport(s, r, Ihl(s)) else SameBehindHeader(s, r, Ihl(s), -1)
  {
    hide TcpStage, SetDf, HasTcp, IpStage, Outer, SameTransport;
    var ihl, t := Ihl(s), IpStage(s, p, id);
    IpStageKeeps(s, p, id);
    SameTcp(s, t, ihl);
    if HasTcp(s, ihl) {
      TcpOuter(s, t, p, id, m, clk);
      TcpSized(s, t, p, id, m, clk);
      TcpTransport(s, t, m, p, clk);
    } else {
      NoTcp(t, ihl, p, m, clk);
      IpOuter(s, p, id);
      OtherSized(s, t, p, m, clk);
    }
  }

  lemma OtherSized(s: seq<byte>, t: seq<byte>, p: Profile, m: map<nat, SynFlow>, clk: Clock)
    requires WholeIpv4(s) && !(s[9] == 6 && HasTcp(s, Ihl(s)))
    requires |t| == |s| && t[0] == s[0] && Dec16(t, 2) == Dec16(s, 2)
    ensures SizedRight(s, t, p, m, clk)
  {
  }

  lemma TcpSized(s: seq<byte>, t: seq<byte>, p: Profile, id: uint16, m: map<nat, SynFlow>, clk: Clock)
    requires WholeIpv4(s) && s[9] == 6 && HasTcp(s, Ihl(s)) && t == IpStage(s, p, id)
    ensures SizedRight(s, TcpStage(t, Ihl(s), p, m, clk), p, m, clk)
  {
    hide *;
    HeaderRoom(s);
    var ihl := Ihl(s);
    IpStageKeeps(s, p, id);
    SameTcp(s, t, ihl);
    TcpRoom(s, ihl);
    SameSize(s, t, p, m, clk);
    TcpStageKeeps(t, ihl, p, m, clk);
    var r := TcpStage(t, ihl, p, m, clk);
    TcpRoom(r, ihl);
    OutsideLength(t, r, ihl);
    SizedIs(s, r, p, m, clk);
  }

  lemma SameSize(s: seq<byte>, t: seq<byte>, p: Profile, m: map<nat, SynFlow>, clk: Clock)
    requires WholeIpv4(s) && s[9] == 6 && HasTcp(s, Ihl(s)) && HasTcp(t, Ihl(s))
    requires |t| == |s| && forall k :: 9 <= k < |s| ==> t[k] == s[k]
    ensures TcpSize(t, Ihl(s), p, m, clk) == SentSize(s, p, m, clk)
  {
    hide CtxOf, Split, SentLength;
    SameContext(s, t, Ihl(s), p, m, clk);
    SameOptions(s, t, Ihl(s));
  }

  lemma SizedIs(s: seq<byte>, r: seq<byte>, p: Profile, m: map<nat, SynFlow>, clk: Clock)
    requires WholeIpv4(s) && |r| == SentSize(s, p, m, clk) <= |s| + 12 && Ihl(s) + 20 <= |r| && r[0] == s[0]
    requires Dec16(r, 2) == |r| <==> |r| < 0x1_0000
    ensures SizedRight(s, r, p, m, clk)
  {
    hide SentSize, Dec16;
  }

  lemma IpOuter(s: seq<byte>, p: Profile, id: uint16)
    requires WholeIpv4(s)
    ensures Outer(s, IpStage(s, p, id), p, id)
  {
    hide SetDf, IpStage;
    IpStageKeeps(s, p, id);
  }

  lemma TcpOuter(s: seq<byte>, t: seq<byte>, p: Profile, id: uint16, m: map<nat, SynFlow>, clk: Clock)
    requires WholeIpv4(s) && s[9] == 6 && HasTcp(s, Ihl(s)) && t == IpStage(s, p, id)
    ensures Outer(s, TcpStage(t, Ihl(s), p, m, clk), p, id)
  {
    hide *;
    HeaderRoom(s);
    var ihl := Ihl(s);
    IpStageKeeps(s, p, id);
    SameTcp(s, t, ihl);
    TcpRoom(s, ihl);
    TcpStageKeeps(t, ihl, p, m, clk);
    var r := TcpStage(t, ihl, p, m, clk);
    TcpRoom(r, ihl);
    OutsideLength(t, r, ihl);
    TailSlice(t, s, 9, 12, ihl);
    OuterIs(s, t, r, p, id);
  }

  lemma OuterIs(s: seq<byte>, t: seq<byte>, r: seq<byte>, p: Profile, id: uint16)
    requires WholeIpv4(s) && |s| == |t| && Ihl(s) + 20 <= |r|
    requires t[0] == s[0] && t[1] == s[1] && t[9] == s[9] && t[12..Ihl(s)] == s[12..Ihl(s)]
    requires r[0] == t[0] && r[1] == t[1] && r[6] == t[6] && r[8] == t[8] && r[9] == t[9] && r[12..Ihl(s)] == t[12..Ihl(s)]
    requires (p.ttl > 0 ==> t[8] == p.ttl) && HasDf(t) == p.dfBit && Dec16(r, 4) == id
    ensures Outer(s, r, p, id)
  {
    hide Dec16;
  }

  lemma TcpTransport(s: seq<byte>, t: seq<byte>, m: map<nat, SynFlow>, p: Profile, clk: Clock)
    requires WholeIpv4(s) && HasTcp(s, Ihl(s)) && |t| == |s| && t[9..] == s[9..] && Dec16(t, 2) == |s|
    ensures SameTransport(s, TcpStage(t, Ihl(s), p, m, clk), Ihl(s))
  {
    hide *;
    HeaderRoom(s);
    var ihl := Ihl(s);
    TcpRoom(s, ihl);
    TailSlice(s, t, 9, ihl, ihl + 12);
    SameTcp(s, t, ihl);
    TcpStageKeeps(t, ihl, p, m, clk);
    var r := TcpStage(t, ihl, p, m, clk);
    WholeLength(r, ihl);
    TcpRoom(r, ihl);
    OutsideLength(t, r, ihl);
    TransportIs(s, r, ihl);
  }

  lemma HeaderRoom(s: seq<byte>)
    requires WholeIpv4(s)
    ensures Ipv4(s) && 20 <= Ihl(s) <= |s| && Dec16(s, 2) == |s|
  {
  }

  lemma TransportIs(s: seq<byte>, r: seq<byte>, ihl: nat)
    requires 20 <= ihl && HasTcp(s, ihl) && HasTcp(r, ihl) && ihl + 12 <= |s| && ihl + 12 <= |r|
    requires r[ihl..ihl + 12] == s[ihl..ihl + 12] && Split(r, ihl).payload == Split(s, ihl).payload
    requires |r| == ihl + DataOffset(Split(r, ihl).hdr) + |Split(r, ihl).payload|
    ensures SameTransport(s, r, ihl)
  {
    hide HasTcp, Split, DataOffset;
  }

  lemma TailSlice(s: seq<byte>, t: seq<byte>, i: nat, a: nat, b: nat)
    requires i <= a <= b <= |s| == |t| && s[i..] == t[i..]
    ensures s[a..b] == t[a..b]
  {
    forall k | a <= k < b
      ensures s[k] == t[k]
    {
      assert s[i..][k - i] == t[i..][k - i];
    }
  }

  lemma OtherKeeps(s: seq<byte>, p: Profile, id: uint16, m: map<nat, SynFlow>, clk: Clock)
    requires WholeIpv4(s) && s[9] != 6
    ensures var t := IpStage(s, p, id);
            var r := if s[9] == 1 then IcmpStage(t, Ihl(s), p) else t;
            && Outer(s, r, p, id) && SizedRight(s, r, p, m, clk)
            && SameBehindHeader(s, r, Ihl(s), if s[9] == 1 then Ihl(s) + 1 else -1)
  {
    hide SetDf, IpStage, IcmpStage, SizedRight;
    IpStageKeeps(s, p, id);
    var t := IpStage(s, p, id);
    IcmpKeeps(t, Ihl(s), p);
    OtherSized(s, if s[9] == 1 then IcmpStage(t, Ihl(s), p) else t, p, m, clk);
  }

  lemma TcpRoom(s: seq<byte>, ihl: nat)
    requires HasTcp(s, ihl)
    ensures 20 <= ihl && ihl + 20 <= |s|
  {
  }

  lemma IpStageKeeps(s: seq<byte>, p: Profile, id: uint16)
    requires |s| >= 20
    ensures var t := IpStage(s, p, id);
            && t[9..] == s[9..] && t[..4] == s[..4] && (p.ttl > 0 ==> t[8] == p.ttl)
            && t[0] == s[0] && t[1] == s[1] && t[9] == s[9]
            && HasDf(t) == p.dfBit && Dec16(t, 4) == id && Dec16(t, 2) == Dec16(s, 2)
            && forall k :: 9 <= k < |s| ==> t[k] == s[k]
  {
  }

  lemma SameTcp(s: seq<byte>, t: seq<byte>, ihl: nat)
    requires |t| == |s| >= 20 && ihl >= 20 && t[9..] == s[9..]
    ensures HasTcp(t, ihl) == HasTcp(s, ihl)
    ensures HasTcp(s, ihl) ==> Split(t, ihl).payload == Split(s, ihl).payload
  {
    assert forall k :: 9 <= k < |s| ==> t[k] == t[9..][k - 9] && s[k] == s[9..][k - 9];
  }

  lemma WholeLength(s: seq<byte>, ihl: nat)
    requires HasTcp(s, ihl)
    ensures |s| == ihl + DataOffset(Split(s, ihl).hdr) + |Split(s, ihl).payload|
  {
  }

  lemma NoTcp(s: seq<byte>, ihl: nat, p: Profile, m: map<nat, SynFlow>, clk: Clock)
    requires !HasTcp(s, ihl)
    ensures TcpStage(s, ihl, p, m, clk) == s
  {
  }

  lemma IcmpKeeps(s: seq<byte>, ihl: nat, p: Profile)
    requires |s| >= 20 && ihl >= 20
    ensures var r := IcmpStage(s, ihl, p);
            && (forall k :: 0 <= k < |s| && k != 6 && k != ihl + 1 ==> r[k] == s[k])
            && (!PortUnreachable(s, ihl) || |s| >= ihl + 8 ==> !HasDf(r))
            && Dec16(r, 4) == Dec16(s, 4) && Dec16(r, 2) == Dec16(s, 2)
  {
  }

  lemma OutsideLength(t: seq<byte>, r: seq<byte>, ihl: nat)
    requires 20 <= ihl && ihl + 20 <= |t| && ihl + 20 <= |r|
    requires r[..2] == t[..2] && r[4..ihl + 12] == t[4..ihl + 12]
    ensures r[0] == t[0] && r[1] == t[1] && r[6] == t[6] && r[8] == t[8] && r[9] == t[9] && Dec16(r, 4) == Dec16(t, 4)
    ensures r[ihl..ihl + 12] == t[ihl..ihl + 12] && r[12..ihl] == t[12..ihl]
  {
    assert r[0] == r[..2][0] && r[1] == r[..2][1] && t[0] == t[..2][0] && t[1] == t[..2][1];
    assert forall k :: 4 <= k < ihl + 12 ==> r[k] == r[4..ihl + 12][k - 4] && t[k] == t[4..ihl + 12][k - 4];
  }
}
