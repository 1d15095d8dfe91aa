/** What each byte of an outgoing IPv4 header is, and each byte behind it when the packet is not TCP. */
module WireHeader {
  import opened Bytes
  import opened TcpSegment
  import opened TcpShaping
  import opened SynCache
  import opened PacketRules

  /** Two and four bytes in network order. */
  lemma NetworkOrder()
    ensures Enc16(0x0102) == [1, 2] && Enc32(0x0102_0304) == [1, 2, 3, 4]
    ensures Dec16([1, 2], 0) == 0x0102 && Dec32([1, 2, 3, 4], 0) == 0x0102_0304
  {
  }

  /** DF is the bit 0x4000 of the fragment field. */
  lemma DfIsTheBit(s: seq<byte>)
    requires |s| >= 20
    ensures HasDf(s) <==> (s[6] as bv8) & 0x40 != 0
  {
    DfOfByte(s[6]);
  }

  lemma DfOfByte(b: byte)
    ensures b / 64 % 2 == 1 <==> (b as bv8) & 0x40 != 0
  {
  }

  /** b with the bit of weight 64 set or cleared. */
  function WithDf(b: byte, on: bool): byte {
    b / 128 * 128 + b % 64 + if on then 64 else 0
  }

  /** DF as the profile has it, but clear on ICMP; a port-unreachable too short for its rule keeps the profile's. */
  function WantedDf(s: seq<byte>, p: Profile): bool
    requires WholeIpv4(s)
  {
    var i := Ihl(s);
    p.dfBit && (s[9] != 1 || (i + 2 <= |s| < i + 8 && s[i] == 3 && s[i + 1] == 3))
  }

  /** Byte k of the header as it leaves, the total length apart. */
  function WantedByte(s: seq<byte>, p: Profile, id: uint16, k: nat): byte
    requires WholeIpv4(s) && k < |s|
  {
    if k == 4 then id / 0x100
    else if k == 5 then id % 0x100
    else if k == 6 then WithDf(s[6], WantedDf(s, p))
    else if k == 8 && p.ttl > 0 then p.ttl
    else s[k]
  }

  /** The code of an ICMP packet: 0 on the echo reply of a Windows profile, else its own. */
  function WantedCode(s: seq<byte>, p: Profile): byte
    requires WholeIpv4(s) && |s| >= Ihl(s) + 2
  {
    if p.winQuirks && s[Ihl(s)] == 0 then 0 else s[Ihl(s) + 1]
  }

  lemma IpStageBytes(s: seq<byte>, p: Profile, id: uint16)
    requires |s| >= 20
    ensures forall k: nat :: k < |s| ==>
              IpStage(s, p, id)[k] ==
              if k == 4 then id / 0x100 else if k == 5 then id % 0x100
              else if k == 6 then WithDf(s[6], p.dfBit) else if k == 8 && p.ttl > 0 then p.ttl else s[k]
  {
  }

  lemma IcmpStageBytes(s: seq<byte>, ihl: nat, p: Profile)
    requires |s| >= 20 && ihl >= 20
    ensures var short := ihl + 2 <= |s| < ihl + 8 && s[ihl] == 3 && s[ihl + 1] == 3;
            forall k: nat :: k < |s| ==>
              IcmpStage(s, ihl, p)[k] ==
              if k == 6 then (if short then s[6] else WithDf(s[6], false))
              else if k == ihl + 1 && p.winQuirks && s[ihl] == 0 then 0 else s[k]
  {
  }

  /** Every byte of the IPv4 header but the total length, under every profile; options and checksum as they came. */
  lemma HeaderOnWire(s: seq<byte>, p: Profile, st: IpIdState, m: map<nat, SynFlow>, clk: Clock, k: nat)
    requires WholeIpv4(s) && k < Ihl(s) && k != 2 && k != 3
    ensures var r := Egress(s, p, st, m, clk).0;
            |r| >= Ihl(s) && r[k] == WantedByte(s, p, NextId(p, s[9], st).0, k)
  {
    hide TcpStage, IcmpStage, NextId, IpStage, WantedByte, WholeIpv4;
    HeaderRoom(s);
    var id := NextId(p, s[9], st).0;
    if s[9] == 6 {
      TcpHeader(s, p, id, m, clk, k);
    } else {
      OtherHeader(s, p, id, k);
    }
  }

  lemma TcpHeader(s: seq<byte>, p: Profile, id: uint16, m: map<nat, SynFlow>, clk: Clock, k: nat)
    requires WholeIpv4(s) && s[9] == 6 && k < Ihl(s) && k != 2 && k != 3
    ensures var r := TcpStage(IpStage(s, p, id), Ihl(s), p, m, clk); |r| >= Ihl(s) && r[k] == WantedByte(s, p, id, k)
  {
    HeaderRoom(s);
    var ihl, t := Ihl(s), IpStage(s, p, id);
    assert IpStage(s, p, id)[k] == WantedByte(s, p, id, k) by {
      hide IpStage;
      IpStageBytes(s, p, id);
    }
    hide *;
    IpStageKeeps(s, p, id);
    SameTcp(s, t, ihl);
    if HasTcp(s, ihl) {
      TcpRoom(s, ihl);
      TcpStageKeeps(t, ihl, p, m, clk);
      var r := TcpStage(t, ihl, p, m, clk);
      TcpRoom(r, ihl);
      TcpHeaderByte(t, r, ihl, k);
    } else {
      NoTcp(t, ihl, p, m, clk);
    }
  }

  lemma OtherHeader(s: seq<byte>, p: Profile, id: uint16, k: nat)
    requires WholeIpv4(s) && s[9] != 6 && k < Ihl(s) && k != 2 && k != 3
    ensures var t := IpStage(s, p, id);
            (if s[9] == 1 then IcmpStage(t, Ihl(s), p) else t)[k] == WantedByte(s, p, id, k)
  {
    hide IpStage, IcmpStage;
    IpStageBytes(s, p, id);
    IcmpStageBytes(IpStage(s, p, id), Ihl(s), p);
  }

  lemma TcpHeaderByte(t: seq<byte>, r: seq<byte>, ihl: nat, k: nat)
    requires k < ihl && k != 2 && k != 3 && 20 <= ihl && ihl + 20 <= |t| && ihl + 20 <= |r|
    requires r[..2] == t[..2] && r[4..ihl + 12] == t[4..ihl + 12]
    ensures r[k] == t[k]
  {
    if k < 2 {
      assert r[k] == r[..2][k] && t[k] == t[..2][k];
    } else {
      assert r[k] == r[4..ihl + 12][k - 4] && t[k] == t[4..ihl + 12][k - 4];
    }
  }

  /** Every byte behind the header of a packet that is not TCP: the code of ICMP as wanted, all others as they came. */
  lemma BehindHeader(s: seq<byte>, p: Profile, st: IpIdState, m: map<nat, SynFlow>, clk: Clock, k: nat)
    requires WholeIpv4(s) && s[9] != 6 && Ihl(s) <= k < |s|
    ensures var r := Egress(s, p, st, m, clk).0;
            |r| == |s| && r[k] == if s[9] == 1 && k == Ihl(s) + 1 then WantedCode(s, p) else s[k]
  {
    hide TcpStage, IcmpStage, NextId, IpStage;
    var id := NextId(p, s[9], st).0;
    IpStageBytes(s, p, id);
    IcmpStageBytes(IpStage(s, p, id), Ihl(s), p);
  }

  // ----- the random identifications -----

  lemma Left13Injective(s: bv32, t: bv32)
    requires Left13(s) == Left13(t)
    ensures s == t
  {
  }

  lemma TopIs(a: bv32)
    ensures Top15(a) == a >> 17
  {
  }

  lemma MixedTop(s: bv32, x: bv32)
    requires x == Top15(s)
    ensures (s ^ x) >> 17 == x
  {
  }

  /** The upper bits stay, and they are what is mixed into the lower ones. */
  lemma TopStays(s: bv32)
    ensures Top15(s ^ Top15(s)) == Top15(s)
  {
    hide *;
    MixedTop(s, Top15(s));
    TopIs(s ^ Top15(s));
  }

  lemma Right17Is(s: bv32)
    ensures Right17(s) == s ^ Top15(s)
  {
    hide Top15;
  }

  lemma XorCancels(s: bv32, t: bv32, a: bv32)
    requires s ^ a == t ^ a
    ensures s == t
  {
  }

  lemma Right17Injective(s: bv32, t: bv32)
    requires Right17(s) == Right17(t)
    ensures s == t
  {
    hide *;
    Right17Is(s);
    Right17Is(t);
    TopStays(s);
    TopStays(t);
    XorCancels(s, t, Top15(s));
  }

  lemma Left5Injective(s: bv32, t: bv32)
    requires Left5(s) == Left5(t)
    ensures s == t
  {
  }

  /** The generator permutes its states: none is reached from two others. */
  lemma XorShiftPermutes(x: bv32, y: bv32)
    requires XorShift(x) == XorShift(y)
    ensures x == y
  {
    hide Left13, Right17, Left5;
    Left5Injective(Right17(Left13(x)), Right17(Left13(y)));
    Right17Injective(Left13(x), Left13(y));
    Left13Injective(x, y);
  }

  /** So a nonzero seed never becomes 0. */
  lemma XorShiftNonzero(x: bv32)
    ensures XorShift(x) == 0 <==> x == 0
  {
    assert Left13(0) == 0 && Right17(0) == 0 && Left5(0) == 0;
    hide Left13, Right17, Left5;
    assert XorShift(0) == 0;
    hide XorShift;
    if XorShift(x) == 0 {
      XorShiftPermutes(x, 0);
    }
  }

  /** Its first number from seed 1, and the number that goes into the packet. */
  lemma XorShiftStarts()
    ensures XorShift(1) == 270369 && Low16(XorShift(1)) == 8225
  {
  }
}
