/** What the armed driver leaves on the wire, in bytes of the frame. */
module HifiFrames {
  import opened Bytes
  import opened IpChecksum
  import opened HifiFilter

  /** An IPv4 header with its options at the start of the packet. */
  predicate Ipv4Packet(s: seq<byte>, protocol: byte) {
    |s| >= 20 && 0x45 <= s[0] <= 0x4F && 4 * (s[0] as int - 0x40) <= |s| && s[9] == protocol
  }

  /** The identification is this one and, with it, at most the checksum is another than before. */
  predicate Identified(s: seq<byte>, r: seq<byte>, id: uint16) {
    && |r| == |s| >= 20 && r[4] == id / 0x100 && r[5] == id % 0x100
    && forall k :: 0 <= k < |s| && k !in {4, 5, 10, 11} ==> r[k] == s[k]
  }

  /** The checksum field is right over the header, or it is as it was for the NIC to fill. */
  ghost predicate Summed(s: seq<byte>, r: seq<byte>, recompute: bool)
    requires |r| == |s| >= 20 && s[0] % 16 * 4 <= |s|
  {
    if recompute && r != s then Fold(WordSum(r[..s[0] % 16 * 4])) == 0xFFFF else r[10] == s[10] && r[11] == s[11]
  }

  /** The driver's purpose: with mode LINUX a TCP packet leaves with identification 0, whatever counter there is. */
  lemma TcpLeavesWithZero(s: seq<byte>, r: seq<byte>, icmpId: uint16, recompute: bool)
    requires Ipv4Packet(s, 6) && Rewritten(s, r, WantedId(s, 1, icmpId), recompute)
    ensures Identified(s, r, 0) && Summed(s, r, recompute)
  {
    hide Fold, WordSum;
    DecZero(r);
  }

  lemma DecZero(r: seq<byte>)
    requires |r| >= 6
    ensures Dec16(r, 4) == 0 ==> r[4] == 0 && r[5] == 0
  {
  }

  /** An ICMP packet leaves with the next number. */
  lemma IcmpLeavesCounted(s: seq<byte>, r: seq<byte>, icmpId: uint16, recompute: bool)
    requires Ipv4Packet(s, 1) && Rewritten(s, r, WantedId(s, 1, icmpId), recompute)
    ensures Identified(s, r, icmpId) && Summed(s, r, recompute)
  {
    hide Fold, WordSum;
    DecIs(r, icmpId);
  }

  lemma DecIs(r: seq<byte>, v: uint16)
    requires |r| >= 6
    ensures Dec16(r, 4) == v ==> r[4] == v / 0x100 && r[5] == v % 0x100
  {
  }

  /** Every other packet, and every packet in another mode, leaves as it came. */
  lemma OthersUntouched(s: seq<byte>, r: seq<byte>, mode: byte, icmpId: uint16, recompute: bool)
    requires Rewritten(s, r, WantedId(s, mode, icmpId), recompute)
    requires mode != 1 || (!Ipv4Packet(s, 6) && !Ipv4Packet(s, 1))
    ensures r == s
  {
    hide Fold, WordSum;
  }

  // ----- frames -----

  /** An Ethernet frame at off that holds an IPv4 packet, behind a VLAN tag or not. */
  predicate Carries(s: seq<byte>, off: nat, vlan: bool, protocol: byte) {
    var ip := off + if vlan then 18 else 14;
    && ip + 20 <= |s| && Ipv4Packet(s[ip..], protocol)
    && s[ip - 2] == 0x08 && s[ip - 1] == 0x00
    && (vlan ==> s[off + 12] == 0x81 && s[off + 13] == 0x00)
  }

  lemma CarriedStart(s: seq<byte>, off: nat, vlan: bool, protocol: byte)
    requires Carries(s, off, vlan, protocol)
    ensures IpStart(s, off) == Some(off + if vlan then 18 else 14)
  {
  }

  /** A frame around a TCP packet: the link header stays, and the packet leaves with identification 0. */
  lemma TcpFrame(s: seq<byte>, r: seq<byte>, off: nat, vlan: bool, icmpId: uint16, recompute: bool)
    requires Carries(s, off, vlan, 6) && FrameSent(s, r, off, icmpId, recompute)
    ensures var ip := off + if vlan then 18 else 14;
            |r| == |s| && r[..ip] == s[..ip] && Identified(s[ip..], r[ip..], 0) && Summed(s[ip..], r[ip..], recompute)
  {
    CarriedStart(s, off, vlan, 6);
    var ip := off + if vlan then 18 else 14;
    hide Fold, WordSum, Rewritten, WantedId, Summed, Identified;
    TcpLeavesWithZero(s[ip..], r[ip..], if DrawsId(s, off) then icmpId else 0, recompute);
  }

  /** A frame around an ICMP packet draws a number and leaves with it. */
  lemma IcmpFrame(s: seq<byte>, r: seq<byte>, off: nat, vlan: bool, icmpId: uint16, recompute: bool)
    requires Carries(s, off, vlan, 1) && FrameSent(s, r, off, icmpId, recompute)
    ensures var ip := off + if vlan then 18 else 14;
            && DrawsId(s, off) && |r| == |s| && r[..ip] == s[..ip]
            && Identified(s[ip..], r[ip..], icmpId) && Summed(s[ip..], r[ip..], recompute)
  {
    CarriedStart(s, off, vlan, 1);
    var ip := off + if vlan then 18 else 14;
    assert s[ip] == s[ip..][0] && s[ip + 9] == s[ip..][9];
    hide Fold, WordSum, Rewritten, WantedId, Summed, Identified;
    IcmpLeavesCounted(s[ip..], r[ip..], icmpId, recompute);
  }

  /** A frame of another type, or too short for an IPv4 header, leaves as it came and draws nothing. */
  lemma OtherFrame(s: seq<byte>, r: seq<byte>, off: nat, icmpId: uint16, recompute: bool)
    requires FrameSent(s, r, off, icmpId, recompute)
    requires || off + 34 > |s|
             || (s[off + 12] == 0x81 && s[off + 13] == 0x00 && (off + 38 > |s| || s[off + 16] != 0x08 || s[off + 17] != 0x00))
             || ((s[off + 12] != 0x81 || s[off + 13] != 0x00) && (s[off + 12] != 0x08 || s[off + 13] != 0x00))
    ensures r == s && !DrawsId(s, off)
  {
    hide Rewritten, WantedId;
  }

  // ----- a header whose checksum is known -----

  /** A UDP header from 192.168.0.1 to 192.168.0.199 with the checksum field zeroed: its checksum is 0xB861. */
  lemma KnownChecksum()
    ensures var h: seq<byte> := [0x45, 0x00, 0x00, 0x73, 0x00, 0x00, 0x40, 0x00, 0x40, 0x11, 0x00, 0x00, 0xC0, 0xA8, 0x00, 0x01, 0xC0, 0xA8, 0x00, 0xC7];
            0xFFFF - Fold(WordSum(h)) == 0xB861
  {
    var h: seq<byte> := [0x45, 0x00, 0x00, 0x73, 0x00, 0x00, 0x40, 0x00, 0x40, 0x11, 0x00, 0x00, 0xC0, 0xA8, 0x00, 0x01, 0xC0, 0xA8, 0x00, 0xC7];
    TenWords(h);
    assert WordSum(h) == 0x2_479C;
    hide WordSum;
    assert Fold(0x2_479C) == Fold(0x479E) == 0x479E;
  }

  lemma WordAt(h: seq<byte>, k: nat)
    requires k + 2 <= |h|
    ensures WordSum(h[k..]) == h[k] as int * 0x100 + h[k + 1] + WordSum(h[k + 2..])
  {
    assert h[k..][2..] == h[k + 2..];
  }

  /** The sum of a header without options, word by word. */
  lemma TenWords(h: seq<byte>)
    requires |h| == 20
    ensures WordSum(h) ==
            0x100 * (h[0] as int + h[2] + h[4] + h[6] + h[8] + h[10] + h[12] + h[14] + h[16] + h[18]) +
            h[1] + h[3] + h[5] + h[7] + h[9] + h[11] + h[13] + h[15] + h[17] + h[19]
  {
    assert h[0..] == h && h[20..] == [];
    assert WordSum([]) == 0;
    hide WordSum;
    FiveWords(h, 0);
    FiveWords(h, 10);
  }

  lemma FiveWords(h: seq<byte>, k: nat)
    requires k + 10 <= |h|
    ensures WordSum(h[k..]) ==
            0x100 * (h[k] as int + h[k + 2] + h[k + 4] + h[k + 6] + h[k + 8]) +
            h[k + 1] + h[k + 3] + h[k + 5] + h[k + 7] + h[k + 9] + WordSum(h[k + 10..])
  {
    hide WordSum;
    WordAt(h, k);
    WordAt(h, k + 2);
    WordAt(h, k + 4);
    WordAt(h, k + 6);
    WordAt(h, k + 8);
  }
}
