/** The IPv4 header checksum of the kernel driver and its IP-ID rewrite. */
module IpChecksum {
  import opened Bytes

  const WORD: int := 0x1_0000
  const U32: int := 0x1_0000_0000

  /** The 16-bit big-endian words of s added up, an odd last byte counting as the high half. */
  function WordSum(s: seq<byte>): (n: nat)
    ensures n <= (|s| + 1) / 2 * 0xFFFF
    ensures |s| > 0 && s[0] > 0 ==> n > 0
  {
    if s == [] then 0
    else if |s| == 1 then s[0] as int * 0x100
    else s[0] as int * 0x100 + s[1] + WordSum(s[2..])
  }

  /** Adding the carries back in until 16 bits are left. */
  function Fold(n: nat): (r: nat)
    ensures r < WORD
  {
    if n < WORD then n else Fold(n % WORD + n / WORD)
  }

  lemma {:induction false} FoldValue(n: nat)
    ensures Fold(n) % 0xFFFF == n % 0xFFFF
    ensures n > 0 ==> Fold(n) > 0
  {
    if n >= WORD {
      var m := n % WORD + n / WORD;
      FoldValue(m);
      ModShift(m, n / WORD);
      assert n == m + n / WORD * 0xFFFF;
    }
  }

  lemma {:induction false} ModShift(m: nat, k: nat)
    ensures (m + k * 0xFFFF) % 0xFFFF == m % 0xFFFF
  {
    if k > 0 {
      ModShift(m, k - 1);
      var x := m + (k - 1) * 0xFFFF;
      assert (x + 0xFFFF) % 0xFFFF == x % 0xFFFF;
    }
  }

  lemma {:induction false} AllOnesSum(n: nat)
    ensures WordSum(Repeat(0xFF, n)) == n / 2 * 0xFFFF + n % 2 * 0xFF00
    decreases n
  {
    if n >= 2 {
      assert Repeat(0xFF, n)[2..] == Repeat(0xFF, n - 2);
      AllOnesSum(n - 2);
    }
  }

  /** Up to 131074 bytes no data overflows the 32-bit accumulator; from 131075 bytes on some does. */
  lemma AccumulatorBound(n: nat)
    ensures (forall s: seq<byte> :: |s| == n ==> WordSum(s) < U32) <==> n <= 131074
  {
    if n > 131074 {
      AllOnesSum(n);
      assert WordSum(Repeat(0xFF, n)) >= U32;
    } else {
      forall s: seq<byte> | |s| == n
        ensures WordSum(s) < U32
      {
        assert (|s| + 1) / 2 <= 65537;
      }
    }
  }

  /** MimicHiFi_IpChecksum16 over len bytes at off, in 32-bit arithmetic. */
  method IpChecksum16(hdr: array<byte>, off: nat, len: nat) returns (ck: uint16)
    requires off + len <= hdr.Length
    ensures len <= 131074 ==> ck == 0xFFFF - Fold(WordSum(hdr[off..off + len]))
  {
    hide Fold, WordSum;
    ghost var s := hdr[off..off + len];
    assert s[0..] == s;
    var sum := 0;
    var i := 0;
    while i + 1 < len
      invariant 0 <= i <= len && i % 2 == 0 && 0 <= sum < U32
      invariant len <= 131074 ==> sum + WordSum(s[i..]) == WordSum(s)
      decreases len - i
    {
      PeelWord(s, i);
      assert hdr[off + i] == s[i] && hdr[off + i + 1] == s[i + 1];
      if len <= 131074 {
        NoOverflow(s, i, sum);
      }
      sum := (sum + (hdr[off + i] as int * 0x100 + hdr[off + i + 1])) % U32;
      i := i + 2;
    }
    PeelLast(s, i);
    if i < len {
      if len <= 131074 {
        NoOverflow(s, i, sum);
      }
      sum := (sum + hdr[off + i] as int * 0x100) % U32;
    }
    assert len <= 131074 ==> sum == WordSum(s);
    ghost var total := sum;
    while sum / WORD != 0
      invariant 0 <= sum && Fold(sum) == Fold(total)
      decreases sum
    {
      FoldStep(sum);
      sum := sum % WORD + sum / WORD;
    }
    FoldStep(sum);
    ck := 0xFFFF - sum;
  }

  lemma FoldStep(n: nat)
    ensures Fold(n) == if n / WORD == 0 then n else Fold(n % WORD + n / WORD)
  {
  }

  lemma PeelWord(s: seq<byte>, i: nat)
    requires i + 1 < |s|
    ensures WordSum(s[i..]) == s[i] as int * 0x100 + s[i + 1] + WordSum(s[i + 2..])
  {
    assert s[i..][2..] == s[i + 2..];
  }

  lemma PeelLast(s: seq<byte>, i: nat)
    requires |s| - 1 <= i <= |s|
    ensures WordSum(s[i..]) == if i == |s| then 0 else s[i] as int * 0x100
  {
  }

  lemma NoOverflow(s: seq<byte>, i: nat, sum: nat)
    requires |s| <= 131074 && i <= |s| && sum + WordSum(s[i..]) == WordSum(s)
    ensures sum + WordSum(s[i..]) < U32
  {
    AccumulatorBound(|s|);
  }

  /** The 16-bit word at an even offset contributes exactly its value. */
  lemma {:induction false} WordSumUpdate(s: seq<byte>, k: nat, hi: byte, lo: byte)
    requires k % 2 == 0 && k + 1 < |s|
    ensures WordSum(s[k := hi][k + 1 := lo]) ==
            WordSum(s) - (s[k] as int * 0x100 + s[k + 1]) + (hi as int * 0x100 + lo)
  {
    var t := s[k := hi][k + 1 := lo];
    if k == 0 {
      assert t[2..] == s[2..];
    } else {
      assert t[2..] == s[2..][k - 2 := hi][k - 1 := lo];
      WordSumUpdate(s[2..], k - 2, hi, lo);
    }
  }

  /** A header whose checksum field complements the folded sum of the rest folds to all ones. */
  lemma ChecksumCloses(h: seq<byte>, k: nat)
    requires |h| > k + 1 && k % 2 == 0 && h[k] == 0 && h[k + 1] == 0 && WordSum(h) > 0
    ensures var ck := 0xFFFF - Fold(WordSum(h));
            Fold(WordSum(h[k := ck / 0x100][k + 1 := ck % 0x100])) == 0xFFFF
  {
    hide WordSum, Fold;
    var n := WordSum(h);
    var ck := 0xFFFF - Fold(n);
    WordSumUpdate(h, k, ck / 0x100, ck % 0x100);
    HighLow(ck);
    FoldValue(n);
    Complement(n, Fold(n));
    FoldValue(n + ck);
  }

  lemma HighLow(v: uint16)
    ensures (v / 0x100) * 0x100 + v as int % 0x100 == v
  {
  }

  lemma Complement(n: nat, f: nat)
    requires f <= 0xFFFF && f % 0xFFFF == n % 0xFFFF
    ensures (n + 0xFFFF - f) % 0xFFFF == 0
  {
  }

  // ----- the IP-ID rewrite -----

  const PROTO_ICMP: byte := 1
  const PROTO_TCP: byte := 6

  predicate Ipv4Header(s: seq<byte>) {
    |s| >= 20 && s[0] / 16 == 4 && 20 <= s[0] % 16 * 4 <= |s|
  }

  /** The identification the armed driver wants for the packet, if it wants one. */
  function WantedId(s: seq<byte>, mode: byte, icmpId: uint16): Option<uint16> {
    if mode != 1 || !Ipv4Header(s) then None
    else if s[9] == PROTO_TCP then Some(0)
    else if s[9] == PROTO_ICMP then Some(icmpId)
    else None
  }

  /**
   * r is the packet s with the wanted identification: nothing but the identification and, when it
   * is recomputed, the checksum may differ, and a recomputed header sums to all ones.
   */
  ghost predicate Rewritten(s: seq<byte>, r: seq<byte>, id: Option<uint16>, recompute: bool) {
    && |r| == |s|
    && (id.None? || (|s| >= 6 && Dec16(s, 4) == id.value) ==> r == s)
    && (id.Some? && r != s ==>
          && |s| >= 20 && s[0] % 16 * 4 <= |s|
          && Dec16(r, 4) == id.value
          && (forall k :: 0 <= k < |s| && k !in {4, 5, 10, 11} ==> r[k] == s[k])
          && (if recompute then Fold(WordSum(r[..s[0] % 16 * 4])) == 0xFFFF else r[10] == s[10] && r[11] == s[11]))
    && (id.Some? ==> |r| >= 6 && Dec16(r, 4) == id.value)
  }

  /** Zeroes and recomputes the checksum field of the header of ihl bytes at off. */
  method PutChecksum(ip: array<byte>, off: nat, ihl: nat)
    requires 20 <= ihl <= 60 && off + ihl <= ip.Length && ip[off] > 0
    modifies ip
    ensures Fold(WordSum(ip[off..off + ihl])) == 0xFFFF
    ensures forall k :: 0 <= k < ip.Length && k != off + 10 && k != off + 11 ==> ip[k] == old(ip[k])
  {
    hide Fold, WordSum;
    ip[off + 10] := 0;
    ip[off + 11] := 0;
    ghost var h: seq<byte> := ip[off..off + ihl];
    var ck := IpChecksum16(ip, off, ihl);
    NonZeroSum(h);
    ChecksumCloses(h, 10);
    ip[off + 10] := ck / 0x100;
    ip[off + 11] := ck % 0x100;
    assert ip[off..off + ihl] == h[10 := ck / 0x100][10 + 1 := ck % 0x100];
  }

  lemma NonZeroSum(h: seq<byte>)
    requires |h| > 0 && h[0] > 0
    ensures WordSum(h) > 0
  {
  }

  /** MimicHiFi_RewriteIpId on the iplen bytes at off. */
  method RewriteIpId(ip: array<byte>, off: nat, mode: byte, icmpId: uint16, recompute: bool) returns (changed: bool)
    requires off <= ip.Length
    modifies ip
    ensures ip[..off] == old(ip[..off])
    ensures Rewritten(old(ip[off..]), ip[off..], WantedId(old(ip[off..]), mode, icmpId), recompute)
    ensures changed <==> ip[off..] != old(ip[off..])
  {
    hide Fold, WordSum;
    ghost var s := ip[off..];
    var iplen := ip.Length - off;
    if mode != 1 || iplen < 20 {
      return false;
    }
    if ip[off] / 16 != 4 {
      return false;
    }
    var ihl: nat := ip[off] % 16 * 4;
    if ihl < 20 || ihl > iplen {
      return false;
    }
    var proto := ip[off + 9];
    var newid;
    if proto == PROTO_TCP {
      newid := 0;
    } else if proto == PROTO_ICMP {
      newid := icmpId;
    } else {
      return false;
    }
    if ip[off + 4] as int * 0x100 + ip[off + 5] == newid {
      return false;
    }
    ip[off + 4] := newid / 0x100;
    ip[off + 5] := newid % 0x100;
    HighLow(newid);
    if recompute {
      PutChecksum(ip, off, ihl);
      assert ip[off..][..ihl] == ip[off..off + ihl];
    }
    changed := true;
  }
}
