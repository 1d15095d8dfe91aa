/** A TCP segment inside its IPv4 packet, as the shaper sees it, and the bytes it stands for. */
module TcpSegment {
  import opened Bytes

  /** ip: the IPv4 header; hdr: the 20 fixed TCP bytes; opts: the TCP options; payload: the rest. */
  datatype Segment = Segment(ip: seq<byte>, hdr: seq<byte>, opts: seq<byte>, payload: seq<byte>)

  predicate Valid(g: Segment) {
    20 <= |g.ip| && |g.hdr| == 20 && |g.opts| <= 40 && |g.opts| % 4 == 0
  }

  function Wire(g: Segment): seq<byte> {
    g.ip + g.hdr + g.opts + g.payload
  }

  /** The data offset nibble, in bytes. */
  function DataOffset(hdr: seq<byte>): nat
    requires |hdr| == 20
  {
    hdr[12] / 16 * 4
  }

  /** The guard under which the shaper touches the TCP part at all. */
  predicate HasTcp(s: seq<byte>, ihl: nat) {
    && 20 <= ihl && ihl + 20 <= |s|
    && 20 <= s[ihl + 12] / 16 * 4 <= |s| - ihl
  }

  function Split(s: seq<byte>, ihl: nat): (g: Segment)
    requires HasTcp(s, ihl)
    ensures Valid(g) && Wire(g) == s && |g.ip| == ihl && DataOffset(g.hdr) == 20 + |g.opts|
  {
    var hl := s[ihl + 12] / 16 * 4;
    Segment(s[..ihl], s[ihl..ihl + 20], s[ihl + 20..ihl + hl], s[ihl + hl..])
  }

  lemma SplitWire(g: Segment)
    requires Valid(g) && DataOffset(g.hdr) == 20 + |g.opts|
    ensures HasTcp(Wire(g), |g.ip|) && Split(Wire(g), |g.ip|) == g
  {
    assert Wire(g)[|g.ip| + 12] == g.hdr[12];
  }

  /** The data offset says where the payload starts. */
  predicate TrueOffset(g: Segment)
    requires Valid(g)
  {
    DataOffset(g.hdr) == 20 + |g.opts|
  }

  /** Both length fields say what is on the wire. */
  predicate Consistent(g: Segment)
    requires Valid(g)
  {
    Dec16(g.ip, 2) == |Wire(g)| && TrueOffset(g)
  }

  /**
   * Everything the shaper must leave alone: payload, addresses and the rest of the IP header,
   * ports, sequence and acknowledgement numbers, checksum, urgent pointer, reserved bits.
   */
  predicate Kept(g: Segment, r: Segment)
    requires Valid(g) && Valid(r)
  {
    && r.payload == g.payload
    && |r.ip| == |g.ip| && r.ip[..2] == g.ip[..2] && r.ip[4..] == g.ip[4..]
    && r.hdr[..12] == g.hdr[..12]
    && r.hdr[12] % 16 == g.hdr[12] % 16
    && r.hdr[16..] == g.hdr[16..]
  }

  /** One stage: it keeps what must be kept, and if the packet fits, right lengths stay right. */
  predicate Step(g: Segment, r: Segment) {
    && Valid(g) && Valid(r) && Kept(g, r)
    && (Consistent(g) && |Wire(r)| < 0x1_0000 ==> Consistent(r))
    && (TrueOffset(g) ==> TrueOffset(r))
  }

  function Window(g: Segment): uint16
    requires Valid(g)
  {
    Dec16(g.hdr, 14)
  }

  function SetWindow(g: Segment, w: uint16): (r: Segment)
    requires Valid(g)
    ensures Valid(r) && Kept(g, r) && Window(r) == w
    ensures (Consistent(g) ==> Consistent(r)) && (TrueOffset(g) ==> TrueOffset(r))
    ensures r.opts == g.opts
    ensures Window(g) == w ==> r == g
  {
    Enc16RoundTrip(w);
    Dec16RoundTrip(g.hdr, 14);
    g.(hdr := Splice(g.hdr, 14, Enc16(w)))
  }

  function SetFlags(g: Segment, f: byte): (r: Segment)
    requires Valid(g)
    ensures Valid(r) && Kept(g, r) && r.hdr[13] == f
    ensures (Consistent(g) ==> Consistent(r)) && (TrueOffset(g) ==> TrueOffset(r))
    ensures r.opts == g.opts
  {
    g.(hdr := g.hdr[13 := f])
  }

  /** New option bytes of the same length. */
  function SetOpts(g: Segment, o: seq<byte>): (r: Segment)
    requires Valid(g) && |o| == |g.opts|
    ensures Valid(r) && Kept(g, r)
    ensures (Consistent(g) ==> Consistent(r)) && (TrueOffset(g) ==> TrueOffset(r))
  {
    g.(opts := o)
  }

  /** New option bytes of another length: the data offset and the 16-bit IP total length follow. */
  function Resize(g: Segment, o: seq<byte>): (r: Segment)
    requires Valid(g) && 8 <= |o| <= 40 && |o| % 4 == 0
    ensures Valid(r) && Kept(g, r) && TrueOffset(r)
    ensures |Wire(r)| == |Wire(g)| - |g.opts| + |o|
    ensures Consistent(r) <==> |Wire(r)| < 0x1_0000
  {
    var doff := (20 + |o|) / 4;
    var total := |g.ip| + 20 + |o| + |g.payload|;
    g.(ip := g.ip[2 := total % 0x1_0000 / 0x100][3 := total % 0x1_0000 % 0x100],
       hdr := g.hdr[12 := g.hdr[12] % 16 + doff * 16],
       opts := o)
  }

  lemma WireLength(g: Segment, r: Segment)
    requires Valid(g) && Valid(r) && Kept(g, r)
    ensures |Wire(r)| == |Wire(g)| - |g.opts| + |r.opts|
  {
  }

  lemma StepTwice(a: Segment, b: Segment, c: Segment)
    requires Step(a, b) && Step(b, c) && (|b.opts| <= |a.opts| || |b.opts| <= |c.opts|)
    ensures Step(a, c)
  {
    hide Wire;
    WireLength(a, b);
    assert Kept(a, c);
    WireLength(a, c);
  }

  /** Writing inside the fixed TCP header on the wire is writing in hdr. */
  lemma WireHdr(g: Segment, k: nat, t: seq<byte>)
    requires Valid(g) && k + |t| <= 20
    ensures |g.ip| + k + |t| <= |Wire(g)|
    ensures Splice(Wire(g), |g.ip| + k, t) == Wire(g.(hdr := Splice(g.hdr, k, t)))
    ensures Wire(g)[|g.ip|..|g.ip| + 20] == g.hdr
  {
  }

  /** Writing inside the options on the wire is writing in opts. */
  lemma WireOpts(g: Segment, k: nat, t: seq<byte>)
    requires Valid(g) && k + |t| <= |g.opts|
    ensures |g.ip| + 20 + k + |t| <= |Wire(g)|
    ensures Splice(Wire(g), |g.ip| + 20 + k, t) == Wire(g.(opts := Splice(g.opts, k, t)))
    ensures Wire(g)[|g.ip| + 20..|g.ip| + 20 + |g.opts|] == g.opts
  {
  }

  // ----- growing and shrinking the header on the wire -----

  /** The data offset byte for a header of hl bytes, reserved bits kept. */
  function Nibble(b: byte, hl: nat): byte {
    b % 16 + hl / 4 % 16 * 16
  }

  /** s with the data offset nibble and the IP total length rewritten. */
  function Restamp(s: seq<byte>, ihl: nat, hl: nat): (r: seq<byte>)
    requires 20 <= ihl && ihl + 13 <= |s|
    ensures |r| == |s|
  {
    s[ihl + 12 := Nibble(s[ihl + 12], hl)][2 := |s| % 0x1_0000 / 0x100][3 := |s| % 0x1_0000 % 0x100]
  }

  function Grown(s: seq<byte>, ihl: nat, oldHL: nat, newHL: nat): seq<byte>
    requires 20 <= ihl && 20 <= oldHL && oldHL < newHL && ihl + oldHL <= |s|
  {
    Restamp(s[..ihl + oldHL] + Repeat(0, newHL - oldHL) + s[ihl + oldHL..], ihl, newHL)
  }

  function Shrunk(s: seq<byte>, ihl: nat, oldHL: nat, newHL: nat): seq<byte>
    requires 20 <= ihl && 20 <= newHL < oldHL && ihl + oldHL <= |s|
  {
    Restamp(s[..ihl + newHL] + s[ihl + oldHL..], ihl, newHL)
  }

  /** Only the length bytes and the data offset differ from the packet that is restamped. */
  lemma RestampAt(s: seq<byte>, ihl: nat, hl: nat)
    requires 20 <= ihl && ihl + 13 <= |s|
    ensures forall k :: 0 <= k < |s| ==>
              Restamp(s, ihl, hl)[k] ==
              if k == ihl + 12 then Nibble(s[k], hl)
              else if k == 2 then |s| % 0x1_0000 / 0x100
              else if k == 3 then |s| % 0x1_0000 % 0x100
              else s[k]
  {
    hide Nibble;
  }

  /** The same, for the packet that is resized. */
  lemma ResizeAt(g: Segment, o: seq<byte>)
    requires Valid(g) && 8 <= |o| <= 40 && |o| % 4 == 0
    ensures var s, r, ihl := Wire(g.(opts := o)), Wire(Resize(g, o)), |g.ip|;
            && |r| == |s| == ihl + 20 + |o| + |g.payload|
            && forall k :: 0 <= k < |s| ==>
                 r[k] ==
                 if k == ihl + 12 then Nibble(s[k], 20 + |o|)
                 else if k == 2 then |s| % 0x1_0000 / 0x100
                 else if k == 3 then |s| % 0x1_0000 % 0x100
                 else s[k]
  {
    var s, r, ihl := Wire(g.(opts := o)), Wire(Resize(g, o)), |g.ip|;
    assert s[ihl + 12] == g.hdr[12] && r[ihl + 12] == Resize(g, o).hdr[12];
    NibbleIs(g.hdr[12], |o|);
  }

  lemma NibbleIs(b: byte, n: nat)
    requires 8 <= n <= 40 && n % 4 == 0
    ensures Nibble(b, 20 + n) == b % 16 + (20 + n) / 4 * 16
  {
  }

  lemma RestampWire(g: Segment, o: seq<byte>)
    requires Valid(g) && 8 <= |o| <= 40 && |o| % 4 == 0
    ensures Restamp(Wire(g.(opts := o)), |g.ip|, 20 + |o|) == Wire(Resize(g, o))
  {
    ResizeAt(g, o);
    RestampAt(Wire(g.(opts := o)), |g.ip|, 20 + |o|);
    hide Wire, Restamp, Resize, Nibble;
  }

  lemma GrownWire(g: Segment, n: nat)
    requires Valid(g) && n > 0 && n % 4 == 0 && 8 <= |g.opts| + n <= 40
    ensures |g.ip| + 20 + |g.opts| <= |Wire(g)|
    ensures Grown(Wire(g), |g.ip|, 20 + |g.opts|, 20 + |g.opts| + n) == Wire(Resize(g, g.opts + Repeat(0, n)))
  {
    RestampWire(g, g.opts + Repeat(0, n));
    var k := |g.ip| + 20 + |g.opts|;
    assert Wire(g)[..k] == g.ip + g.hdr + g.opts && Wire(g)[k..] == g.payload;
    assert Wire(g)[..k] + Repeat(0, n) + Wire(g)[k..] == Wire(g.(opts := g.opts + Repeat(0, n)));
  }

  lemma ShrunkWire(g: Segment, n: nat)
    requires Valid(g) && 8 <= n < |g.opts| && n % 4 == 0
    ensures |g.ip| + 20 + |g.opts| <= |Wire(g)|
    ensures Shrunk(Wire(g), |g.ip|, 20 + |g.opts|, 20 + n) == Wire(Resize(g, g.opts[..n]))
  {
    RestampWire(g, g.opts[..n]);
    var k := |g.ip| + 20 + |g.opts|;
    assert Wire(g)[..|g.ip| + 20 + n] == g.ip + g.hdr + g.opts[..n] && Wire(g)[k..] == g.payload;
    assert Wire(g)[..|g.ip| + 20 + n] + Wire(g)[k..] == Wire(g.(opts := g.opts[..n]));
  }

  /** shrinkTCPHeader undoes growTCPHeader exactly when the length fields were right before. */
  lemma ShrinkUndoesGrow(s: seq<byte>, ihl: nat, oldHL: nat, newHL: nat)
    requires 20 <= ihl && 20 <= oldHL < newHL <= 60 && oldHL % 4 == 0 && ihl + oldHL <= |s|
    ensures |Grown(s, ihl, oldHL, newHL)| == |s| + newHL - oldHL
    ensures Shrunk(Grown(s, ihl, oldHL, newHL), ihl, newHL, oldHL) == s <==>
            Dec16(s, 2) == |s| % 0x1_0000 && s[ihl + 12] / 16 * 4 == oldHL
  {
    hide Grown, Restamp;
    var v := CutGrown(s, ihl, oldHL, newHL);
    var g := Grown(s, ihl, oldHL, newHL);
    RestampAgain(s, ihl, oldHL, v, g[2], g[3]);
    assert Shrunk(g, ihl, newHL, oldHL) == Restamp(s[ihl + 12 := v][2 := g[2]][3 := g[3]], ihl, oldHL);
    Unchanged(s, ihl + 12, Nibble(s[ihl + 12], oldHL), |s| % 0x1_0000 / 0x100, |s| % 0x1_0000 % 0x100);
    NibbleKept(s[ihl + 12], oldHL);
  }

  lemma NibbleKept(b: byte, hl: nat)
    requires 20 <= hl <= 60 && hl % 4 == 0
    ensures b == Nibble(b, hl) <==> b / 16 * 4 == hl
  {
  }

  lemma RestampAgain(s: seq<byte>, ihl: nat, hl: nat, v: byte, a: byte, b: byte)
    requires 20 <= ihl && ihl + 13 <= |s| && v % 16 == s[ihl + 12] % 16
    ensures Restamp(s[ihl + 12 := v][2 := a][3 := b], ihl, hl) ==
            s[ihl + 12 := Nibble(s[ihl + 12], hl)][2 := |s| % 0x1_0000 / 0x100][3 := |s| % 0x1_0000 % 0x100]
  {
    var x := s[ihl + 12 := v][2 := a][3 := b];
    assert x[ihl + 12] == v;
  }

  /** Cutting the new bytes out again leaves the old packet, stamped. */
  lemma CutGrown(s: seq<byte>, ihl: nat, oldHL: nat, newHL: nat) returns (v: byte)
    requires 20 <= ihl && 20 <= oldHL < newHL <= 60 && ihl + oldHL <= |s|
    ensures |Grown(s, ihl, oldHL, newHL)| == |s| + newHL - oldHL
    ensures var g := Grown(s, ihl, oldHL, newHL);
            g[..ihl + oldHL] + g[ihl + newHL..] == s[ihl + 12 := v][2 := g[2]][3 := g[3]]
    ensures v % 16 == s[ihl + 12] % 16
  {
    var a := ihl + oldHL;
    var x := s[..a] + Repeat(0, newHL - oldHL) + s[a..];
    v := Nibble(x[ihl + 12], newHL);
    assert x[ihl + 12] == s[ihl + 12];
    CutUpdated(s, a, Repeat(0, newHL - oldHL), ihl + 12, v, |x| % 0x1_0000 / 0x100, |x| % 0x1_0000 % 0x100);
  }

  lemma CutUpdated(s: seq<byte>, a: nat, z: seq<byte>, i: nat, v: byte, hi: byte, lo: byte)
    requires 4 <= i < a <= |s|
    ensures var y := (s[..a] + z + s[a..])[i := v][2 := hi][3 := lo];
            y[..a] + y[a + |z|..] == s[i := v][2 := hi][3 := lo]
  {
    var y := (s[..a] + z + s[a..])[i := v][2 := hi][3 := lo];
    assert y[..a] == s[..a][i := v][2 := hi][3 := lo];
    assert y[a + |z|..] == s[a..];
    assert s == s[..a] + s[a..];
  }

  lemma Unchanged(s: seq<byte>, i: nat, v: byte, hi: byte, lo: byte)
    requires 4 <= i < |s|
    ensures s[i := v][2 := hi][3 := lo] == s <==> s[i] == v && Dec16(s, 2) == hi as int * 0x100 + lo
  {
    var r := s[i := v][2 := hi][3 := lo];
    assert r[i] == v && r[2] == hi && r[3] == lo;
  }
}
