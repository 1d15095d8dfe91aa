/** The in-place egress rewriter, method by method, refined to the shaping of a segment. */
module Egress {
  import opened Bytes
  import opened TcpOptions
  import opened TcpSegment
  import opened TcpShaping

  /** pkt now holds r where it held g, and an unset flag means that nothing changed. */
  ghost predicate Became(pkt: array<byte>, g: Segment, r: Segment, changed: bool)
    reads pkt
  {
    pkt[..] == Wire(r) && (!changed ==> r == g)
  }

  /** make([]byte, …) with front copied to its start and back to its end; the gap stays zero. */
  method Assemble(front: seq<byte>, gap: nat, back: seq<byte>) returns (out: array<byte>)
    ensures fresh(out) && out[..] == front + Repeat(0, gap) + back
  {
    out := new byte[|front| + gap + |back|](_ => 0);
    Write(out, 0, front);
    Write(out, |front| + gap, back);
    assert out[0..|front|] == front && out[|front| + gap..|front| + gap + |back|] == back;
    assert out[|front|..|front| + gap] == Repeat(0, gap);
  }

  method GrowTCPHeader(pkt: array<byte>, ihl: nat, oldHL: nat, newHL: nat) returns (out: array<byte>)
    requires 20 <= ihl && 20 <= oldHL
    ensures newHL <= oldHL || pkt.Length < ihl + oldHL ==> out == pkt
    ensures newHL > oldHL && pkt.Length >= ihl + oldHL ==>
              fresh(out) && out[..] == Grown(pkt[..], ihl, oldHL, newHL)
  {
    hide Restamp;
    if newHL <= oldHL || pkt.Length < ihl + oldHL {
      return pkt;
    }
    var s := pkt[..];
    out := Assemble(s[..ihl + oldHL], newHL - oldHL, s[ihl + oldHL..]);
    StampLengths(out, ihl, newHL);
  }

  method ShrinkTCPHeader(pkt: array<byte>, ihl: nat, oldHL: nat, newHL: nat) returns (out: array<byte>)
    requires 20 <= ihl
    ensures oldHL <= newHL || newHL < 20 || pkt.Length < ihl + oldHL ==> out == pkt
    ensures oldHL > newHL >= 20 && pkt.Length >= ihl + oldHL ==>
              fresh(out) && out[..] == Shrunk(pkt[..], ihl, oldHL, newHL)
  {
    hide Restamp;
    if oldHL <= newHL || newHL < 20 || pkt.Length < ihl + oldHL {
      return pkt;
    }
    var s := pkt[..];
    out := Assemble(s[..ihl + newHL], 0, s[ihl + oldHL..]);
    assert out[..] == s[..ihl + newHL] + s[ihl + oldHL..];
    StampLengths(out, ihl, newHL);
  }

  /** The data offset nibble and the IP total length of a resized packet. */
  method StampLengths(out: array<byte>, ihl: nat, hl: nat)
    requires 20 <= ihl && ihl + 13 <= out.Length
    modifies out
    ensures out[..] == Restamp(old(out[..]), ihl, hl)
  {
    out[ihl + 12] := out[ihl + 12] % 16 + hl / 4 % 16 * 16;
    PutUint16(out, 2, out.Length % 0x1_0000);
  }

  /** The window field on the wire, read and written. */
  lemma WindowWire(g: Segment, w: uint16)
    requires Valid(g)
    ensures |g.ip| + 16 <= |Wire(g)| && Dec16(Wire(g), |g.ip| + 14) == Window(g)
    ensures Splice(Wire(g), |g.ip| + 14, Enc16(w)) == Wire(SetWindow(g, w))
    ensures Window(g) == w ==> SetWindow(g, w) == g
  {
    WireHdr(g, 14, Enc16(w));
    hide Enc16;
    var s := Wire(g);
    assert s[|g.ip|..|g.ip| + 20][14] == s[|g.ip| + 14];
    assert s[|g.ip|..|g.ip| + 20][15] == s[|g.ip| + 15];
  }

  lemma BecameSetWindow(pkt: array<byte>, g: Segment, w: uint16, changed: bool)
    requires Valid(g) && pkt[..] == Wire(SetWindow(g, w)) && (!changed ==> SetWindow(g, w) == g)
    ensures Became(pkt, g, SetWindow(g, w), changed)
  {
  }

  /** Sets the window unless it is already there. */
  method PutWindow(pkt: array<byte>, ihl: nat, ghost g: Segment, w: uint16) returns (changed: bool)
    requires Valid(g) && |g.ip| == ihl && pkt[..] == Wire(g)
    modifies pkt
    ensures Became(pkt, g, SetWindow(g, w), changed)
  {
    hide *;
    WindowWire(g, w);
    changed := Dec16(pkt[..], ihl + 14) != w;
    if changed {
      PutUint16(pkt, ihl + 14, w);
    }
    BecameSetWindow(pkt, g, w, changed);
  }

  /** Copies t over the first option bytes. */
  method PutOptions(pkt: array<byte>, ihl: nat, ghost g: Segment, k: nat, t: seq<byte>)
    requires Valid(g) && |g.ip| == ihl && pkt[..] == Wire(g) && k + |t| <= |g.opts|
    modifies pkt
    ensures pkt[..] == Wire(g.(opts := Splice(g.opts, k, t)))
  {
    hide *;
    WireOpts(g, k, t);
    Write(pkt, ihl + 20 + k, t);
  }

  /** The option bytes tcp[20:20+optLen]. */
  method ReadOptions(pkt: array<byte>, ihl: nat, optLen: nat, ghost g: Segment) returns (o: seq<byte>)
    requires Valid(g) && |g.ip| == ihl && pkt[..] == Wire(g) && optLen == |g.opts|
    ensures o == g.opts
  {
    WireOpts(g, 0, []);
    o := pkt[ihl + 20..ihl + 20 + optLen];
    assert o == pkt[..][ihl + 20..ihl + 20 + optLen];
  }

  /** The client's MSS if the block starts with one, the profile's otherwise. */
  method PickMss(o: seq<byte>, p: Profile) returns (mss: uint16)
    requires |o| >= 4
    ensures mss == OldMss(o, p)
  {
    mss := p.mss;
    if o[0] == MSS && o[1] == 4 {
      mss := Dec16(o, 2);
    }
  }

  /** binary.BigEndian.PutUint16(b[off+2:off+4], mss) behind kind and length. */
  method PutMSS(b: array<byte>, off: nat, mss: uint16)
    requires off + 4 <= b.Length
    modifies b
    ensures b[off..off + 4] == MssBytes(mss)
    ensures forall k :: 0 <= k < b.Length && !(off <= k < off + 4) ==> b[k] == old(b[k])
  {
    b[off] := MSS;
    b[off + 1] := 4;
    PutUint16(b, off + 2, mss);
  }

  // ----- a block and its pieces -----

  lemma OneAt(b: seq<byte>, i: nat)
    requires i < |b|
    ensures b[i..i + 1] == [b[i]]
  {
  }

  lemma TwoAt(b: seq<byte>, i: nat)
    requires i + 2 <= |b|
    ensures b[i..i + 2] == [b[i], b[i + 1]]
  {
  }

  lemma ThreeAt(b: seq<byte>, i: nat)
    requires i + 3 <= |b|
    ensures b[i..i + 3] == [b[i], b[i + 1], b[i + 2]]
  {
  }

  lemma FiveParts(b: seq<byte>, i: nat, j: nat, k: nat, l: nat)
    requires i <= j <= k <= l <= |b|
    ensures b == b[..i] + b[i..j] + b[j..k] + b[k..l] + b[l..]
  {
  }

  lemma SackAtTwenty(o: seq<byte>)
    requires |o| == 20
    ensures SackAt(o, SACK_PLACES_20) <==>
            o[4] == SACK_PERM || o[6] == SACK_PERM || o[8] == SACK_PERM ||
            o[10] == SACK_PERM || o[12] == SACK_PERM || o[16] == SACK_PERM
  {
    var p := SACK_PLACES_20;
    assert p[0] == 4 && p[1] == 6 && p[2] == 8 && p[3] == 10 && p[4] == 12 && p[5] == 16;
  }

  lemma SackAtTwelve(o: seq<byte>)
    requires |o| == 12
    ensures SackAt(o, SACK_PLACES_12) <==>
            o[2] == SACK_PERM || o[4] == SACK_PERM || o[6] == SACK_PERM || o[8] == SACK_PERM || o[10] == SACK_PERM
  {
    var p := SACK_PLACES_12;
    assert p[0] == 2 && p[1] == 4 && p[2] == 6 && p[3] == 8 && p[4] == 10;
  }

  /** The TSecr of a timestamp template: what the host echoed, overridden by the cached SYN. */
  method PickTsecr(o: seq<byte>, c: Ctx) returns (ecr: uint32)
    requires |o| == 20
    ensures ecr == Tsecr(o, c)
  {
    ecr := 0;
    if o[8] == TIMESTAMP && o[9] == TIMESTAMP_LEN {
      ecr := Dec32(o, 14);
    } else if o[6] == TIMESTAMP && o[7] == TIMESTAMP_LEN {
      ecr := Dec32(o, 12);
    } else if o[4] == TIMESTAMP && o[5] == TIMESTAMP_LEN {
      ecr := Dec32(o, 10);
    }
    if c.flow.Some? && c.flow.value.hadTS && c.flow.value.tsval != 0 {
      ecr := c.flow.value.tsval;
    }
    if ecr == 0 {
      ecr := c.clk.tsecr;
    }
  }

  method PutTimestamp(b: array<byte>, off: nat, tsval: uint32, tsecr: uint32)
    requires off + 10 <= b.Length
    modifies b
    ensures b[off..off + 10] == TsBytes(tsval, tsecr)
    ensures forall k :: 0 <= k < b.Length && !(off <= k < off + 10) ==> b[k] == old(b[k])
  {
    hide Enc32;
    b[off], b[off + 1] := TIMESTAMP, TIMESTAMP_LEN;
    PutUint32(b, off + 2, tsval);
    PutUint32(b, off + 6, tsecr);
    assert b[off..off + 10] == b[off..off + 2] + b[off + 2..off + 6] + b[off + 6..off + 10];
  }

  // ----- the 20-byte scratch block, preset to NOPs -----

  ghost predicate Blank(no: array<byte>)
    reads no
  {
    no.Length == 20 && forall k :: 0 <= k < 20 ==> no[k] == NOP
  }

  method FillXp(no: array<byte>, mss: uint16, sack: bool)
    requires Blank(no)
    modifies no
    ensures no[..] == MssBytes(mss) + [NOP, NOP] + SackBytes(sack) + NopBytes(12)
  {
    PutMSS(no, 0, mss);
    no[4], no[5] := NOP, NOP;
    if sack {
      no[6], no[7] := SACK_PERM, 2;
    }
    assert no[..4] == no[0..4];
  }

  method FillWinNoTs(no: array<byte>, mss: uint16, ws: byte, sack: bool) returns (want: nat)
    requires Blank(no)
    modifies no
    ensures want == if sack then 12 else 8
    ensures no[..want] == MssBytes(mss) + [NOP] + ScaleBytes(ws) + (if sack then [NOP, NOP, SACK_PERM, 2] else [])
  {
    PutMSS(no, 0, mss);
    no[4] := NOP;
    no[5], no[6], no[7] := WSCALE, 3, ws;
    if sack {
      no[8], no[9] := NOP, NOP;
      no[10], no[11] := SACK_PERM, 2;
      want := 12;
    } else {
      want := 8;
    }
    assert no[..4] == no[0..4];
  }

  lemma LinuxLayout(b: seq<byte>, mss: uint16, ws: byte, sack: bool, tsval: uint32, ecr: uint32)
    requires |b| == 20 && b[0..4] == MssBytes(mss) && b[6..16] == TsBytes(tsval, ecr) && b[16] == NOP
    requires if sack then b[4] == SACK_PERM && b[5] == 2 else b[4] == b[5] == NOP
    requires if ws > 0 then b[17] == WSCALE && b[18] == 3 && b[19] == ws else b[17] == b[18] == b[19] == NOP
    ensures b == MssBytes(mss) + SackBytes(sack) + TsBytes(tsval, ecr) + [NOP] +
                 (if ws > 0 then ScaleBytes(ws) else NopBytes(3))
  {
    hide MssBytes, TsBytes;
    FiveParts(b, 4, 6, 16, 17);
    TwoAt(b, 4);
    OneAt(b, 16);
    ThreeAt(b, 17);
    assert NopBytes(3) == [NOP, NOP, NOP];
  }

  /** MSS, NOP, scale and timestamp around the two bytes where the macOS template has NOPs. */
  lemma ScaledLayout(b: seq<byte>, mss: uint16, ws: byte, tsval: uint32, ecr: uint32)
    requires |b| == 20 && b[0..4] == MssBytes(mss) && b[4] == NOP && b[10..20] == TsBytes(tsval, ecr)
    requires b[5] == WSCALE && b[6] == 3 && b[7] == ws
    ensures b == MssBytes(mss) + [NOP] + ScaleBytes(ws) + [b[8], b[9]] + TsBytes(tsval, ecr)
  {
    hide MssBytes, TsBytes;
    FiveParts(b, 4, 5, 8, 10);
    OneAt(b, 4);
    ThreeAt(b, 5);
    TwoAt(b, 8);
  }

  method FillLinux(no: array<byte>, mss: uint16, ws: byte, sack: bool, tsval: uint32, ecr: uint32)
    requires Blank(no)
    modifies no
    ensures no[..] == MssBytes(mss) + SackBytes(sack) + TsBytes(tsval, ecr) + [NOP] +
                      (if ws > 0 then ScaleBytes(ws) else NopBytes(3))
  {
    hide Enc16, Enc32, MssBytes, TsBytes, ScaleBytes, SackBytes, NopBytes;
    PutMSS(no, 0, mss);
    if sack {
      no[4], no[5] := SACK_PERM, 2;
    }
    PutTimestamp(no, 6, tsval, ecr);
    no[16] := NOP;
    if ws > 0 {
      no[17], no[18], no[19] := WSCALE, 3, ws;
    }
    LinuxLayout(no[..], mss, ws, sack, tsval, ecr);
  }

  method FillWinTs(no: array<byte>, mss: uint16, ws: byte, sack: bool, tsval: uint32, ecr: uint32)
    requires Blank(no)
    modifies no
    ensures no[..] == MssBytes(mss) + [NOP] + ScaleBytes(ws) + SackBytes(sack) + TsBytes(tsval, ecr)
  {
    hide Enc16, Enc32, MssBytes, TsBytes, ScaleBytes;
    PutMSS(no, 0, mss);
    no[4] := NOP;
    no[5], no[6], no[7] := WSCALE, 3, ws;
    if sack {
      no[8], no[9] := SACK_PERM, 2;
    }
    PutTimestamp(no, 10, tsval, ecr);
    ScaledLayout(no[..], mss, ws, tsval, ecr);
  }

  method FillMac(no: array<byte>, mss: uint16, ws: byte, tsval: uint32, ecr: uint32)
    requires Blank(no)
    modifies no
    ensures no[..] == MssBytes(mss) + [NOP] + ScaleBytes(ws) + [NOP, NOP] + TsBytes(tsval, ecr)
  {
    hide Enc16, Enc32, MssBytes, TsBytes, ScaleBytes;
    PutMSS(no, 0, mss);
    no[4] := NOP;
    no[5], no[6], no[7] := WSCALE, 3, ws;
    no[8], no[9] := NOP, NOP;
    PutTimestamp(no, 10, tsval, ecr);
    ScaledLayout(no[..], mss, ws, tsval, ecr);
  }

  /** Fills the scratch block for the profile; want is how many of its bytes are the template. */
  method FillTemplate20(o: seq<byte>, c: Ctx) returns (no: array<byte>, want: nat)
    requires |o| == 20
    ensures fresh(no) && no.Length == 20 && want in {8, 12, 20} && ValidList(Head20(o, c))
    ensures no[..want] == Encode(Head20(o, c))
  {
    hide Encode, Tsecr, OldMss;
    var p := c.p;
    var mss := PickMss(o, p);
    SackAtTwenty(o);
    var hadSACK := o[4] == SACK_PERM || o[6] == SACK_PERM || o[8] == SACK_PERM ||
      o[10] == SACK_PERM || o[12] == SACK_PERM || o[16] == SACK_PERM;
    var useSACK := p.sackPermitted && hadSACK;
    no := new byte[20](_ => NOP);
    want := 20;
    if p.windowScale == 0 && !p.timestamps {
      FillXp(no, mss, useSACK);
      XpEncodes(mss, useSACK);
    } else if p.windowScale > 0 && !p.timestamps {
      want := FillWinNoTs(no, mss, p.windowScale, useSACK);
      WinNoTsEncodes(mss, p.windowScale, useSACK);
    } else if p.timestamps && p.opt1 == SACK_PERM {
      var ecr := PickTsecr(o, c);
      FillLinux(no, mss, p.windowScale, useSACK, c.clk.tsval, ecr);
      LinuxEncodes(mss, p.windowScale, useSACK, c.clk.tsval, ecr);
    } else if p.windowScale > 0 && p.timestamps {
      var ecr := PickTsecr(o, c);
      FillWinTs(no, mss, p.windowScale, useSACK, Ticks(p, c.clk.tsval), ecr);
      WinTsEncodes(mss, p.windowScale, useSACK, Ticks(p, c.clk.tsval), ecr);
    } else {
      var ecr := PickTsecr(o, c);
      FillMac(no, mss, p.windowScale, c.clk.tsval, ecr);
      MacEncodes(mss, p.windowScale, c.clk.tsval, ecr);
    }
    assert want == 20 ==> no[..want] == no[..];
  }

  /** The scratch block against the bytes of the whole template. */
  lemma Encode20Bytes(o: seq<byte>, c: Ctx, no: seq<byte>, want: nat)
    requires |o| == 20 && |no| == 20 && want in {8, 12, 20} && ValidList(Head20(o, c))
    requires no[..want] == Encode(Head20(o, c))
    ensures MacGrows(c.p) ==> want == 20 && Encode20(o, c) == no + [SACK_PERM, 2, EOL, EOL]
    ensures !MacGrows(c.p) ==> Encode20(o, c) == no[..want]
    ensures !MacGrows(c.p) && want == 20 ==> Encode20(o, c) == no
    ensures c.p.timestamps ==> want == 20
  {
    hide Encode, Head20;
    Template20Encodes(o, c);
    assert no[..20] == no;
  }

  /** Grows a 20-byte template to 24 bytes: SACK-permitted and two end markers behind it. */
  method MacGrow(pkt: array<byte>, ihl: nat, ghost h: Segment) returns (out: array<byte>)
    requires Valid(h) && |h.ip| == ihl && pkt[..] == Wire(h) && |h.opts| == 20
    ensures fresh(out) && out[..] == Wire(Resize(h, h.opts + [SACK_PERM, 2, EOL, EOL]))
  {
    hide Wire;
    GrownWire(h, 4);
    out := GrowTCPHeader(pkt, ihl, 40, 44);
    ghost var r := Resize(h, h.opts + Repeat(0, 4));
    PutOptions(out, ihl, r, 20, [SACK_PERM, 2, EOL, EOL]);
    assert Splice(r.opts, 20, [SACK_PERM, 2, EOL, EOL]) == h.opts + [SACK_PERM, 2, EOL, EOL];
  }

  /** The three outcomes of the 20-byte stage: untouched, overwritten, resized. */
  lemma Apply20Cases(g: Segment, c: Ctx)
    requires Valid(g)
    ensures !Takes20(|g.opts|, c) ==> Apply20(g, c) == g
    ensures Takes20(|g.opts|, c) && |Encode20(g.opts, c)| == 20 ==>
              Apply20(g, c) == g.(opts := Encode20(g.opts, c))
    ensures Takes20(|g.opts|, c) && |Encode20(g.opts, c)| != 20 ==> Apply20(g, c) == Resize(g, Encode20(g.opts, c))
    ensures Takes20(|g.opts|, c) ==> Apply20(g, c).opts == Encode20(g.opts, c)
  {
    hide Encode20;
  }

  lemma SpliceWhole(s: seq<byte>, t: seq<byte>)
    requires |t| == |s|
    ensures Splice(s, 0, t) == t
  {
  }

  /** A resize does not look at the option bytes that it replaces. */
  lemma ResizeForgets(g: Segment, o: seq<byte>, n: seq<byte>)
    requires Valid(g) && |o| == |g.opts| && 8 <= |n| <= 40 && |n| % 4 == 0
    ensures Valid(g.(opts := o)) && Resize(g.(opts := o), n) == Resize(g, n)
    ensures Resize(g, n).opts == n
  {
  }

  /** The 20-byte SYN/SYN-ACK template, with the shrink and the macOS growth behind it. */
  method Stage20(pkt: array<byte>, ihl: nat, optLen: nat, ghost g: Segment, c: Ctx)
    returns (out: array<byte>, newLen: nat, changed: bool)
    requires Valid(g) && |g.ip| == ihl && pkt[..] == Wire(g) && optLen == |g.opts|
    modifies pkt
    ensures out == pkt || fresh(out)
    ensures Became(out, g, Apply20(g, c), changed) && newLen == |Apply20(g, c).opts|
    ensures !changed ==> out == pkt
  {
    hide Wire, Encode20, Head20, Encode, OldMss, Resize, Splice, Step, Kept, Consistent, Apply20;
    Apply20Cases(g, c);
    if !(optLen == 20 && c.p.optionsCount > 0 && IsSyn(c.flags)) {
      return pkt, optLen, false;
    }
    var old20 := ReadOptions(pkt, ihl, optLen, g);
    var no, want := FillTemplate20(old20, c);
    Encode20Bytes(old20, c, no[..], want);
    PutOptions(pkt, ihl, g, 0, no[..]);
    ghost var h := g.(opts := no[..]);
    SpliceWhole(g.opts, no[..]);
    ResizeForgets(g, no[..], Encode20(old20, c));
    out, newLen := pkt, 20;
    if want < 20 {
      ShrunkWire(h, want);
      out := ShrinkTCPHeader(pkt, ihl, 40, 20 + want);
      newLen := want;
    }
    if !c.p.winQuirks && c.p.ipid == Zero && c.p.timestamps && want == 20 {
      out := MacGrow(pkt, ihl, h);
      newLen := 24;
    }
    changed := true;
  }

  lemma EcnLayout(b: seq<byte>, mss: uint16, ws: byte, sack: bool)
    requires |b| == 12 && b[0..4] == MssBytes(mss) && b[4] == b[5] == b[8] == NOP
    requires if sack then b[6] == SACK_PERM && b[7] == 2 else b[6] == b[7] == NOP
    requires b[9] == WSCALE && b[10] == 3 && b[11] == ws
    ensures b == MssBytes(mss) + [NOP, NOP] + SackBytes(sack) + [NOP] + ScaleBytes(ws)
  {
    hide MssBytes;
    FiveParts(b, 4, 6, 8, 9);
    TwoAt(b, 4);
    TwoAt(b, 6);
    OneAt(b, 8);
    ThreeAt(b, 9);
  }

  lemma WinSynLayout(b: seq<byte>, mss: uint16, ws: byte, sack: bool)
    requires |b| == 12 && b[0..4] == MssBytes(mss) && b[4] == b[8] == b[9] == NOP
    requires if sack then b[10] == SACK_PERM && b[11] == 2 else b[10] == b[11] == NOP
    requires b[5] == WSCALE && b[6] == 3 && b[7] == ws
    ensures b == MssBytes(mss) + [NOP] + ScaleBytes(ws) + [NOP, NOP] + SackBytes(sack)
  {
    hide MssBytes;
    FiveParts(b, 4, 5, 8, 10);
    OneAt(b, 4);
    ThreeAt(b, 5);
    TwoAt(b, 8);
    TwoAt(b, 10);
  }

  /** The 12 scratch bytes of the Linux answer without timestamps. */
  method FillEcn(o: seq<byte>, c: Ctx) returns (no: array<byte>)
    requires |o| >= 12
    ensures fresh(no) && no.Length == 12
    ensures no[..] == MssBytes(OldMss(o, c.p)) + [NOP, NOP] + SackBytes(c.p.sackPermitted && SackAnywhere(o)) +
                      [NOP] + ScaleBytes(c.p.windowScale)
  {
    hide OldMss, MssBytes, ScaleBytes, SackBytes;
    var mss := PickMss(o, c.p);
    var hadSACK := false;
    for i := 0 to |o| - 1
      invariant !hadSACK && forall j :: 0 <= j < i ==> o[j] != SACK_PERM
    {
      if o[i] == SACK_PERM {
        hadSACK := true;
        break;
      }
    }
    assert hadSACK == SackAnywhere(o);
    no := new byte[12](_ => NOP);
    PutMSS(no, 0, mss);
    no[4], no[5] := NOP, NOP;
    if c.p.sackPermitted && hadSACK {
      no[6], no[7] := SACK_PERM, 2;
    }
    no[8] := NOP;
    no[9], no[10], no[11] := WSCALE, 3, c.p.windowScale;
    EcnLayout(no[..], mss, c.p.windowScale, c.p.sackPermitted && hadSACK);
  }

  /** NOPs over every option byte from the thirteenth on. */
  method NopTail(pkt: array<byte>, ihl: nat, optLen: nat, ghost g: Segment)
    requires Valid(g) && |g.ip| == ihl && pkt[..] == Wire(g) && optLen == |g.opts| >= 12
    modifies pkt
    ensures pkt[..] == Wire(g.(opts := g.opts[..12] + NopBytes(optLen - 12)))
  {
    hide Wire, Valid;
    ghost var y := g;
    assert g.opts == g.opts[..12] + NopBytes(0) + g.opts[12..];
    for i := 32 to 20 + optLen
      invariant |y.opts| == optLen && y == g.(opts := y.opts) && pkt[..] == Wire(y) && Valid(y)
      invariant y.opts == g.opts[..12] + NopBytes(i - 32) + g.opts[i - 20..]
    {
      PutOptions(pkt, ihl, y, i - 20, [NOP]);
      var z := Splice(y.opts, i - 20, [NOP]);
      assert z == g.opts[..12] + NopBytes(i + 1 - 32) + g.opts[i + 1 - 20..];
      SameLength(y, z);
      y := y.(opts := z);
    }
    assert y.opts == g.opts[..12] + NopBytes(optLen - 12);
  }

  lemma SameLength(g: Segment, o: seq<byte>)
    requires Valid(g) && |o| == |g.opts|
    ensures Valid(g.(opts := o))
  {
  }

  /** The Linux answer to a SYN without timestamps. */
  method StageEcn(pkt: array<byte>, ihl: nat, optLen: nat, ghost g: Segment, c: Ctx) returns (changed: bool)
    requires Valid(g) && |g.ip| == ihl && pkt[..] == Wire(g) && optLen == |g.opts|
    modifies pkt
    ensures Became(pkt, g, ApplyEcn(g, c), changed)
  {
    hide Wire, Encode, OldMss;
    if !(IsSynAck(c.flags) && c.p.ecnEcho && c.flow.Some? && !c.flow.value.hadTS &&
         c.p.windowScale > 0 && c.p.optionsCount > 0 && optLen >= 12) {
      return false;
    }
    ghost var w := g;
    if c.p.ecnWindow != 0 {
      var _ := PutWindow(pkt, ihl, g, c.p.ecnWindow);
      w := SetWindow(g, c.p.ecnWindow);
    }
    var o := ReadOptions(pkt, ihl, optLen, w);
    var no := FillEcn(o, c);
    PutOptions(pkt, ihl, w, 0, no[..]);
    ghost var x := w.(opts := Splice(w.opts, 0, no[..]));
    NopTail(pkt, ihl, optLen, x);
    EcnEncodes(g.opts, c);
    assert x.opts[..12] == no[..];
    changed := true;
  }

  /** The 12 scratch bytes for an outbound SYN. */
  method Fill12(o: seq<byte>, c: Ctx) returns (no: array<byte>)
    requires |o| == 12 && c.p.windowScale > 0
    ensures fresh(no) && no.Length == 12 && no[..] == Encode12(o, c)
  {
    hide Encode, OldMss, MssBytes, ScaleBytes, SackBytes;
    var mss := PickMss(o, c.p);
    SackAtTwelve(o);
    var hadSACK := o[2] == SACK_PERM || o[4] == SACK_PERM || o[6] == SACK_PERM || o[8] == SACK_PERM || o[10] == SACK_PERM;
    var sack := c.p.sackPermitted && hadSACK;
    no := new byte[12](_ => NOP);
    PutMSS(no, 0, mss);
    if c.p.ecnEcho {
      no[4], no[5] := NOP, NOP;
      if sack {
        no[6], no[7] := SACK_PERM, 2;
      }
      no[8] := NOP;
      if c.p.windowScale > 0 {
        no[9], no[10], no[11] := WSCALE, 3, c.p.windowScale;
      }
      EcnLayout(no[..], mss, c.p.windowScale, sack);
      LinuxEcnEncodes(mss, c.p.windowScale, sack);
    } else {
      no[4] := NOP;
      no[5], no[6], no[7] := WSCALE, 3, c.p.windowScale;
      no[8], no[9] := NOP, NOP;
      if sack {
        no[10], no[11] := SACK_PERM, 2;
      }
      WinSynLayout(no[..], mss, c.p.windowScale, sack);
      WinSynEncodes(mss, c.p.windowScale, sack);
    }
  }

  /** The 12-byte template of an outbound SYN. */
  method Stage12(pkt: array<byte>, ihl: nat, optLen: nat, ghost g: Segment, c: Ctx) returns (changed: bool)
    requires Valid(g) && |g.ip| == ihl && pkt[..] == Wire(g) && optLen == |g.opts|
    modifies pkt
    ensures Became(pkt, g, Apply12(g, c), changed)
  {
    hide Wire, Encode, OldMss;
    if !(optLen == 12 && c.p.windowScale > 0 && c.p.optionsCount > 0 && IsSyn(c.flags) && !IsSynAck(c.flags)) {
      return false;
    }
    var o := ReadOptions(pkt, ihl, optLen, g);
    var no := Fill12(o, c);
    hide Encode;
    PutOptions(pkt, ihl, g, 0, no[..]);
    assert Splice(g.opts, 0, no[..]) == no[..];
    changed := true;
  }

  /** 16 option bytes on a profile with timestamps. */
  method StageO6(pkt: array<byte>, ihl: nat, optLen: nat, ghost g: Segment, c: Ctx) returns (changed: bool)
    requires Valid(g) && |g.ip| == ihl && pkt[..] == Wire(g) && optLen == |g.opts|
    modifies pkt
    ensures Became(pkt, g, ApplyO6(g, c), changed)
  {
    hide Wire, Encode, OldMss;
    changed := false;
    if optLen == 16 && c.p.timestamps && IsSyn(c.flags) {
      ghost var w := g;
      if c.p.windowSize == 0xFFFF {
        changed := PutWindow(pkt, ihl, g, 0xFFDC);
        w := SetWindow(g, 0xFFDC);
      }
      var o := ReadOptions(pkt, ihl, optLen, w);
      if o[6] == TIMESTAMP && o[7] == TIMESTAMP_LEN {
        PutOptions(pkt, ihl, w, 8, Enc32(Ticks(c.p, c.clk.o6)));
        changed := true;
      }
    }
  }

  /** MSS,NOP,NOP,SACK in 8 scratch bytes. */
  method FillO6(o: seq<byte>, c: Ctx) returns (no8: array<byte>)
    requires |o| == 16
    ensures fresh(no8) && no8.Length == 8 && no8[..] == EncodeO6(o, c)
  {
    var mss := PickMss(o, c.p);
    no8 := new byte[8](_ => 0);
    PutMSS(no8, 0, mss);
    no8[4], no8[5] := NOP, NOP;
    if c.p.sackPermitted {
      no8[6], no8[7] := SACK_PERM, 2;
    } else {
      no8[6], no8[7] := NOP, NOP;
    }
    assert no8[..] == MssBytes(mss) + [NOP, NOP] + SackBytes(c.p.sackPermitted);
    O6Encodes(mss, c.p.sackPermitted);
  }

  lemma SplicePrefix(s: seq<byte>, t: seq<byte>)
    requires |t| <= |s|
    ensures Splice(s, 0, t)[..|t|] == t
  {
  }

  /** 16 option bytes on a Windows profile without timestamps. */
  method StageO6NoTs(pkt: array<byte>, ihl: nat, optLen: nat, ghost g: Segment, c: Ctx)
    returns (out: array<byte>, newLen: nat, changed: bool)
    requires Valid(g) && |g.ip| == ihl && pkt[..] == Wire(g) && optLen == |g.opts|
    modifies pkt
    ensures out == pkt || fresh(out)
    ensures Became(out, g, ApplyO6NoTs(g, c), changed) && newLen == |ApplyO6NoTs(g, c).opts|
    ensures !changed ==> out == pkt
  {
    hide Wire, EncodeO6, Resize, Splice, Step, Kept, Consistent;
    if !(optLen == 16 && IsSyn(c.flags) && c.p.winQuirks && !c.p.timestamps) {
      return pkt, optLen, false;
    }
    ghost var w := g;
    if c.p.windowSize == 0xFFFF {
      var _ := PutWindow(pkt, ihl, g, 0xFF70);
      w := SetWindow(g, 0xFF70);
    }
    var o := ReadOptions(pkt, ihl, optLen, w);
    var no8 := FillO6(o, c);
    PutOptions(pkt, ihl, w, 0, no8[..]);
    ghost var x := w.(opts := Splice(w.opts, 0, no8[..]));
    SplicePrefix(w.opts, no8[..]);
    ResizeForgets(w, x.opts, no8[..]);
    ShrunkWire(x, 8);
    out := ShrinkTCPHeader(pkt, ihl, 36, 28);
    newLen, changed := 8, true;
  }

  /** NOP,NOP,TS on established segments. */
  method StageCoherence(pkt: array<byte>, ihl: nat, optLen: nat, ghost g: Segment, c: Ctx) returns (changed: bool)
    requires Valid(g) && |g.ip| == ihl && pkt[..] == Wire(g) && optLen == |g.opts|
    modifies pkt
    ensures Became(pkt, g, ApplyCoherence(g, c), changed)
  {
    hide Wire, Encode, OldMss;
    changed := false;
    if optLen == 12 && !IsSyn(c.flags) && c.p.timestamps && c.p.windowScale > 0 {
      var o := ReadOptions(pkt, ihl, optLen, g);
      if o[0] == NOP && o[1] == NOP && o[2] == TIMESTAMP && o[3] == TIMESTAMP_LEN {
        assert g.opts[..4] == [NOP, NOP, TIMESTAMP, TIMESTAMP_LEN];
        PutOptions(pkt, ihl, g, 4, Enc32(Ticks(c.p, c.clk.ack)));
        changed := true;
      }
    }
  }

  /** patchSynAckTSval: a fresh TSval in every timestamp option the walk meets. */
  method PatchSynAckTSval(pkt: array<byte>, ihl: nat, optLen: nat, ghost g: Segment, c: Ctx) returns (changed: bool)
    requires Valid(g) && |g.ip| == ihl && pkt[..] == Wire(g) && optLen == |g.opts|
    modifies pkt
    ensures pkt[..] == Wire(g.(opts := PatchFrom(g.opts, 0, c.clk.patch)))
    ensures !changed ==> PatchFrom(g.opts, 0, c.clk.patch) == g.opts
  {
    hide Wire, Encode, OldMss;
    changed := false;
    ghost var h := g;
    var off := 0;
    while off + TIMESTAMP_LEN <= optLen
      invariant h == g.(opts := h.opts) && |h.opts| == optLen && pkt[..] == Wire(h)
      invariant !changed ==> h == g
      invariant PatchFrom(g.opts, 0, c.clk.patch) == PatchFrom(h.opts, off, c.clk.patch)
      decreases optLen - off
    {
      var o := ReadOptions(pkt, ihl, optLen, h);
      var kind := o[off];
      if kind == NOP {
        off := off + 1;
        continue;
      }
      if kind == EOL {
        break;
      }
      var olen := o[off + 1];
      if olen < 2 {
        off := off + 1;
        continue;
      }
      if kind == TIMESTAMP && olen == TIMESTAMP_LEN {
        PutOptions(pkt, ihl, h, off + 2, Enc32(c.clk.patch(off)));
        h := h.(opts := Splice(h.opts, off + 2, Enc32(c.clk.patch(off))));
        changed := true;
      }
      off := off + olen;
    }
  }

  lemma SpliceOne(s: seq<byte>, i: nat, b: byte)
    requires i < |s|
    ensures Splice(s, i, [b]) == s[i := b]
  {
  }

  method PutFlags(pkt: array<byte>, ihl: nat, ghost g: Segment, f: byte)
    requires Valid(g) && |g.ip| == ihl && pkt[..] == Wire(g)
    modifies pkt
    ensures pkt[..] == Wire(SetFlags(g, f))
  {
    hide Wire;
    WireHdr(g, 13, [f]);
    SpliceOne(g.hdr, 13, f);
    SpliceOne(Wire(g), ihl + 13, f);
    pkt[ihl + 13] := f;
  }

  /** The ECE bit of the SYN-ACK. */
  method StageEce(pkt: array<byte>, ihl: nat, ghost g: Segment, c: Ctx) returns (changed: bool)
    requires Valid(g) && |g.ip| == ihl && pkt[..] == Wire(g)
    modifies pkt
    ensures Became(pkt, g, ApplyEce(g, c), changed)
  {
    hide Wire;
    changed := false;
    if IsSynAck(c.flags) && IsEce(c.flags) && !c.p.ecnCC {
      PutFlags(pkt, ihl, g, c.flags - 64);
      changed := true;
    }
    if c.p.ecnCC && IsSynAck(c.flags) && !IsEce(c.flags) && c.flow.Some? && !c.flow.value.hadTS {
      PutFlags(pkt, ihl, g, c.flags + 64);
      changed := true;
    }
  }

  /** Room for the timestamp template on a 12-byte SYN-ACK. */
  method StageGrow(pkt: array<byte>, ihl: nat, optLen: nat, ghost g: Segment, c: Ctx)
    returns (out: array<byte>, newLen: nat, changed: bool)
    requires Valid(g) && |g.ip| == ihl && pkt[..] == Wire(g) && optLen == |g.opts|
    ensures out == pkt || fresh(out)
    ensures Became(out, g, Grow(g, c), changed) && newLen == |Grow(g, c).opts|
    ensures !changed ==> out == pkt
  {
    hide Wire;
    out, newLen, changed := pkt, optLen, false;
    if optLen == 12 && IsSynAck(c.flags) && c.p.timestamps && c.p.opt1 == SACK_PERM && c.p.windowScale > 0 &&
       (c.flow.None? || c.flow.value.hadTS) {
      GrownWire(g, 8);
      out := GrowTCPHeader(pkt, ihl, 32, 40);
      newLen, changed := 20, true;
    }
  }

  /** The stages up to the 20-byte template. */
  method ShapeFront(pkt: array<byte>, ihl: nat, optLen: nat, ghost g: Segment, c: Ctx)
    returns (out: array<byte>, newLen: nat, changed: bool)
    requires Valid(g) && |g.ip| == ihl && pkt[..] == Wire(g) && optLen == |g.opts|
    modifies pkt
    ensures out == pkt || fresh(out)
    ensures Became(out, g, Apply20(StampWindow(Grow(g, c), c), c), changed)
    ensures newLen == |Apply20(StampWindow(Grow(g, c), c), c).opts|
    ensures !changed ==> out == pkt
  {
    hide Wire, Grow, Apply20;
    out, newLen, changed := StageGrow(pkt, ihl, optLen, g, c);
    ghost var a := Grow(g, c);
    var ch := false;
    if c.p.windowSize > 0 {
      ch := PutWindow(out, ihl, a, c.p.windowSize);
    }
    changed := changed || ch;
    var next;
    next, newLen, ch := Stage20(out, ihl, newLen, StampWindow(a, c), c);
    out, changed := next, changed || ch;
  }

  /** The stages behind the 20-byte template that work in place. */
  method ShapeMiddle(pkt: array<byte>, ihl: nat, optLen: nat, ghost g: Segment, c: Ctx) returns (changed: bool)
    requires Valid(g) && |g.ip| == ihl && pkt[..] == Wire(g) && optLen == |g.opts|
    modifies pkt
    ensures Became(pkt, g, ApplyO6(Apply12(ApplyEcn(g, c), c), c), changed)
  {
    hide Wire, ApplyEcn, Apply12, ApplyO6;
    changed := StageEcn(pkt, ihl, optLen, g, c);
    var ch := Stage12(pkt, ihl, optLen, ApplyEcn(g, c), c);
    changed := changed || ch;
    ch := StageO6(pkt, ihl, optLen, Apply12(ApplyEcn(g, c), c), c);
    changed := changed || ch;
  }

  /** The last stages: data segments, RST, TSval patch, ECE. */
  method ShapeBack(pkt: array<byte>, ihl: nat, optLen: nat, ghost g: Segment, c: Ctx) returns (changed: bool)
    requires Valid(g) && |g.ip| == ihl && pkt[..] == Wire(g) && optLen == |g.opts|
    modifies pkt
    ensures Became(pkt, g, ApplyEce(ApplyPatch(ApplyRst(ApplyCoherence(g, c), c), c), c), changed)
  {
    hide Wire, ApplyCoherence, ApplyEce;
    changed := StageCoherence(pkt, ihl, optLen, g, c);
    ghost var a := ApplyCoherence(g, c);
    var ch := false;
    if IsRst(c.flags) && c.p.windowInRst == 0 {
      ch := PutWindow(pkt, ihl, a, 0);
    }
    changed := changed || ch;
    ghost var b := ApplyRst(a, c);
    ch := false;
    if IsSynAck(c.flags) && c.p.timestamps && c.p.opt1 == SACK_PERM && optLen > 0 {
      ch := PatchSynAckTSval(pkt, ihl, optLen, b, c);
    }
    changed := changed || ch;
    ch := StageEce(pkt, ihl, ApplyPatch(b, c), c);
    changed := changed || ch;
  }

  /** The body of applyTCP behind its guards. */
  method ShapeInPlace(pkt: array<byte>, ihl: nat, optLen: nat, ghost g: Segment, c: Ctx)
    returns (out: array<byte>, changed: bool)
    requires Valid(g) && |g.ip| == ihl && pkt[..] == Wire(g) && optLen == |g.opts|
    modifies pkt
    ensures out == pkt || fresh(out)
    ensures Became(out, g, Shape(g, c), changed)
    ensures !changed ==> out == pkt
  {
    hide Wire, Grow, StampWindow, Apply20, ApplyEcn, Apply12, ApplyO6, ApplyO6NoTs, ApplyCoherence, ApplyRst, ApplyPatch, ApplyEce;
    var len, ch, next;
    out, len, changed := ShapeFront(pkt, ihl, optLen, g, c);
    ghost var a := Apply20(StampWindow(Grow(g, c), c), c);
    ch := ShapeMiddle(out, ihl, len, a, c);
    changed := changed || ch;
    ghost var b := ApplyO6(Apply12(ApplyEcn(a, c), c), c);
    next, len, ch := StageO6NoTs(out, ihl, len, b, c);
    out, changed := next, changed || ch;
    ch := ShapeBack(out, ihl, len, ApplyO6NoTs(b, c), c);
    changed := changed || ch;
  }
}
