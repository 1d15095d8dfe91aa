/** Which option list leaves for which segment, family by family, in literal lists. */
module TcpAnswers {
  import opened Bytes
  import opened TcpOptions
  import opened TcpSegment
  import opened TcpShaping
  import opened TcpTheorems
  import opened TcpContents

  // ----- flag bits -----

  /** The flag tests are those of the TCP header's bits: FIN is 1, SYN 2, RST 4, PSH 8, ACK 16, URG 32, ECE 64. */
  lemma FlagBits(f: byte)
    ensures var b := f as bv8;
            && (IsSyn(f) <==> b & 0x02 != 0) && (IsRst(f) <==> b & 0x04 != 0)
            && (IsAck(f) <==> b & 0x10 != 0) && (IsEce(f) <==> b & 0x40 != 0)
            && (IsSynAck(f) <==> b & 0x12 == 0x12)
  {
  }

  // ----- segments without SYN -----

  /** The options of an established connection: two NOPs and a timestamp. */
  function Established(v: uint32, e: uint32): (o: seq<byte>)
    ensures |o| == 12
  {
    [1, 1, 8, 10] + Enc32(v) + Enc32(e)
  }

  /**
   * A data segment or pure acknowledgement leaves with its own options, but for the TSval of an established
   * connection under a profile with timestamps and window scale: that one is the profile's clock, and the echo stays.
   */
  lemma EstablishedTimestamps(g: Segment, c: Ctx, v: uint32, e: uint32)
    requires Valid(g) && c.flags / 2 % 2 == 0
    ensures c.p.timestamps && c.p.windowScale > 0 && g.opts == Established(v, e) ==>
              Shape(g, c).opts == Established(if c.p.tsSlow then c.clk.ack / 10 else c.clk.ack, e)
    ensures !(c.p.timestamps && c.p.windowScale > 0 && |g.opts| == 12 && g.opts[..4] == [1, 1, 8, 10]) ==>
              Shape(g, c).opts == g.opts
  {
    hide SetWindow, SetFlags;
    assert !IsSyn(c.flags);
    SynlessStages(g, c);
    if g.opts == Established(v, e) {
      EstablishedSpliced(v, e, Ticks(c.p, c.clk.ack));
    }
  }

  lemma SynlessStages(g: Segment, c: Ctx)
    requires Valid(g) && !IsSyn(c.flags)
    ensures Shape(g, c).opts == ApplyCoherence(StampWindow(g, c), c).opts
    ensures StampWindow(g, c).opts == g.opts
  {
    hide SetWindow, SetFlags, Enc32;
  }

  lemma EstablishedSpliced(v: uint32, e: uint32, t: uint32)
    ensures Established(v, e)[..4] == [1, 1, 8, 10]
    ensures Splice(Established(v, e), 4, Enc32(t)) == Established(t, e)
  {
    hide Enc32;
  }

  // ----- what the host itself puts into its SYN-ACK -----

  /** A Windows host's 20 option bytes: scale before SACK, the timestamp last. */
  function WindowsBlock(mss: uint16, ws: byte, sack: bool, v: uint32, e: uint32): seq<Opt> {
    [Mss(mss), Nop, WScale(ws)] + (if sack then [SackPerm] else [Nop, Nop]) + [Timestamp(v, e)]
  }

  /** A Linux host's: SACK and timestamp before the scale. */
  function LinuxBlock(mss: uint16, ws: byte, sack: bool, v: uint32, e: uint32): seq<Opt> {
    [Mss(mss)] + (if sack then [SackPerm] else [Nop, Nop]) + [Timestamp(v, e), Nop, WScale(ws)]
  }

  /** The packet's options are the encoding of this list. */
  ghost predicate Holds(g: Segment, l: seq<Opt>) {
    ValidList(l) && g.opts == Encode(l)
  }

  lemma WindowsBytes(mss: uint16, ws: byte, sack: bool, v: uint32, e: uint32)
    ensures ValidList(WindowsBlock(mss, ws, sack, v, e))
    ensures Encode(WindowsBlock(mss, ws, sack, v, e)) ==
            [2, 4] + Enc16(mss) + [1, 3, 3, ws] + (if sack then [4, 2] else [1, 1]) + [8, 10] + Enc32(v) + Enc32(e)
  {
    hide Encode, Enc16, Enc32;
    WinTsEncodes(mss, ws, sack, v, e);
    assert WindowsBlock(mss, ws, sack, v, e) == WinTsTemplate(mss, ws, sack, v, e);
  }

  lemma LinuxBytes(mss: uint16, ws: byte, sack: bool, v: uint32, e: uint32)
    ensures ValidList(LinuxBlock(mss, ws, sack, v, e))
    ensures Encode(LinuxBlock(mss, ws, sack, v, e)) ==
            [2, 4] + Enc16(mss) + (if sack then [4, 2] else [1, 1]) + [8, 10] + Enc32(v) + Enc32(e) + [1, 3, 3, ws]
  {
    hide Encode, Encodes, Enc16, Enc32;
    Pieces(mss, ws, sack, v, e);
    var a, b := [Mss(mss)] + SackOrNops(sack), MssBytes(mss) + SackBytes(sack);
    Join([Mss(mss)], MssBytes(mss), SackOrNops(sack), SackBytes(sack));
    Join(a, b, [Timestamp(v, e)], TsBytes(v, e));
    Join(a + [Timestamp(v, e)], b + TsBytes(v, e), [Nop], [NOP]);
    Join(a + [Timestamp(v, e)] + [Nop], b + TsBytes(v, e) + [NOP], [WScale(ws)], ScaleBytes(ws));
    LinuxRegrouped(mss, ws, sack, v, e);
  }

  lemma LinuxRegrouped(mss: uint16, ws: byte, sack: bool, v: uint32, e: uint32)
    requires Encodes([Mss(mss)] + SackOrNops(sack) + [Timestamp(v, e)] + [Nop] + [WScale(ws)],
                     MssBytes(mss) + SackBytes(sack) + TsBytes(v, e) + [NOP] + ScaleBytes(ws))
    ensures ValidList(LinuxBlock(mss, ws, sack, v, e))
    ensures Encode(LinuxBlock(mss, ws, sack, v, e)) ==
            [2, 4] + Enc16(mss) + (if sack then [4, 2] else [1, 1]) + [8, 10] + Enc32(v) + Enc32(e) + [1, 3, 3, ws]
  {
    hide Encode, Enc16, Enc32;
    assert [Mss(mss)] + SackOrNops(sack) + [Timestamp(v, e)] + [Nop] + [WScale(ws)] == LinuxBlock(mss, ws, sack, v, e);
  }

  lemma Enc32Bytes(v: uint32)
    ensures Enc32(v) == [v / 0x100_0000, v / 0x1_0000 % 0x100, v / 0x100 % 0x100, v % 0x100]
  {
    var hi, lo := v / 0x1_0000, v % 0x1_0000;
    Halves(v, hi / 0x100, hi % 0x100, lo / 0x100, lo % 0x100);
  }

  lemma Halves(v: int, a: int, b: int, c: int, d: int)
    requires 0 <= a < 0x100 && 0 <= b < 0x100 && 0 <= c < 0x100 && 0 <= d < 0x100
    requires v == 0x100_0000 * a + 0x1_0000 * b + 0x100 * c + d
    ensures v / 0x100_0000 == a && v / 0x1_0000 % 0x100 == b && v / 0x100 % 0x100 == c && v % 0x100 == d
  {
    assert v / 0x1_0000 == 0x100 * a + b && v / 0x100 == 0x1_0000 * a + 0x100 * b + c;
  }

  /** What the rewriter reads from a Windows host's block: the MSS, no echo, and SACK or a clock that looks like it. */
  lemma WindowsRead(mss: uint16, ws: byte, sack: bool, v: uint32, e: uint32, p: Profile)
    ensures var o := Encode(WindowsBlock(mss, ws, sack, v, e));
            && |o| == 20 && OldMss(o, p) == mss && OldTsecr(o) == 0
            && (SackAt(o, SACK_PLACES_20) <==> sack || v / 0x100_0000 == 4 || e / 0x100_0000 == 4)
  {
    WindowsBytes(mss, ws, sack, v, e);
    hide Encode, SackAt;
    var o := Encode(WindowsBlock(mss, ws, sack, v, e));
    Enc32Bytes(v);
    Enc32Bytes(e);
    Enc16RoundTrip(mss);
    hide Enc32;
    SackPlaces(o);
  }

  lemma SackPlaces(o: seq<byte>)
    requires |o| == 20
    ensures SackAt(o, SACK_PLACES_20) <==>
            o[4] == 4 || o[6] == 4 || o[8] == 4 || o[10] == 4 || o[12] == 4 || o[16] == 4
  {
    var p := SACK_PLACES_20;
    assert p[0] == 4 && p[1] == 6 && p[2] == 8 && p[3] == 10 && p[4] == 12 && p[5] == 16;
  }

  /** From a Linux host's block it also reads the echo, unless the TSval starts like a timestamp option, 8 and 10. */
  lemma LinuxRead(mss: uint16, ws: byte, sack: bool, v: uint32, e: uint32, p: Profile)
    ensures var o := Encode(LinuxBlock(mss, ws, sack, v, e));
            && |o| == 20 && OldMss(o, p) == mss && (v / 0x1_0000 != 0x080A ==> OldTsecr(o) == e)
            && (SackAt(o, SACK_PLACES_20) <==>
                sack || v / 0x100_0000 == 4 || v / 0x100 % 0x100 == 4 || e / 0x100_0000 == 4)
  {
    LinuxBytes(mss, ws, sack, v, e);
    hide Encode, SackAt;
    var o := Encode(LinuxBlock(mss, ws, sack, v, e));
    Enc32Bytes(v);
    Enc32Bytes(e);
    Enc16RoundTrip(mss);
    Enc32RoundTrip(e);
    hide Enc32;
    SackPlaces(o);
    assert o[12..16] == Enc32(e);
    Dec32Slice(o, 12, 16, 0);
    hide Dec32;
    assert v / 0x1_0000 == v / 0x100_0000 * 0x100 + v / 0x1_0000 % 0x100;
  }

  /** A Windows host without timestamps: 12 bytes. */
  function ShortBlock(mss: uint16, ws: byte, sack: bool): seq<Opt> {
    [Mss(mss), Nop, WScale(ws), Nop, Nop] + (if sack then [SackPerm] else [Nop, Nop])
  }

  lemma ShortBytes(mss: uint16, ws: byte, sack: bool)
    ensures ValidList(ShortBlock(mss, ws, sack))
    ensures Encode(ShortBlock(mss, ws, sack)) == [2, 4] + Enc16(mss) + [1, 3, 3, ws, 1, 1] + (if sack then [4, 2] else [1, 1])
  {
    hide Encode, Enc16;
    WinSynEncodes(mss, ws, sack);
    assert ShortBlock(mss, ws, sack) == WinSynTemplate(mss, ws, sack);
  }

  lemma GrownRead(mss: uint16, ws: byte, sack: bool, p: Profile)
    ensures var o := Encode(ShortBlock(mss, ws, sack)) + Repeat(0, 8);
            && |o| == 20 && OldMss(o, p) == mss && OldTsecr(o) == 0 && (SackAt(o, SACK_PLACES_20) <==> sack)
  {
    ShortBytes(mss, ws, sack);
    hide Encode, SackAt;
    var o := Encode(ShortBlock(mss, ws, sack)) + Repeat(0, 8);
    Enc16RoundTrip(mss);
    SackPlaces(o);
  }

  // ----- the answer -----

  /** The TSval of the answered SYN wins, then the echo the host wrote, then a clock reading. */
  function Echo(c: Ctx, own: uint32): uint32 {
    match c.flow
    case Some(f) => if f.hadTS && f.tsval != 0 then f.tsval else if own != 0 then own else c.clk.tsecr
    case None => if own != 0 then own else c.clk.tsecr
  }

  /** The options of a SYN-ACK, family by family: Windows XP, Windows without and with timestamps, Linux, macOS. */
  function Answer(c: Ctx, mss: uint16, sack: bool, own: uint32): seq<Opt> {
    var p, both := c.p, if c.p.sackPermitted && sack then [SackPerm] else [Nop, Nop];
    var head :=
      if !p.timestamps && p.windowScale == 0 then
        [Mss(mss), Nop, Nop] + both + [Nop, Nop, Nop, Nop, Nop, Nop, Nop, Nop, Nop, Nop, Nop, Nop]
      else if !p.timestamps then
        [Mss(mss), Nop, WScale(p.windowScale)] + (if p.sackPermitted && sack then [Nop, Nop, SackPerm] else [])
      else if p.opt1 == 4 then
        [Mss(mss)] + both + [Timestamp(c.clk.patch(6), Echo(c, own)), Nop] +
        (if p.windowScale > 0 then [WScale(p.windowScale)] else [Nop, Nop, Nop])
      else if p.windowScale > 0 then
        [Mss(mss), Nop, WScale(p.windowScale)] + both +
        [Timestamp(if p.tsSlow then c.clk.tsval / 10 else c.clk.tsval, Echo(c, own))]
      else [Mss(mss), Nop, WScale(0), Nop, Nop, Timestamp(c.clk.tsval, Echo(c, own))];
    if p.timestamps && p.ipid.Zero? && !p.winQuirks then head + [SackPerm, Eol, Eol] else head
  }

  /** A SYN-ACK of a profile with options configured that is not the answer to a SYN without timestamps. */
  predicate Plainly(c: Ctx) {
    && c.flags / 2 % 2 == 1 && c.flags / 16 % 2 == 1 && c.p.optionsCount > 0
    && !(c.p.ecnEcho && c.p.windowScale > 0 && c.flow.Some? && !c.flow.value.hadTS)
  }

  lemma StandardAnswer(g: Segment, c: Ctx)
    requires Valid(g) && Plainly(c) && |Grow(g, c).opts| == 20
    ensures var o := Grow(g, c).opts;
            && ValidList(Template20(o, c))
            && Shape(g, c).opts ==
               Encode(if c.p.timestamps && c.p.opt1 == 4 then Retime(Template20(o, c), 0, c.clk.patch) else Template20(o, c))
  {
    hide Encode, Template20, Retime;
    var o := Grow(g, c).opts;
    Template20Encodes(o, c);
    assert IsSynAck(c.flags);
    var b := Apply20(StampWindow(Grow(g, c), c), c);
    assert b.opts == Encode(Template20(o, c));
    assert Chosen(g, c) == Some(Template20(o, c));
    EmittedOnWire(g, c);
    hide Shape, Chosen, Grow;
  }

  lemma {:induction false} RetimeTimeless(l: seq<Opt>, off: nat, clk: nat -> uint32)
    requires ValidList(l) && Timeless(l)
    ensures Retime(l, off, clk) == l
    decreases |l|
  {
    hide Encode1;
    if l != [] && !l[0].Eol? {
      RetimeTimeless(l[1..], off + |Encode1(l[0])|, clk);
      assert l == [l[0]] + l[1..];
    }
  }

  lemma RetimeStep(o: Opt, l: seq<Opt>, off: nat, clk: nat -> uint32)
    requires ValidOpt(o) && ValidList([o] + l) && ValidList(l) && !o.Eol?
    ensures Retime([o] + l, off, clk) == [if o.Timestamp? then o.(tsval := clk(off)) else o] + Retime(l, off + |Encode1(o)|, clk)
  {
    hide Encode1;
    assert ([o] + l)[1..] == l;
  }

  /** In the Linux order the timestamp stands at offset 6, whether SACK or two NOPs stand before it. */
  lemma RetimedLinux(mss: uint16, sack: bool, v: uint32, e: uint32, rest: seq<Opt>, clk: nat -> uint32)
    requires ValidList(rest) && Timeless(rest)
    ensures var both := if sack then [SackPerm] else [Nop, Nop];
            && ValidList([Mss(mss)] + (both + ([Timestamp(v, e)] + rest)))
            && Retime([Mss(mss)] + (both + ([Timestamp(v, e)] + rest)), 0, clk) ==
               [Mss(mss)] + (both + ([Timestamp(clk(6), e)] + rest))
  {
    hide Retime, Encode1, Timeless;
    var t := [Timestamp(v, e)] + rest;
    Sizes(mss, v, e);
    RetimeTimeless(rest, 16, clk);
    RetimeStep(Timestamp(v, e), rest, 6, clk);
    if sack {
      RetimeStep(SackPerm, t, 4, clk);
      RetimeStep(Mss(mss), [SackPerm] + t, 0, clk);
    } else {
      RetimeStep(Nop, t, 5, clk);
      RetimeStep(Nop, [Nop] + t, 4, clk);
      assert [Nop, Nop] + t == [Nop] + ([Nop] + t);
      RetimeStep(Mss(mss), [Nop] + ([Nop] + t), 0, clk);
      assert [Nop] + ([Nop] + Retime(t, 6, clk)) == [Nop, Nop] + Retime(t, 6, clk);
    }
  }

  lemma Sizes(mss: uint16, v: uint32, e: uint32)
    ensures |Encode1(Mss(mss))| == 4 && |Encode1(SackPerm)| == 2 && |Encode1(Nop)| == 1
    ensures |Encode1(Timestamp(v, e))| == 10
  {
  }

  /** The families one by one: the template is the answer, its tail of the macOS kind included. */
  lemma TailIs(l: seq<Opt>, o: seq<byte>, c: Ctx)
    requires |o| == 20 && Head20(o, c) == l
    ensures Template20(o, c) == if c.p.timestamps && c.p.ipid.Zero? && !c.p.winQuirks then l + [SackPerm, Eol, Eol] else l
  {
    hide Head20;
  }

  lemma TimelessIs(o: seq<byte>, c: Ctx, sack: bool)
    requires |o| == 20 && (SackAt(o, SACK_PLACES_20) <==> sack) && !c.p.timestamps
    ensures Template20(o, c) == Answer(c, OldMss(o, c.p), sack, OldTsecr(o))
  {
    hide OldMss, OldTsecr, SackAt;
    var p, mss := c.p, OldMss(o, c.p);
    var both := if p.sackPermitted && sack then [SackPerm] else [Nop, Nop];
    if p.windowScale == 0 {
      assert Nops(12) == [Nop, Nop, Nop, Nop, Nop, Nop, Nop, Nop, Nop, Nop, Nop, Nop];
      assert Head20(o, c) == [Mss(mss), Nop, Nop] + both + Nops(12);
    }
    TailIs(Head20(o, c), o, c);
    hide Head20;
  }

  lemma WindowsIs(o: seq<byte>, c: Ctx, sack: bool)
    requires |o| == 20 && (SackAt(o, SACK_PLACES_20) <==> sack) && c.p.timestamps && c.p.opt1 != 4
    ensures Template20(o, c) == Answer(c, OldMss(o, c.p), sack, OldTsecr(o))
  {
    EchoIs(o, c);
    hide OldMss, OldTsecr, SackAt, Tsecr, Echo;
    TailIs(Head20(o, c), o, c);
    hide Template20;
  }

  lemma EchoIs(o: seq<byte>, c: Ctx)
    requires |o| == 20
    ensures Tsecr(o, c) == Echo(c, OldTsecr(o))
  {
    hide OldTsecr;
  }

  lemma LinuxIs(o: seq<byte>, c: Ctx, sack: bool)
    requires |o| == 20 && (SackAt(o, SACK_PLACES_20) <==> sack) && c.p.timestamps && c.p.opt1 == 4
    requires ValidList(Template20(o, c))
    ensures Retime(Template20(o, c), 0, c.clk.patch) == Answer(c, OldMss(o, c.p), sack, OldTsecr(o))
  {
    EchoIs(o, c);
    var p, mss, e := c.p, OldMss(o, c.p), Tsecr(o, c);
    var both := if p.sackPermitted && sack then [SackPerm] else [Nop, Nop];
    var scale := if p.windowScale > 0 then [WScale(p.windowScale)] else [Nop, Nop, Nop];
    var tail := if MacGrows(p) then [SackPerm, Eol, Eol] else [];
    LinuxForms(o, c, sack, both, scale, tail);
    RestTimeless(scale, tail);
    hide *;
    RetimedLinux(mss, p.sackPermitted && sack, c.clk.tsval, e, [Nop] + scale + tail, c.clk.patch);
    Regroup([Mss(mss)], both, Timestamp(c.clk.tsval, e), scale, tail);
    Regroup([Mss(mss)], both, Timestamp(c.clk.patch(6), e), scale, tail);
  }

  lemma LinuxForms(o: seq<byte>, c: Ctx, sack: bool, both: seq<Opt>, scale: seq<Opt>, tail: seq<Opt>)
    requires |o| == 20 && (SackAt(o, SACK_PLACES_20) <==> sack) && c.p.timestamps && c.p.opt1 == 4
    requires both == if c.p.sackPermitted && sack then [SackPerm] else [Nop, Nop]
    requires scale == if c.p.windowScale > 0 then [WScale(c.p.windowScale)] else [Nop, Nop, Nop]
    requires tail == if MacGrows(c.p) then [SackPerm, Eol, Eol] else []
    ensures var m, e := [Mss(OldMss(o, c.p))], Tsecr(o, c);
            && Template20(o, c) == m + both + [Timestamp(c.clk.tsval, e), Nop] + scale + tail
            && Answer(c, OldMss(o, c.p), sack, OldTsecr(o)) == m + both + [Timestamp(c.clk.patch(6), e), Nop] + scale + tail
  {
    EchoIs(o, c);
    hide OldMss, OldTsecr, SackAt, Tsecr, Echo;
    assert Nops(3) == [Nop, Nop, Nop];
    TailIs(Head20(o, c), o, c);
    hide Template20;
  }

  lemma RestTimeless(scale: seq<Opt>, tail: seq<Opt>)
    requires (exists ws :: scale == [WScale(ws)]) || scale == [Nop, Nop, Nop]
    requires tail == [] || tail == [SackPerm, Eol, Eol]
    ensures ValidList([Nop] + scale + tail) && Timeless([Nop] + scale + tail)
  {
  }

  lemma Regroup(a: seq<Opt>, b: seq<Opt>, t: Opt, scale: seq<Opt>, tail: seq<Opt>)
    ensures a + b + [t, Nop] + scale + tail == a + (b + ([t] + ([Nop] + scale + tail)))
  {
  }

  lemma AnswerIs(o: seq<byte>, c: Ctx, sack: bool)
    requires |o| == 20 && (SackAt(o, SACK_PLACES_20) <==> sack) && ValidList(Template20(o, c))
    ensures Answer(c, OldMss(o, c.p), sack, OldTsecr(o)) ==
            if c.p.timestamps && c.p.opt1 == 4 then Retime(Template20(o, c), 0, c.clk.patch) else Template20(o, c)
  {
    hide *;
    if !c.p.timestamps {
      TimelessIs(o, c, sack);
    } else if c.p.opt1 == 4 {
      LinuxIs(o, c, sack);
    } else {
      WindowsIs(o, c, sack);
    }
  }

  // ----- the answers on the wire -----

  /**
   * The SYN-ACK of a Windows host: its MSS stays, its echo is lost, and SACK is permitted if it was, or if one of the
   * clocks starts with the byte 4.
   */
  lemma WindowsHostAnswer(g: Segment, c: Ctx, mss: uint16, ws: byte, sack: bool, v: uint32, e: uint32)
    requires Valid(g) && Plainly(c) && Holds(g, WindowsBlock(mss, ws, sack, v, e))
    ensures var s := sack || v / 0x100_0000 == 4 || e / 0x100_0000 == 4;
            ValidList(Answer(c, mss, s, 0)) && Shape(g, c).opts == Encode(Answer(c, mss, s, 0))
  {
    WindowsBytes(mss, ws, sack, v, e);
    assert g.opts == Encode(WindowsBlock(mss, ws, sack, v, e));
    hide *;
    WindowsRead(mss, ws, sack, v, e, c.p);
    Answered(g, c, g.opts, sack || v / 0x100_0000 == 4 || e / 0x100_0000 == 4);
  }

  /** That of a Linux host: the echo it wrote is kept. */
  lemma LinuxHostAnswer(g: Segment, c: Ctx, mss: uint16, ws: byte, sack: bool, v: uint32, e: uint32)
    requires Valid(g) && Plainly(c) && Holds(g, LinuxBlock(mss, ws, sack, v, e)) && v / 0x1_0000 != 0x080A
    ensures var s := sack || v / 0x100_0000 == 4 || v / 0x100 % 0x100 == 4 || e / 0x100_0000 == 4;
            ValidList(Answer(c, mss, s, e)) && Shape(g, c).opts == Encode(Answer(c, mss, s, e))
  {
    LinuxBytes(mss, ws, sack, v, e);
    assert g.opts == Encode(LinuxBlock(mss, ws, sack, v, e));
    hide *;
    LinuxRead(mss, ws, sack, v, e, c.p);
    Answered(g, c, g.opts, sack || v / 0x100_0000 == 4 || v / 0x100 % 0x100 == 4 || e / 0x100_0000 == 4);
  }

  /** That of a Windows host without timestamps, under a profile with SACK second, timestamps and a scale. */
  lemma ShortHostAnswer(g: Segment, c: Ctx, mss: uint16, ws: byte, sack: bool)
    requires Valid(g) && Plainly(c) && Holds(g, ShortBlock(mss, ws, sack))
    requires c.p.timestamps && c.p.opt1 == 4 && c.p.windowScale > 0 && (c.flow.Some? ==> c.flow.value.hadTS)
    ensures ValidList(Answer(c, mss, sack, 0)) && Shape(g, c).opts == Encode(Answer(c, mss, sack, 0))
  {
    ShortBytes(mss, ws, sack);
    hide *;
    ShortGrows(g, c, mss, ws, sack);
    GrownRead(mss, ws, sack, c.p);
    Answered(g, c, Encode(ShortBlock(mss, ws, sack)) + Repeat(0, 8), sack);
  }

  lemma ShortGrows(g: Segment, c: Ctx, mss: uint16, ws: byte, sack: bool)
    requires Valid(g) && Plainly(c) && Holds(g, ShortBlock(mss, ws, sack))
    requires c.p.timestamps && c.p.opt1 == 4 && c.p.windowScale > 0 && (c.flow.Some? ==> c.flow.value.hadTS)
    ensures ValidList(ShortBlock(mss, ws, sack)) && Grow(g, c).opts == Encode(ShortBlock(mss, ws, sack)) + Repeat(0, 8)
  {
    ShortBytes(mss, ws, sack);
    hide Encode;
  }

  lemma Answered(g: Segment, c: Ctx, o: seq<byte>, sack: bool)
    requires Valid(g) && Plainly(c) && |o| == 20 && (o == g.opts || o == Grow(g, c).opts)
    requires SackAt(o, SACK_PLACES_20) <==> sack
    ensures var l := Answer(c, OldMss(o, c.p), sack, OldTsecr(o)); ValidList(l) && Shape(g, c).opts == Encode(l)
  {
    assert Grow(g, c).opts == o;
    hide *;
    StandardAnswer(g, c);
    AnswerIs(o, c, sack);
  }

  // ----- the answer to a SYN without timestamps -----

  /** The MSS that a block starts with. */
  predicate StartsWithMss(o: seq<byte>, mss: uint16) {
    |o| >= 4 && o[..4] == [2, 4] + Enc16(mss)
  }

  lemma MssRead(o: seq<byte>, mss: uint16, p: Profile)
    requires StartsWithMss(o, mss)
    ensures OldMss(o, p) == mss && (|o| > 4 ==> SackAnywhere(o))
  {
    Enc16RoundTrip(mss);
    var h := o[..4];
    assert o[0] == h[0] && o[1] == h[1] && o[2] == h[2] && o[3] == h[3];
    hide Enc16;
  }

  /**
   * Linux answers a SYN without timestamps by MSS, SACK and scale, filled up with NOPs. SACK is permitted whenever the
   * profile permits it: the search for it takes the length byte of the MSS option for it.
   */
  lemma EcnAnswer(g: Segment, c: Ctx, mss: uint16)
    requires Valid(g) && Length20(g.opts, c) >= 12 && StartsWithMss(g.opts, mss)
    requires c.flags / 2 % 2 == 1 && c.flags / 16 % 2 == 1 && c.flow.Some? && !c.flow.value.hadTS
    requires c.p.ecnEcho && !c.p.winQuirks && c.p.windowScale > 0 && c.p.optionsCount > 0
    ensures var n := SentLength(g.opts, c);
            var l := [Mss(mss), Nop, Nop] + (if c.p.sackPermitted then [SackPerm] else [Nop, Nop]) +
                     [Nop, WScale(c.p.windowScale)] + Nops(n - 12);
            n >= 12 && ValidList(l) && Shape(g, c).opts == Encode(l)
  {
    var b := Apply20(StampWindow(g, c), c);
    EcnStarts(g, c, mss);
    Length20Is(g, c);
    EcnChosen(g, c);
    MssRead(b.opts, mss, c.p);
    var l := EcnOptions(b.opts, c);
    EcnTimelessHere(b.opts, c);
    EcnLiteral(b.opts, c, mss);
    hide *;
    EmittedOnWire(g, c);
  }

  lemma EcnTimelessHere(o: seq<byte>, c: Ctx)
    requires |o| >= 12
    ensures ValidList(EcnOptions(o, c)) && Retime(EcnOptions(o, c), 0, c.clk.patch) == EcnOptions(o, c)
  {
    EcnEncodes(o, c);
    TimelessTemplates(o, c, 0, false);
    hide EcnOptions, Retime;
    RetimeTimeless(EcnOptions(o, c), 0, c.clk.patch);
  }

  lemma EcnLiteral(o: seq<byte>, c: Ctx, mss: uint16)
    requires |o| >= 12 && OldMss(o, c.p) == mss && SackAnywhere(o)
    ensures EcnOptions(o, c) ==
            [Mss(mss), Nop, Nop] + (if c.p.sackPermitted then [SackPerm] else [Nop, Nop]) +
            [Nop, WScale(c.p.windowScale)] + Nops(|o| - 12)
  {
    hide OldMss, SackAnywhere;
  }

  /** Whether the 20-byte template was written before or not, the block still starts with that MSS. */
  lemma EcnStarts(g: Segment, c: Ctx, mss: uint16)
    requires Valid(g) && StartsWithMss(g.opts, mss)
    requires IsSynAck(c.flags) && c.flow.Some? && !c.flow.value.hadTS && c.p.ecnEcho && !c.p.winQuirks && c.p.windowScale > 0
    ensures var b := Apply20(StampWindow(g, c), c);
            Grow(g, c) == g && StartsWithMss(b.opts, mss)
  {
    MssRead(g.opts, mss, c.p);
    hide Encode, OldMss, StartsWithMss;
    if |g.opts| == 20 {
      Head20Says(g.opts, c);
      Template20Encodes(g.opts, c);
      EncodedStart(Template20(g.opts, c), mss);
    }
  }

  lemma EncodedStart(l: seq<Opt>, mss: uint16)
    requires ValidList(l) && |l| > 0 && l[0] == Mss(mss)
    ensures StartsWithMss(Encode(l), mss)
  {
    assert Encode(l) == Encode1(l[0]) + Encode(l[1..]);
  }

  lemma EcnChosen(g: Segment, c: Ctx)
    requires Valid(g) && Grow(g, c) == g && |Apply20(StampWindow(g, c), c).opts| >= 12 && !c.p.winQuirks
    requires IsSynAck(c.flags) && c.flow.Some? && !c.flow.value.hadTS
    requires c.p.ecnEcho && c.p.windowScale > 0 && c.p.optionsCount > 0
    ensures var b := Apply20(StampWindow(g, c), c);
            Chosen(g, c) == Some(EcnOptions(b.opts, c)) && |b.opts| == SentLength(g.opts, c)
    ensures Emitted(g, c) == Some(EcnOptions(Apply20(StampWindow(g, c), c).opts, c)) ||
            Emitted(g, c) == Some(Retime(EcnOptions(Apply20(StampWindow(g, c), c).opts, c), 0, c.clk.patch))
  {
    Length20Is(g, c);
    hide Encode, Apply20, EcnOptions, Retime, Length20;
  }

  // ----- outbound SYNs of twelve option bytes -----

  /** The host's own connection request: SACK where it was, or where the MSS starts with the byte 4. */
  lemma SynSent(g: Segment, c: Ctx, mss: uint16, ws: byte, sack: bool)
    requires Valid(g) && Holds(g, ShortBlock(mss, ws, sack))
    requires c.flags / 2 % 2 == 1 && c.flags / 16 % 2 == 0 && c.p.windowScale > 0 && c.p.optionsCount > 0
    ensures var both := if c.p.sackPermitted && (sack || mss / 0x100 == 4) then [SackPerm] else [Nop, Nop];
            var l := if c.p.ecnEcho then [Mss(mss), Nop, Nop] + both + [Nop, WScale(c.p.windowScale)]
                     else [Mss(mss), Nop, WScale(c.p.windowScale), Nop, Nop] + both;
            ValidList(l) && Shape(g, c).opts == Encode(l)
  {
    ShortBytes(mss, ws, sack);
    var o := g.opts;
    ShortRead(mss, ws, sack, c.p);
    SynEncodes(o, c);
    SynChosen(g, c);
    hide OldMss, SackAt, Encode;
    var l := SynOptions(o, c);
    hide Shape, Emitted;
    EmittedOnWire(g, c);
  }

  lemma ShortRead(mss: uint16, ws: byte, sack: bool, p: Profile)
    ensures var o := Encode(ShortBlock(mss, ws, sack));
            |o| == 12 && OldMss(o, p) == mss && (SackAt(o, SACK_PLACES_12) <==> sack || mss / 0x100 == 4)
  {
    ShortBytes(mss, ws, sack);
    hide Encode, SackAt;
    var o := Encode(ShortBlock(mss, ws, sack));
    Enc16RoundTrip(mss);
    TwelvePlaces(o);
  }

  lemma TwelvePlaces(o: seq<byte>)
    requires |o| == 12
    ensures SackAt(o, SACK_PLACES_12) <==> o[2] == 4 || o[4] == 4 || o[6] == 4 || o[8] == 4 || o[10] == 4
  {
    var p := SACK_PLACES_12;
    assert p[0] == 2 && p[1] == 4 && p[2] == 6 && p[3] == 8 && p[4] == 10;
  }

  lemma SynChosen(g: Segment, c: Ctx)
    requires Valid(g) && |g.opts| == 12 && IsSyn(c.flags) && !IsSynAck(c.flags)
    requires c.p.windowScale > 0 && c.p.optionsCount > 0
    ensures Emitted(g, c) == Some(SynOptions(g.opts, c))
  {
    hide Encode, SynOptions;
  }

  // ----- sixteen option bytes -----

  /** MSS, SACK and timestamp, no scale. */
  function SixteenBlock(mss: uint16, sack: bool, v: uint32, e: uint32): seq<Opt> {
    [Mss(mss)] + (if sack then [SackPerm] else [Nop, Nop]) + [Timestamp(v, e)]
  }

  lemma SixteenBytes(mss: uint16, sack: bool, v: uint32, e: uint32)
    ensures ValidList(SixteenBlock(mss, sack, v, e))
    ensures Encode(SixteenBlock(mss, sack, v, e)) ==
            [2, 4] + Enc16(mss) + (if sack then [4, 2] else [1, 1]) + [8, 10] + Enc32(v) + Enc32(e)
  {
    hide Encode, Encodes, Enc16, Enc32;
    Pieces(mss, 0, sack, v, e);
    Join([Mss(mss)], MssBytes(mss), SackOrNops(sack), SackBytes(sack));
    Join([Mss(mss)] + SackOrNops(sack), MssBytes(mss) + SackBytes(sack), [Timestamp(v, e)], TsBytes(v, e));
    SixteenRegrouped(mss, sack, v, e);
  }

  lemma SixteenRegrouped(mss: uint16, sack: bool, v: uint32, e: uint32)
    requires Encodes([Mss(mss)] + SackOrNops(sack) + [Timestamp(v, e)], MssBytes(mss) + SackBytes(sack) + TsBytes(v, e))
    ensures ValidList(SixteenBlock(mss, sack, v, e))
    ensures Encode(SixteenBlock(mss, sack, v, e)) ==
            [2, 4] + Enc16(mss) + (if sack then [4, 2] else [1, 1]) + [8, 10] + Enc32(v) + Enc32(e)
  {
    hide Encode, Enc16, Enc32;
  }

  /**
   * A SYN or SYN-ACK without scale keeps its list; with timestamps on, its TSval becomes a clock reading, the patch's
   * on a SYN-ACK of a profile with SACK second and the profile's otherwise.
   */
  lemma SixteenSent(g: Segment, c: Ctx, mss: uint16, sack: bool, v: uint32, e: uint32)
    requires Valid(g) && Holds(g, SixteenBlock(mss, sack, v, e)) && c.flags / 2 % 2 == 1 && c.p.timestamps
    requires !(c.p.ecnEcho && c.p.windowScale > 0 && c.flow.Some? && !c.flow.value.hadTS)
    ensures var t := if c.flags / 16 % 2 == 1 && c.p.opt1 == 4 then c.clk.patch(6)
                     else if c.p.tsSlow then c.clk.o6 / 10 else c.clk.o6;
            var l := SixteenBlock(mss, sack, t, e);
            ValidList(l) && Shape(g, c).opts == Encode(l)
  {
    var t := Ticks(c.p, c.clk.o6);
    SixteenSpliced(mss, sack, v, e, t);
    PatchSixteen(mss, sack, t, e, c.clk.patch);
    SixteenStages(g, c);
    assert IsSynAck(c.flags) <==> c.flags / 16 % 2 == 1;
    assert g.opts == Encode(SixteenBlock(mss, sack, v, e));
    assert t == if c.p.tsSlow then c.clk.o6 / 10 else c.clk.o6;
    hide *;
  }

  lemma SixteenSpliced(mss: uint16, sack: bool, v: uint32, e: uint32, t: uint32)
    ensures ValidList(SixteenBlock(mss, sack, v, e)) && ValidList(SixteenBlock(mss, sack, t, e))
    ensures var o := Encode(SixteenBlock(mss, sack, v, e));
            && |o| == 16 && o[6] == 8 && o[7] == 10
            && Splice(o, 8, Enc32(t)) == Encode(SixteenBlock(mss, sack, t, e))
  {
    SixteenBytes(mss, sack, v, e);
    SixteenBytes(mss, sack, t, e);
    hide Encode, Enc16, Enc32;
  }

  lemma PatchSixteen(mss: uint16, sack: bool, t: uint32, e: uint32, clk: nat -> uint32)
    ensures ValidList(SixteenBlock(mss, sack, t, e)) && ValidList(SixteenBlock(mss, sack, clk(6), e))
    ensures PatchFrom(Encode(SixteenBlock(mss, sack, t, e)), 0, clk) == Encode(SixteenBlock(mss, sack, clk(6), e))
  {
    SixteenBytes(mss, sack, t, e);
    SixteenBytes(mss, sack, clk(6), e);
    var l, m := SixteenBlock(mss, sack, t, e), SixteenBlock(mss, sack, clk(6), e);
    RetimedLinux(mss, sack, t, e, [], clk);
    var both := if sack then [SackPerm] else [Nop, Nop];
    assert l == [Mss(mss)] + (both + ([Timestamp(t, e)] + [])) && m == [Mss(mss)] + (both + ([Timestamp(clk(6), e)] + []));
    hide Encode, Retime, SixteenBlock, PatchFrom;
    PatchEncode([], l, clk);
    assert [] + Encode(l) == Encode(l) && [] + Encode(m) == Encode(m);
  }

  lemma SixteenStages(g: Segment, c: Ctx)
    requires Valid(g) && |g.opts| == 16 && g.opts[6] == 8 && g.opts[7] == 10 && IsSyn(c.flags) && c.p.timestamps
    requires !(c.p.ecnEcho && c.p.windowScale > 0 && c.flow.Some? && !c.flow.value.hadTS)
    ensures var o := Splice(g.opts, 8, Enc32(Ticks(c.p, c.clk.o6)));
            Shape(g, c).opts == if IsSynAck(c.flags) && c.p.opt1 == 4 then PatchFrom(o, 0, c.clk.patch) else o
  {
    hide SetWindow, SetFlags, Splice, Enc32, PatchFrom, Ticks;
  }

  /** A Windows profile without timestamps answers it with MSS and SACK alone. */
  lemma SixteenShrunk(g: Segment, c: Ctx, mss: uint16)
    requires Valid(g) && |g.opts| == 16 && StartsWithMss(g.opts, mss) && c.flags / 2 % 2 == 1
    requires c.p.winQuirks && !c.p.timestamps && !c.p.ecnEcho
    ensures var l := [Mss(mss), Nop, Nop] + (if c.p.sackPermitted then [SackPerm] else [Nop, Nop]);
            ValidList(l) && Shape(g, c).opts == Encode(l)
  {
    MssRead(g.opts, mss, c.p);
    O6Encodes(mss, c.p.sackPermitted);
    hide Encode, OldMss, StartsWithMss, Resize, SetWindow, SetFlags;
    assert IsSyn(c.flags);
    assert Shape(g, c).opts == ApplyO6NoTs(StampWindow(g, c), c).opts;
  }

  /** No template is made for other lengths: at most the patch of a SYN-ACK re-times what is there. */
  lemma OtherLengths(g: Segment, c: Ctx)
    requires Valid(g) && |g.opts| !in {12, 16, 20}
    requires !(c.p.ecnEcho && c.p.windowScale > 0 && c.flow.Some? && !c.flow.value.hadTS && |g.opts| >= 12)
    ensures Shape(g, c).opts ==
            if c.flags / 2 % 2 == 1 && c.flags / 16 % 2 == 1 && c.p.timestamps && c.p.opt1 == 4
            then PatchFrom(g.opts, 0, c.clk.patch) else g.opts
  {
    hide SetWindow, SetFlags, PatchFrom;
    if g.opts == [] {
      assert PatchFrom(g.opts, 0, c.clk.patch) == g.opts;
    }
  }
}
