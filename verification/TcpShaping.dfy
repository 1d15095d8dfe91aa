/**
 * What the egress rewriter makes of one TCP segment: a chain of small record updates, with every
 * option block it emits given as a list of options.
 */
module TcpShaping {
  import opened Bytes
  import opened TcpOptions
  import opened TcpSegment

  datatype IpIdBehavior = Incremental | Random | Zero

  /** The per-profile snapshot the mutation loop reads. */
  datatype Profile = Profile(
    ttl: byte, dfBit: bool, ipid: IpIdBehavior,
    windowSize: uint16, windowScale: byte, mss: uint16,
    timestamps: bool, sackPermitted: bool, optionsCount: byte, windowInRst: uint16,
    opt1: byte, ecnEcho: bool, ecnCC: bool, ecnWindow: uint16, winQuirks: bool, tsSlow: bool)

  /** What an inbound SYN carried; exp is the tick after which the record is stale. */
  datatype SynFlow = SynFlow(hadTS: bool, tsval: uint32, exp: nat)

  /**
   * One reading of the uptime clock per place that reads it. patch is indexed by the option offset
   * that is being patched. The readings are independent of each other.
   */
  datatype Clock = Clock(lookup: nat, tsval: uint32, tsecr: uint32, o6: uint32, ack: uint32, patch: nat -> uint32)

  datatype Ctx = Ctx(p: Profile, flow: Option<SynFlow>, clk: Clock, flags: byte)

  predicate IsSyn(f: byte) { f / 2 % 2 == 1 }
  predicate IsRst(f: byte) { f / 4 % 2 == 1 }
  predicate IsAck(f: byte) { f / 16 % 2 == 1 }
  predicate IsEce(f: byte) { f / 64 % 2 == 1 }
  predicate IsSynAck(f: byte) { IsSyn(f) && IsAck(f) }

  /** Windows 6.x profiles tick at 10 ms, all others at 1 ms. */
  function Ticks(p: Profile, uptime: uint32): uint32 {
    if p.tsSlow then uptime / 10 else uptime
  }

  // ----- option templates -----

  function Nops(n: nat): (l: seq<Opt>)
    ensures |l| == n && forall i :: 0 <= i < n ==> l[i] == Nop
  {
    seq(n, i => Nop)
  }

  function SackOrNops(sack: bool): seq<Opt> {
    if sack then [SackPerm] else [Nop, Nop]
  }

  function XpTemplate(mss: uint16, sack: bool): seq<Opt> {
    [Mss(mss), Nop, Nop] + SackOrNops(sack) + Nops(12)
  }

  function WinNoTsTemplate(mss: uint16, ws: byte, sack: bool): seq<Opt> {
    [Mss(mss), Nop, WScale(ws)] + (if sack then [Nop, Nop, SackPerm] else [])
  }

  function LinuxTemplate(mss: uint16, ws: byte, sack: bool, tsval: uint32, tsecr: uint32): seq<Opt> {
    [Mss(mss)] + SackOrNops(sack) + [Timestamp(tsval, tsecr), Nop] + (if ws > 0 then [WScale(ws)] else Nops(3))
  }

  function WinTsTemplate(mss: uint16, ws: byte, sack: bool, tsval: uint32, tsecr: uint32): seq<Opt> {
    [Mss(mss), Nop, WScale(ws)] + SackOrNops(sack) + [Timestamp(tsval, tsecr)]
  }

  function MacTemplate(mss: uint16, ws: byte, tsval: uint32, tsecr: uint32): seq<Opt> {
    [Mss(mss), Nop, WScale(ws), Nop, Nop, Timestamp(tsval, tsecr)]
  }

  const MAC_TAIL: seq<Opt> := [SackPerm, Eol, Eol]

  function LinuxEcnTemplate(mss: uint16, ws: byte, sack: bool): seq<Opt> {
    [Mss(mss), Nop, Nop] + SackOrNops(sack) + [Nop, WScale(ws)]
  }

  function WinSynTemplate(mss: uint16, ws: byte, sack: bool): seq<Opt> {
    [Mss(mss), Nop, WScale(ws), Nop, Nop] + SackOrNops(sack)
  }

  function O6Template(mss: uint16, sack: bool): seq<Opt> {
    [Mss(mss), Nop, Nop] + SackOrNops(sack)
  }

  // ----- the bytes of the templates -----

  function NopBytes(n: nat): seq<byte> {
    Repeat(NOP, n)
  }

  function MssBytes(mss: uint16): seq<byte> {
    [MSS, 4] + Enc16(mss)
  }

  function ScaleBytes(ws: byte): seq<byte> {
    [WSCALE, 3, ws]
  }

  function SackBytes(sack: bool): seq<byte> {
    if sack then [SACK_PERM, 2] else [NOP, NOP]
  }

  function TsBytes(v: uint32, e: uint32): seq<byte> {
    [TIMESTAMP, TIMESTAMP_LEN] + Enc32(v) + Enc32(e)
  }

  /** Lists without end markers and unknown kinds: every concatenation of them is legal. */
  predicate Plain(l: seq<Opt>) {
    forall i :: 0 <= i < |l| ==> !l[i].Eol? && !l[i].Other?
  }

  /** l is a legal list without end marker and b is its encoding. */
  predicate Encodes(l: seq<Opt>, b: seq<byte>) {
    Plain(l) && ValidList(l) && Encode(l) == b
  }

  lemma Join(a: seq<Opt>, x: seq<byte>, b: seq<Opt>, y: seq<byte>)
    requires Encodes(a, x) && Encodes(b, y)
    ensures Encodes(a + b, x + y)
  {
    EncodeAppend(a, b);
  }

  lemma Single(o: Opt, b: seq<byte>)
    requires !o.Eol? && !o.Other? && Encode1(o) == b
    ensures Encodes([o], b)
  {
    assert [o][1..] == [];
  }

  lemma {:induction false} NopsEncode(n: nat)
    ensures Encodes(Nops(n), NopBytes(n))
  {
    if n > 0 {
      NopsEncode(n - 1);
      Single(Nop, [NOP]);
      Join([Nop], [NOP], Nops(n - 1), NopBytes(n - 1));
      assert Nops(n) == [Nop] + Nops(n - 1);
      assert NopBytes(n) == [NOP] + NopBytes(n - 1);
    }
  }

  lemma Pieces(mss: uint16, ws: byte, sack: bool, v: uint32, e: uint32)
    ensures Encodes([Mss(mss)], MssBytes(mss))
    ensures Encodes([Nop], [NOP])
    ensures Encodes([Nop, Nop], [NOP, NOP])
    ensures Encodes([WScale(ws)], ScaleBytes(ws))
    ensures Encodes(SackOrNops(sack), SackBytes(sack))
    ensures Encodes([SackPerm], [SACK_PERM, 2])
    ensures Encodes([Timestamp(v, e)], TsBytes(v, e))
  {
    Single(Mss(mss), MssBytes(mss));
    Single(Nop, [NOP]);
    Join([Nop], [NOP], [Nop], [NOP]);
    Single(WScale(ws), ScaleBytes(ws));
    Single(SackPerm, [SACK_PERM, 2]);
    Single(Timestamp(v, e), TsBytes(v, e));
    assert [Nop] + [Nop] == [Nop, Nop] && [NOP] + [NOP] == [NOP, NOP];
  }

  lemma O6Encodes(mss: uint16, sack: bool)
    ensures Encodes(O6Template(mss, sack), MssBytes(mss) + [NOP, NOP] + SackBytes(sack))
  {
    hide Encodes;
    Pieces(mss, 0, sack, 0, 0);
    Join([Mss(mss)], MssBytes(mss), [Nop, Nop], [NOP, NOP]);
    Join([Mss(mss)] + [Nop, Nop], MssBytes(mss) + [NOP, NOP], SackOrNops(sack), SackBytes(sack));
    assert [Mss(mss)] + [Nop, Nop] == [Mss(mss), Nop, Nop];
  }

  lemma XpEncodes(mss: uint16, sack: bool)
    ensures Encodes(XpTemplate(mss, sack), MssBytes(mss) + [NOP, NOP] + SackBytes(sack) + NopBytes(12))
  {
    hide Encodes;
    O6Encodes(mss, sack);
    NopsEncode(12);
    Join(O6Template(mss, sack), MssBytes(mss) + [NOP, NOP] + SackBytes(sack), Nops(12), NopBytes(12));
  }

  /** MSS, NOP, window scale: how every Windows and macOS template starts. */
  lemma ScaledHeadEncodes(mss: uint16, ws: byte)
    ensures Encodes([Mss(mss), Nop, WScale(ws)], MssBytes(mss) + [NOP] + ScaleBytes(ws))
  {
    hide Encodes;
    Pieces(mss, ws, false, 0, 0);
    Join([Mss(mss)], MssBytes(mss), [Nop], [NOP]);
    Join([Mss(mss)] + [Nop], MssBytes(mss) + [NOP], [WScale(ws)], ScaleBytes(ws));
    assert [Mss(mss)] + [Nop] + [WScale(ws)] == [Mss(mss), Nop, WScale(ws)];
  }

  lemma WinNoTsEncodes(mss: uint16, ws: byte, sack: bool)
    ensures Encodes(WinNoTsTemplate(mss, ws, sack),
                    MssBytes(mss) + [NOP] + ScaleBytes(ws) + (if sack then [NOP, NOP, SACK_PERM, 2] else []))
  {
    hide Encodes;
    ScaledHeadEncodes(mss, ws);
    var h, hb := [Mss(mss), Nop, WScale(ws)], MssBytes(mss) + [NOP] + ScaleBytes(ws);
    if sack {
      Pieces(mss, ws, sack, 0, 0);
      Join([Nop, Nop], [NOP, NOP], [SackPerm], [SACK_PERM, 2]);
      assert [Nop, Nop] + [SackPerm] == [Nop, Nop, SackPerm];
      assert [NOP, NOP] + [SACK_PERM, 2] == [NOP, NOP, SACK_PERM, 2];
      Join(h, hb, [Nop, Nop, SackPerm], [NOP, NOP, SACK_PERM, 2]);
    } else {
      assert h + [] == h && hb + [] == hb;
    }
  }

  lemma LinuxEncodes(mss: uint16, ws: byte, sack: bool, v: uint32, e: uint32)
    ensures Encodes(LinuxTemplate(mss, ws, sack, v, e),
                    MssBytes(mss) + SackBytes(sack) + TsBytes(v, e) + [NOP] + (if ws > 0 then ScaleBytes(ws) else NopBytes(3)))
  {
    hide Encodes;
    Pieces(mss, ws, sack, v, e);
    NopsEncode(3);
    var a, ab := [Mss(mss)] + SackOrNops(sack), MssBytes(mss) + SackBytes(sack);
    var s, sb := if ws > 0 then [WScale(ws)] else Nops(3), if ws > 0 then ScaleBytes(ws) else NopBytes(3);
    Join([Mss(mss)], MssBytes(mss), SackOrNops(sack), SackBytes(sack));
    Join(a, ab, [Timestamp(v, e)], TsBytes(v, e));
    Join(a + [Timestamp(v, e)], ab + TsBytes(v, e), [Nop], [NOP]);
    Join(a + [Timestamp(v, e)] + [Nop], ab + TsBytes(v, e) + [NOP], s, sb);
    assert a + [Timestamp(v, e)] + [Nop] == a + [Timestamp(v, e), Nop];
  }

  lemma WinTsEncodes(mss: uint16, ws: byte, sack: bool, v: uint32, e: uint32)
    ensures Encodes(WinTsTemplate(mss, ws, sack, v, e),
                    MssBytes(mss) + [NOP] + ScaleBytes(ws) + SackBytes(sack) + TsBytes(v, e))
  {
    hide Encodes;
    Pieces(mss, ws, sack, v, e);
    ScaledHeadEncodes(mss, ws);
    var h, hb := [Mss(mss), Nop, WScale(ws)], MssBytes(mss) + [NOP] + ScaleBytes(ws);
    Join(h, hb, SackOrNops(sack), SackBytes(sack));
    Join(h + SackOrNops(sack), hb + SackBytes(sack), [Timestamp(v, e)], TsBytes(v, e));
  }

  lemma MacEncodes(mss: uint16, ws: byte, v: uint32, e: uint32)
    ensures Encodes(MacTemplate(mss, ws, v, e), MssBytes(mss) + [NOP] + ScaleBytes(ws) + [NOP, NOP] + TsBytes(v, e))
  {
    hide Encodes;
    WinTsEncodes(mss, ws, false, v, e);
    assert MacTemplate(mss, ws, v, e) == WinTsTemplate(mss, ws, false, v, e);
  }

  lemma LinuxEcnEncodes(mss: uint16, ws: byte, sack: bool)
    ensures Encodes(LinuxEcnTemplate(mss, ws, sack),
                    MssBytes(mss) + [NOP, NOP] + SackBytes(sack) + [NOP] + ScaleBytes(ws))
  {
    hide Encodes;
    Pieces(mss, ws, sack, 0, 0);
    O6Encodes(mss, sack);
    var h, hb := O6Template(mss, sack), MssBytes(mss) + [NOP, NOP] + SackBytes(sack);
    Join(h, hb, [Nop], [NOP]);
    Join(h + [Nop], hb + [NOP], [WScale(ws)], ScaleBytes(ws));
    assert h + [Nop] + [WScale(ws)] == LinuxEcnTemplate(mss, ws, sack);
  }

  lemma WinSynEncodes(mss: uint16, ws: byte, sack: bool)
    ensures Encodes(WinSynTemplate(mss, ws, sack),
                    MssBytes(mss) + [NOP] + ScaleBytes(ws) + [NOP, NOP] + SackBytes(sack))
  {
    hide Encodes;
    Pieces(mss, ws, sack, 0, 0);
    ScaledHeadEncodes(mss, ws);
    var h, hb := [Mss(mss), Nop, WScale(ws)], MssBytes(mss) + [NOP] + ScaleBytes(ws);
    Join(h, hb, [Nop, Nop], [NOP, NOP]);
    Join(h + [Nop, Nop], hb + [NOP, NOP], SackOrNops(sack), SackBytes(sack));
    assert h + [Nop, Nop] + SackOrNops(sack) == WinSynTemplate(mss, ws, sack);
  }

  /** The three options behind a grown 20-byte template: SACK-permitted and end of list. */
  lemma MacTailEncodes(l: seq<Opt>, b: seq<byte>)
    requires Encodes(l, b)
    ensures ValidList(l + MAC_TAIL) && Encode(l + MAC_TAIL) == b + [SACK_PERM, 2, EOL, EOL]
  {
    assert MAC_TAIL[1..] == [Eol, Eol] && [Eol, Eol][1..] == [Eol] && [Eol][1..] == [];
    assert Encode([Eol]) == [EOL];
    assert Encode([Eol, Eol]) == [EOL, EOL];
    assert Encode(MAC_TAIL) == [SACK_PERM, 2, EOL, EOL];
    EncodeAppend(l, MAC_TAIL);
  }

  // ----- what is read from the old options -----

  function OldMss(o: seq<byte>, p: Profile): uint16
    requires |o| >= 4
  {
    if o[0] == MSS && o[1] == 4 then Dec16(o, 2) else p.mss
  }

  /** The TSecr the host itself wrote, looked for at the three places its stack puts it. */
  function OldTsecr(o: seq<byte>): uint32
    requires |o| == 20
  {
    if o[8] == TIMESTAMP && o[9] == TIMESTAMP_LEN then Dec32(o, 14)
    else if o[6] == TIMESTAMP && o[7] == TIMESTAMP_LEN then Dec32(o, 12)
    else if o[4] == TIMESTAMP && o[5] == TIMESTAMP_LEN then Dec32(o, 10)
    else 0
  }

  /** The cached client TSval wins, then the host's own echo, then the clock. */
  function Tsecr(o: seq<byte>, c: Ctx): uint32
    requires |o| == 20
  {
    if c.flow.Some? && c.flow.value.hadTS && c.flow.value.tsval != 0 then c.flow.value.tsval
    else if OldTsecr(o) != 0 then OldTsecr(o)
    else c.clk.tsecr
  }

  predicate SackAt(o: seq<byte>, places: seq<nat>) {
    exists i :: 0 <= i < |places| && places[i] < |o| && o[places[i]] == SACK_PERM
  }

  const SACK_PLACES_20: seq<nat> := [4, 6, 8, 10, 12, 16]
  const SACK_PLACES_12: seq<nat> := [2, 4, 6, 8, 10]

  /** Any byte of the block but the last reads as the SACK-permitted kind. */
  predicate SackAnywhere(o: seq<byte>) {
    exists i :: 0 <= i < |o| - 1 && o[i] == SACK_PERM
  }

  // ----- stages, in the order the code runs them -----

  predicate Grows(o: nat, c: Ctx) {
    && o == 12 && IsSynAck(c.flags) && c.p.timestamps && c.p.opt1 == SACK_PERM && c.p.windowScale > 0
    && (c.flow.None? || c.flow.value.hadTS)
  }

  /** Room for the timestamp template: 8 zero bytes behind the 12 option bytes. */
  function Grow(g: Segment, c: Ctx): (r: Segment)
    requires Valid(g)
    ensures Valid(r) && Step(g, r)
    ensures |r.opts| == if Grows(|g.opts|, c) then 20 else |g.opts|
  {
    if Grows(|g.opts|, c) then Resize(g, g.opts + Repeat(0, 8)) else g
  }

  function StampWindow(g: Segment, c: Ctx): (r: Segment)
    requires Valid(g)
    ensures Valid(r) && Step(g, r)
    ensures |r.opts| == |g.opts|
  {
    if c.p.windowSize > 0 then SetWindow(g, c.p.windowSize) else g
  }

  /** The template a 20-byte SYN or SYN-ACK option block is replaced by. */
  function Head20(o: seq<byte>, c: Ctx): seq<Opt>
    requires |o| == 20
  {
    var p, mss := c.p, OldMss(o, c.p);
    var sack := p.sackPermitted && SackAt(o, SACK_PLACES_20);
    if p.windowScale == 0 && !p.timestamps then XpTemplate(mss, sack)
    else if !p.timestamps then WinNoTsTemplate(mss, p.windowScale, sack)
    else if p.opt1 == SACK_PERM then LinuxTemplate(mss, p.windowScale, sack, c.clk.tsval, Tsecr(o, c))
    else if p.windowScale > 0 then
      WinTsTemplate(mss, p.windowScale, sack, Ticks(p, c.clk.tsval), Tsecr(o, c))
    else MacTemplate(mss, p.windowScale, c.clk.tsval, Tsecr(o, c))
  }

  function Template20(o: seq<byte>, c: Ctx): seq<Opt>
    requires |o| == 20
  {
    if MacGrows(c.p) then Head20(o, c) + MAC_TAIL else Head20(o, c)
  }

  lemma Head20Encodes(o: seq<byte>, c: Ctx)
    requires |o| == 20
    ensures Plain(Head20(o, c)) && ValidList(Head20(o, c))
    ensures |Encode(Head20(o, c))| == if c.p.timestamps || c.p.windowScale == 0 then 20
                                      else if c.p.sackPermitted && SackAt(o, SACK_PLACES_20) then 12 else 8
  {
    hide Encode;
    var p, mss := c.p, OldMss(o, c.p);
    var sack := p.sackPermitted && SackAt(o, SACK_PLACES_20);
    XpEncodes(mss, sack);
    WinNoTsEncodes(mss, p.windowScale, sack);
    LinuxEncodes(mss, p.windowScale, sack, c.clk.tsval, Tsecr(o, c));
    WinTsEncodes(mss, p.windowScale, sack, Ticks(p, c.clk.tsval), Tsecr(o, c));
    MacEncodes(mss, p.windowScale, c.clk.tsval, Tsecr(o, c));
  }

  lemma Template20Encodes(o: seq<byte>, c: Ctx)
    requires |o| == 20
    ensures Plain(Head20(o, c)) && ValidList(Head20(o, c)) && ValidList(Template20(o, c))
    ensures |Encode(Head20(o, c))| in {8, 12, 20} && (c.p.timestamps ==> |Encode(Head20(o, c))| == 20)
    ensures Encode(Template20(o, c)) ==
            Encode(Head20(o, c)) + if MacGrows(c.p) then [SACK_PERM, 2, EOL, EOL] else []
  {
    hide Encode, Head20;
    Head20Encodes(o, c);
    if MacGrows(c.p) {
      MacTailEncodes(Head20(o, c), Encode(Head20(o, c)));
    }
  }

  function Encode20(o: seq<byte>, c: Ctx): (b: seq<byte>)
    requires |o| == 20
    ensures |b| in {8, 12, 20, 24} && (|b| == 24 <==> MacGrows(c.p)) && (c.p.timestamps ==> |b| >= 20)
  {
    Template20Encodes(o, c);
    Encode(Template20(o, c))
  }

  predicate MacGrows(p: Profile) {
    !p.winQuirks && p.ipid == Zero && p.timestamps
  }

  predicate Takes20(o: nat, c: Ctx) {
    o == 20 && c.p.optionsCount > 0 && IsSyn(c.flags)
  }

  function Apply20(g: Segment, c: Ctx): (r: Segment)
    requires Valid(g)
    ensures Valid(r) && Step(g, r)
    ensures |r.opts| <= |g.opts| || (MacGrows(c.p) && |g.opts| == 20 && |r.opts| == 24)
    ensures c.p.timestamps ==> |r.opts| >= |g.opts|
  {
    if !Takes20(|g.opts|, c) then g
    else
      var o := Encode20(g.opts, c);
      if |o| == 20 then SetOpts(g, o) else Resize(g, o)
  }

  predicate TakesEcn(o: nat, c: Ctx) {
    && IsSynAck(c.flags) && c.p.ecnEcho && c.flow.Some? && !c.flow.value.hadTS
    && c.p.windowScale > 0 && c.p.optionsCount > 0 && o >= 12
  }

  /** A SYN without a timestamp gets the Linux answer without one, padded with NOPs. */
  function EcnOptions(o: seq<byte>, c: Ctx): seq<Opt>
    requires |o| >= 12
  {
    LinuxEcnTemplate(OldMss(o, c.p), c.p.windowScale, c.p.sackPermitted && SackAnywhere(o)) + Nops(|o| - 12)
  }

  lemma EcnEncodes(o: seq<byte>, c: Ctx)
    requires |o| >= 12
    ensures Plain(EcnOptions(o, c)) && ValidList(EcnOptions(o, c))
    ensures Encode(EcnOptions(o, c)) ==
            MssBytes(OldMss(o, c.p)) + [NOP, NOP] + SackBytes(c.p.sackPermitted && SackAnywhere(o)) + [NOP] +
            ScaleBytes(c.p.windowScale) + NopBytes(|o| - 12)
  {
    hide Encode;
    var mss, sack := OldMss(o, c.p), c.p.sackPermitted && SackAnywhere(o);
    LinuxEcnEncodes(mss, c.p.windowScale, sack);
    NopsEncode(|o| - 12);
    Join(LinuxEcnTemplate(mss, c.p.windowScale, sack),
         MssBytes(mss) + [NOP, NOP] + SackBytes(sack) + [NOP] + ScaleBytes(c.p.windowScale),
         Nops(|o| - 12), NopBytes(|o| - 12));
  }

  function EncodeEcn(o: seq<byte>, c: Ctx): (b: seq<byte>)
    requires |o| >= 12
    ensures |b| == |o|
  {
    EcnEncodes(o, c);
    Encode(EcnOptions(o, c))
  }

  function ApplyEcn(g: Segment, c: Ctx): (r: Segment)
    requires Valid(g)
    ensures Valid(r) && Step(g, r)
    ensures |r.opts| == |g.opts|
  {
    if !TakesEcn(|g.opts|, c) then g
    else
      var w := if c.p.ecnWindow != 0 then SetWindow(g, c.p.ecnWindow) else g;
      SetOpts(w, EncodeEcn(g.opts, c))
  }

  predicate Takes12(o: nat, c: Ctx) {
    o == 12 && c.p.windowScale > 0 && c.p.optionsCount > 0 && IsSyn(c.flags) && !IsSynAck(c.flags)
  }

  function SynOptions(o: seq<byte>, c: Ctx): seq<Opt>
    requires |o| == 12
  {
    var mss := OldMss(o, c.p);
    var sack := c.p.sackPermitted && SackAt(o, SACK_PLACES_12);
    if c.p.ecnEcho then LinuxEcnTemplate(mss, c.p.windowScale, sack)
    else WinSynTemplate(mss, c.p.windowScale, sack)
  }

  lemma SynEncodes(o: seq<byte>, c: Ctx)
    requires |o| == 12
    ensures Plain(SynOptions(o, c)) && ValidList(SynOptions(o, c)) && |Encode(SynOptions(o, c))| == 12
  {
    var mss, sack := OldMss(o, c.p), c.p.sackPermitted && SackAt(o, SACK_PLACES_12);
    LinuxEcnEncodes(mss, c.p.windowScale, sack);
    WinSynEncodes(mss, c.p.windowScale, sack);
  }

  function Encode12(o: seq<byte>, c: Ctx): (b: seq<byte>)
    requires |o| == 12
    ensures |b| == 12
  {
    SynEncodes(o, c);
    Encode(SynOptions(o, c))
  }

  function Apply12(g: Segment, c: Ctx): (r: Segment)
    requires Valid(g)
    ensures Valid(r) && Step(g, r)
    ensures |r.opts| == |g.opts|
  {
    if Takes12(|g.opts|, c) then SetOpts(g, Encode12(g.opts, c)) else g
  }

  /** 16 option bytes with timestamps on: the unscaled window and a fresh TSval. */
  function ApplyO6(g: Segment, c: Ctx): (r: Segment)
    requires Valid(g)
    ensures Valid(r) && Step(g, r)
    ensures |r.opts| == |g.opts|
  {
    if !(|g.opts| == 16 && c.p.timestamps && IsSyn(c.flags)) then g
    else
      var w := if c.p.windowSize == 0xFFFF then SetWindow(g, 0xFFDC) else g;
      if g.opts[6] == TIMESTAMP && g.opts[7] == TIMESTAMP_LEN
      then SetOpts(w, Splice(g.opts, 8, Enc32(Ticks(c.p, c.clk.o6))))
      else w
  }

  predicate TakesO6NoTs(o: nat, c: Ctx) {
    o == 16 && IsSyn(c.flags) && c.p.winQuirks && !c.p.timestamps
  }

  function EncodeO6(o: seq<byte>, c: Ctx): (b: seq<byte>)
    requires |o| == 16
    ensures |b| == 8
  {
    O6Encodes(OldMss(o, c.p), c.p.sackPermitted);
    Encode(O6Template(OldMss(o, c.p), c.p.sackPermitted))
  }

  /** 16 option bytes on a Windows profile without timestamps shrink to MSS,NOP,NOP,SACK. */
  function ApplyO6NoTs(g: Segment, c: Ctx): (r: Segment)
    requires Valid(g)
    ensures Valid(r) && Step(g, r)
    ensures |r.opts| <= |g.opts| && (c.p.timestamps ==> |r.opts| == |g.opts|)
  {
    if !TakesO6NoTs(|g.opts|, c) then g
    else
      var w := if c.p.windowSize == 0xFFFF then SetWindow(g, 0xFF70) else g;
      Resize(w, EncodeO6(g.opts, c))
  }

  /** NOP,NOP,TS on data and pure ACKs: the TSval follows the profile's clock. */
  function ApplyCoherence(g: Segment, c: Ctx): (r: Segment)
    requires Valid(g)
    ensures Valid(r) && Step(g, r)
    ensures |r.opts| == |g.opts|
  {
    if |g.opts| == 12 && !IsSyn(c.flags) && c.p.timestamps && c.p.windowScale > 0 &&
       g.opts[..4] == [NOP, NOP, TIMESTAMP, TIMESTAMP_LEN]
    then SetOpts(g, Splice(g.opts, 4, Enc32(Ticks(c.p, c.clk.ack))))
    else g
  }

  function ApplyRst(g: Segment, c: Ctx): (r: Segment)
    requires Valid(g)
    ensures Valid(r) && Step(g, r)
    ensures |r.opts| == |g.opts|
  {
    if IsRst(c.flags) && c.p.windowInRst == 0 then SetWindow(g, 0) else g
  }

  predicate Patches(o: nat, c: Ctx) {
    IsSynAck(c.flags) && c.p.timestamps && c.p.opt1 == SACK_PERM && o > 0
  }

  /** What patchSynAckTSval's walk leaves of the option bytes, from offset off on. */
  function PatchFrom(o: seq<byte>, off: nat, clk: nat -> uint32): (r: seq<byte>)
    ensures |r| == |o|
    decreases |o| - off
  {
    if off + TIMESTAMP_LEN > |o| then o
    else if o[off] == NOP then PatchFrom(o, off + 1, clk)
    else if o[off] == EOL then o
    else if o[off + 1] < 2 then PatchFrom(o, off + 1, clk)
    else
      var o' := if o[off] == TIMESTAMP && o[off + 1] == TIMESTAMP_LEN
                then Splice(o, off + 2, Enc32(clk(off))) else o;
      PatchFrom(o', off + o[off + 1], clk)
  }

  function ApplyPatch(g: Segment, c: Ctx): (r: Segment)
    requires Valid(g)
    ensures Valid(r) && Step(g, r)
    ensures |r.opts| == |g.opts|
  {
    if Patches(|g.opts|, c) then SetOpts(g, PatchFrom(g.opts, 0, c.clk.patch)) else g
  }

  /** ECE is cleared, or set on the answer to a SYN without timestamps. */
  function ApplyEce(g: Segment, c: Ctx): (r: Segment)
    requires Valid(g)
    ensures Valid(r) && Step(g, r)
    ensures |r.opts| == |g.opts|
  {
    if IsSynAck(c.flags) && IsEce(c.flags) && !c.p.ecnCC then SetFlags(g, c.flags - 64)
    else if IsSynAck(c.flags) && !IsEce(c.flags) && c.p.ecnCC && c.flow.Some? && !c.flow.value.hadTS
    then SetFlags(g, c.flags + 64)
    else g
  }

  /** The stages after the 20-byte template. */
  function Rest(g: Segment, c: Ctx): (r: Segment)
    requires Valid(g)
    ensures Valid(r)
  {
    var a := Apply12(ApplyEcn(g, c), c);
    var b := ApplyO6NoTs(ApplyO6(a, c), c);
    ApplyEce(ApplyPatch(ApplyRst(ApplyCoherence(b, c), c), c), c)
  }

  /** applyTCP on a segment. */
  function Shape(g: Segment, c: Ctx): (r: Segment)
    requires Valid(g)
    ensures Valid(r)
  {
    Rest(Apply20(StampWindow(Grow(g, c), c), c), c)
  }
}
