/** What an emitted option block says: whose MSS, whose window scale, whose SACK, and which window goes with it. */
module TcpContents {
  import opened Bytes
  import opened TcpOptions
  import opened TcpSegment
  import opened TcpShaping
  import opened TcpTheorems

  /**
   * One MSS, first and with this value; window scales only with this shift; SACK permitted only where allowed;
   * timestamps only when allowed.
   */
  predicate Says(l: seq<Opt>, mss: uint16, ws: byte, sack: bool, ts: bool) {
    && |l| > 0 && l[0] == Mss(mss)
    && forall i :: 0 <= i < |l| ==>
         && (i > 0 ==> !l[i].Mss?) && (l[i].WScale? ==> l[i].shift == ws)
         && (l[i].SackPerm? ==> sack) && (l[i].Timestamp? ==> ts)
  }

  lemma LinuxSays(mss: uint16, ws: byte, sack: bool, v: uint32, e: uint32)
    ensures Says(LinuxTemplate(mss, ws, sack, v, e), mss, ws, sack, true)
  {
  }

  lemma ScaledSays(mss: uint16, ws: byte, sack: bool, v: uint32, e: uint32)
    ensures Says(WinTsTemplate(mss, ws, sack, v, e), mss, ws, sack, true)
    ensures Says(MacTemplate(mss, ws, v, e), mss, ws, false, true)
    ensures Says(WinNoTsTemplate(mss, ws, sack), mss, ws, sack, false)
  {
  }

  lemma XpSays(mss: uint16, ws: byte, sack: bool)
    ensures Says(XpTemplate(mss, sack), mss, ws, sack, false)
  {
  }

  lemma TailSays(l: seq<Opt>, mss: uint16, ws: byte, sack: bool, ts: bool)
    requires Says(l, mss, ws, sack, ts)
    ensures Says(l + MAC_TAIL, mss, ws, true, ts)
  {
  }

  lemma SaysMore(l: seq<Opt>, mss: uint16, ws: byte, sack: bool, ts: bool, more: bool)
    requires Says(l, mss, ws, sack, ts) && (sack ==> more)
    ensures Says(l, mss, ws, more, ts)
  {
  }

  lemma Head20Says(o: seq<byte>, c: Ctx)
    requires |o| == 20
    ensures Says(Template20(o, c), OldMss(o, c.p), c.p.windowScale, c.p.sackPermitted || MacGrows(c.p), c.p.timestamps)
  {
    hide OldMss, Tsecr, Ticks, SackAt, Says, LinuxTemplate, WinTsTemplate, MacTemplate, WinNoTsTemplate, XpTemplate;
    var p, mss, e := c.p, OldMss(o, c.p), Tsecr(o, c);
    var sack, all := p.sackPermitted && SackAt(o, SACK_PLACES_20), p.sackPermitted || MacGrows(p);
    LinuxSays(mss, p.windowScale, sack, c.clk.tsval, e);
    ScaledSays(mss, p.windowScale, sack, Ticks(p, c.clk.tsval), e);
    ScaledSays(mss, p.windowScale, sack, c.clk.tsval, e);
    XpSays(mss, p.windowScale, sack);
    var mac := p.timestamps && p.opt1 != SACK_PERM && p.windowScale == 0;
    assert Says(Head20(o, c), mss, p.windowScale, if mac then false else sack, p.timestamps);
    if MacGrows(p) {
      TailSays(Head20(o, c), mss, p.windowScale, if mac then false else sack, p.timestamps);
    } else {
      SaysMore(Head20(o, c), mss, p.windowScale, if mac then false else sack, p.timestamps, all);
    }
  }

  lemma EcnSays(o: seq<byte>, c: Ctx)
    requires |o| >= 12
    ensures Says(EcnOptions(o, c), OldMss(o, c.p), c.p.windowScale, c.p.sackPermitted, false)
  {
    hide OldMss, SackAnywhere;
  }

  lemma SynSays(o: seq<byte>, c: Ctx)
    requires |o| == 12
    ensures Says(SynOptions(o, c), OldMss(o, c.p), c.p.windowScale, c.p.sackPermitted, false)
  {
    hide OldMss, SackAt;
  }

  /** A block that starts with an MSS option is read back as having that value. */
  lemma MssReadBack(l: seq<Opt>, p: Profile)
    requires ValidList(l) && |l| > 0 && l[0].Mss?
    ensures |Encode(l)| >= 4 && OldMss(Encode(l), p) == l[0].mss
  {
    var b := Encode(l);
    assert b == Encode1(l[0]) + Encode(l[1..]);
    Enc16RoundTrip(l[0].mss);
    assert b[2] == Enc16(l[0].mss)[0] && b[3] == Enc16(l[0].mss)[1];
  }

  /** Each stage hands on the MSS it found, so every template carries the packet's own. */
  lemma MssHandedOn(g: Segment, c: Ctx)
    requires Valid(g) && |g.opts| >= 4
    ensures var a := StampWindow(Grow(g, c), c);
            var b := Apply20(a, c);
            var d := ApplyEcn(b, c);
            && |a.opts| >= 4 && OldMss(a.opts, c.p) == OldMss(g.opts, c.p)
            && |b.opts| >= 4 && OldMss(b.opts, c.p) == OldMss(g.opts, c.p)
            && |d.opts| >= 4 && OldMss(d.opts, c.p) == OldMss(g.opts, c.p)
  {
    hide Encode, Template20, EcnOptions;
    var a := StampWindow(Grow(g, c), c);
    var b := Apply20(a, c);
    if Takes20(|a.opts|, c) {
      Head20Says(a.opts, c);
      Template20Encodes(a.opts, c);
      MssReadBack(Template20(a.opts, c), c.p);
    }
    if TakesEcn(|b.opts|, c) {
      EcnSays(b.opts, c);
      EcnEncodes(b.opts, c);
      MssReadBack(EcnOptions(b.opts, c), c.p);
    }
  }

  lemma ChosenSays(g: Segment, c: Ctx)
    requires Valid(g) && |g.opts| >= 4 && Chosen(g, c).Some?
    ensures Says(Chosen(g, c).value, OldMss(g.opts, c.p), c.p.windowScale, c.p.sackPermitted || MacGrows(c.p), c.p.timestamps)
  {
    MssHandedOn(g, c);
    var a := StampWindow(Grow(g, c), c);
    var b := Apply20(a, c);
    var d := ApplyEcn(b, c);
    hide Grow, StampWindow, Apply20, ApplyEcn, OldMss, Template20, EcnOptions, SynOptions, Encode;
    if |d.opts| == 12 {
      SynSays(d.opts, c);
    }
    if |b.opts| >= 12 {
      EcnSays(b.opts, c);
    }
    if |a.opts| == 20 {
      Head20Says(a.opts, c);
    }
  }

  /**
   * Every template block carries, once and first, the MSS that the packet came with (the profile's where it came with
   * none), scales windows by the profile's shift only, permits SACK only for profiles that do or grow as macOS does,
   * and has timestamps only for profiles with timestamps.
   */
  lemma EmittedSays(g: Segment, c: Ctx)
    requires Valid(g) && |g.opts| >= 4 && Emitted(g, c).Some?
    ensures Says(Emitted(g, c).value, OldMss(g.opts, c.p), c.p.windowScale, c.p.sackPermitted || MacGrows(c.p), c.p.timestamps)
  {
    ChosenSays(g, c);
    hide Chosen, OldMss, Encode, Patches;
  }

  /** Every timestamp of a re-timed list carries a reading of the patch clock. */
  lemma {:induction false} RetimeReads(l: seq<Opt>, off: nat, clk: nat -> uint32, i: nat)
    requires ValidList(l) && i < |l| && l[i].Timestamp?
    ensures exists k: nat :: Retime(l, off, clk)[i].tsval == clk(k)
    decreases |l|
  {
    hide Encode1;
    assert !l[0].Eol?;
    if i == 0 {
      assert Retime(l, off, clk)[0].tsval == clk(off);
    } else {
      RetimeReads(l[1..], off + |Encode1(l[0])|, clk, i - 1);
      var k: nat :| Retime(l[1..], off + |Encode1(l[0])|, clk)[i - 1].tsval == clk(k);
      assert Retime(l, off, clk)[i].tsval == clk(k);
    }
  }

  // ----- SACK permitted once or twice -----

  predicate TwoSacks(l: seq<Opt>) {
    exists i, j :: 0 <= i < j < |l| && l[i].SackPerm? && l[j].SackPerm?
  }

  /** A profile that grows as macOS does already permits SACK in its 20-byte template. */
  predicate PermitsEarly(o: seq<byte>, p: Profile) {
    p.sackPermitted && SackAt(o, SACK_PLACES_20) && (p.windowScale > 0 || p.opt1 == SACK_PERM)
  }

  lemma Template20Sacks(o: seq<byte>, c: Ctx)
    requires |o| == 20
    ensures TwoSacks(Template20(o, c)) <==> MacGrows(c.p) && PermitsEarly(o, c.p)
  {
    hide Tsecr, OldMss, Ticks, SackAt;
    var l := Template20(o, c);
    if MacGrows(c.p) && PermitsEarly(o, c.p) {
      var i := if c.p.opt1 == SACK_PERM then 1 else 3;
      assert l[i].SackPerm? && i < |l| - 3 && l[|l| - 3].SackPerm?;
    }
  }

  lemma OneSackTemplates(o: seq<byte>, c: Ctx, mss: uint16, sack: bool)
    ensures |o| >= 12 ==> !TwoSacks(EcnOptions(o, c))
    ensures |o| == 12 ==> !TwoSacks(SynOptions(o, c))
    ensures !TwoSacks(O6Template(mss, sack))
  {
    hide OldMss, SackAt, SackAnywhere;
  }

  lemma ChosenSacks(g: Segment, c: Ctx)
    requires Valid(g) && Chosen(g, c).Some?
    ensures TwoSacks(Chosen(g, c).value) <==>
            CarriesTimestamp(g, c) && |Grow(g, c).opts| == 20 && MacGrows(c.p) && PermitsEarly(Grow(g, c).opts, c.p)
  {
    hide Chosen, Grow, Apply20, StampWindow, CarriesTimestamp, Template20, EcnOptions, SynOptions, O6Template, TwoSacks, PermitsEarly;
    var o, mss := ChosenWhich(g, c);
    var a, b := Grow(g, c), Apply20(StampWindow(Grow(g, c), c), c);
    if |a.opts| == 20 {
      Template20Sacks(a.opts, c);
    }
    OneSackTemplates(o, c, mss, c.p.sackPermitted);
    OneSackTemplates(b.opts, c, mss, c.p.sackPermitted);
  }

  /**
   * The list that leaves permits SACK twice exactly when a SYN or SYN-ACK of 20 option bytes, grown or not, takes the
   * template of a profile that grows as macOS does although that template permits SACK already, and no ECN answer
   * replaces it.
   */
  lemma SackRepeated(g: Segment, c: Ctx)
    requires Valid(g) && Emitted(g, c).Some?
    ensures TwoSacks(Emitted(g, c).value) <==>
            && Takes20(if Grows(|g.opts|, c) then 20 else |g.opts|, c) && !TakesEcn(24, c)
            && MacGrows(c.p) && PermitsEarly(g.opts, c.p)
  {
    ChosenSacks(g, c);
    GrowKeepsSack(g, c);
    var l, m := Chosen(g, c).value, Emitted(g, c).value;
    assert |l| == |m| && forall i :: 0 <= i < |l| ==> (l[i].SackPerm? <==> m[i].SackPerm?);
    hide Chosen, Emitted, Grow, PermitsEarly, TakesEcn;
  }

  lemma GrowKeepsSack(g: Segment, c: Ctx)
    requires Valid(g)
    ensures PermitsEarly(Grow(g, c).opts, c.p) <==> PermitsEarly(g.opts, c.p)
  {
    var r := Grow(g, c).opts;
    assert forall k :: 0 <= k < |g.opts| ==> r[k] == g.opts[k];
    assert forall k :: |g.opts| <= k < |r| ==> r[k] == 0;
  }

  // ----- the window -----

  /** Which window a segment leaves with, read off the profile: the last rule that applies decides. */
  function WantedWindow(g: Segment, c: Ctx): uint16
    requires Valid(g)
  {
    if IsRst(c.flags) && c.p.windowInRst == 0 then 0
    else if TakesO6NoTs(|g.opts|, c) && c.p.windowSize == 0xFFFF then 0xFF70
    else if |g.opts| == 16 && c.p.timestamps && IsSyn(c.flags) && c.p.windowSize == 0xFFFF then 0xFFDC
    else if TakesEcn(Length20(g.opts, c), c) && c.p.ecnWindow != 0 then c.p.ecnWindow
    else if c.p.windowSize > 0 then c.p.windowSize
    else Window(g)
  }

  lemma WindowKept(g: Segment, o: seq<byte>, f: byte)
    requires Valid(g)
    ensures |o| == |g.opts| ==> Window(SetOpts(g, o)) == Window(g)
    ensures 8 <= |o| <= 40 && |o| % 4 == 0 ==> Window(Resize(g, o)) == Window(g)
    ensures Window(SetFlags(g, f)) == Window(g)
  {
  }

  lemma GrowWindow(g: Segment, c: Ctx)
    requires Valid(g)
    ensures Window(Grow(g, c)) == Window(g)
  {
    hide Window, Resize;
    WindowKept(g, g.opts + Repeat(0, 8), 0);
  }

  lemma TemplateWindow(g: Segment, c: Ctx)
    requires Valid(g)
    ensures Window(Apply20(g, c)) == Window(g)
  {
    hide Encode20, Window, SetOpts, Resize;
    if Takes20(|g.opts|, c) {
      WindowKept(g, Encode20(g.opts, c), 0);
    }
  }

  lemma SynWindow(g: Segment, c: Ctx)
    requires Valid(g)
    ensures Window(Apply12(g, c)) == Window(g)
  {
    hide Encode12, Window, SetOpts;
    if Takes12(|g.opts|, c) {
      WindowKept(g, Encode12(g.opts, c), 0);
    }
  }

  lemma CoherenceWindow(g: Segment, c: Ctx)
    requires Valid(g)
    ensures Window(ApplyCoherence(g, c)) == Window(g)
  {
    hide Window, SetOpts, Splice, Enc32;
    if |g.opts| == 12 {
      WindowKept(g, Splice(g.opts, 4, Enc32(Ticks(c.p, c.clk.ack))), 0);
    }
  }

  lemma PatchWindow(g: Segment, c: Ctx)
    requires Valid(g)
    ensures Window(ApplyPatch(g, c)) == Window(g)
  {
    hide Window, SetOpts, PatchFrom;
    WindowKept(g, PatchFrom(g.opts, 0, c.clk.patch), 0);
  }

  lemma EceWindow(g: Segment, c: Ctx)
    requires Valid(g)
    ensures Window(ApplyEce(g, c)) == Window(g)
  {
    hide Window, SetFlags;
    if IsEce(c.flags) {
      WindowKept(g, g.opts, c.flags - 64);
    } else {
      WindowKept(g, g.opts, c.flags + 64);
    }
  }

  lemma StagesKeepWindow(g: Segment, c: Ctx)
    requires Valid(g)
    ensures Window(Grow(g, c)) == Window(g)
    ensures Window(Apply20(g, c)) == Window(g) && Window(Apply12(g, c)) == Window(g)
    ensures Window(ApplyCoherence(g, c)) == Window(g) && Window(ApplyPatch(g, c)) == Window(g)
    ensures Window(ApplyEce(g, c)) == Window(g)
  {
    hide *;
    GrowWindow(g, c);
    TemplateWindow(g, c);
    SynWindow(g, c);
    CoherenceWindow(g, c);
    PatchWindow(g, c);
    EceWindow(g, c);
  }

  lemma StampedWindow(g: Segment, c: Ctx)
    requires Valid(g)
    ensures Window(StampWindow(g, c)) == if c.p.windowSize > 0 then c.p.windowSize else Window(g)
    ensures Window(ApplyRst(g, c)) == if IsRst(c.flags) && c.p.windowInRst == 0 then 0 else Window(g)
    ensures Window(ApplyEcn(g, c)) == if TakesEcn(|g.opts|, c) && c.p.ecnWindow != 0 then c.p.ecnWindow else Window(g)
  {
    hide EncodeEcn, Window, SetOpts, SetWindow;
    if TakesEcn(|g.opts|, c) {
      var w := if c.p.ecnWindow != 0 then SetWindow(g, c.p.ecnWindow) else g;
      WindowKept(w, EncodeEcn(g.opts, c), 0);
    }
  }

  lemma O6Window(g: Segment, c: Ctx)
    requires Valid(g)
    ensures Window(ApplyO6(g, c)) ==
            if |g.opts| == 16 && c.p.timestamps && IsSyn(c.flags) && c.p.windowSize == 0xFFFF then 0xFFDC else Window(g)
    ensures Window(ApplyO6NoTs(g, c)) ==
            if TakesO6NoTs(|g.opts|, c) && c.p.windowSize == 0xFFFF then 0xFF70 else Window(g)
  {
    hide EncodeO6, Window, SetOpts, Resize, SetWindow;
    if |g.opts| == 16 {
      var w := if c.p.windowSize == 0xFFFF then SetWindow(g, 0xFFDC) else g;
      WindowKept(w, Splice(g.opts, 8, Enc32(Ticks(c.p, c.clk.o6))), 0);
      var v := if c.p.windowSize == 0xFFFF then SetWindow(g, 0xFF70) else g;
      WindowKept(v, EncodeO6(g.opts, c), 0);
    }
  }

  /** Whatever the stages in between, that is the window on the wire. */
  lemma WindowOnWire(g: Segment, c: Ctx)
    requires Valid(g)
    ensures Window(Shape(g, c)) == WantedWindow(g, c)
  {
    hide Grow, StampWindow, Apply20, ApplyEcn, Apply12, ApplyO6, ApplyO6NoTs, ApplyCoherence, ApplyRst, ApplyPatch, ApplyEce, Window,
      Step, Kept, Consistent, IsRst, IsSyn, IsSynAck, Wire;
    var z := Grow(g, c);
    var a := StampWindow(z, c);
    var b := Apply20(a, c);
    var d := ApplyEcn(b, c);
    var e := Apply12(d, c);
    var f := ApplyO6(e, c);
    var h := ApplyO6NoTs(f, c);
    var i := ApplyCoherence(h, c);
    var j := ApplyRst(i, c);
    var k := ApplyPatch(j, c);
    Length20Is(g, c);
    StagesKeepWindow(g, c);
    StampedWindow(z, c);
    StagesKeepWindow(a, c);
    StampedWindow(b, c);
    StagesKeepWindow(d, c);
    O6Window(e, c);
    O6Window(f, c);
    StagesKeepWindow(h, c);
    StampedWindow(i, c);
    StagesKeepWindow(j, c);
    StagesKeepWindow(k, c);
  }

  // ----- the flags -----

  lemma EarlyFlags(g: Segment, c: Ctx)
    requires Valid(g)
    ensures Grow(g, c).hdr[13] == g.hdr[13] && StampWindow(g, c).hdr[13] == g.hdr[13]
    ensures Apply20(g, c).hdr[13] == g.hdr[13] && ApplyEcn(g, c).hdr[13] == g.hdr[13]
  {
    hide Encode20, EncodeEcn, Enc16;
  }

  lemma LateFlags(g: Segment, c: Ctx)
    requires Valid(g)
    ensures Apply12(g, c).hdr[13] == g.hdr[13] && ApplyO6(g, c).hdr[13] == g.hdr[13]
    ensures ApplyO6NoTs(g, c).hdr[13] == g.hdr[13] && ApplyCoherence(g, c).hdr[13] == g.hdr[13]
    ensures ApplyRst(g, c).hdr[13] == g.hdr[13] && ApplyPatch(g, c).hdr[13] == g.hdr[13]
  {
    hide Encode12, EncodeO6, PatchFrom, Enc16, Enc32, Ticks;
  }

  /** The flag byte after the stages that do not set it. */
  lemma StagesKeepFlags(g: Segment, c: Ctx)
    requires Valid(g)
    ensures Grow(g, c).hdr[13] == g.hdr[13] && StampWindow(g, c).hdr[13] == g.hdr[13]
    ensures Apply20(g, c).hdr[13] == g.hdr[13] && ApplyEcn(g, c).hdr[13] == g.hdr[13]
    ensures Apply12(g, c).hdr[13] == g.hdr[13] && ApplyO6(g, c).hdr[13] == g.hdr[13]
    ensures ApplyO6NoTs(g, c).hdr[13] == g.hdr[13] && ApplyCoherence(g, c).hdr[13] == g.hdr[13]
    ensures ApplyRst(g, c).hdr[13] == g.hdr[13] && ApplyPatch(g, c).hdr[13] == g.hdr[13]
  {
    hide *;
    EarlyFlags(g, c);
    LateFlags(g, c);
  }

  lemma EceFlag(f: byte)
    ensures IsEce(f) ==> f >= 64 && (f - 64) % 64 == f % 64 && (f - 64) / 128 == f / 128 && !IsEce(f - 64)
    ensures !IsEce(f) ==> f + 64 < 256 && (f + 64) % 64 == f % 64 && (f + 64) / 128 == f / 128 && IsEce(f + 64)
  {
  }

  /** The flags up to the last stage are the packet's own. */
  lemma FlagsBeforeEce(g: Segment, c: Ctx) returns (k: Segment)
    requires Valid(g)
    ensures Valid(k) && k.hdr[13] == g.hdr[13] && Shape(g, c) == ApplyEce(k, c)
  {
    hide ApplyEce, Grow, StampWindow, Apply20, ApplyEcn, Apply12, ApplyO6, ApplyO6NoTs, ApplyCoherence, ApplyRst, ApplyPatch;
    var z := Grow(g, c);
    var a := StampWindow(z, c);
    var b := Apply20(a, c);
    var d := ApplyEcn(b, c);
    var e := Apply12(d, c);
    var f := ApplyO6(e, c);
    var h := ApplyO6NoTs(f, c);
    var i := ApplyCoherence(h, c);
    var j := ApplyRst(i, c);
    StagesKeepFlags(g, c);
    StagesKeepFlags(z, c);
    StagesKeepFlags(a, c);
    StagesKeepFlags(b, c);
    StagesKeepFlags(d, c);
    StagesKeepFlags(e, c);
    StagesKeepFlags(f, c);
    StagesKeepFlags(h, c);
    StagesKeepFlags(i, c);
    StagesKeepFlags(j, c);
    k := ApplyPatch(j, c);
  }

  /**
   * Of the flags only ECE can change, and only on a SYN-ACK: it leaves set exactly when the profile confirms ECN and
   * it was set already or the SYN that it answers is cached without a timestamp.
   */
  lemma FlagsOnWire(g: Segment, c: Ctx)
    requires Valid(g) && c.flags == g.hdr[13]
    ensures var f, r := g.hdr[13], Shape(g, c).hdr[13];
            && r % 64 == f % 64 && r / 128 == f / 128
            && (IsEce(r) <==> if IsSynAck(f) then c.p.ecnCC && (IsEce(f) || (c.flow.Some? && !c.flow.value.hadTS)) else IsEce(f))
  {
    var k := FlagsBeforeEce(g, c);
    hide Shape;
    EceFlag(c.flags);
    hide IsEce;
  }
}
