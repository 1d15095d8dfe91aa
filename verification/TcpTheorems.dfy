/** What the shaping of one segment guarantees, for every profile, cached SYN and clock. */
module TcpTheorems {
  import opened Bytes
  import opened TcpOptions
  import opened TcpSegment
  import opened TcpShaping

  lemma RestKeeps(g: Segment, c: Ctx)
    requires Valid(g)
    ensures Step(g, Rest(g, c)) && |Rest(g, c).opts| <= |g.opts|
    ensures c.p.timestamps ==> |Rest(g, c).opts| == |g.opts|
  {
    hide ApplyEcn, Apply12, ApplyO6, ApplyO6NoTs, ApplyCoherence, ApplyRst, ApplyPatch, ApplyEce, Step;
    var d := ApplyEcn(g, c);
    var e := Apply12(d, c);
    var f := ApplyO6(e, c);
    var h := ApplyO6NoTs(f, c);
    var i := ApplyCoherence(h, c);
    var j := ApplyRst(i, c);
    var k := ApplyPatch(j, c);
    StepTwice(g, d, e);
    StepTwice(g, e, f);
    StepTwice(g, f, h);
    StepTwice(g, h, i);
    StepTwice(g, i, j);
    StepTwice(g, j, k);
    StepTwice(g, k, ApplyEce(k, c));
  }

  // ----- how long the options will be, read off the packet and the profile -----

  /** The option length behind the 20-byte template. */
  function Length20(o: seq<byte>, c: Ctx): nat {
    var n := if Grows(|o|, c) then 20 else |o|;
    if !Takes20(n, c) then n
    else if MacGrows(c.p) then 24
    else if c.p.timestamps || c.p.windowScale == 0 then 20
    else if c.p.sackPermitted && SackAt(o, SACK_PLACES_20) then 12
    else 8
  }

  /** The option length a segment leaves with. */
  function SentLength(o: seq<byte>, c: Ctx): nat {
    if TakesO6NoTs(Length20(o, c), c) then 8 else Length20(o, c)
  }

  lemma Length20Is(g: Segment, c: Ctx)
    requires Valid(g)
    ensures |Apply20(StampWindow(Grow(g, c), c), c).opts| == Length20(g.opts, c)
  {
    var a := StampWindow(Grow(g, c), c);
    assert a.opts == Grow(g, c).opts;
    if Takes20(|a.opts|, c) {
      Head20Encodes(a.opts, c);
      Template20Encodes(a.opts, c);
      assert !c.p.timestamps ==> a.opts == g.opts;
      hide Encode, Template20, Head20, SackAt;
    }
  }

  lemma SentLengthIs(g: Segment, c: Ctx)
    requires Valid(g)
    ensures |Shape(g, c).opts| == SentLength(g.opts, c)
  {
    Length20Is(g, c);
    hide Grow, StampWindow, Apply20, ApplyEcn, Apply12, ApplyO6, ApplyCoherence, ApplyRst, ApplyPatch, ApplyEce, Length20, EncodeO6;
  }

  /**
   * The rewriter keeps payload, addresses, ports, sequence and acknowledgement numbers. The data offset is right
   * afterwards, and the total length exactly when the packet with its new option length still fits the 16-bit total length.
   */
  lemma ShapeKeeps(g: Segment, c: Ctx)
    requires Valid(g) && Consistent(g)
    ensures Kept(g, Shape(g, c)) && |Shape(g, c).opts| == SentLength(g.opts, c) <= |g.opts| + 12
    ensures TrueOffset(Shape(g, c))
    ensures Consistent(Shape(g, c)) <==> |Wire(g)| - |g.opts| + SentLength(g.opts, c) < 0x1_0000
  {
    hide Grow, StampWindow, Apply20, Rest, Length20, Wire;
    var d := Grow(g, c);
    var e := StampWindow(d, c);
    var f := Apply20(e, c);
    var r := Rest(f, c);
    RestKeeps(f, c);
    Chain(g, d, e, f, r);
    WireLength(g, r);
    SentLengthIs(g, c);
  }

  lemma Chain(g: Segment, d: Segment, e: Segment, f: Segment, r: Segment)
    requires Step(g, d) && Step(d, e) && Step(e, f) && Step(f, r)
    requires |d.opts| == |e.opts| && (|e.opts| <= |g.opts| || |e.opts| <= |f.opts|)
    requires |f.opts| <= |g.opts| || |f.opts| <= |r.opts|
    ensures Step(g, r)
  {
    hide Step;
    StepTwice(g, d, e);
    StepTwice(g, e, f);
    StepTwice(g, f, r);
  }

  // ----- the option block on the wire -----

  /** The list with every timestamp before the end of the list reading the patch clock. */
  function Retime(l: seq<Opt>, off: nat, clk: nat -> uint32): (r: seq<Opt>)
    requires ValidList(l)
    ensures |r| == |l|
    ensures forall i :: 0 <= i < |l| ==> r[i] == l[i] || (l[i].Timestamp? && r[i].Timestamp? && r[i].tsecr == l[i].tsecr)
    ensures ValidList(r)
  {
    if l == [] || l[0].Eol? then l
    else [if l[0].Timestamp? then l[0].(tsval := clk(off)) else l[0]] + Retime(l[1..], off + |Encode1(l[0])|, clk)
  }

  function Retime1(o: Opt, v: uint32): Opt {
    if o.Timestamp? then o.(tsval := v) else o
  }

  lemma RetimeHead(l: seq<Opt>, off: nat, clk: nat -> uint32)
    requires ValidList(l) && l != [] && !l[0].Eol?
    ensures ValidOpt(Retime1(l[0], clk(off)))
    ensures Retime(l, off, clk) == [Retime1(l[0], clk(off))] + Retime(l[1..], off + |Encode1(l[0])|, clk)
    ensures Encode(Retime(l, off, clk)) ==
            Encode1(Retime1(l[0], clk(off))) + Encode(Retime(l[1..], off + |Encode1(l[0])|, clk))
  {
    hide Encode1;
    assert Retime(l, off, clk)[1..] == Retime(l[1..], off + |Encode1(l[0])|, clk);
  }

  lemma RetimeEnd(l: seq<Opt>, off: nat, clk: nat -> uint32)
    requires ValidList(l) && (l == [] || l[0].Eol?)
    ensures Retime(l, off, clk) == l
  {
  }

  lemma {:induction false} ShortRetime(l: seq<Opt>, off: nat, clk: nat -> uint32)
    requires ValidList(l) && |Encode(l)| < 10
    ensures Retime(l, off, clk) == l
  {
    hide Encode1, Retime;
    if l == [] || l[0].Eol? {
      RetimeEnd(l, off, clk);
    } else {
      if l[0].Timestamp? {
        TimestampBytes(l[0].tsval, l[0].tsecr);
      }
      ShortRetime(l[1..], off + |Encode1(l[0])|, clk);
      RetimeHead(l, off, clk);
    }
  }

  /** Overwriting the TSval bytes of an encoded timestamp is encoding another timestamp. */
  lemma SpliceTsval(pre: seq<byte>, v: uint32, e: uint32, w: uint32, post: seq<byte>)
    ensures |Encode1(Timestamp(v, e))| == 10
    ensures Splice(pre + Encode1(Timestamp(v, e)) + post, |pre| + 2, Enc32(w)) == pre + Encode1(Timestamp(w, e)) + post
  {
    var s := pre + Encode1(Timestamp(v, e)) + post;
    assert s[..|pre| + 2] == pre + [TIMESTAMP, TIMESTAMP_LEN];
    assert s[|pre| + 6..] == Enc32(e) + post;
  }

  lemma PatchOne(b: seq<byte>, i: nat, o: Opt, clk: nat -> uint32)
    requires ValidOpt(o) && !o.Eol? && i + |Encode1(o)| <= |b| && b[i..i + |Encode1(o)|] == Encode1(o)
    requires i + 10 <= |b|
    ensures PatchFrom(b, i, clk) ==
            if o.Timestamp? then PatchFrom(Splice(b, i + 2, Enc32(clk(i))), i + 10, clk)
            else PatchFrom(b, i + |Encode1(o)|, clk)
  {
    hide Encode1, Enc32;
    var e := Encode1(o);
    Encode1Shape(o);
    assert b[i] == b[i..i + |e|][0];
    if |e| > 1 {
      assert b[i + 1] == b[i..i + |e|][1];
      if o.Timestamp? {
        TimestampBytes(o.tsval, o.tsecr);
        assert e[0] == e[..2][0] && e[1] == e[..2][1];
      } else {
        NotTimestampBytes(o);
      }
    }
  }

  /** On a legal option block the patch walk re-times the timestamps and touches nothing else. */
  lemma {:induction false} PatchEncode(pre: seq<byte>, l: seq<Opt>, clk: nat -> uint32)
    requires ValidList(l)
    ensures PatchFrom(pre + Encode(l), |pre|, clk) == pre + Encode(Retime(l, |pre|, clk))
    decreases |l|
  {
    hide Encode1, Enc32, Retime, PatchFrom, ValidOpt;
    var b := pre + Encode(l);
    if |Encode(l)| < 10 {
      ShortRetime(l, |pre|, clk);
      PatchEnd(b, |pre|, clk);
    } else if l[0].Eol? {
      Encode1Shape(l[0]);
      assert b[|pre|] == EOL;
      RetimeEnd(l, |pre|, clk);
      PatchEnd(b, |pre|, clk);
    } else {
      var e, rest, n := Encode1(l[0]), l[1..], Retime1(l[0], clk(|pre|));
      RetimeHead(l, |pre|, clk);
      assert b == pre + e + Encode(rest);
      assert b[|pre|..|pre| + |e|] == e;
      PatchOne(b, |pre|, l[0], clk);
      if l[0].Timestamp? {
        SpliceTsval(pre, l[0].tsval, l[0].tsecr, clk(|pre|), Encode(rest));
        SpliceTsval(pre, n.tsval, n.tsecr, clk(|pre|), Encode(rest));
      }
      PatchEncode(pre + Encode1(n), rest, clk);
      var tail := Encode(Retime(rest, |pre| + |e|, clk));
      assert pre + Encode1(n) + tail == pre + (Encode1(n) + tail);
    }
  }

  lemma PatchEnd(b: seq<byte>, i: nat, clk: nat -> uint32)
    requires i <= |b| && (i + 10 > |b| || b[i] == EOL)
    ensures PatchFrom(b, i, clk) == b
  {
  }

  /** The template chosen last, if any was. */
  function Chosen(g: Segment, c: Ctx): (r: Option<seq<Opt>>)
    requires Valid(g)
    ensures r.Some? ==> ValidList(r.value)
  {
    var a := StampWindow(Grow(g, c), c);
    var b := Apply20(a, c);
    var d := ApplyEcn(b, c);
    if Takes12(|d.opts|, c) then SynEncodes(d.opts, c); Some(SynOptions(d.opts, c))
    else if TakesO6NoTs(|d.opts|, c) then
      O6Encodes(OldMss(d.opts, c.p), c.p.sackPermitted);
      Some(O6Template(OldMss(d.opts, c.p), c.p.sackPermitted))
    else if TakesEcn(|b.opts|, c) then EcnEncodes(b.opts, c); Some(EcnOptions(b.opts, c))
    else if Takes20(|a.opts|, c) then Template20Encodes(a.opts, c); Some(Template20(a.opts, c))
    else None
  }

  /** The list on the wire: the chosen template, its timestamps re-timed on a patched SYN-ACK. */
  function Emitted(g: Segment, c: Ctx): (r: Option<seq<Opt>>)
    requires Valid(g)
    ensures r.Some? ==> ValidList(r.value)
  {
    var l := Chosen(g, c);
    if l.Some? && Patches(|Encode(l.value)|, c) then Some(Retime(l.value, 0, c.clk.patch)) else l
  }

  /** The TSval refresh of the 16-byte block never finds a timestamp in the ECN answer. */
  lemma EcnHasNoTimestampAtSix(o: seq<byte>, c: Ctx)
    requires |o| >= 12
    ensures EncodeEcn(o, c)[6] != TIMESTAMP
  {
    EcnEncodes(o, c);
  }

  lemma ChosenBeforePatch(g: Segment, c: Ctx)
    requires Valid(g) && Chosen(g, c).Some?
    ensures var s := Apply12(ApplyEcn(Apply20(StampWindow(Grow(g, c), c), c), c), c);
            ApplyRst(ApplyCoherence(ApplyO6NoTs(ApplyO6(s, c), c), c), c).opts == Encode(Chosen(g, c).value)
  {
    hide Encode, Template20, EcnOptions, SynOptions, O6Template;
    var a := StampWindow(Grow(g, c), c);
    var b := Apply20(a, c);
    var d := ApplyEcn(b, c);
    if TakesEcn(|b.opts|, c) {
      EcnHasNoTimestampAtSix(b.opts, c);
    }
    var e := Apply12(d, c);
    assert ApplyO6(e, c).opts == e.opts || TakesO6NoTs(|d.opts|, c);
  }

  lemma EmittedOnWire(g: Segment, c: Ctx)
    requires Valid(g) && Emitted(g, c).Some?
    ensures Shape(g, c).opts == Encode(Emitted(g, c).value)
  {
    ChosenBeforePatch(g, c);
    var l := Chosen(g, c).value;
    PatchEncode([], l, c.clk.patch);
    assert [] + Encode(l) == Encode(l);
    assert [] + Encode(Retime(l, 0, c.clk.patch)) == Encode(Retime(l, 0, c.clk.patch));
    hide Encode, PatchFrom, Retime, Chosen, Grow, StampWindow, Apply20, ApplyEcn, Apply12, ApplyO6, ApplyO6NoTs, ApplyCoherence, ApplyRst;
  }

  /** No private or malformed option, MSS first. */
  predicate Standard(l: seq<Opt>) {
    && |l| > 0 && l[0].Mss?
    && forall i :: 0 <= i < |l| ==> !l[i].Other?
  }

  predicate Timeless(l: seq<Opt>) {
    forall i :: 0 <= i < |l| ==> !l[i].Timestamp?
  }

  lemma {:induction false} TimelessHasNone(l: seq<Opt>)
    requires Timeless(l)
    ensures FirstTimestamp(l) == None
  {
    if l != [] {
      TimelessHasNone(l[1..]);
    }
  }

  lemma {:induction false} FirstTimestampAt(l: seq<Opt>, i: nat)
    requires i < |l| && l[i].Timestamp?
    requires forall j :: 0 <= j < i ==> !l[j].Timestamp? && !l[j].Eol?
    ensures FirstTimestamp(l) == Some(l[i])
  {
    if i > 0 {
      FirstTimestampAt(l[1..], i - 1);
    }
  }

  /** Where the timestamp sits in the template a profile with timestamps uses. */
  function TimestampPlace(o: seq<byte>, c: Ctx): nat
    requires |o| == 20
  {
    var sack := c.p.sackPermitted && SackAt(o, SACK_PLACES_20);
    if c.p.opt1 == SACK_PERM then (if sack then 2 else 3)
    else if c.p.windowScale > 0 then (if sack then 4 else 5)
    else 5
  }

  /** The first timestamp of a list stands at place i and echoes e, in a list that holds nothing private. */
  predicate TimestampAt(l: seq<Opt>, i: nat, e: uint32) {
    && Standard(l) && i < |l| && l[i].Timestamp? && l[i].tsecr == e
    && forall j :: 0 <= j < i ==> !l[j].Timestamp? && !l[j].Eol?
  }

  lemma LinuxTimestamp(mss: uint16, ws: byte, sack: bool, v: uint32, e: uint32)
    ensures TimestampAt(LinuxTemplate(mss, ws, sack, v, e), if sack then 2 else 3, e)
  {
  }

  lemma WinTimestamp(mss: uint16, ws: byte, sack: bool, v: uint32, e: uint32)
    ensures TimestampAt(WinTsTemplate(mss, ws, sack, v, e), if sack then 4 else 5, e)
    ensures TimestampAt(MacTemplate(mss, ws, v, e), 5, e)
  {
  }

  lemma NoTimestamp20(mss: uint16, ws: byte, sack: bool)
    ensures Standard(XpTemplate(mss, sack)) && Timeless(XpTemplate(mss, sack))
    ensures Standard(WinNoTsTemplate(mss, ws, sack)) && Timeless(WinNoTsTemplate(mss, ws, sack))
  {
  }

  lemma TailKeepsTimestamp(l: seq<Opt>, i: nat, e: uint32)
    requires TimestampAt(l, i, e)
    ensures TimestampAt(l + MAC_TAIL, i, e)
  {
  }

  lemma Template20Timestamp(o: seq<byte>, c: Ctx)
    requires |o| == 20
    ensures var l, i := Template20(o, c), TimestampPlace(o, c);
            if c.p.timestamps then TimestampAt(l, i, Tsecr(o, c)) else Timeless(l)
    ensures Standard(Template20(o, c))
  {
    hide Tsecr, OldMss, Ticks, LinuxTemplate, WinTsTemplate, MacTemplate, XpTemplate, WinNoTsTemplate, Timeless, Standard, SackAt;
    var p, mss, e := c.p, OldMss(o, c.p), Tsecr(o, c);
    var sack := p.sackPermitted && SackAt(o, SACK_PLACES_20);
    LinuxTimestamp(mss, p.windowScale, sack, c.clk.tsval, e);
    WinTimestamp(mss, p.windowScale, sack, Ticks(p, c.clk.tsval), e);
    WinTimestamp(mss, p.windowScale, sack, c.clk.tsval, e);
    NoTimestamp20(mss, p.windowScale, sack);
    if MacGrows(p) {
      TailKeepsTimestamp(Head20(o, c), TimestampPlace(o, c), e);
    }
  }

  /** A SYN or SYN-ACK for which some template was written last. */
  predicate CarriesTimestamp(g: Segment, c: Ctx)
    requires Valid(g)
  {
    var n := |Grow(g, c).opts|;
    c.p.timestamps && Takes20(n, c) && !TakesEcn(if MacGrows(c.p) then 24 else 20, c)
  }

  lemma TimelessTemplates(o: seq<byte>, c: Ctx, mss: uint16, sack: bool)
    ensures |o| >= 12 ==> Standard(EcnOptions(o, c)) && Timeless(EcnOptions(o, c))
    ensures |o| == 12 ==> Standard(SynOptions(o, c)) && Timeless(SynOptions(o, c))
    ensures Standard(O6Template(mss, sack)) && Timeless(O6Template(mss, sack))
  {
    hide OldMss, SackAt, SackAnywhere, LinuxEcnTemplate, WinSynTemplate;
    if |o| >= 12 {
      var m, ws := OldMss(o, c.p), c.p.windowScale;
      EcnTimeless(m, ws, c.p.sackPermitted && SackAnywhere(o));
      EcnTimeless(m, ws, c.p.sackPermitted && SackAt(o, SACK_PLACES_12));
    }
  }

  lemma EcnTimeless(mss: uint16, ws: byte, sack: bool)
    ensures Standard(LinuxEcnTemplate(mss, ws, sack)) && Timeless(LinuxEcnTemplate(mss, ws, sack))
    ensures Standard(WinSynTemplate(mss, ws, sack)) && Timeless(WinSynTemplate(mss, ws, sack))
  {
  }

  /** Which of the templates is the one chosen last. */
  lemma ChosenWhich(g: Segment, c: Ctx) returns (o: seq<byte>, mss: uint16)
    requires Valid(g) && Chosen(g, c).Some?
    ensures var l, a, b := Chosen(g, c).value, Grow(g, c), Apply20(StampWindow(Grow(g, c), c), c);
            if CarriesTimestamp(g, c) then |a.opts| == 20 && l == Template20(a.opts, c)
            else
              || (|o| == 12 && l == SynOptions(o, c))
              || (|b.opts| >= 12 && l == EcnOptions(b.opts, c))
              || l == O6Template(mss, c.p.sackPermitted)
              || (|a.opts| == 20 && !c.p.timestamps && l == Template20(a.opts, c))
  {
    hide Encode, OldMss, SynOptions, EcnOptions, O6Template, Template20;
    var b := Apply20(StampWindow(Grow(g, c), c), c);
    var d := ApplyEcn(b, c);
    o, mss := d.opts, if |d.opts| >= 4 then OldMss(d.opts, c.p) else 0;
  }

  lemma ChosenStandard(g: Segment, c: Ctx)
    requires Valid(g) && Chosen(g, c).Some?
    ensures Standard(Chosen(g, c).value)
    ensures if CarriesTimestamp(g, c) then |Grow(g, c).opts| == 20 && Chosen(g, c).value == Template20(Grow(g, c).opts, c)
            else Timeless(Chosen(g, c).value)
  {
    hide Chosen, Grow, Apply20, StampWindow, CarriesTimestamp, Template20, EcnOptions, SynOptions, O6Template, Standard, Timeless;
    var o, mss := ChosenWhich(g, c);
    var l, a, b := Chosen(g, c).value, Grow(g, c), Apply20(StampWindow(Grow(g, c), c), c);
    if |a.opts| == 20 {
      Template20Timestamp(a.opts, c);
    }
    TimelessTemplates(o, c, mss, c.p.sackPermitted);
    TimelessTemplates(b.opts, c, mss, c.p.sackPermitted);
  }

  /**
   * Every option block written from a template is a legal TCP option list: MSS first, no option
   * past the header end, only known kinds; scanSynTimestamp finds a timestamp in it exactly when
   * the template in force is a timestamp template.
   */
  lemma EmittedLegal(g: Segment, c: Ctx)
    requires Valid(g) && Emitted(g, c).Some?
    ensures Parse(Shape(g, c).opts) == Emitted(g, c) && Standard(Emitted(g, c).value)
    ensures Scan(Shape(g, c).opts, 0).Some? <==> CarriesTimestamp(g, c)
  {
    var l := Emitted(g, c).value;
    EmittedOnWire(g, c);
    ParseComplete(l);
    ScanLegal(l);
    ChosenStandard(g, c);
    hide Shape, Encode, Chosen, Grow, Parse, Scan;
    if CarriesTimestamp(g, c) {
      var i := TimestampPlace(Grow(g, c).opts, c);
      Template20Timestamp(Grow(g, c).opts, c);
      FirstTimestampAt(l, i);
    } else {
      TimelessHasNone(l);
    }
  }

  lemma AnsweredByEcn(g: Segment, c: Ctx)
    requires Valid(g) && |g.opts| >= 12 && IsSynAck(c.flags)
    requires c.p.ecnEcho && c.p.optionsCount > 0 && c.p.windowScale > 0
    requires c.flow.Some? && !c.flow.value.hadTS
    ensures Chosen(g, c).Some? && !CarriesTimestamp(g, c)
  {
    hide Encode;
  }

  /** The SYN-ACK answering a cached SYN without a timestamp leaves without one. */
  lemma NoTimestampAnswered(g: Segment, c: Ctx)
    requires Valid(g) && |g.opts| >= 12 && IsSynAck(c.flags)
    requires c.p.ecnEcho && c.p.optionsCount > 0 && c.p.windowScale > 0
    requires c.flow.Some? && !c.flow.value.hadTS
    ensures Emitted(g, c).Some? && Timeless(Emitted(g, c).value)
    ensures Shape(g, c).opts == Encode(Emitted(g, c).value) && Scan(Shape(g, c).opts, 0) == None
  {
    AnsweredByEcn(g, c);
    hide Shape, Encode, Chosen, Grow, CarriesTimestamp, Patches, Scan, Parse;
    EmittedLegal(g, c);
    EmittedOnWire(g, c);
    ChosenStandard(g, c);
  }

  /** The SYN-ACK answering a cached SYN with a nonzero TSval echoes exactly that value. */
  lemma TimestampEchoed(g: Segment, c: Ctx)
    requires Valid(g) && IsSynAck(c.flags) && c.p.timestamps && c.p.optionsCount > 0
    requires |g.opts| == 20 || (|g.opts| == 12 && c.p.opt1 == SACK_PERM && c.p.windowScale > 0)
    requires c.flow.Some? && c.flow.value.hadTS && c.flow.value.tsval != 0
    ensures Emitted(g, c).Some? && FirstTimestamp(Emitted(g, c).value).Some?
    ensures FirstTimestamp(Emitted(g, c).value).value.tsecr == c.flow.value.tsval
    ensures Shape(g, c).opts == Encode(Emitted(g, c).value)
  {
    assert |Grow(g, c).opts| == 20 && CarriesTimestamp(g, c) && Chosen(g, c).Some?;
    assert Tsecr(Grow(g, c).opts, c) == c.flow.value.tsval;
    hide Encode, Chosen, Grow, Template20, CarriesTimestamp, Shape, Tsecr, TimestampPlace, Patches;
    EmittedOnWire(g, c);
    ChosenStandard(g, c);
    var o := Grow(g, c).opts;
    Template20Timestamp(o, c);
    FirstTimestampAt(Emitted(g, c).value, TimestampPlace(o, c));
  }

  /** The patch walk never reaches the last four bytes: a timestamp option ends with its TSecr. */
  lemma {:induction false} PatchKeepsEnd(o: seq<byte>, off: nat, clk: nat -> uint32)
    requires |o| >= 4
    ensures PatchFrom(o, off, clk)[|o| - 4..] == o[|o| - 4..]
    decreases |o| - off
  {
    hide Enc32;
    if off + TIMESTAMP_LEN <= |o| && o[off] != EOL {
      if o[off] == NOP || o[off + 1] < 2 {
        PatchKeepsEnd(o, off + 1, clk);
      } else {
        var p := if o[off] == TIMESTAMP && o[off + 1] == TIMESTAMP_LEN then Splice(o, off + 2, Enc32(clk(off))) else o;
        assert p[|o| - 4..] == o[|o| - 4..];
        PatchKeepsEnd(p, off + o[off + 1], clk);
      }
    }
  }

  /**
   * The 8 bytes added by growth are overwritten by the template exactly when the profile's count of options is not 0;
   * when it is only the timestamp walk touches them, and the last four reach the wire as zeros.
   */
  lemma GrowthOverwritten(g: Segment, c: Ctx)
    requires Valid(g) && Grows(|g.opts|, c)
    ensures Emitted(g, c).Some? <==> c.p.optionsCount > 0
    ensures c.p.optionsCount == 0 ==>
              && Shape(g, c).opts == PatchFrom(g.opts + Repeat(0, 8), 0, c.clk.patch)
              && Shape(g, c).opts[16..] == Repeat(0, 4)
  {
    PatchKeepsEnd(g.opts + Repeat(0, 8), 0, c.clk.patch);
    hide PatchFrom;
  }
}
