/** What the rewriter derives from a configured profile, and what that rules out. */
module Profiles {
  import opened Bytes
  import opened Text
  import opened TcpOptions
  import opened TcpSegment
  import opened TcpShaping
  import opened TcpTheorems
  import opened TcpContents

  /** The part of a profile file that the rewriter reads. */
  datatype OSProfile = OSProfile(
    family: string, version: string, ttl: byte, dfBit: bool, ipIdBehavior: string,
    windowSize: uint16, windowScale: byte, mss: uint16, timestamps: bool, sackPermitted: bool,
    optionsOrder: seq<string>, windowInRst: uint16, explicitCongestion: string)

  function OptKind(name: string): byte {
    var n := Fold(name);
    if n == "mss" then MSS
    else if n in {"window_scale", "wscale"} then WSCALE
    else if n in {"sack_permitted", "sack_perm", "sack"} then SACK_PERM
    else if n in {"timestamp", "timestamps"} then TIMESTAMP
    else if n == "eol" then EOL
    else NOP
  }

  function IpId(behavior: string): IpIdBehavior {
    var b := Fold(behavior);
    if b in {"random", "rand"} then Random else if b in {"zero", "0"} then Zero else Incremental
  }

  /** The version's text before its first dot is 6. */
  predicate VersionSix(version: string) {
    version != [] && version[0] == '6' && (|version| == 1 || version[1] == '.')
  }

  /** The window that a Linux kernel answers ECN probes with, where it differs. */
  function EcnWindow(windowSize: uint16): uint16 {
    if windowSize == 0xFE88 then 0xFAF0 else if windowSize == 0x7120 then 0x7210 else 0
  }

  function ProfileOf(p: OSProfile): Profile {
    var n, linux, windows := |p.optionsOrder|, Fold(p.family) == "linux", Fold(p.family) == "windows";
    Profile(p.ttl, p.dfBit, IpId(p.ipIdBehavior), p.windowSize, p.windowScale, p.mss,
            p.timestamps, p.sackPermitted, n % 0x100, p.windowInRst,
            if n > 1 then OptKind(p.optionsOrder[1]) else 0,
            linux, linux || Fold(p.explicitCongestion) == "echo",
            if linux then EcnWindow(p.windowSize) else 0,
            windows, windows && p.timestamps && VersionSix(p.version))
  }

  method ToWinProfile(p: OSProfile) returns (wp: Profile)
    ensures wp == ProfileOf(p)
  {
    hide Fold, OptKind, VersionSix;
    var ipid := Incremental;
    var behavior := Fold(p.ipIdBehavior);
    if behavior == "random" || behavior == "rand" {
      ipid := Random;
    } else if behavior == "zero" || behavior == "0" {
      ipid := Zero;
    }
    var opt1 := 0;
    if |p.optionsOrder| > 1 {
      opt1 := OptKind(p.optionsOrder[1]);
    }
    var ecnEcho := false;
    if Fold(p.family) == "linux" {
      ecnEcho := true;
    }
    var ecnCC := ecnEcho || Fold(p.explicitCongestion) == "echo";
    var winQuirks := Fold(p.family) == "windows";
    var tsSlow := false;
    if winQuirks && p.timestamps {
      tsSlow := VersionSix(p.version);
    }
    var ecnWindow := 0;
    if ecnEcho {
      if p.windowSize == 0xFE88 {
        ecnWindow := 0xFAF0;
      } else if p.windowSize == 0x7120 {
        ecnWindow := 0x7210;
      }
    }
    wp := Profile(p.ttl, p.dfBit, ipid, p.windowSize, p.windowScale, p.mss, p.timestamps, p.sackPermitted,
      |p.optionsOrder| % 0x100, p.windowInRst, opt1, ecnEcho, ecnCC, ecnWindow, winQuirks, tsSlow);
  }

  // ----- growth -----

  /**
   * The 8 bytes that growth adds to a SYN-ACK are overwritten by the template unless the number of configured options
   * is a multiple of 256: the second option decides about growth, the number in one byte about the template. A profile
   * without options never grows a packet.
   */
  lemma GrowthCovered(p: OSProfile, g: Segment, c: Ctx)
    requires Valid(g) && c.p == ProfileOf(p) && Grows(|g.opts|, c)
    ensures |p.optionsOrder| >= 2 && OptKind(p.optionsOrder[1]) == SACK_PERM
    ensures Emitted(g, c).Some? <==> |p.optionsOrder| % 0x100 != 0
    ensures |p.optionsOrder| < 0x100 ==> Emitted(g, c).Some?
    ensures |p.optionsOrder| % 0x100 == 0 ==> Shape(g, c).opts[16..] == Repeat(0, 4)
  {
    hide OptKind, Fold, IpId, VersionSix;
    GrowthOverwritten(g, c);
  }

  // ----- packets and profiles on which a promise fails -----

  /** profiles/linux/ubuntu.yaml */
  const UBUNTU := OSProfile(
    "linux", "5.15", 64, true, "random", 65160, 8, 1460, true, true,
    ["mss", "sack_permitted", "timestamp", "nop", "window_scale"], 0, "respond")

  /** profiles/macos/sonoma.yaml */
  const SONOMA := OSProfile(
    "macos", "14.0", 64, true, "zero", 65535, 6, 1460, true, true,
    ["mss", "nop", "window_scale", "nop", "nop", "timestamp", "sack_permitted", "eol"], 0, "echo")

  /** The Ubuntu profile with an order of 256 options. */
  function Wrapping(): OSProfile {
    UBUNTU.(optionsOrder := seq(0x100, i => if i == 1 then "sack_permitted" else "nop"))
  }

  /** A SYN-ACK with these option bytes and right length fields. */
  function SynAck(opts: seq<byte>, payload: nat): (g: Segment)
    requires |opts| in {12, 20} && 40 + |opts| + payload < 0x1_0000
    ensures Valid(g) && Consistent(g) && g.opts == opts && |Wire(g)| == 40 + |opts| + payload
  {
    var size := 40 + |opts| + payload;
    Segment(Repeat(0, 20)[2 := size / 0x100][3 := size % 0x100],
            Repeat(0, 20)[12 := (20 + |opts|) * 4][13 := 0x12], opts, Repeat(0, payload))
  }

  function Answering(p: OSProfile): Ctx {
    Ctx(ProfileOf(p), None, Clock(0, 1, 1, 1, 1, _ => 1), 0x12)
  }

  lemma Lowercase(s: string)
    requires forall i :: 0 <= i < |s| ==> !('A' <= s[i] <= 'Z')
    ensures Fold(s) == s
  {
  }

  lemma SackSecond(p: OSProfile)
    requires |p.optionsOrder| > 1 && p.optionsOrder[1] == "sack_permitted"
    ensures ProfileOf(p).opt1 == SACK_PERM
  {
    Lowercase("sack_permitted");
    hide Fold;
  }

  /** With 256 options the byte wraps to 0, and a SYN-ACK goes out with the zeros that growth put in. */
  lemma GrowthLeaks()
    ensures var g, c := SynAck(NopBytes(12), 0), Answering(Wrapping());
            && |Wrapping().optionsOrder| == 0x100 && Grows(|g.opts|, c)
            && Emitted(g, c).None? && Shape(g, c).opts[16..] == [0, 0, 0, 0]
  {
    SackSecond(Wrapping());
    hide Shape, Emitted, Fold;
    GrowthOverwritten(SynAck(NopBytes(12), 0), Answering(Wrapping()));
  }

  /** A SYN-ACK of 65532 bytes: its options grow from 12 to 20 bytes, and its total length leaves wrong. */
  lemma LengthsCanFail()
    ensures var g, c := SynAck(NopBytes(12), 65480), Answering(UBUNTU);
            Consistent(g) && |Wire(g)| == 65532 && |Wire(Shape(g, c))| == 65540 && !Consistent(Shape(g, c))
  {
    var g, c := SynAck(NopBytes(12), 65480), Answering(UBUNTU);
    SackSecond(UBUNTU);
    GrownLength(g.opts, c);
    hide Shape, Fold, SynAck, Consistent, ProfileOf;
    ShapeKeeps(g, c);
    WireLength(g, Shape(g, c));
  }

  lemma GrownLength(o: seq<byte>, c: Ctx)
    requires Grows(|o|, c) && c.p.optionsCount > 0 && !MacGrows(c.p)
    ensures SentLength(o, c) == 20
  {
  }

  /** MSS, NOP, window scale, SACK permitted, timestamp: what a Windows host puts into its SYN-ACK. */
  const WINDOWS_OPTIONS: seq<byte> :=
    [MSS, 4, 5, 180, NOP, WSCALE, 3, 8, SACK_PERM, 2, TIMESTAMP, TIMESTAMP_LEN, 0, 0, 0, 1, 0, 0, 0, 1]

  /** Under the macOS profile such a SYN-ACK leaves with SACK permitted twice. */
  lemma SonomaRepeatsSack()
    ensures var g, c := SynAck(WINDOWS_OPTIONS, 0), Answering(SONOMA);
            Emitted(g, c).Some? && TwoSacks(Emitted(g, c).value)
  {
    var g, c := SynAck(WINDOWS_OPTIONS, 0), Answering(SONOMA);
    SonomaGrows();
    SackAtEight(g.opts);
    TemplateTaken(g, c);
    hide *;
    SackRepeated(g, c);
  }

  lemma SonomaGrows()
    ensures var c := Answering(SONOMA); MacGrows(c.p) && Takes20(20, c) && !TakesEcn(24, c)
    ensures SONOMA.sackPermitted && SONOMA.windowScale > 0
  {
    Lowercase("zero");
    Lowercase("macos");
    hide Fold;
  }

  lemma SackAtEight(o: seq<byte>)
    requires |o| == 20 && o[8] == SACK_PERM
    ensures SackAt(o, SACK_PLACES_20)
  {
    assert SACK_PLACES_20[2] == 8;
  }

  lemma TemplateTaken(g: Segment, c: Ctx)
    requires Valid(g) && Takes20(|g.opts|, c)
    ensures Emitted(g, c).Some? && !Grows(|g.opts|, c)
  {
    hide Encode, Template20, EcnOptions, SynOptions, O6Template, Retime;
  }
}
