/** The option strings that a scanner prints for the shipped profiles. */
module Fingerprints {
  import opened Bytes
  import opened TcpOptions
  import opened TcpSegment
  import opened TcpShaping
  import opened TcpTheorems
  import opened TcpAnswers
  import opened Profiles
  import opened Text

  function Digit(n: nat): char
    requires n < 16
  {
    if n < 10 then '0' + n as char else 'A' + (n - 10) as char
  }

  function Hex(n: nat): string {
    if n < 16 then [Digit(n)] else Hex(n / 16) + [Digit(n % 16)]
  }

  /** Nmap's notation: a letter for each option, values of MSS and scale in hexadecimal, 1 for a clock that is not 0. */
  function Printed(l: seq<Opt>): string {
    if l == [] then ""
    else
      (match l[0]
       case Eol => "L"
       case Nop => "N"
       case Mss(v) => "M" + Hex(v)
       case WScale(n) => "W" + Hex(n)
       case SackPerm => "S"
       case Timestamp(v, e) => "T" + (if v == 0 then "0" else "1") + (if e == 0 then "0" else "1")
       case Other(_, _) => "?") + Printed(l[1..])
  }

  /** The segment's options are a legal list that prints as text. */
  ghost predicate Prints(g: Segment, text: string) {
    exists l :: ValidList(l) && g.opts == Encode(l) && Printed(l) == text
  }

  /** A SYN-ACK, all clocks running, that answers the SYN recorded in flow, if any. */
  ghost predicate Scanned(c: Ctx, p: OSProfile) {
    && c.p == ProfileOf(p) && c.flags / 2 % 2 == 1 && c.flags / 16 % 2 == 1
    && c.clk.tsval >= 10 && c.clk.tsecr != 0 && c.clk.o6 >= 10 && forall k: nat :: c.clk.patch(k) != 0
  }

  lemma {:induction false} PrintsAll(a: seq<Opt>, b: seq<Opt>)
    ensures Printed(a + b) == Printed(a) + Printed(b)
  {
    if a == [] {
      assert a + b == b;
    } else {
      assert (a + b)[1..] == a[1..] + b;
      PrintsAll(a[1..], b);
    }
  }

  lemma PrintsOne(o: Opt, l: seq<Opt>)
    ensures Printed([o] + l) == Printed([o]) + Printed(l)
  {
    PrintsAll([o], l);
  }

  const WINDOWS_10 := OSProfile(
    "windows", "10.0.19041", 128, true, "incremental", 8192, 8, 1460, false, true,
    ["mss", "nop", "window_scale", "nop", "nop", "sack_permitted"], 0, "respond")

  const WINDOWS_11 := OSProfile(
    "windows", "10.0.26200", 128, true, "incremental", 65535, 8, 1460, true, true,
    ["mss", "nop", "window_scale", "sack_permitted", "timestamp"], 0, "respond")

  lemma Names()
    ensures ProfileOf(UBUNTU).opt1 == SACK_PERM && ProfileOf(UBUNTU).ipid == Random && ProfileOf(UBUNTU).ecnEcho
    ensures !ProfileOf(UBUNTU).winQuirks
    ensures ProfileOf(WINDOWS_11).opt1 == NOP && ProfileOf(WINDOWS_11).winQuirks && !ProfileOf(WINDOWS_11).ecnEcho
    ensures ProfileOf(WINDOWS_10).winQuirks && !ProfileOf(WINDOWS_10).ecnEcho
    ensures ProfileOf(SONOMA).opt1 == NOP && ProfileOf(SONOMA).ipid == Zero && !ProfileOf(SONOMA).winQuirks
    ensures !ProfileOf(SONOMA).ecnEcho && !ProfileOf(WINDOWS_11).tsSlow
  {
    Lowercase("linux");
    Lowercase("windows");
    Lowercase("macos");
    Lowercase("random");
    Lowercase("incremental");
    Lowercase("zero");
    Lowercase("sack_permitted");
    Lowercase("nop");
    hide Fold;
  }

  /** profiles/windows/server-2012.yaml */
  const SERVER_2012 := OSProfile(
    "windows", "6.2.9200", 128, true, "incremental", 8192, 8, 1460, true, true,
    ["mss", "nop", "window_scale", "sack_permitted", "timestamp"], 0, "echo")

  /** Ubuntu: random identifications, ECE echoed, and 0xFAF0 as the window of answers to ECN probes. */
  lemma UbuntuProfile()
    ensures ProfileOf(UBUNTU) ==
            Profile(64, true, Random, 65160, 8, 1460, true, true, 5, 0, 4, true, true, 0xFAF0, false, false)
  {
    Lowercase("linux");
    Lowercase("random");
    Lowercase("sack_permitted");
    hide Fold;
  }

  /** A Windows of version 6 with timestamps has the slow clock; this one also echoes ECE. */
  lemma ServerProfile()
    ensures ProfileOf(SERVER_2012) ==
            Profile(128, true, Incremental, 8192, 8, 1460, true, true, 5, 0, 1, false, true, 0, true, true)
  {
    Lowercase("windows");
    Lowercase("incremental");
    Lowercase("nop");
    Lowercase("echo");
    hide Fold;
  }

  lemma WindowsProfile()
    ensures ProfileOf(WINDOWS_11) ==
            Profile(128, true, Incremental, 65535, 8, 1460, true, true, 5, 0, 1, false, false, 0, true, false)
  {
    Lowercase("windows");
    Lowercase("incremental");
    Lowercase("nop");
    Lowercase("respond");
    hide Fold;
  }

  /** Printing one option behind another. */
  lemma Prepends(o: Opt, l: seq<Opt>, a: string, b: string)
    requires Printed([o]) == a && Printed(l) == b
    ensures Printed([o] + l) == a + b
  {
    PrintsOne(o, l);
  }

  lemma Singles(v: uint32, e: uint32)
    requires v != 0 && e != 0
    ensures Printed([]) == "" && Printed([Nop]) == "N" && Printed([SackPerm]) == "S" && Printed([Eol]) == "L"
    ensures Printed([Mss(1460)]) == "M5B4" && Printed([WScale(8)]) == "W8" && Printed([WScale(6)]) == "W6"
    ensures Printed([Timestamp(v, e)]) == "T11"
  {
    assert Hex(1460) == Hex(91) + "4" && Hex(91) == Hex(5) + "B";
    assert [Mss(1460)][1..] == [] && [WScale(8)][1..] == [] && [WScale(6)][1..] == [];
  }

  /** One option printed in front of a list that is already printed. */
  lemma Front(o: Opt, l: seq<Opt>, a: string, b: string) returns (m: seq<Opt>)
    requires Printed([o]) == a && Printed(l) == b
    ensures m == [o] + l && Printed(m) == a + b
  {
    Prepends(o, l, a, b);
    m := [o] + l;
  }

  lemma LinuxPrinted(v: uint32, e: uint32)
    requires v != 0 && e != 0
    ensures Printed([Mss(1460), SackPerm, Timestamp(v, e), Nop, WScale(8)]) == "M5B4ST11NW8"
  {
    Singles(v, e);
    hide Printed;
    var l := Front(Nop, [WScale(8)], "N", "W8");
    l := Front(Timestamp(v, e), l, "T11", "NW8");
    l := Front(SackPerm, l, "S", "T11NW8");
    l := Front(Mss(1460), l, "M5B4", "ST11NW8");
    assert l == [Mss(1460), SackPerm, Timestamp(v, e), Nop, WScale(8)];
  }

  lemma EcnPrinted()
    ensures Printed([Mss(1460), Nop, Nop, SackPerm, Nop, WScale(8)]) == "M5B4NNSNW8"
  {
    Singles(1, 1);
    hide Printed;
    var l := Front(Nop, [WScale(8)], "N", "W8");
    l := Front(SackPerm, l, "S", "NW8");
    l := Front(Nop, l, "N", "SNW8");
    l := Front(Nop, l, "N", "NSNW8");
    l := Front(Mss(1460), l, "M5B4", "NNSNW8");
    assert l == [Mss(1460), Nop, Nop, SackPerm, Nop, WScale(8)];
  }

  lemma WindowsPrinted(v: uint32, e: uint32)
    requires v != 0 && e != 0
    ensures Printed([Mss(1460), Nop, WScale(8), SackPerm, Timestamp(v, e)]) == "M5B4NW8ST11"
  {
    Singles(v, e);
    hide Printed;
    var l := Front(SackPerm, [Timestamp(v, e)], "S", "T11");
    l := Front(WScale(8), l, "W8", "ST11");
    l := Front(Nop, l, "N", "W8ST11");
    l := Front(Mss(1460), l, "M5B4", "NW8ST11");
    assert l == [Mss(1460), Nop, WScale(8), SackPerm, Timestamp(v, e)];
  }

  lemma TimelessPrinted()
    ensures Printed([Mss(1460), Nop, WScale(8), Nop, Nop, SackPerm]) == "M5B4NW8NNS"
    ensures Printed([Mss(1460), Nop, WScale(8)]) == "M5B4NW8"
    ensures Printed([Mss(1460), Nop, Nop, SackPerm]) == "M5B4NNS"
  {
    Singles(1, 1);
    hide Printed;
    var l := Front(Nop, [SackPerm], "N", "S");
    l := Front(Nop, l, "N", "NS");
    var m := Front(Mss(1460), l, "M5B4", "NNS");
    assert m == [Mss(1460), Nop, Nop, SackPerm];
    l := Front(WScale(8), l, "W8", "NNS");
    l := Front(Nop, l, "N", "W8NNS");
    l := Front(Mss(1460), l, "M5B4", "NW8NNS");
    assert l == [Mss(1460), Nop, WScale(8), Nop, Nop, SackPerm];
    l := Front(Nop, [WScale(8)], "N", "W8");
    l := Front(Mss(1460), l, "M5B4", "NW8");
    assert l == [Mss(1460), Nop, WScale(8)];
  }

  lemma SonomaPrinted(v: uint32, e: uint32)
    requires v != 0 && e != 0
    ensures Printed([Mss(1460), Nop, WScale(6), SackPerm, Timestamp(v, e), SackPerm, Eol, Eol]) == "M5B4NW6ST11SLL"
  {
    Singles(v, e);
    hide Printed;
    var l := Front(Eol, [Eol], "L", "L");
    l := Front(SackPerm, l, "S", "LL");
    l := Front(Timestamp(v, e), l, "T11", "SLL");
    l := Front(SackPerm, l, "S", "T11SLL");
    l := Front(WScale(6), l, "W6", "ST11SLL");
    l := Front(Nop, l, "N", "W6ST11SLL");
    l := Front(Mss(1460), l, "M5B4", "NW6ST11SLL");
    assert l == [Mss(1460), Nop, WScale(6), SackPerm, Timestamp(v, e), SackPerm, Eol, Eol];
  }

  lemma UbuntuList(c: Ctx)
    requires Scanned(c, UBUNTU) && (c.flow.None? || c.flow.value.hadTS)
    ensures Plainly(c) && Echo(c, 0) != 0 && c.clk.patch(6) != 0
    ensures Answer(c, 1460, true, 0) == [Mss(1460), SackPerm, Timestamp(c.clk.patch(6), Echo(c, 0)), Nop, WScale(8)]
  {
    Names();
  }

  lemma Windows11List(c: Ctx)
    requires Scanned(c, WINDOWS_11)
    ensures Plainly(c) && Echo(c, 0) != 0 && c.clk.tsval != 0
    ensures Answer(c, 1460, true, 0) == [Mss(1460), Nop, WScale(8), SackPerm, Timestamp(c.clk.tsval, Echo(c, 0))]
  {
    Names();
  }

  lemma Windows10List(c: Ctx)
    requires Scanned(c, WINDOWS_10)
    ensures Plainly(c) && Answer(c, 1460, true, 0) == [Mss(1460), Nop, WScale(8), Nop, Nop, SackPerm]
    ensures Answer(c, 1460, false, 0) == [Mss(1460), Nop, WScale(8)]
  {
    Names();
  }

  lemma SonomaList(c: Ctx)
    requires Scanned(c, SONOMA)
    ensures Plainly(c) && Echo(c, 0) != 0 && c.clk.tsval != 0
    ensures Answer(c, 1460, true, 0) ==
            [Mss(1460), Nop, WScale(6), SackPerm, Timestamp(c.clk.tsval, Echo(c, 0)), SackPerm, Eol, Eol]
  {
    Names();
  }

  lemma PrintsAs(g: Segment, c: Ctx, l: seq<Opt>, text: string)
    requires Valid(g) && ValidList(l) && Shape(g, c).opts == Encode(l) && Printed(l) == text
    ensures Prints(Shape(g, c), text)
  {
    hide Shape, Encode, Printed;
  }

  // ----- the shipped profiles on a Windows host -----

  /** Ubuntu answers a SYN that carries a timestamp as real Linux does. */
  lemma UbuntuPrints(g: Segment, c: Ctx, ws: byte, v: uint32, e: uint32)
    requires Valid(g) && Scanned(c, UBUNTU) && Holds(g, WindowsBlock(1460, ws, true, v, e))
    requires c.flow.None? || c.flow.value.hadTS
    ensures Prints(Shape(g, c), "M5B4ST11NW8")
  {
    hide *;
    UbuntuList(c);
    WindowsHostAnswer(g, c, 1460, ws, true, v, e);
    LinuxPrinted(c.clk.patch(6), Echo(c, 0));
    PrintsAs(g, c, Answer(c, 1460, true, 0), "M5B4ST11NW8");
  }

  /** From a host without timestamps, whose twelve option bytes grow, too. */
  lemma UbuntuGrownPrints(g: Segment, c: Ctx, ws: byte)
    requires Valid(g) && Scanned(c, UBUNTU) && Holds(g, ShortBlock(1460, ws, true))
    requires c.flow.None? || c.flow.value.hadTS
    ensures Prints(Shape(g, c), "M5B4ST11NW8")
  {
    Names();
    hide *;
    UbuntuList(c);
    UbuntuGrows(c);
    ShortHostAnswer(g, c, 1460, ws, true);
    LinuxPrinted(c.clk.patch(6), Echo(c, 0));
    PrintsAs(g, c, Answer(c, 1460, true, 0), "M5B4ST11NW8");
  }

  lemma UbuntuGrows(c: Ctx)
    requires Scanned(c, UBUNTU)
    ensures c.p.timestamps && c.p.opt1 == 4 && c.p.windowScale > 0 && c.p.windowScale == 8 && c.p.sackPermitted
    ensures c.p.ecnEcho && !c.p.winQuirks && c.p.optionsCount > 0 && c.flags / 2 % 2 == 1 && c.flags / 16 % 2 == 1
  {
    Names();
  }

  /** A SYN without timestamps gets the answer without one, whether the host's own block permits SACK or not. */
  lemma UbuntuEcnPrints(g: Segment, c: Ctx, ws: byte, sack: bool)
    requires Valid(g) && Scanned(c, UBUNTU) && Holds(g, ShortBlock(1460, ws, sack))
    requires c.flow.Some? && !c.flow.value.hadTS
    ensures Prints(Shape(g, c), "M5B4NNSNW8")
  {
    ShortStarts(g, 1460, ws, sack);
    UbuntuGrows(c);
    TwelveStay(g.opts, c);
    hide *;
    EcnAnswer(g, c, 1460);
    var l := [Mss(1460), Nop, Nop, SackPerm, Nop, WScale(8)];
    assert l == [Mss(1460), Nop, Nop] + [SackPerm] + [Nop, WScale(8)] + Nops(0);
    EcnPrinted();
    PrintsAs(g, c, l, "M5B4NNSNW8");
  }

  lemma TwelveStay(o: seq<byte>, c: Ctx)
    requires |o| == 12 && c.flow.Some? && !c.flow.value.hadTS
    ensures SentLength(o, c) == 12 && Length20(o, c) == 12
  {
  }

  lemma ShortStarts(g: Segment, mss: uint16, ws: byte, sack: bool)
    requires Holds(g, ShortBlock(mss, ws, sack))
    ensures |g.opts| == 12 && StartsWithMss(g.opts, mss)
  {
    ShortBytes(mss, ws, sack);
    hide Encode;
  }

  lemma Windows11Prints(g: Segment, c: Ctx, ws: byte, v: uint32, e: uint32)
    requires Valid(g) && Scanned(c, WINDOWS_11) && Holds(g, WindowsBlock(1460, ws, true, v, e))
    ensures Prints(Shape(g, c), "M5B4NW8ST11")
  {
    hide *;
    Windows11List(c);
    WindowsHostAnswer(g, c, 1460, ws, true, v, e);
    WindowsPrinted(c.clk.tsval, Echo(c, 0));
    PrintsAs(g, c, Answer(c, 1460, true, 0), "M5B4NW8ST11");
  }

  /** Windows 10 leaves the SACK option away where the host's own answer had none and no clock looks like one. */
  lemma Windows10Prints(g: Segment, c: Ctx, ws: byte, sack: bool, v: uint32, e: uint32)
    requires Valid(g) && Scanned(c, WINDOWS_10) && Holds(g, WindowsBlock(1460, ws, sack, v, e))
    ensures Prints(Shape(g, c), if sack || v / 0x100_0000 == 4 || e / 0x100_0000 == 4 then "M5B4NW8NNS" else "M5B4NW8")
  {
    hide *;
    Windows10List(c);
    WindowsHostAnswer(g, c, 1460, ws, sack, v, e);
    TimelessPrinted();
    var s := sack || v / 0x100_0000 == 4 || e / 0x100_0000 == 4;
    PrintsAs(g, c, Answer(c, 1460, s, 0), if s then "M5B4NW8NNS" else "M5B4NW8");
  }

  /** The sixteen bytes of the probe without scale. */
  lemma Windows10ShortPrints(g: Segment, c: Ctx, sack: bool, v: uint32, e: uint32)
    requires Valid(g) && Scanned(c, WINDOWS_10) && Holds(g, SixteenBlock(1460, sack, v, e))
    ensures Prints(Shape(g, c), "M5B4NNS")
  {
    Names();
    SixteenStarts(g, 1460, sack, v, e);
    assert c.p.winQuirks && !c.p.timestamps && !c.p.ecnEcho && c.p.sackPermitted && c.flags / 2 % 2 == 1;
    hide *;
    SixteenShrunk(g, c, 1460);
    TimelessPrinted();
    assert [Mss(1460), Nop, Nop] + [SackPerm] == [Mss(1460), Nop, Nop, SackPerm];
    PrintsAs(g, c, [Mss(1460), Nop, Nop, SackPerm], "M5B4NNS");
  }

  lemma SixteenStarts(g: Segment, mss: uint16, sack: bool, v: uint32, e: uint32)
    requires Holds(g, SixteenBlock(mss, sack, v, e))
    ensures |g.opts| == 16 && StartsWithMss(g.opts, mss)
  {
    SixteenBytes(mss, sack, v, e);
    hide Encode;
  }

  /** Sonoma prints SACK where its profile file says NN, and again behind the timestamp. */
  lemma SonomaPrints(g: Segment, c: Ctx, ws: byte, v: uint32, e: uint32)
    requires Valid(g) && Scanned(c, SONOMA) && Holds(g, WindowsBlock(1460, ws, true, v, e))
    ensures Prints(Shape(g, c), "M5B4NW6ST11SLL")
  {
    hide *;
    SonomaList(c);
    WindowsHostAnswer(g, c, 1460, ws, true, v, e);
    SonomaPrinted(c.clk.tsval, Echo(c, 0));
    PrintsAs(g, c, Answer(c, 1460, true, 0), "M5B4NW6ST11SLL");
  }
}
