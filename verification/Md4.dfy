/** The MD4 digest: the unrolled block loop against the tables of RFC 1320. */
module Md4 {
  import opened Bytes

  // ----- RFC 1320, by tables -----

  datatype Regs = Regs(a: bv32, b: bv32, c: bv32, d: bv32)

  const START := Regs(0x6745_2301, 0xEFCD_AB89, 0x98BA_DCFE, 0x1032_5476)

  type Index = k: nat | k < 16
  type Amount = n: nat | 0 < n < 32 witness 1

  /** For each round the words of the block that its 16 operations take (section 3.4). */
  function WordOf(round: nat, j: nat): Index
    requires round < 3 && j < 16
  {
    match round
    case 0 => j
    case 1 => var t: seq<Index> := [0, 4, 8, 12, 1, 5, 9, 13, 2, 6, 10, 14, 3, 7, 11, 15]; t[j]
    case _ => var t: seq<Index> := [0, 8, 4, 12, 2, 10, 6, 14, 1, 9, 5, 13, 3, 11, 7, 15]; t[j]
  }

  /** The four shift amounts of each round, taken in turn. */
  function ShiftOf(round: nat, i: nat): Amount
    requires round < 3 && i < 4
  {
    var t: seq<Amount> := match round case 0 => [3, 7, 11, 19] case 1 => [3, 5, 9, 13] case _ => [3, 9, 11, 15];
    t[i]
  }

  function F(x: bv32, y: bv32, z: bv32): bv32 {
    (x & y) | (!x & z)
  }

  function G(x: bv32, y: bv32, z: bv32): bv32 {
    (x & y) | (x & z) | (y & z)
  }

  function H(x: bv32, y: bv32, z: bv32): bv32 {
    x ^ y ^ z
  }

  function RotateLeft(x: bv32, n: Amount): bv32
  {
    (x << n) | (x >> (32 - n))
  }

  /** The new value of the first register of an operation of the given round. */
  function Mixed(round: nat, w: bv32, x: bv32, y: bv32, z: bv32, word: bv32, shift: Amount): bv32
  {
    match round
    case 0 => RotateLeft(w + F(x, y, z) + word, shift)
    case 1 => RotateLeft(w + G(x, y, z) + word + 0x5A82_7999, shift)
    case _ => RotateLeft(w + H(x, y, z) + word + 0x6ED9_EBA1, shift)
  }

  type Block = x: seq<bv32> | |x| == 16 witness [0, 0, 0, 0, 0, 0, 0, 0, 0, 0, 0, 0, 0, 0, 0, 0]

  /**
   * Operation j of a round with the registers in the order it names them, [ABCD], [DABC], [CDAB] and [BCDA] in
   * turn: what it writes becomes the second register of the next operation.
   */
  function Operation(x: Block, round: nat, j: nat, r: Regs): Regs
    requires round < 3 && j < 16
  {
    Regs(r.d, Mixed(round, r.a, r.b, r.c, r.d, x[WordOf(round, j)], ShiftOf(round, j % 4)), r.b, r.c)
  }

  /** Operations j to end of a round. */
  function Operations(x: Block, round: nat, j: nat, end: nat, r: Regs): Regs
    requires round < 3 && j <= end <= 16
    decreases end - j
  {
    if j == end then r else Operations(x, round, j + 1, end, Operation(x, round, j, r))
  }

  /** One block: three rounds of 16 operations, then the old registers are added. */
  function BlockStep(x: Block, r: Regs): Regs {
    var s := Operations(x, 2, 0, 16, Operations(x, 1, 0, 16, Operations(x, 0, 0, 16, r)));
    Regs(Sum(s.a, r.a), Sum(s.b, r.b), Sum(s.c, r.c), Sum(s.d, r.d))
  }

  function Sum(x: bv32, y: bv32): bv32 {
    x + y
  }

  function WordAt(s: seq<byte>, i: nat): bv32
    requires i + 4 <= |s|
  {
    (s[i] + 0x100 * s[i + 1] as int + 0x1_0000 * s[i + 2] as int + 0x100_0000 * s[i + 3] as int) as bv32
  }

  /** The first 64 bytes as words. */
  function FirstBlock(s: seq<byte>): (x: Block)
    requires |s| >= 64
  {
    seq(16, i requires 0 <= i < 16 => WordAt(s, 4 * i))
  }

  /** The registers after n blocks. */
  function Blocks(s: seq<byte>, n: nat, r: Regs): Regs
    requires |s| == 64 * n
    decreases n
  {
    if n == 0 then r else Blocks(s[64..], n - 1, BlockStep(FirstBlock(s), r))
  }

  function WordBytes(v: bv32): (b: seq<byte>)
    ensures |b| == 4
  {
    var n := v as int;
    [n % 0x100, n / 0x100 % 0x100, n / 0x1_0000 % 0x100, n / 0x100_0000 % 0x100]
  }

  function Output(r: Regs): (b: seq<byte>)
    ensures |b| == 16
  {
    WordBytes(r.a) + WordBytes(r.b) + WordBytes(r.c) + WordBytes(r.d)
  }

  // ----- padding -----

  function Le(n: nat, octets: nat): (b: seq<byte>)
    ensures |b| == octets
  {
    if octets == 0 then [] else [n % 0x100] + Le(n / 0x100, octets - 1)
  }

  /** The zeros that bring a message of n bytes and the byte behind it to 56 modulo 64. */
  function Zeros(n: nat): (k: nat)
    ensures k < 64 && (n + 1 + k) % 64 == 56
  {
    (55 - n) % 64
  }

  /** The low 64 bits of the message's length in bits. */
  function BitLength(n: nat): nat {
    8 * n % 0x1_0000_0000_0000_0000
  }

  function Padded(m: seq<byte>): (p: seq<byte>)
    ensures |p| == |m| + 1 + Zeros(|m|) + 8
  {
    m + [0x80] + Repeat(0, Zeros(|m|)) + Le(BitLength(|m|), 8)
  }

  lemma PaddedLength(m: seq<byte>)
    ensures |Padded(m)| % 64 == 0
  {
    hide Zeros, Padded;
    var n := |m| + 1 + Zeros(|m|);
    assert n % 64 == 56 ==> (n + 8) % 64 == 0;
  }

  function Digest(m: seq<byte>): seq<byte> {
    PaddedLength(m);
    Output(Blocks(Padded(m), |Padded(m)| / 64, START))
  }

  lemma {:induction false} LeInjective(a: nat, b: nat, octets: nat)
    requires Le(a, octets) == Le(b, octets) && a < Power256(octets) && b < Power256(octets)
    ensures a == b
  {
    if octets > 0 {
      var s, t := Le(a, octets), Le(b, octets);
      assert s[0] == t[0] && s[1..] == t[1..];
      LeInjective(a / 0x100, b / 0x100, octets - 1);
    }
  }

  /** The message and its bit length stand at the two ends of its padding. */
  lemma PaddedEnds(m: seq<byte>)
    ensures var p := Padded(m);
            && |m| + 9 <= |p| < |m| + 73
            && p[..|m|] == m && p[|p| - 8..] == Le(BitLength(|m|), 8)
  {
    hide Le, Repeat, BitLength, Zeros;
  }

  lemma Power256Eight()
    ensures Power256(8) == 0x1_0000_0000_0000_0000
  {
    assert Power256(4) == 0x1_0000_0000;
  }

  /** Lengths that are close together have different bit lengths, although these are cut to 64 bits. */
  lemma CloseLengths(a: nat, b: nat)
    requires BitLength(a) == BitLength(b) && -64 < a - b < 64
    ensures a == b
  {
    var q, r := 8 * a / 0x1_0000_0000_0000_0000, 8 * b / 0x1_0000_0000_0000_0000;
    assert 8 * a == q * 0x1_0000_0000_0000_0000 + BitLength(a);
    assert 8 * b == r * 0x1_0000_0000_0000_0000 + BitLength(b);
    assert 8 * (a - b) == (q - r) * 0x1_0000_0000_0000_0000;
  }

  /** Different messages are padded differently, whatever their lengths. */
  lemma PaddingInjective(m: seq<byte>, n: seq<byte>)
    requires Padded(m) == Padded(n)
    ensures m == n
  {
    PaddedEnds(m);
    PaddedEnds(n);
    Power256Eight();
    hide *;
    LeInjective(BitLength(|m|), BitLength(|n|), 8) by {
      BitLengthFits(|m|);
      BitLengthFits(|n|);
    }
    CloseLengths(|m|, |n|);
  }

  lemma BitLengthFits(n: nat)
    ensures BitLength(n) < 0x1_0000_0000_0000_0000
  {
  }

  // ----- the unrolled form -----

  /** What four operations in a row do: each register is written once. */
  function FourAt(x: Block, round: nat, j: nat, r: Regs): Regs
    requires round < 3 && j % 4 == 0 && j + 4 <= 16
  {
    var a := Mixed(round, r.a, r.b, r.c, r.d, x[WordOf(round, j)], ShiftOf(round, 0));
    var d := Mixed(round, r.d, a, r.b, r.c, x[WordOf(round, j + 1)], ShiftOf(round, 1));
    var c := Mixed(round, r.c, d, a, r.b, x[WordOf(round, j + 2)], ShiftOf(round, 2));
    var b := Mixed(round, r.b, c, d, a, x[WordOf(round, j + 3)], ShiftOf(round, 3));
    Regs(a, b, c, d)
  }

  lemma FourOperations(x: Block, round: nat, j: nat, r: Regs)
    requires round < 3 && j % 4 == 0 && j + 4 <= 16
    ensures Operations(x, round, j, j + 4, r) == FourAt(x, round, j, r)
  {
    hide Mixed, ShiftOf, WordOf;
    var r1 := Operation(x, round, j, r);
    var r2 := Operation(x, round, j + 1, r1);
    var r3 := Operation(x, round, j + 2, r2);
    Chain(x, round, j, r, r1, r2, r3);
  }

  lemma Chain(x: Block, round: nat, j: nat, r: Regs, r1: Regs, r2: Regs, r3: Regs)
    requires round < 3 && j + 4 <= 16 && r1 == Operation(x, round, j, r)
    requires r2 == Operation(x, round, j + 1, r1) && r3 == Operation(x, round, j + 2, r2)
    ensures Operations(x, round, j, j + 4, r) == Operation(x, round, j + 3, r3)
  {
    hide Operation;
    assert Operations(x, round, j + 3, j + 4, r3) == Operation(x, round, j + 3, r3);
    assert Operations(x, round, j + 2, j + 4, r2) == Operations(x, round, j + 3, j + 4, r3);
    assert Operations(x, round, j + 1, j + 4, r1) == Operations(x, round, j + 2, j + 4, r2);
  }

  lemma {:induction false} OperationsSplit(x: Block, round: nat, j: nat, mid: nat, end: nat, r: Regs)
    requires round < 3 && j <= mid <= end <= 16
    ensures Operations(x, round, j, end, r) == Operations(x, round, mid, end, Operations(x, round, j, mid, r))
    decreases mid - j
  {
    hide Operation;
    if j < mid {
      OperationsSplit(x, round, j + 1, mid, end, Operation(x, round, j, r));
    }
  }

  /** The next four operations of a round that has come to register values r. */
  lemma Quad(x: Block, round: nat, j: nat, start: Regs, r: Regs)
    requires round < 3 && j % 4 == 0 && j + 4 <= 16 && r == Operations(x, round, 0, j, start)
    ensures Operations(x, round, 0, j + 4, start) == FourAt(x, round, j, r)
  {
    hide *;
    FourOperations(x, round, j, r);
    OperationsSplit(x, round, 0, j, j + 4, start);
  }

  function R1(x: Block, a: bv32, b: bv32, c: bv32, d: bv32, k: Index, s: Amount): bv32 {
    RotateLeft(a + F(b, c, d) + x[k], s)
  }

  function R2(x: Block, a: bv32, b: bv32, c: bv32, d: bv32, k: Index, s: Amount): bv32 {
    RotateLeft(a + G(b, c, d) + x[k] + 0x5A82_7999, s)
  }

  function R3(x: Block, a: bv32, b: bv32, c: bv32, d: bv32, k: Index, s: Amount): bv32 {
    RotateLeft(a + H(b, c, d) + x[k] + 0x6ED9_EBA1, s)
  }

  /** Register values after four operations given word by word. */
  function FourBy(x: Block, round: nat, r: Regs, k0: Index, k1: Index, k2: Index, k3: Index,
                  s0: Amount, s1: Amount, s2: Amount, s3: Amount): Regs
    requires round < 3
  {
    var a := Mixed(round, r.a, r.b, r.c, r.d, x[k0], s0);
    var d := Mixed(round, r.d, a, r.b, r.c, x[k1], s1);
    var c := Mixed(round, r.c, d, a, r.b, x[k2], s2);
    var b := Mixed(round, r.b, c, d, a, x[k3], s3);
    Regs(a, b, c, d)
  }

  /** Four lines of the unrolled round 1, by the words they take. */
  function Lines1(x: Block, r: Regs, k0: Index, k1: Index, k2: Index, k3: Index): Regs {
    var a := R1(x, r.a, r.b, r.c, r.d, k0, 3);
    var d := R1(x, r.d, a, r.b, r.c, k1, 7);
    var c := R1(x, r.c, d, a, r.b, k2, 11);
    var b := R1(x, r.b, c, d, a, k3, 19);
    Regs(a, b, c, d)
  }

  lemma Line1(x: Block, a: bv32, b: bv32, c: bv32, d: bv32, k: Index, s: Amount)
    ensures R1(x, a, b, c, d, k, s) == Mixed(0, a, b, c, d, x[k], s)
  {
    hide RotateLeft, F, G, H;
  }

  lemma LinesMix1(x: Block, r: Regs, k0: Index, k1: Index, k2: Index, k3: Index)
    ensures Lines1(x, r, k0, k1, k2, k3) == FourBy(x, 0, r, k0, k1, k2, k3, 3, 7, 11, 19)
  {
    var a := R1(x, r.a, r.b, r.c, r.d, k0, 3);
    var d := R1(x, r.d, a, r.b, r.c, k1, 7);
    var c := R1(x, r.c, d, a, r.b, k2, 11);
    Line1(x, r.a, r.b, r.c, r.d, k0, 3);
    Line1(x, r.d, a, r.b, r.c, k1, 7);
    Line1(x, r.c, d, a, r.b, k2, 11);
    Line1(x, r.b, c, d, a, k3, 19);
    hide R1, Mixed;
  }

  lemma Table1(x: Block, j: nat, r: Regs)
    requires j == 0 || j == 4 || j == 8 || j == 12
    ensures j == 0 ==> FourAt(x, 0, 0, r) == Lines1(x, r, 0, 1, 2, 3)
    ensures j == 4 ==> FourAt(x, 0, 4, r) == Lines1(x, r, 4, 5, 6, 7)
    ensures j == 8 ==> FourAt(x, 0, 8, r) == Lines1(x, r, 8, 9, 10, 11)
    ensures j == 12 ==> FourAt(x, 0, 12, r) == Lines1(x, r, 12, 13, 14, 15)
  {
    hide Mixed, Lines1;
    match j {
      case 0 => LinesMix1(x, r, 0, 1, 2, 3);
      case 4 => LinesMix1(x, r, 4, 5, 6, 7);
      case 8 => LinesMix1(x, r, 8, 9, 10, 11);
      case _ => LinesMix1(x, r, 12, 13, 14, 15);
    }
  }

  /** Four lines of the unrolled round 2, by the words they take. */
  function Lines2(x: Block, r: Regs, k0: Index, k1: Index, k2: Index, k3: Index): Regs {
    var a := R2(x, r.a, r.b, r.c, r.d, k0, 3);
    var d := R2(x, r.d, a, r.b, r.c, k1, 5);
    var c := R2(x, r.c, d, a, r.b, k2, 9);
    var b := R2(x, r.b, c, d, a, k3, 13);
    Regs(a, b, c, d)
  }

  lemma Line2(x: Block, a: bv32, b: bv32, c: bv32, d: bv32, k: Index, s: Amount)
    ensures R2(x, a, b, c, d, k, s) == Mixed(1, a, b, c, d, x[k], s)
  {
    hide RotateLeft, F, G, H;
  }

  lemma LinesMix2(x: Block, r: Regs, k0: Index, k1: Index, k2: Index, k3: Index)
    ensures Lines2(x, r, k0, k1, k2, k3) == FourBy(x, 1, r, k0, k1, k2, k3, 3, 5, 9, 13)
  {
    var a := R2(x, r.a, r.b, r.c, r.d, k0, 3);
    var d := R2(x, r.d, a, r.b, r.c, k1, 5);
    var c := R2(x, r.c, d, a, r.b, k2, 9);
    Line2(x, r.a, r.b, r.c, r.d, k0, 3);
    Line2(x, r.d, a, r.b, r.c, k1, 5);
    Line2(x, r.c, d, a, r.b, k2, 9);
    Line2(x, r.b, c, d, a, k3, 13);
    hide R2, Mixed;
  }

  lemma Table2(x: Block, j: nat, r: Regs)
    requires j == 0 || j == 4 || j == 8 || j == 12
    ensures j == 0 ==> FourAt(x, 1, 0, r) == Lines2(x, r, 0, 4, 8, 12)
    ensures j == 4 ==> FourAt(x, 1, 4, r) == Lines2(x, r, 1, 5, 9, 13)
    ensures j == 8 ==> FourAt(x, 1, 8, r) == Lines2(x, r, 2, 6, 10, 14)
    ensures j == 12 ==> FourAt(x, 1, 12, r) == Lines2(x, r, 3, 7, 11, 15)
  {
    hide Mixed, Lines2;
    match j {
      case 0 => LinesMix2(x, r, 0, 4, 8, 12);
      case 4 => LinesMix2(x, r, 1, 5, 9, 13);
      case 8 => LinesMix2(x, r, 2, 6, 10, 14);
      case _ => LinesMix2(x, r, 3, 7, 11, 15);
    }
  }

  /** Four lines of the unrolled round 3, by the words they take. */
  function Lines3(x: Block, r: Regs, k0: Index, k1: Index, k2: Index, k3: Index): Regs {
    var a := R3(x, r.a, r.b, r.c, r.d, k0, 3);
    var d := R3(x, r.d, a, r.b, r.c, k1, 9);
    var c := R3(x, r.c, d, a, r.b, k2, 11);
    var b := R3(x, r.b, c, d, a, k3, 15);
    Regs(a, b, c, d)
  }

  lemma Line3(x: Block, a: bv32, b: bv32, c: bv32, d: bv32, k: Index, s: Amount)
    ensures R3(x, a, b, c, d, k, s) == Mixed(2, a, b, c, d, x[k], s)
  {
    hide RotateLeft, F, G, H;
  }

  lemma LinesMix3(x: Block, r: Regs, k0: Index, k1: Index, k2: Index, k3: Index)
    ensures Lines3(x, r, k0, k1, k2, k3) == FourBy(x, 2, r, k0, k1, k2, k3, 3, 9, 11, 15)
  {
    var a := R3(x, r.a, r.b, r.c, r.d, k0, 3);
    var d := R3(x, r.d, a, r.b, r.c, k1, 9);
    var c := R3(x, r.c, d, a, r.b, k2, 11);
    Line3(x, r.a, r.b, r.c, r.d, k0, 3);
    Line3(x, r.d, a, r.b, r.c, k1, 9);
    Line3(x, r.c, d, a, r.b, k2, 11);
    Line3(x, r.b, c, d, a, k3, 15);
    hide R3, Mixed;
  }

  lemma Table3(x: Block, j: nat, r: Regs)
    requires j == 0 || j == 4 || j == 8 || j == 12
    ensures j == 0 ==> FourAt(x, 2, 0, r) == Lines3(x, r, 0, 8, 4, 12)
    ensures j == 4 ==> FourAt(x, 2, 4, r) == Lines3(x, r, 2, 10, 6, 14)
    ensures j == 8 ==> FourAt(x, 2, 8, r) == Lines3(x, r, 1, 9, 5, 13)
    ensures j == 12 ==> FourAt(x, 2, 12, r) == Lines3(x, r, 3, 11, 7, 15)
  {
    hide Mixed, Lines3;
    match j {
      case 0 => LinesMix3(x, r, 0, 8, 4, 12);
      case 4 => LinesMix3(x, r, 2, 10, 6, 14);
      case 8 => LinesMix3(x, r, 1, 9, 5, 13);
      case _ => LinesMix3(x, r, 3, 11, 7, 15);
    }
  }

  method Round1(x: Block, start: Regs) returns (a: bv32, b: bv32, c: bv32, d: bv32)
    ensures Regs(a, b, c, d) == Operations(x, 0, 0, 16, start)
  {
    hide Mixed, RotateLeft, F, G, H, R1, R2, R3, FourAt;
    a, b, c, d := start.a, start.b, start.c, start.d;
    assert start == Operations(x, 0, 0, 0, start);
    hide Operations;
    Quad(x, 0, 0, start, Regs(a, b, c, d));
    Table1(x, 0, Regs(a, b, c, d));
    a := R1(x, a, b, c, d, 0, 3);
    d := R1(x, d, a, b, c, 1, 7);
    c := R1(x, c, d, a, b, 2, 11);
    b := R1(x, b, c, d, a, 3, 19);
    Quad(x, 0, 4, start, Regs(a, b, c, d));
    Table1(x, 4, Regs(a, b, c, d));
    a := R1(x, a, b, c, d, 4, 3);
    d := R1(x, d, a, b, c, 5, 7);
    c := R1(x, c, d, a, b, 6, 11);
    b := R1(x, b, c, d, a, 7, 19);
    Quad(x, 0, 8, start, Regs(a, b, c, d));
    Table1(x, 8, Regs(a, b, c, d));
    a := R1(x, a, b, c, d, 8, 3);
    d := R1(x, d, a, b, c, 9, 7);
    c := R1(x, c, d, a, b, 10, 11);
    b := R1(x, b, c, d, a, 11, 19);
    Quad(x, 0, 12, start, Regs(a, b, c, d));
    Table1(x, 12, Regs(a, b, c, d));
    a := R1(x, a, b, c, d, 12, 3);
    d := R1(x, d, a, b, c, 13, 7);
    c := R1(x, c, d, a, b, 14, 11);
    b := R1(x, b, c, d, a, 15, 19);
  }

  method Round2(x: Block, start: Regs) returns (a: bv32, b: bv32, c: bv32, d: bv32)
    ensures Regs(a, b, c, d) == Operations(x, 1, 0, 16, start)
  {
    hide Mixed, RotateLeft, F, G, H, R1, R2, R3, FourAt;
    a, b, c, d := start.a, start.b, start.c, start.d;
    assert start == Operations(x, 1, 0, 0, start);
    hide Operations;
    Quad(x, 1, 0, start, Regs(a, b, c, d));
    Table2(x, 0, Regs(a, b, c, d));
    a := R2(x, a, b, c, d, 0, 3);
    d := R2(x, d, a, b, c, 4, 5);
    c := R2(x, c, d, a, b, 8, 9);
    b := R2(x, b, c, d, a, 12, 13);
    Quad(x, 1, 4, start, Regs(a, b, c, d));
    Table2(x, 4, Regs(a, b, c, d));
    a := R2(x, a, b, c, d, 1, 3);
    d := R2(x, d, a, b, c, 5, 5);
    c := R2(x, c, d, a, b, 9, 9);
    b := R2(x, b, c, d, a, 13, 13);
    Quad(x, 1, 8, start, Regs(a, b, c, d));
    Table2(x, 8, Regs(a, b, c, d));
    a := R2(x, a, b, c, d, 2, 3);
    d := R2(x, d, a, b, c, 6, 5);
    c := R2(x, c, d, a, b, 10, 9);
    b := R2(x, b, c, d, a, 14, 13);
    Quad(x, 1, 12, start, Regs(a, b, c, d));
    Table2(x, 12, Regs(a, b, c, d));
    a := R2(x, a, b, c, d, 3, 3);
    d := R2(x, d, a, b, c, 7, 5);
    c := R2(x, c, d, a, b, 11, 9);
    b := R2(x, b, c, d, a, 15, 13);
  }

  method Round3(x: Block, start: Regs) returns (a: bv32, b: bv32, c: bv32, d: bv32)
    ensures Regs(a, b, c, d) == Operations(x, 2, 0, 16, start)
  {
    hide Mixed, RotateLeft, F, G, H, R1, R2, R3, FourAt;
    a, b, c, d := start.a, start.b, start.c, start.d;
    assert start == Operations(x, 2, 0, 0, start);
    hide Operations;
    Quad(x, 2, 0, start, Regs(a, b, c, d));
    Table3(x, 0, Regs(a, b, c, d));
    a := R3(x, a, b, c, d, 0, 3);
    d := R3(x, d, a, b, c, 8, 9);
    c := R3(x, c, d, a, b, 4, 11);
    b := R3(x, b, c, d, a, 12, 15);
    Quad(x, 2, 4, start, Regs(a, b, c, d));
    Table3(x, 4, Regs(a, b, c, d));
    a := R3(x, a, b, c, d, 2, 3);
    d := R3(x, d, a, b, c, 10, 9);
    c := R3(x, c, d, a, b, 6, 11);
    b := R3(x, b, c, d, a, 14, 15);
    Quad(x, 2, 8, start, Regs(a, b, c, d));
    Table3(x, 8, Regs(a, b, c, d));
    a := R3(x, a, b, c, d, 1, 3);
    d := R3(x, d, a, b, c, 9, 9);
    c := R3(x, c, d, a, b, 5, 11);
    b := R3(x, b, c, d, a, 13, 15);
    Quad(x, 2, 12, start, Regs(a, b, c, d));
    Table3(x, 12, Regs(a, b, c, d));
    a := R3(x, a, b, c, d, 3, 3);
    d := R3(x, d, a, b, c, 11, 9);
    c := R3(x, c, d, a, b, 7, 11);
    b := R3(x, b, c, d, a, 15, 15);
  }

  /** The unrolled loop body over one block. */
  method Compress(x: Block, r: Regs) returns (s: Regs)
    ensures s == BlockStep(x, r)
  {
    hide Operations, Sum;
    var a, b, c, d := Round1(x, r);
    a, b, c, d := Round2(x, Regs(a, b, c, d));
    a, b, c, d := Round3(x, Regs(a, b, c, d));
    s := Regs(Sum(a, r.a), Sum(b, r.b), Sum(c, r.c), Sum(d, r.d));
  }

  method Pad(data: seq<byte>) returns (padded: seq<byte>)
    ensures padded == Padded(data)
  {
    padded := data + [0x80];
    ghost var k := 0;
    while |padded| % 64 != 56
      invariant k <= Zeros(|data|) && padded == data + [0x80] + Repeat(0, k)
      decreases Zeros(|data|) - k
    {
      PaddingGoesOn(|data|, k);
      padded := padded + [0];
      assert Repeat(0, k) + [0] == Repeat(0, k + 1);
      k := k + 1;
    }
    PaddingEnds(|data|, k);
    padded := padded + Le(BitLength(|data|), 8);
  }

  lemma PaddingGoesOn(n: nat, k: nat)
    requires k <= Zeros(n) && (n + 1 + k) % 64 != 56
    ensures k < Zeros(n)
  {
  }

  lemma PaddingEnds(n: nat, k: nat)
    requires k <= Zeros(n) && (n + 1 + k) % 64 == 56
    ensures k == Zeros(n)
  {
  }

  /** How many blocks the padded message has. */
  function BlockCount(m: seq<byte>): (n: nat)
    ensures |Padded(m)| == 64 * n
  {
    PaddedLength(m);
    |Padded(m)| / 64
  }

  lemma {:induction false} BlocksStep(s: seq<byte>, n: nat, r: Regs)
    requires |s| == 64 * n && n > 0
    ensures |s[64..]| == 64 * (n - 1)
    ensures Blocks(s, n, r) == Blocks(s[64..], n - 1, BlockStep(FirstBlock(s), r))
  {
    hide BlockStep, FirstBlock;
  }

  lemma BlocksEnd(s: seq<byte>, r: Regs)
    requires s == []
    ensures Blocks(s, 0, r) == r
  {
  }

  lemma DigestIs(m: seq<byte>)
    ensures Digest(m) == Output(Blocks(Padded(m), BlockCount(m), START))
  {
  }

  lemma WordInSlice(s: seq<byte>, off: nat, i: nat)
    requires off + i + 4 <= |s|
    ensures WordAt(s[off + i..off + i + 4], 0) == WordAt(s[off..], i)
  {
    var w := s[off + i..off + i + 4];
    assert w[0] == s[off..][i] && w[1] == s[off..][i + 1] && w[2] == s[off..][i + 2] && w[3] == s[off..][i + 3];
  }

  method LoadBlock(padded: seq<byte>, off: nat) returns (x: Block)
    requires off + 64 <= |padded|
    ensures x == FirstBlock(padded[off..])
  {
    var words: seq<bv32> := [];
    hide WordAt;
    for i := 0 to 16
      invariant |words| == i && forall k :: 0 <= k < i ==> words[k] == WordAt(padded[off..], 4 * k)
    {
      WordInSlice(padded, off, i * 4);
      words := words + [WordAt(padded[off + i * 4..off + i * 4 + 4], 0)];
    }
    x := words;
  }

  /** The digest is that of RFC 1320 for messages of every length. */
  method Md4Sum(data: seq<byte>) returns (out: seq<byte>)
    ensures out == Digest(data)
  {
    hide *;
    var padded := Pad(data);
    ghost var n := BlockCount(data);
    DigestIs(data);
    var r := START;
    var off := 0;
    ghost var left := n;
    assert padded[off..] == padded;
    while off < |padded|
      invariant off + 64 * left == |padded| && Blocks(padded[off..], left, r) == Blocks(padded, n, START)
      decreases |padded| - off
    {
      BlocksStep(padded[off..], left, r);
      assert padded[off..][64..] == padded[off + 64..];
      var x := LoadBlock(padded, off);
      r := Compress(x, r);
      off := off + 64;
      left := left - 1;
    }
    BlocksEnd(padded[off..], r);
    assert left == 0;
    out := Output(r);
  }
}
