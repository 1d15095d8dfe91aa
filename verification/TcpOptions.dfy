/** TCP option lists as section 3.2 of RFC 9293 and section 3.2 of RFC 7323 lay them out. */
module TcpOptions {
  import opened Bytes

  const EOL: byte := 0
  const NOP: byte := 1
  const MSS: byte := 2
  const WSCALE: byte := 3
  const SACK_PERM: byte := 4
  const TIMESTAMP: byte := 8
  const TIMESTAMP_LEN: byte := 10

  /** One option. Other stands for any kind/length pair that is none of the named ones. */
  datatype Opt =
    | Eol
    | Nop
    | Mss(mss: uint16)
    | WScale(shift: byte)
    | SackPerm
    | Timestamp(tsval: uint32, tsecr: uint32)
    | Other(kind: byte, body: seq<byte>)

  predicate ValidOpt(o: Opt) {
    o.Other? ==>
      && o.kind > NOP
      && |o.body| <= 253
      && (o.kind == MSS ==> |o.body| != 2)
      && (o.kind == WSCALE ==> |o.body| != 1)
      && (o.kind == SACK_PERM ==> |o.body| != 0)
      && (o.kind == TIMESTAMP ==> |o.body| != 8)
  }

  /** An end-of-list option is followed by padding only. */
  predicate ValidList(l: seq<Opt>) {
    && (forall i :: 0 <= i < |l| ==> ValidOpt(l[i]))
    && (forall i, j :: 0 <= i < j < |l| && l[i].Eol? ==> l[j].Eol?)
  }

  function Encode1(o: Opt): (b: seq<byte>)
    requires ValidOpt(o)
    ensures |b| >= 1
  {
    match o
    case Eol => [EOL]
    case Nop => [NOP]
    case Mss(v) => [MSS, 4] + Enc16(v)
    case WScale(n) => [WSCALE, 3, n]
    case SackPerm => [SACK_PERM, 2]
    case Timestamp(v, e) => [TIMESTAMP, TIMESTAMP_LEN] + Enc32(v) + Enc32(e)
    case Other(k, body) => [k, |body| + 2] + body
  }

  function Encode(l: seq<Opt>): seq<byte>
    requires ValidList(l)
  {
    if l == [] then [] else Encode1(l[0]) + Encode(l[1..])
  }

  /** The option that starts a non-empty block, given that its kind and length fit. */
  function Decode1(kind: byte, body: seq<byte>): (o: Opt)
    requires kind > NOP && |body| <= 253
    ensures ValidOpt(o) && Encode1(o) == [kind, |body| + 2] + body
  {
    if kind == MSS && |body| == 2 then Dec16RoundTrip(body, 0); Mss(Dec16(body, 0))
    else if kind == WSCALE && |body| == 1 then WScale(body[0])
    else if kind == SACK_PERM && |body| == 0 then SackPerm
    else if kind == TIMESTAMP && |body| == 8 then
      Dec32RoundTrip(body, 0);
      Dec32RoundTrip(body, 4);
      Timestamp(Dec32(body, 0), Dec32(body, 4))
    else Other(kind, body)
  }

  /** The reader a peer runs: None when an option runs past the block or padding is not zero. */
  function Parse(b: seq<byte>): (r: Option<seq<Opt>>)
    ensures r.Some? ==> ValidList(r.value)
    ensures r.Some? && |b| > 0 && b[0] == EOL ==> forall i :: 0 <= i < |r.value| ==> r.value[i].Eol?
  {
    if b == [] then Some([])
    else if b[0] == EOL then
      var rest := Parse(b[1..]);
      if rest.None? || (|b| > 1 && b[1] != EOL) then None else Some([Eol] + rest.value)
    else if b[0] == NOP then
      var rest := Parse(b[1..]);
      if rest.None? then None else Some([Nop] + rest.value)
    else if |b| < 2 || b[1] < 2 || b[1] > |b| then None
    else
      var rest := Parse(b[b[1]..]);
      if rest.None? then None else Some([Decode1(b[0], b[2..b[1]])] + rest.value)
  }

  lemma EncodeCons(o: Opt, l: seq<Opt>)
    requires ValidOpt(o) && ValidList([o] + l) && ValidList(l)
    ensures Encode([o] + l) == Encode1(o) + Encode(l)
  {
    assert ([o] + l)[1..] == l;
  }

  lemma {:induction false} ParseSound(b: seq<byte>)
    requires Parse(b).Some?
    ensures Encode(Parse(b).value) == b
  {
    if b == [] {
    } else if b[0] <= NOP {
      ParseSound(b[1..]);
      EncodeCons(if b[0] == EOL then Eol else Nop, Parse(b[1..]).value);
      assert b == [b[0]] + b[1..];
    } else {
      ParseSound(b[b[1]..]);
      var o := Decode1(b[0], b[2..b[1]]);
      var rest := Parse(b[b[1]..]).value;
      assert Parse(b).value == [o] + rest;
      EncodeCons(o, rest);
      assert Encode1(o) == [b[0], b[1]] + b[2..b[1]];
      SplitAt(b, b[1]);
    }
  }

  lemma SplitAt(b: seq<byte>, n: nat)
    requires 2 <= n <= |b|
    ensures b == [b[0], b[1]] + b[2..n] + b[n..]
  {
  }

  /** The header bytes every encoded option starts with. */
  lemma Encode1Shape(o: Opt)
    requires ValidOpt(o)
    ensures o.Eol? ==> Encode1(o) == [EOL]
    ensures o.Nop? ==> Encode1(o) == [NOP]
    ensures !o.Eol? && !o.Nop? ==>
              Encode1(o)[0] > NOP && 2 <= |Encode1(o)| <= 255 && Encode1(o)[1] == |Encode1(o)|
  {
  }

  lemma {:induction false} ParseComplete(l: seq<Opt>)
    requires ValidList(l)
    ensures Parse(Encode(l)) == Some(l)
  {
    hide Encode1, Decode1;
    if l != [] {
      var b, e, rest := Encode(l), Encode1(l[0]), Encode(l[1..]);
      ParseComplete(l[1..]);
      Encode1Shape(l[0]);
      assert b == e + rest && b[0] == e[0] && b[|e|..] == rest;
      if l[0].Eol? {
        if |l| > 1 {
          assert l[1].Eol?;
          Encode1Shape(l[1]);
          assert rest[0] == EOL;
        }
      } else if !l[0].Nop? {
        assert b[1] == e[1];
        assert b[2..b[1]] == e[2..];
        Decode1Inverse(l[0]);
      }
      assert l == [l[0]] + l[1..];
    }
  }

  lemma Decode1Inverse(o: Opt)
    requires ValidOpt(o) && !o.Eol? && !o.Nop?
    ensures Decode1(Encode1(o)[0], Encode1(o)[2..]) == o
  {
    var body := Encode1(o)[2..];
    match o
    case Timestamp(v, e) =>
      Enc32RoundTrip(v);
      Enc32RoundTrip(e);
      assert body == Enc32(v) + Enc32(e);
      assert body[0..4] == Enc32(v) && body[4..8] == Enc32(e);
      Dec32Slice(body, 0, 4, 0);
      Dec32Slice(body, 4, 8, 0);
    case Mss(v) =>
      Enc16RoundTrip(v);
    case Other(k, bd) => assert body == bd;
    case _ =>
  }

  lemma {:induction false} EncodeAppend(a: seq<Opt>, b: seq<Opt>)
    requires ValidList(a) && ValidList(b) && ValidList(a + b)
    ensures Encode(a + b) == Encode(a) + Encode(b)
  {
    hide Encode1, ValidOpt;
    if a == [] {
      assert a + b == b;
    } else {
      assert (a + b)[1..] == a[1..] + b;
      EncodeAppend(a[1..], b);
    }
  }

  /** The timestamp a receiver takes from an option list: the first one before any end-of-list. */
  function FirstTimestamp(l: seq<Opt>): (t: Option<Opt>)
    ensures t.Some? ==> t.value.Timestamp?
  {
    if l == [] || l[0].Eol? then None
    else if l[0].Timestamp? then Some(l[0])
    else FirstTimestamp(l[1..])
  }

  /** What scanSynTimestamp's loop decides from position i on. */
  function Scan(b: seq<byte>, i: nat): Option<uint32>
    requires i <= |b|
    decreases |b| - i
  {
    if i == |b| || b[i] == EOL then None
    else if b[i] == NOP then Scan(b, i + 1)
    else if i + 2 > |b| || b[i + 1] < 2 || i + b[i + 1] > |b| then None
    else if b[i] == TIMESTAMP && b[i + 1] == TIMESTAMP_LEN then Some(Dec32(b, i + 2))
    else Scan(b, i + b[i + 1])
  }

  method ScanSynTimestamp(pkt: array<byte>, lo: nat, hi: nat) returns (had: bool, tsval: uint32)
    requires lo <= hi <= pkt.Length
    ensures had == Scan(pkt[lo..hi], 0).Some?
    ensures tsval == if had then Scan(pkt[lo..hi], 0).value else 0
  {
    ghost var b := pkt[lo..hi];
    var i := lo;
    while i + 1 <= hi
      invariant lo <= i <= hi
      invariant Scan(b, 0) == Scan(b, i - lo)
    {
      if pkt[i] == EOL {
        return false, 0;
      }
      if pkt[i] == NOP {
        i := i + 1;
        continue;
      }
      if i + 2 > hi {
        return false, 0;
      }
      var olen := pkt[i + 1];
      if olen < 2 || i + olen > hi {
        return false, 0;
      }
      if pkt[i] == TIMESTAMP && olen == TIMESTAMP_LEN {
        Dec32Slice(pkt[..], lo, hi, i - lo + 2);
        assert pkt[..][lo..hi] == b;
        return true, Dec32(pkt[..], i + 2);
      }
      i := i + olen;
    }
    return false, 0;
  }

  lemma TimestampBytes(v: uint32, e: uint32)
    ensures |Encode1(Timestamp(v, e))| == 10
    ensures Encode1(Timestamp(v, e))[..2] == [TIMESTAMP, TIMESTAMP_LEN]
    ensures Encode1(Timestamp(v, e))[2..6] == Enc32(v)
    ensures Encode1(Timestamp(v, e))[6..10] == Enc32(e)
  {
  }

  lemma NotTimestampBytes(o: Opt)
    requires ValidOpt(o) && !o.Timestamp? && |Encode1(o)| >= 2
    ensures !(Encode1(o)[0] == TIMESTAMP && Encode1(o)[1] == TIMESTAMP_LEN)
  {
  }

  /** One turn of the scan over an option that lies at position i. */
  lemma ScanOne(b: seq<byte>, i: nat, o: Opt)
    requires ValidOpt(o) && i + |Encode1(o)| <= |b| && b[i..i + |Encode1(o)|] == Encode1(o)
    ensures Scan(b, i) == if o.Eol? then None else if o.Timestamp? then Some(o.tsval)
                          else Scan(b, i + |Encode1(o)|)
  {
    hide Encode1, Enc32, Dec32;
    var e := Encode1(o);
    Encode1Shape(o);
    assert b[i] == e[0];
    if |e| > 1 {
      assert b[i + 1] == e[1];
      if o.Timestamp? {
        TimestampBytes(o.tsval, o.tsecr);
        assert e[0] == e[..2][0] && e[1] == e[..2][1];
        SubSlice(b, i, e, 2, 6);
        Dec32Slice(b, i + 2, i + 6, 0);
        Enc32RoundTrip(o.tsval);
      } else {
        NotTimestampBytes(o);
      }
    }
  }

  lemma ScanEnd(b: seq<byte>)
    ensures Scan(b, |b|) == None
  {
  }

  lemma {:induction false} ScanEncode(pre: seq<byte>, l: seq<Opt>)
    requires ValidList(l)
    ensures Scan(pre + Encode(l), |pre|) ==
            match FirstTimestamp(l) case None => None case Some(t) => Some(t.tsval)
    decreases |l|
  {
    hide Encode1, ValidOpt, Scan, Dec32, Enc32;
    if l == [] {
      ScanEnd(pre + Encode(l));
    } else {
      var e := Encode1(l[0]);
      var b := pre + Encode(l);
      assert b == (pre + e) + Encode(l[1..]);
      ScanEncode(pre + e, l[1..]);
      assert b[|pre|..|pre| + |e|] == e;
      ScanOne(b, |pre|, l[0]);
    }
  }

  /** scanSynTimestamp reads from a legal block exactly the timestamp a receiver would. */
  lemma ScanLegal(l: seq<Opt>)
    requires ValidList(l)
    ensures Scan(Encode(l), 0) == match FirstTimestamp(l) case None => None case Some(t) => Some(t.tsval)
  {
    ScanEncode([], l);
    assert [] + Encode(l) == Encode(l);
  }
}
