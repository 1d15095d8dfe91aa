/** CredSSP PDUs on a byte stream: TPKT-wrapped (section 6 of RFC 1006) or raw ASN.1. */
module Tpkt {
  import opened Bytes
  import opened Asn1

  const VERSION: byte := 3

  datatype Pdu = Pdu(payload: seq<byte>, wrapped: bool)

  // ----- streams -----

  /** What is still to be read. */
  class Reader {
    var rest: seq<byte>

    constructor (data: seq<byte>)
      ensures rest == data
    {
      rest := data;
    }

    /** io.ReadFull: all n bytes, or an error when fewer are left. */
    method ReadFull(n: nat) returns (ok: bool, bytes: seq<byte>)
      modifies this
      ensures ok == (n <= |old(rest)|)
      ensures ok ==> bytes == old(rest)[..n] && rest == old(rest)[n..]
    {
      if n <= |rest| {
        bytes := rest[..n];
        rest := rest[n..];
        ok := true;
      } else {
        ok, bytes, rest := false, [], [];
      }
    }
  }

  /** What has been written. */
  class Writer {
    var written: seq<byte>

    constructor ()
      ensures written == []
    {
      written := [];
    }

    method Write(bytes: seq<byte>)
      modifies this
      ensures written == old(written) + bytes
    {
      written := written + bytes;
    }
  }

  // ----- writing -----

  function TpktHeader(n: nat): seq<byte> {
    [VERSION, 0, n / 0x100 % 0x100, n % 0x100]
  }

  /** The bytes of one PDU; None when it is too long to wrap. */
  function Framed(p: Pdu): Option<seq<byte>> {
    if !p.wrapped then Some(p.payload)
    else if |p.payload| + 4 > 0xFFFF then None
    else Some(TpktHeader(|p.payload| + 4) + p.payload)
  }

  method WriteTPKT(w: Writer, payload: seq<byte>) returns (ok: bool)
    modifies w
    ensures match Framed(Pdu(payload, true))
            case Some(b) => ok && w.written == old(w.written) + b
            case None => !ok && w.written == old(w.written)
  {
    var length := |payload| + 4;
    if length > 0xFFFF {
      return false;
    }
    w.Write([VERSION, 0, length / 0x100 % 0x100, length % 0x100]);
    w.Write(payload);
    return true;
  }

  method WriteCredSSPPDU(w: Writer, payload: seq<byte>, tpktWrapped: bool) returns (ok: bool)
    modifies w
    ensures match Framed(Pdu(payload, tpktWrapped))
            case Some(b) => ok && w.written == old(w.written) + b
            case None => !ok && w.written == old(w.written)
  {
    if tpktWrapped {
      ok := WriteTPKT(w, payload);
    } else {
      w.Write(payload);
      ok := true;
    }
  }

  // ----- reading -----

  /** The length octets at the front of s and the content length they give; None when cut short or unsupported. */
  function LengthIn(s: seq<byte>): (r: Option<(nat, nat)>)
    ensures r.Some? ==> 1 <= r.value.0 <= 3 && r.value.0 <= |s|
  {
    if s == [] then None
    else if s[0] < 0x80 then Some((1, s[0]))
    else if s[0] == 0x81 && |s| >= 2 then Some((2, s[1]))
    else if s[0] == 0x82 && |s| >= 3 then Some((3, Dec16(s, 1)))
    else None
  }

  /** The PDU at the front of the stream and what follows it; None on any error. */
  function ReadFrom(s: seq<byte>): (r: Option<(Pdu, seq<byte>)>)
    ensures r.Some? ==> |r.value.1| < |s|
  {
    if s == [] then None
    else if s[0] == VERSION then
      if |s| < 4 then None
      else
        var n := Dec16(s, 2);
        if n < 4 || n > |s| then None else Some((Pdu(s[4..n], true), s[n..]))
    else
      match LengthIn(s[1..])
      case None => None
      case Some((octets, n)) =>
        var end := 1 + octets + n;
        if end > |s| then None else Some((Pdu(s[..end], false), s[end..]))
  }

  method ReadASN1Length(r: Reader) returns (ok: bool, header: seq<byte>, contentLen: nat)
    modifies r
    ensures match LengthIn(old(r.rest))
            case Some((octets, n)) =>
              ok && header == old(r.rest)[..octets] && contentLen == n && r.rest == old(r.rest)[octets..]
            case None => !ok
  {
    header, contentLen := [], 0;
    ghost var s := r.rest;
    var b;
    ok, b := r.ReadFull(1);
    if !ok {
      return;
    }
    if b[0] < 0x80 {
      header, contentLen := b, b[0];
      return;
    }
    if b[0] == 0x81 {
      var x;
      ok, x := r.ReadFull(1);
      if ok {
        header, contentLen := b + x, x[0];
      }
    } else if b[0] == 0x82 {
      var x;
      ok, x := r.ReadFull(2);
      if ok {
        header, contentLen := b + x, x[0] as int * 0x100 + x[1];
        assert x == s[1..3];
      }
    } else {
      ok := false;
    }
  }

  method ReadASN1PDU(r: Reader, firstByte: byte) returns (ok: bool, out: seq<byte>)
    requires firstByte != VERSION
    modifies r
    ensures match ReadFrom([firstByte] + old(r.rest))
            case Some((p, rest)) => ok && !p.wrapped && out == p.payload && r.rest == rest
            case None => !ok
  {
    ghost var s := r.rest;
    assert ([firstByte] + s)[1..] == s;
    var lenHdr, contentLen;
    ok, lenHdr, contentLen := ReadASN1Length(r);
    out := [];
    if !ok {
      return;
    }
    ghost var mid := r.rest;
    var body;
    ok, body := r.ReadFull(contentLen);
    if !ok {
      return;
    }
    out := [firstByte] + lenHdr + body;
    ghost var end := 1 + |lenHdr| + contentLen;
    assert [firstByte] + s == ([firstByte] + lenHdr) + mid && mid == body + r.rest;
    assert ([firstByte] + s)[..end] == out;
    assert ([firstByte] + s)[end..] == r.rest;
  }

  method ReadCredSSPPDU(r: Reader) returns (ok: bool, payload: seq<byte>, tpktWrapped: bool)
    modifies r
    ensures match ReadFrom(old(r.rest))
            case Some((p, rest)) => ok && Pdu(payload, tpktWrapped) == p && r.rest == rest
            case None => !ok
  {
    payload, tpktWrapped := [], false;
    ghost var s := r.rest;
    var first;
    ok, first := r.ReadFull(1);
    if !ok {
      return;
    }
    if first[0] == VERSION {
      var rest;
      ok, rest := r.ReadFull(3);
      if !ok {
        return;
      }
      assert rest == s[1..4] && r.rest == s[4..];
      var length := rest[1] as int * 0x100 + rest[2];
      if length < 4 {
        return false, [], false;
      }
      ok, payload := r.ReadFull(length - 4);
      if ok {
        assert payload == s[4..length] && r.rest == s[length..];
        tpktWrapped := true;
      }
      return;
    }
    assert [first[0]] + r.rest == s;
    ok, payload := ReadASN1PDU(r, first[0]);
  }

  // ----- round trip -----

  /** A raw PDU that tells its own length: a tag that is not the TPKT version, length octets, that much content. */
  predicate Element(b: seq<byte>) {
    b != [] && b[0] != VERSION &&
    match LengthIn(b[1..])
    case None => false
    case Some((octets, n)) => |b| == 1 + octets + n
  }

  predicate Sendable(p: Pdu) {
    if p.wrapped then |p.payload| <= 65531 else Element(p.payload)
  }

  lemma LengthOctetsIn(n: nat, post: seq<byte>)
    ensures n < 0x1_0000 ==> LengthIn(LengthOctets(n) + post) == Some((|LengthOctets(n)|, n))
    ensures LengthIn(LengthOctets(n) + post).Some? && LengthIn(LengthOctets(n) + post).value.1 < 0x1_0000
  {
    var s := LengthOctets(n) + post;
    if n >= 0x100 {
      assert s[0] == 0x82 && s[1] == n / 0x100 % 0x100 && s[2] == n % 0x100;
      assert n < 0x1_0000 ==> n / 0x100 % 0x100 == n / 0x100;
    }
  }

  /** What asn1Build makes is such a PDU exactly when its content is under 65536 bytes and its tag is not 3. */
  lemma BuiltIsElement(tag: byte, content: seq<byte>)
    ensures Element(Build(tag, content)) <==> tag != VERSION && |content| < 0x1_0000
  {
    var b := Build(tag, content);
    assert b[1..] == LengthOctets(|content|) + content;
    LengthOctetsIn(|content|, content);
  }

  lemma LengthInPrefix(s: seq<byte>, post: seq<byte>)
    requires LengthIn(s).Some?
    ensures LengthIn(s + post) == LengthIn(s)
  {
  }

  lemma RawRead(b: seq<byte>, post: seq<byte>)
    requires Element(b)
    ensures ReadFrom(b + post) == Some((Pdu(b, false), post))
  {
    var s := b + post;
    assert s[1..] == b[1..] + post;
    LengthInPrefix(b[1..], post);
    assert s[..|b|] == b && s[|b|..] == post;
  }

  lemma WrappedRead(payload: seq<byte>, post: seq<byte>)
    requires |payload| <= 65531
    ensures ReadFrom(TpktHeader(|payload| + 4) + payload + post) == Some((Pdu(payload, true), post))
  {
    var n := |payload| + 4;
    var s := TpktHeader(n) + payload + post;
    assert Dec16(s, 2) == n;
    assert s[4..n] == payload && s[n..] == post;
  }

  /** One PDU is read back with its payload and framing, and nothing behind it is consumed. */
  lemma FramedRead(p: Pdu, post: seq<byte>)
    requires Sendable(p)
    ensures Framed(p).Some? && Framed(p).value != [] && ReadFrom(Framed(p).value + post) == Some((p, post))
  {
    if p.wrapped {
      WrappedRead(p.payload, post);
    } else {
      RawRead(p.payload, post);
    }
  }

  /** These are all the PDUs that come back as they were sent. */
  lemma ReadBackExactly(p: Pdu)
    ensures (Framed(p).Some? && ReadFrom(Framed(p).value) == Some((p, []))) <==> Sendable(p)
  {
    if Sendable(p) {
      FramedRead(p, []);
      assert Framed(p).value + [] == Framed(p).value;
    }
  }

  /** A PDU that is cut short anywhere is an error, never a shorter PDU. */
  lemma CutShort(p: Pdu, k: nat)
    requires Sendable(p) && k < |Framed(p).value|
    ensures ReadFrom(Framed(p).value[..k]) == None
  {
    var b := Framed(p).value;
    var s := b[..k];
    if p.wrapped {
      assert b == TpktHeader(|p.payload| + 4) + p.payload;
      if k >= 4 {
        assert Dec16(s, 2) == |p.payload| + 4;
      }
    } else if k > 0 {
      assert s[1..] == b[1..][..k - 1];
      if LengthIn(s[1..]).Some? {
        LengthInPrefix(s[1..], b[k..]);
        assert s[1..] + b[k..] == b[1..];
      }
    }
  }

  function FramedAll(ps: seq<Pdu>): seq<byte>
    requires forall k :: 0 <= k < |ps| ==> Framed(ps[k]).Some?
  {
    if ps == [] then [] else Framed(ps[0]).value + FramedAll(ps[1..])
  }

  /** Reading until the stream ends; None if a read fails before that. */
  function ReadAll(s: seq<byte>): Option<seq<Pdu>>
    decreases |s|
  {
    if s == [] then Some([])
    else
      match ReadFrom(s)
      case None => None
      case Some((p, rest)) =>
        match ReadAll(rest)
        case None => None
        case Some(ps) => Some([p] + ps)
  }

  /** PDUs of either framing written back to back are read as the same payloads with the same framing. */
  lemma {:induction false} StreamRoundTrip(ps: seq<Pdu>)
    requires forall k :: 0 <= k < |ps| ==> Sendable(ps[k])
    ensures forall k :: 0 <= k < |ps| ==> Framed(ps[k]).Some?
    ensures ReadAll(FramedAll(ps)) == Some(ps)
  {
    forall k | 0 <= k < |ps|
      ensures Framed(ps[k]).Some?
    {
      FramedRead(ps[k], []);
    }
    if ps != [] {
      FramedRead(ps[0], FramedAll(ps[1..]));
      StreamRoundTrip(ps[1..]);
      hide ReadFrom, Framed;
      assert [ps[0]] + ps[1..] == ps;
    }
  }
}
