/** CredSSP PDUs by their bytes: what is written, and exactly which streams are read as what. */
module TpktWire {
  import opened Bytes
  import opened Tpkt

  /** A wrapped PDU is the version 3, a zero, its own size in two bytes and the payload; 65535 bytes are the most. */
  lemma WrappedOnWire(payload: seq<byte>)
    ensures var f := Framed(Pdu(payload, true));
            if |payload| > 65531 then f.None?
            else
              && f.Some? && |f.value| == |payload| + 4
              && f.value[0] == 3 && f.value[1] == 0 && 0x100 * f.value[2] as int + f.value[3] == |payload| + 4
              && f.value[4..] == payload
  {
  }

  /** Any stream that starts so is read as that wrapped PDU, whatever its second byte, and no other stream is. */
  lemma WrappedExactly(s: seq<byte>, payload: seq<byte>, rest: seq<byte>)
    ensures ReadFrom(s) == Some((Pdu(payload, true), rest)) <==>
            |s| >= 4 && s[0] == 3 && 0x100 * s[2] as int + s[3] == |payload| + 4 && s[4..] == payload + rest
  {
    if |s| >= 4 && s[0] == 3 {
      var n := Dec16(s, 2);
      if 4 <= n <= |s| {
        assert s[4..] == s[4..n] + s[n..] && |s[4..n]| == n - 4;
        if s[4..] == payload + rest && n == |payload| + 4 {
          assert s[4..][..|payload|] == payload && s[4..][|payload|..] == rest;
        }
      }
    }
  }

  /** One, two or three length octets and as much content as they say. */
  predicate TellsItsLength(b: seq<byte>) {
    || (|b| >= 2 && b[1] < 0x80 && |b| == 2 + b[1] as int)
    || (|b| >= 3 && b[1] == 0x81 && |b| == 3 + b[2] as int)
    || (|b| >= 4 && b[1] == 0x82 && |b| == 4 + 0x100 * b[2] as int + b[3])
  }

  /** A raw PDU is read exactly where the stream starts with one, its length in the shortest form or not. */
  lemma RawExactly(s: seq<byte>, b: seq<byte>, rest: seq<byte>)
    ensures ReadFrom(s) == Some((Pdu(b, false), rest)) <==> s == b + rest && TellsItsLength(b) && b[0] != 3
  {
    if s == b + rest && TellsItsLength(b) && b[0] != 3 {
      RawThere(b, rest);
    }
    if ReadFrom(s) == Some((Pdu(b, false), rest)) {
      RawGone(s, b, rest);
    }
  }

  lemma RawThere(b: seq<byte>, rest: seq<byte>)
    requires TellsItsLength(b) && b[0] != 3
    ensures ReadFrom(b + rest) == Some((Pdu(b, false), rest))
  {
    assert Element(b);
    RawRead(b, rest);
  }

  lemma RawGone(s: seq<byte>, b: seq<byte>, rest: seq<byte>)
    requires ReadFrom(s) == Some((Pdu(b, false), rest))
    ensures s == b + rest && TellsItsLength(b) && b[0] != 3
  {
    assert s[1..] != [];
    var (octets, n) := LengthIn(s[1..]).value;
    assert b == s[..1 + octets + n] && rest == s[1 + octets + n..];
    assert b[1] == s[1];
  }

  /** An indefinite length, or one of more than two octets behind the first, is refused. */
  lemma OtherLengthsRefused(s: seq<byte>)
    requires |s| >= 2 && s[0] != 3 && (s[1] == 0x80 || s[1] > 0x82)
    ensures ReadFrom(s).None?
  {
  }
}
