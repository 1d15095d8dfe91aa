/** The definite-length encoder of the remote-desktop honeypot. */
module Asn1 {
  import opened Bytes

  function LengthOctets(n: nat): (b: seq<byte>)
    ensures 1 <= |b| <= 3
  {
    if n < 128 then [n]
    else if n < 256 then [0x81, n]
    else [0x82, n / 0x100 % 0x100, n % 0x100]
  }

  /** Tag, length, content; two length octets are the most it writes, so longer contents are cut short. */
  function Build(tag: byte, content: seq<byte>): (b: seq<byte>)
    ensures |b| == 1 + |LengthOctets(|content|)| + |content|
    ensures b[0] == tag
  {
    [tag] + LengthOctets(|content|) + content
  }

  method Asn1Build(tag: byte, content: seq<byte>) returns (out: array<byte>)
    ensures out[..] == Build(tag, content)
  {
    var l := |content|;
    var lenEnc: seq<byte> :=
      if l < 128 then [l] else if l < 256 then [0x81, l] else [0x82, l / 0x100 % 0x100, l % 0x100];
    out := new byte[1 + |lenEnc| + l](_ => 0);
    out[0] := tag;
    Write(out, 1, lenEnc);
    ghost var head := out[..][..1 + |lenEnc|];
    assert head == [tag] + lenEnc;
    Write(out, 1 + |lenEnc|, content);
    assert out[..] == head + content;
  }

  function Ctx(n: nat, content: seq<byte>): seq<byte>
    requires n < 0x60
  {
    Build(0xA0 + n, content)
  }
}
