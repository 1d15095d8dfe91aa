/** The BER reader on elements it does not open, on packets cut short, and on a packet of the wire. */
module BerCases {
  import opened Bytes
  import opened Asn1
  import opened Ber
  import opened BerTheorems

  /** Every element whose tag is not a sequence or one of the three requests is read as its bytes, whatever they are. */
  lemma OpaqueElement(pre: seq<byte>, tag: byte, content: seq<byte>, post: seq<byte>)
    requires tag != 0x30 && tag != 0xA0 && tag != 0xA1 && tag != 0xA5
    requires |content| < 0x1_0000 && |pre + (Build(tag, content) + post)| < INT_LIMIT
    ensures DecodeAt(pre + (Build(tag, content) + post), |pre|) == Got(Node(tag, content, []))
  {
    ContentOfBuild(pre, tag, content, post);
    hide Build, ContentAt;
  }

  /** Those four are read as the elements they hold, or refused when these are malformed. */
  lemma OpenedElement(pre: seq<byte>, tag: byte, content: seq<byte>, post: seq<byte>)
    requires tag == 0x30 || tag == 0xA0 || tag == 0xA1 || tag == 0xA5
    requires |content| < 0x1_0000 && |pre + (Build(tag, content) + post)| < INT_LIMIT
    ensures DecodeAt(pre + (Build(tag, content) + post), |pre|) ==
            match DecodeAll(content, 0)
            case Got(children) => Got(Node(tag, [], children))
            case Refused => Refused
            case Panic => Panic
  {
    ContentOfBuild(pre, tag, content, post);
    hide Build, ContentAt;
  }

  /** An element cut short anywhere is malformed, never a shorter element. */
  lemma CutShort(tag: byte, content: seq<byte>, k: nat)
    requires |content| < 0x1_0000 && k < |Build(tag, content)|
    ensures DecodeAt(Build(tag, content)[..k], 0).Refused?
  {
    var l, s := LengthOctets(|content|), Build(tag, content)[..k];
    if k >= 2 {
      assert s[1] == l[0];
      if k >= 1 + |l| {
        HeaderStays(tag, content, k);
        LengthOctetsRead(s, 1, |content|);
      }
    }
    hide Accumulated, Build;
  }

  lemma HeaderStays(tag: byte, content: seq<byte>, k: nat)
    requires 1 + |LengthOctets(|content|)| <= k <= |Build(tag, content)|
    ensures var l := LengthOctets(|content|); Build(tag, content)[..k][1..1 + |l|] == l
  {
    hide LengthOctets;
  }

  lemma TreeCutShort(n: Node, k: nat)
    requires |Content(n)| < 0x1_0000 && k < |Encode(n)|
    ensures DecodeAt(Encode(n)[..k], 0).Refused?
  {
    CutShort(n.tag, Content(n), k);
  }

  /** Lengths of the indefinite form are malformed, and so are bytes that end behind the tag. */
  lemma NoIndefiniteLength(tag: byte, post: seq<byte>)
    requires |post| < INT_LIMIT - 2
    ensures DecodeAt([tag, 0x80] + post, 0).Refused? && DecodeAt([tag], 0).Refused? && DecodeAt([], 0).Refused?
  {
  }

  /** A message whose third element is no GET, GETNEXT or GETBULK gives no identifiers. */
  lemma OtherPduIgnored(first: Node, second: Node, tag: byte, content: seq<byte>, post: seq<byte>)
    requires WellFormed(first) && WellFormed(second) && tag != 0xA0 && tag != 0xA1 && tag != 0xA5 && tag != 0x30
    requires var body := Encode(first) + (Encode(second) + Build(tag, content));
             |body| < 0x1_0000 && |Build(0x30, body) + post| < INT_LIMIT
    ensures RequestOids(Build(0x30, Encode(first) + (Encode(second) + Build(tag, content))) + post) == Got([])
  {
    var x, y, z := Encode(first), Encode(second), Build(tag, content);
    var body := x + (y + z);
    assert |Content(first)| < |x| && |Content(second)| < |y| && |content| < |z|;
    OpenedElement([], 0x30, body, post);
    assert [] + (Build(0x30, body) + post) == Build(0x30, body) + post;
    ThirdRead(first, second, tag, content);
    hide DecodeAt, DecodeAll, Build, Encode;
  }

  lemma ThirdRead(first: Node, second: Node, tag: byte, content: seq<byte>)
    requires WellFormed(first) && WellFormed(second) && tag != 0xA0 && tag != 0xA1 && tag != 0xA5 && tag != 0x30
    requires |Encode(first) + (Encode(second) + Build(tag, content))| < 0x1_0000
    ensures DecodeAll(Encode(first) + (Encode(second) + Build(tag, content)), 0) == Got([first, second, Node(tag, content, [])])
  {
    var third := Node(tag, content, []);
    var ns := [first, second, third];
    assert Content(third) == content && Encode(third) == Build(tag, content) && WellFormed(third);
    ThreeWellFormed(first, second, third);
    ThreeEncoded(first, second, third);
    hide *;
    RoundTripAll([], ns);
    assert [] + EncodeAll(ns) == EncodeAll(ns);
  }

  lemma ThreeEncoded(x: Node, y: Node, z: Node)
    ensures EncodeAll([x, y, z]) == Encode(x) + (Encode(y) + Encode(z))
  {
    hide Encode;
    assert [z][1..] == [] && EncodeAll([]) == [];
    assert EncodeAll([z]) == Encode(z) + [] == Encode(z);
    assert [y, z][1..] == [z] && EncodeAll([y, z]) == Encode(y) + Encode(z);
    assert [x, y, z][1..] == [y, z];
  }

  lemma ThreeWellFormed(x: Node, y: Node, z: Node)
    requires WellFormed(x) && WellFormed(y) && WellFormed(z)
    ensures AllWellFormed([x, y, z])
  {
    hide WellFormed;
    assert [z][1..] == [] && AllWellFormed([]) && AllWellFormed([z]);
    assert [y, z][1..] == [z] && AllWellFormed([y, z]);
    assert [x, y, z][1..] == [y, z];
  }

  // ----- a packet of the wire -----

  /** The 40 bytes of an SNMPv1 GET for sysDescr.0, community public. */
  function SysDescr(): seq<byte> {
    [0x30, 0x26, 0x02, 0x01, 0x00, 0x04, 0x06, 0x70, 0x75, 0x62, 0x6C, 0x69, 0x63, 0xA0, 0x19,
     0x02, 0x01, 0x01, 0x02, 0x01, 0x00, 0x02, 0x01, 0x00,
     0x30, 0x0E, 0x30, 0x0C, 0x06, 0x08, 0x2B, 0x06, 0x01, 0x02, 0x01, 0x01, 0x01, 0x00, 0x05, 0x00]
  }

  function Community(): seq<byte> { [0x70, 0x75, 0x62, 0x6C, 0x69, 0x63] }
  function Oid(): seq<nat> { [1, 3, 6, 1, 2, 1, 1, 1, 0] }
  function OidBytes(): seq<byte> { [0x2B, 0x06, 0x01, 0x02, 0x01, 0x01, 0x01, 0x00] }
  function Bind(): VarBind { VarBind(Oid(), Node(0x05, [], [])) }

  /** It asks for 1.3.6.1.2.1.1.1.0. */
  lemma SysDescrRead()
    ensures RequestOids(SysDescr()) == Got([[1, 3, 6, 1, 2, 1, 1, 1, 0]])
  {
    SysDescrEncoded();
    var b := Bind();
    assert b.oid == Oid() == [1, 3, 6, 1, 2, 1, 1, 1, 0];
    assert |SysDescr()| == 40;
    assert Oids([b]) == [b.oid] by {
      assert [b][1..] == [];
    }
    var r := Request(0xA0, [0], Community(), [[1], [0], [0]], [b]);
    assert |Content(r)| < |Encode(r)|;
    hide *;
    RequestRead(0xA0, [0], Community(), [[1], [0], [0]], [b], []);
    assert SysDescr() + [] == SysDescr();
  }

  lemma SmallArc(v: nat)
    requires v < 128
    ensures Base128(v) == [v]
  {
    assert LeadingOctets(v / 128) == [];
  }

  lemma {:induction false} SmallArcs(arcs: seq<nat>, b: seq<byte>)
    requires |b| == |arcs| && forall i :: 0 <= i < |arcs| ==> arcs[i] < 128 && b[i] == arcs[i]
    ensures Base128All(arcs) == b
  {
    if arcs != [] {
      SmallArc(arcs[0]);
      SmallArcs(arcs[1..], b[1..]);
      assert b == [b[0]] + b[1..];
    }
  }

  lemma SysDescrOid()
    ensures EncodeOid([1, 3, 6, 1, 2, 1, 1, 1, 0]) == [0x2B, 0x06, 0x01, 0x02, 0x01, 0x01, 0x01, 0x00]
  {
    var oid: seq<nat> := [1, 3, 6, 1, 2, 1, 1, 1, 0];
    SmallArc(43);
    SmallArcs(oid[2..], [0x06, 0x01, 0x02, 0x01, 0x01, 0x01, 0x00]);
    hide Base128, Base128All;
    assert EncodeOid(oid) == [43] + [0x06, 0x01, 0x02, 0x01, 0x01, 0x01, 0x00];
  }

  /** A primitive element with a short length. */
  lemma Leaf(tag: byte, value: seq<byte>)
    requires |value| < 128 && !Constructed(tag)
    ensures Encode(Node(tag, value, [])) == [tag, |value|] + value
  {
  }

  lemma Inner(tag: byte, children: seq<Node>, content: seq<byte>)
    requires |content| < 128 && Constructed(tag) && EncodeAll(children) == content
    ensures Encode(Node(tag, [], children)) == [tag, |content|] + content
  {
    hide EncodeAll;
  }

  lemma TwoEncoded(x: Node, y: Node)
    ensures EncodeAll([x, y]) == Encode(x) + Encode(y) && EncodeAll([x]) == Encode(x)
  {
    hide Encode;
    assert [y][1..] == [] && EncodeAll([]) == [] && [x][1..] == [];
    assert EncodeAll([y]) == Encode(y) + [] == Encode(y) && EncodeAll([x]) == Encode(x) + [] == Encode(x);
    assert [x, y][1..] == [y];
  }

  lemma FourEncoded(w: Node, x: Node, y: Node, z: Node)
    ensures EncodeAll([w, x, y, z]) == Encode(w) + (Encode(x) + (Encode(y) + Encode(z)))
  {
    hide Encode;
    ThreeEncoded(x, y, z);
    assert [w, x, y, z][1..] == [x, y, z];
  }

  function Pair(): seq<byte> { [0x06, 0x08] + OidBytes() + [0x05, 0x00] }
  function PduBody(): seq<byte> {
    [0x02, 0x01, 0x01] + ([0x02, 0x01, 0x00] + ([0x02, 0x01, 0x00] + ([0x30, 0x0E] + ([0x30, 0x0C] + Pair()))))
  }

  lemma SysDescrPieces()
    ensures SysDescr() ==
            [0x30, 0x26] + ([0x02, 0x01, 0x00] + (([0x04, 0x06] + Community()) + ([0xA0, 0x19] + PduBody())))
  {
  }

  lemma Sizes()
    ensures |Pair()| == 12 && |PduBody()| == 25 && |Community()| == 6 && |OidBytes()| == 8 && |SysDescr()| == 40
  {
  }

  lemma SysDescrEncoded()
    ensures Askable([Bind()]) && Encode(Request(0xA0, [0], Community(), [[1], [0], [0]], [Bind()])) == SysDescr()
  {
    var b := Bind();
    assert Askable([b]);
    OneBind(b);
    var list := Node(0x30, [], BindNodes([b]));
    var pdu := Node(0xA0, [], [Node(0x02, [1], []), Node(0x02, [0], []), Node(0x02, [0], []), list]);
    var v, n := Node(0x02, [0], []), Node(0x04, Community(), []);
    assert Request(0xA0, [0], Community(), [[1], [0], [0]], [b]) == Node(0x30, [], [v, n, pdu]);
    hide *;
    SysDescrPieces();
    ListEncoded();
    PduEncoded(list);
    MessageEncoded(v, n, pdu);
  }

  lemma MessageEncoded(v: Node, n: Node, pdu: Node)
    requires v == Node(0x02, [0], []) && n == Node(0x04, Community(), []) && Encode(pdu) == [0xA0, 0x19] + PduBody()
    ensures Encode(Node(0x30, [], [v, n, pdu])) ==
            [0x30, 0x26] + ([0x02, 0x01, 0x00] + (([0x04, 0x06] + Community()) + ([0xA0, 0x19] + PduBody())))
  {
    assert Constructed(0x30) && !Constructed(0x02) && !Constructed(0x04);
    hide *;
    Sizes();
    Leaf(0x02, [0]);
    Leaf(0x04, Community());
    assert [0x02, 1 as byte] + [0 as byte] == [0x02, 0x01, 0x00];
    ThreeEncoded(v, n, pdu);
    Inner(0x30, [v, n, pdu], [0x02, 0x01, 0x00] + (([0x04, 0x06] + Community()) + ([0xA0, 0x19] + PduBody())));
  }

  lemma BindIs()
    ensures Askable([Bind()])
    ensures BindNodes([Bind()]) == [Node(0x30, [], [Node(0x06, OidBytes(), []), Node(0x05, [], [])])]
  {
    SysDescrOid();
    assert Askable([Bind()]);
    OneBind(Bind());
    hide BindNodes, EncodeOid;
  }

  lemma ListEncoded()
    ensures Askable([Bind()])
    ensures Encode(Node(0x30, [], BindNodes([Bind()]))) == [0x30, 0x0E] + ([0x30, 0x0C] + Pair())
  {
    var pair := Node(0x30, [], [Node(0x06, OidBytes(), []), Node(0x05, [], [])]);
    BindIs();
    assert Constructed(0x30);
    hide *;
    Sizes();
    PairEncoded();
    TwoEncoded(pair, pair);
    Inner(0x30, [pair], [0x30, 0x0C] + Pair());
  }

  lemma PairEncoded()
    ensures Encode(Node(0x30, [], [Node(0x06, OidBytes(), []), Node(0x05, [], [])])) == [0x30, 0x0C] + Pair()
  {
    var name, value := Node(0x06, OidBytes(), []), Node(0x05, [], []);
    assert Constructed(0x30) && !Constructed(0x06) && !Constructed(0x05);
    Sizes();
    hide Encode, EncodeAll, OidBytes;
    assert ([0x06, 0x08] + OidBytes()) + ([0x05, 0x00] + []) == Pair();
    Leaf(0x06, OidBytes());
    Leaf(0x05, []);
    TwoEncoded(name, value);
    Inner(0x30, [name, value], Pair());
  }

  lemma OneBind(bind: VarBind)
    requires Askable([bind])
    ensures LegalOid(bind.oid)
    ensures BindNodes([bind]) == [Node(0x30, [], [Node(0x06, EncodeOid(bind.oid), []), bind.value])]
  {
    hide EncodeOid;
    assert [bind][0] == bind;
    assert [bind][1..] == [] && BindNodes([]) == [];
  }

  lemma PduEncoded(list: Node)
    requires Encode(list) == [0x30, 0x0E] + ([0x30, 0x0C] + Pair())
    ensures Encode(Node(0xA0, [], [Node(0x02, [1], []), Node(0x02, [0], []), Node(0x02, [0], []), list])) ==
            [0xA0, 0x19] + PduBody()
  {
    var a, b := Node(0x02, [1], []), Node(0x02, [0], []);
    assert Constructed(0xA0) && !Constructed(0x02);
    assert PduBody() == [0x02, 0x01, 0x01] + ([0x02, 0x01, 0x00] + ([0x02, 0x01, 0x00] + ([0x30, 0x0E] + ([0x30, 0x0C] + Pair()))));
    hide *;
    Sizes();
    Leaf(0x02, [1]);
    Leaf(0x02, [0]);
    assert [0x02, 1 as byte] + [1 as byte] == [0x02, 0x01, 0x01] && [0x02, 1 as byte] + [0 as byte] == [0x02, 0x01, 0x00];
    FourEncoded(a, b, b, list);
    Inner(0xA0, [a, b, b, list], PduBody());
  }
}
