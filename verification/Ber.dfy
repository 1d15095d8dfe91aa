/** The BER reader that finds the object identifiers of an SNMP request. */
module Ber {
  import opened Bytes

  datatype Node = Node(tag: byte, value: seq<byte>, children: seq<Node>)

  // ----- lengths -----

  /** The length octets read as the loop reads them, into a 64-bit integer. */
  function Accumulated(b: seq<byte>): (r: int)
    ensures -INT_LIMIT <= r < INT_LIMIT
  {
    if b == [] then 0 else Wrap(Accumulated(b[..|b| - 1]) * 256 + b[|b| - 1])
  }

  datatype Length = Length(length: int, next: nat)

  function LengthAt(data: seq<byte>, off: nat): (r: Option<Length>)
    ensures r.Some? ==> off < r.value.next <= |data| && -INT_LIMIT <= r.value.length < INT_LIMIT
  {
    if off >= |data| then None
    else if data[off] < 0x80 then Some(Length(data[off], off + 1))
    else
      var n := data[off] - 0x80;
      if n == 0 || off + 1 + n > |data| then None
      else Some(Length(Accumulated(data[off + 1..off + 1 + n]), off + 1 + n))
  }

  method BerLength(data: seq<byte>, start: nat) returns (length: int, off: nat, ok: bool)
    ensures ok ==> LengthAt(data, start) == Some(Length(length, off))
    ensures !ok ==> LengthAt(data, start) == None
  {
    off := start;
    if off >= |data| {
      return 0, off, false;
    }
    var b := data[off];
    off := off + 1;
    if b < 0x80 {
      return b, off, true;
    }
    var nbytes: nat := b - 0x80;
    if nbytes == 0 || off + nbytes > |data| {
      return 0, off, false;
    }
    length := 0;
    for i := 0 to nbytes
      invariant length == Accumulated(data[off..off + i])
    {
      assert data[off..off + i + 1][..i] == data[off..off + i];
      length := Wrap(length * 256 + data[off + i]);
    }
    return length, off + nbytes, true;
  }

  /** The number of bytes the element at the start of data takes up, by its header. */
  function EncodedLength(data: seq<byte>): Option<int> {
    if data == [] then None
    else
      match LengthAt(data, 1)
      case None => None
      case Some(l) => Some(Wrap(l.next + l.length))
  }

  // ----- decoding -----

  predicate Constructed(tag: byte) {
    tag == 0x30 || tag == 0xA0 || tag == 0xA1 || tag == 0xA5
  }

  /** The content of the element at off. */
  function ContentAt(data: seq<byte>, off: nat): (r: Outcome<seq<byte>>)
    ensures r.Got? ==> off + 2 + |r.value| <= |data|
  {
    if off >= |data| then Refused
    else
      match LengthAt(data, off + 1)
      case None => Refused
      case Some(l) =>
        var end := Wrap(l.next + l.length);
        if end > |data| then Refused
        else if end < l.next then Panic
        else Got(data[l.next..end])
  }

  /** An element's header in a slice is the same header, counted from there. */
  lemma LengthShift(data: seq<byte>, cur: nat, i: nat)
    requires cur <= |data|
    ensures LengthAt(data, cur + i) ==
            match LengthAt(data[cur..], i)
            case None => None
            case Some(l) => Some(Length(l.length, cur + l.next))
  {
    var s := data[cur..];
    if i < |s| && s[i] > 0x80 && i + 1 + (s[i] - 0x80) <= |s| {
      assert s[i + 1..i + 1 + (s[i] - 0x80)] == data[cur + i + 1..cur + i + 1 + (s[i] - 0x80)];
    }
  }

  /** Where an element was decoded, its header's length is the room it takes: never zero, never past the end. */
  lemma SizeOfContent(data: seq<byte>, cur: nat)
    requires |data| < INT_LIMIT && ContentAt(data, cur).Got?
    ensures EncodedLength(data[cur..]).Some?
    ensures var n := EncodedLength(data[cur..]).value;
            n >= 2 + |ContentAt(data, cur).value| && cur + n <= |data|
  {
    LengthShift(data, cur, 1);
    hide LengthAt, Wrap;
    assert data[cur..] != [];
  }

  function DecodeAt(data: seq<byte>, off: nat): Outcome<Node>
    requires |data| < INT_LIMIT
    decreases |data|, 0
  {
    match ContentAt(data, off)
    case Refused => Refused
    case Panic => Panic
    case Got(content) =>
      var tag := data[off];
      if Constructed(tag) then
        match DecodeAll(content, 0)
        case Refused => Refused
        case Panic => Panic
        case Got(children) => Got(Node(tag, [], children))
      else Got(Node(tag, content, []))
  }

  /** The elements of content from cur on. */
  function DecodeAll(content: seq<byte>, cur: nat): Outcome<seq<Node>>
    requires |content| < INT_LIMIT
    decreases |content|, 1, |content| - cur
  {
    if cur >= |content| then Got([])
    else
      match DecodeAt(content, cur)
      case Refused => Refused
      case Panic => Panic
      case Got(child) =>
        SizeOfContent(content, cur);
        match DecodeAll(content, cur + EncodedLength(content[cur..]).value)
        case Refused => Refused
        case Panic => Panic
        case Got(rest) => Got([child] + rest)
  }

  method BerEncodedLen(data: seq<byte>) returns (n: Option<int>)
    ensures n == EncodedLength(data)
  {
    if |data| == 0 {
      return None;
    }
    var length, loff, ok := BerLength(data, 1);
    if !ok {
      return None;
    }
    return Some(Wrap(loff + length));
  }

  method BerDecodeAt(data: seq<byte>, start: nat) returns (r: Outcome<Node>)
    requires |data| < INT_LIMIT
    ensures r == DecodeAt(data, start)
    decreases |data|
  {
    hide LengthAt, Wrap, EncodedLength;
    var off := start;
    if off >= |data| {
      return Refused;
    }
    var tag := data[off];
    off := off + 1;
    if off >= |data| {
      return Refused;
    }
    var length, loff, ok := BerLength(data, off);
    if !ok {
      return Refused;
    }
    off := loff;
    var end := Wrap(off + length);
    if end > |data| {
      return Refused;
    }
    if end < off {
      return Panic;
    }
    var content := data[off..end];
    if !Constructed(tag) {
      return Got(Node(tag, content, []));
    }
    var children: seq<Node> := [];
    var cur: nat := 0;
    NonePrepended(DecodeAll(content, 0));
    while cur < |content|
      invariant Prepended(children, DecodeAll(content, cur)) == DecodeAll(content, 0)
      decreases |content| - cur
    {
      var child := BerDecodeAt(content, cur);
      if !child.Got? {
        return if child.Panic? then Panic else Refused;
      }
      OneMore(children, content, cur);
      children := children + [child.value];
      var clen := BerEncodedLen(content[cur..]);
      if clen.None? || clen.value == 0 {
        return Refused;
      }
      cur := cur + clen.value;
    }
    assert children + [] == children;
    return Got(Node(tag, [], children));
  }

  lemma NonePrepended(o: Outcome<seq<Node>>)
    ensures Prepended([], o) == o
  {
    if o.Got? {
      assert [] + o.value == o.value;
    }
  }

  /** One element taken off the front of what is left. */
  lemma OneMore(children: seq<Node>, content: seq<byte>, cur: nat)
    requires |content| < INT_LIMIT && cur < |content| && DecodeAt(content, cur).Got?
    ensures EncodedLength(content[cur..]).Some? && EncodedLength(content[cur..]).value > 0
    ensures Prepended(children, DecodeAll(content, cur)) ==
            Prepended(children + [DecodeAt(content, cur).value],
                      DecodeAll(content, cur + EncodedLength(content[cur..]).value))
  {
    SizeOfContent(content, cur);
    var child := DecodeAt(content, cur).value;
    var rest := DecodeAll(content, cur + EncodedLength(content[cur..]).value);
    hide DecodeAt, EncodedLength;
    if rest.Got? {
      assert children + ([child] + rest.value) == (children + [child]) + rest.value;
    }
  }

  function Prepended(a: seq<Node>, o: Outcome<seq<Node>>): Outcome<seq<Node>> {
    match o
    case Got(b) => Got(a + b)
    case Refused => Refused
    case Panic => Panic
  }

  // ----- object identifiers -----

  /** One subidentifier from i on, with val read so far: its value and where the next one starts. */
  function ArcAt(data: seq<byte>, i: nat, val: int): (r: Option<(int, nat)>)
    ensures r.Some? ==> i < r.value.1 <= |data|
    decreases |data| - i
  {
    if i >= |data| then None
    else
      var v := Wrap(val * 128 + data[i] % 128);
      if data[i] < 128 then Some((v, i + 1)) else ArcAt(data, i + 1, v)
  }

  function ArcsFrom(data: seq<byte>, i: nat): Option<seq<int>>
    decreases |data| - i
  {
    if i >= |data| then Some([])
    else
      match ArcAt(data, i, 0)
      case None => None
      case Some((v, next)) =>
        match ArcsFrom(data, next)
        case None => None
        case Some(rest) => Some([v] + rest)
  }

  /** The arcs that decodeOID joins with dots; None where it returns the empty string. */
  function DecodeOid(data: seq<byte>): Option<seq<int>> {
    if data == [] then None
    else
      match ArcsFrom(data, 1)
      case None => None
      case Some(rest) => Some([data[0] / 40, data[0] % 40] + rest)
  }

  method DecodeOID(data: seq<byte>) returns (parts: Option<seq<int>>)
    ensures parts == DecodeOid(data)
  {
    if |data| == 0 {
      return None;
    }
    var arcs: seq<int> := [data[0] / 40, data[0] % 40];
    var i := 1;
    ghost var tail := ArcsFrom(data, 1);
    while i < |data|
      invariant 1 <= i <= |data|
      invariant match tail
                case None => ArcsFrom(data, i) == None
                case Some(all) => ArcsFrom(data, i).Some? && arcs + ArcsFrom(data, i).value == [data[0] / 40, data[0] % 40] + all
      decreases |data| - i
    {
      var val := 0;
      ghost var start := i;
      while true
        invariant start <= i <= |data| && ArcAt(data, start, 0) == ArcAt(data, i, val)
        decreases |data| - i
      {
        if i >= |data| {
          return None;
        }
        var b := data[i];
        i := i + 1;
        val := Wrap(val * 128 + b % 128);
        if b < 128 {
          break;
        }
      }
      assert ArcAt(data, start, 0) == Some((val, i));
      arcs := arcs + [val];
    }
    assert arcs + [] == arcs;
    return Some(arcs);
  }

  // ----- SNMP requests -----

  function VarBindOids(binds: seq<Node>): seq<seq<int>> {
    if binds == [] then []
    else
      var vb, rest := binds[0], VarBindOids(binds[1..]);
      if vb.tag != 0x30 || vb.children == [] || vb.children[0].tag != 0x06 then rest
      else
        match DecodeOid(vb.children[0].value)
        case None => rest
        case Some(oid) => [oid] + rest
  }

  /** The identifiers of a GET, GETNEXT or GETBULK request; none when the packet is anything else. */
  function RequestOids(pkt: seq<byte>): Outcome<seq<seq<int>>>
    requires |pkt| < INT_LIMIT
  {
    match DecodeAt(pkt, 0)
    case Panic => Panic
    case Refused => Got([])
    case Got(msg) =>
      if msg.tag != 0x30 || |msg.children| < 3 then Got([])
      else
        var pdu := msg.children[2];
        if pdu.tag !in {0xA0, 0xA1, 0xA5} || |pdu.children| < 4 || pdu.children[3].tag != 0x30 then Got([])
        else Got(VarBindOids(pdu.children[3].children))
  }

  method ExtractSNMPRequestOIDs(pkt: seq<byte>) returns (r: Outcome<seq<seq<int>>>)
    requires |pkt| < INT_LIMIT
    ensures r == RequestOids(pkt)
  {
    var msg := BerDecodeAt(pkt, 0);
    if msg.Panic? {
      return Panic;
    }
    if msg.Refused? || msg.value.tag != 0x30 || |msg.value.children| < 3 {
      return Got([]);
    }
    var pdu := msg.value.children[2];
    if pdu.tag !in {0xA0, 0xA1, 0xA5} || |pdu.children| < 4 {
      return Got([]);
    }
    var varbinds := pdu.children[3];
    if varbinds.tag != 0x30 {
      return Got([]);
    }
    var oids: seq<seq<int>> := [];
    for k := 0 to |varbinds.children|
      invariant oids + VarBindOids(varbinds.children[k..]) == VarBindOids(varbinds.children)
    {
      assert varbinds.children[k..][1..] == varbinds.children[k + 1..];
      var vb := varbinds.children[k];
      if vb.tag != 0x30 || |vb.children| == 0 {
        continue;
      }
      if vb.children[0].tag != 0x06 {
        continue;
      }
      var oid := DecodeOID(vb.children[0].value);
      if oid.Some? {
        oids := oids + [oid.value];
      }
    }
    assert oids + [] == oids;
    return Got(oids);
  }
}
