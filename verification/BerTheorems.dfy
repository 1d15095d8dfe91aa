/** What the BER reader finds in what the encoder writes, and when it can fail. */
module BerTheorems {
  import opened Bytes
  import opened Asn1
  import opened Ber

  // ----- trees -----

  /** A tag that the reader opens has elements and no bytes of its own; any other has bytes and no elements. */
  predicate WellFormed(n: Node)
    decreases n
  {
    if Constructed(n.tag) then n.value == [] && AllWellFormed(n.children) else n.children == []
  }

  predicate AllWellFormed(ns: seq<Node>)
    decreases ns
  {
    ns != [] ==> WellFormed(ns[0]) && AllWellFormed(ns[1..])
  }

  function Content(n: Node): seq<byte>
    decreases n, 0
  {
    if Constructed(n.tag) then EncodeAll(n.children) else n.value
  }

  function Encode(n: Node): seq<byte>
    decreases n, 1
  {
    Build(n.tag, Content(n))
  }

  function EncodeAll(ns: seq<Node>): seq<byte>
    decreases ns, 0
  {
    if ns == [] then [] else Encode(ns[0]) + EncodeAll(ns[1..])
  }

  // ----- headers -----

  lemma LengthOctetsRead(s: seq<byte>, i: nat, n: nat)
    requires n < 0x1_0000 && i + |LengthOctets(n)| <= |s|
    requires s[i..i + |LengthOctets(n)|] == LengthOctets(n)
    ensures LengthAt(s, i) == Some(Length(n, i + |LengthOctets(n)|))
  {
    var l := LengthOctets(n);
    assert s[i] == s[i..i + |l|][0];
    if n >= 128 {
      var b := s[i + 1..i + |l|];
      assert b == l[1..];
      if n < 256 {
        OneOctet(b[0]);
        assert b == [b[0]];
      } else {
        TwoOctets(b[0], b[1]);
        assert b == [b[0], b[1]];
      }
    }
  }

  lemma OneOctet(a: byte)
    ensures Accumulated([a]) == a
  {
    assert [a][..0] == [];
  }

  lemma TwoOctets(a: byte, b: byte)
    ensures Accumulated([a, b]) == a as int * 256 + b
  {
    assert [a, b][..1] == [a];
    OneOctet(a);
  }

  /** The content of a built element, wherever it stands. */
  lemma ContentOfBuild(pre: seq<byte>, tag: byte, content: seq<byte>, post: seq<byte>)
    requires |content| < 0x1_0000 && |pre + (Build(tag, content) + post)| < INT_LIMIT
    ensures var data := pre + (Build(tag, content) + post);
            ContentAt(data, |pre|) == Got(content) && data[|pre|] == tag
  {
    hide *;
    BuildPlaces(pre, tag, content, post);
    var data, next := pre + (Build(tag, content) + post), |pre| + 1 + |LengthOctets(|content|)|;
    LengthOctetsRead(data, |pre| + 1, |content|);
    ContentGot(data, |pre|, Length(|content|, next));
  }

  /** Where tag, length octets and content of a built element stand. */
  lemma BuildPlaces(pre: seq<byte>, tag: byte, content: seq<byte>, post: seq<byte>)
    ensures var data, l := pre + (Build(tag, content) + post), LengthOctets(|content|);
            && |pre| + 1 + |l| + |content| <= |data| && data[|pre|] == tag
            && data[|pre| + 1..|pre| + 1 + |l|] == l
            && data[|pre| + 1 + |l|..|pre| + 1 + |l| + |content|] == content
  {
    hide LengthOctets;
    var l := LengthOctets(|content|);
    Regroup(pre, [tag], l, content, post);
    Middle(pre + [tag], l, content + post);
    Middle(pre + [tag] + l, content, post);
  }

  lemma Regroup(pre: seq<byte>, t: seq<byte>, l: seq<byte>, content: seq<byte>, post: seq<byte>)
    ensures pre + (t + l + content + post) == (pre + t) + (l + (content + post))
    ensures pre + (t + l + content + post) == (pre + t + l) + (content + post)
  {
  }

  /** A header whose content ends inside the data. */
  lemma ContentGot(data: seq<byte>, off: nat, l: Length)
    requires off < |data| < INT_LIMIT && LengthAt(data, off + 1) == Some(l)
    requires 0 <= l.length && l.next + l.length <= |data|
    ensures ContentAt(data, off) == Got(data[l.next..l.next + l.length])
  {
    hide LengthAt;
  }

  lemma Middle(a: seq<byte>, b: seq<byte>, c: seq<byte>)
    ensures (a + (b + c))[|a|..|a| + |b|] == b
  {
  }

  /** The header of a built element tells exactly how long it is. */
  lemma EncodedLengthOfBuild(tag: byte, content: seq<byte>, post: seq<byte>)
    requires |content| < 0x1_0000
    ensures EncodedLength(Build(tag, content) + post) == Some(|Build(tag, content)|)
  {
    var data := Build(tag, content) + post;
    var l := LengthOctets(|content|);
    assert data[1..1 + |l|] == l;
    LengthOctetsRead(data, 1, |content|);
  }

  // ----- round trip -----

  /** Decoding an encoded tree gives the tree, wherever it stands and whatever follows it. */
  lemma {:induction false} RoundTrip(pre: seq<byte>, n: Node, post: seq<byte>)
    requires WellFormed(n) && |Content(n)| < 0x1_0000 && |pre + (Encode(n) + post)| < INT_LIMIT
    ensures DecodeAt(pre + (Encode(n) + post), |pre|) == Got(n)
    ensures EncodedLength(Encode(n) + post) == Some(|Encode(n)|)
    decreases |Encode(n)|, 0
  {
    ContentOfBuild(pre, n.tag, Content(n), post);
    EncodedLengthOfBuild(n.tag, Content(n), post);
    if Constructed(n.tag) {
      RoundTripAll([], n.children);
      assert [] + EncodeAll(n.children) == Content(n);
    }
  }

  lemma {:induction false} RoundTripAll(pre: seq<byte>, ns: seq<Node>)
    requires AllWellFormed(ns) && |EncodeAll(ns)| < 0x1_0000 && |pre + EncodeAll(ns)| < INT_LIMIT
    ensures DecodeAll(pre + EncodeAll(ns), |pre|) == Got(ns)
    decreases |EncodeAll(ns)|, 1
  {
    hide DecodeAt, DecodeAll, EncodedLength, WellFormed, Content;
    if ns == [] {
      NothingToDecode(pre + EncodeAll(ns), |pre|);
    } else {
      var n, e, rest := ns[0], Encode(ns[0]), EncodeAll(ns[1..]);
      assert WellFormed(n) && |Content(n)| < |e|;
      RoundTrip(pre, n, rest);
      RoundTripAll(pre + e, ns[1..]);
      hide Encode, EncodeAll;
      assert pre + (e + rest) == (pre + e) + rest && (pre + (e + rest))[|pre|..] == e + rest;
      FirstElement(pre + (e + rest), |pre|, n, |e|, ns[1..]);
      assert [n] + ns[1..] == ns;
    }
  }

  lemma NothingToDecode(content: seq<byte>, cur: nat)
    requires |content| < INT_LIMIT && cur >= |content|
    ensures DecodeAll(content, cur) == Got([])
  {
  }

  lemma FirstElement(content: seq<byte>, cur: nat, n: Node, size: nat, rest: seq<Node>)
    requires |content| < INT_LIMIT && cur < |content| && DecodeAt(content, cur) == Got(n)
    requires EncodedLength(content[cur..]) == Some(size) && DecodeAll(content, cur + size) == Got(rest)
    ensures DecodeAll(content, cur) == Got([n] + rest)
  {
  }

  // ----- failures -----

  /** The header at off makes the reader slice outside the data: the length wrapped round to before its own end. */
  predicate Overruns(data: seq<byte>, off: nat) {
    var l := LengthAt(data, off + 1);
    l.Some? && (l.value.length < 0 || l.value.next + l.value.length >= INT_LIMIT)
  }

  lemma PanicsExactlyOnOverrun(data: seq<byte>, off: nat)
    requires |data| < INT_LIMIT && off < |data|
    ensures ContentAt(data, off).Panic? <==> Overruns(data, off)
  {
    hide LengthAt;
  }

  /** Up to seven octets are too few to overflow. */
  lemma {:induction false} ShortLength(b: seq<byte>)
    requires |b| <= 7
    ensures 0 <= Accumulated(b) < Power256(|b|) <= 0x100_0000_0000_0000
  {
    if b != [] {
      ShortLength(b[..|b| - 1]);
      SevenOctets(|b|);
    }
  }

  /** Seven octets are 56 bits. */
  lemma {:induction false} SevenOctets(n: nat)
    requires n <= 7
    ensures 0x100_0000_0000_0000 == Power256(7) >= Power256(n)
    decreases 7 - n
  {
    assert Power256(4) == 0x1_0000_0000;
    if n < 7 {
      SevenOctets(n + 1);
    }
  }

  /**
   * Reading the element at off gets to the header at place at of inner: its own, or one inside its content when its
   * tag is constructed.
   */
  predicate Reaches(data: seq<byte>, off: nat, inner: seq<byte>, at: nat)
    requires |data| < INT_LIMIT
    decreases |data|, 0
  {
    || (inner == data && at == off)
    || (ContentAt(data, off).Got? && Constructed(data[off]) && ReachesIn(ContentAt(data, off).value, 0, inner, at))
  }

  /** One behind the other as long as the elements before it are read. */
  predicate ReachesIn(content: seq<byte>, cur: nat, inner: seq<byte>, at: nat)
    requires |content| < INT_LIMIT
    decreases |content|, 1, |content| - cur
  {
    && cur < |content|
    && (|| Reaches(content, cur, inner, at)
        || (DecodeAt(content, cur).Got? && ReachesIn(content, Later(content, cur), inner, at)))
  }

  /** Where the element behind the one at cur starts. */
  function Later(content: seq<byte>, cur: nat): (next: nat)
    requires |content| < INT_LIMIT && cur < |content| && DecodeAt(content, cur).Got?
    ensures cur < next <= |content|
  {
    SizeOfContent(content, cur);
    cur + EncodedLength(content[cur..]).value
  }

  /** A reached header on which the slice fails. */
  ghost predicate FailsWithin(data: seq<byte>, off: nat)
    requires |data| < INT_LIMIT
  {
    exists inner, at: nat :: Reaches(data, off, inner, at) && at < |inner| && Overruns(inner, at)
  }

  ghost predicate FailsAmong(content: seq<byte>, cur: nat)
    requires |content| < INT_LIMIT
  {
    exists inner, at: nat :: ReachesIn(content, cur, inner, at) && at < |inner| && Overruns(inner, at)
  }

  /**
   * The reader fails if and only if one of the headers it gets to overruns, at any depth and on any data. High bytes in
   * contents, and headers behind malformed data, do not matter.
   */
  lemma {:induction false} PanicsExactly(data: seq<byte>, off: nat)
    requires |data| < INT_LIMIT
    ensures DecodeAt(data, off).Panic? <==> FailsWithin(data, off)
    decreases |data|, 0
  {
    hide LengthAt, Wrap, EncodedLength;
    OwnHeader(data, off);
    if ContentAt(data, off).Got? && Constructed(data[off]) {
      PanicsExactlyIn(ContentAt(data, off).value, 0);
      InnerHeaders(data, off);
    }
  }

  /** An element that is not opened can only fail on its own header. */
  lemma OwnHeader(data: seq<byte>, off: nat)
    requires |data| < INT_LIMIT
    ensures ContentAt(data, off).Panic? <==> off < |data| && Overruns(data, off)
    ensures ContentAt(data, off).Panic? ==> FailsWithin(data, off)
    ensures !(ContentAt(data, off).Got? && Constructed(data[off])) ==>
              (FailsWithin(data, off) <==> ContentAt(data, off).Panic?)
  {
    if off < |data| {
      PanicsExactlyOnOverrun(data, off);
    }
    hide ContentAt, Overruns;
    if off < |data| && Overruns(data, off) {
      assert Reaches(data, off, data, off);
    }
  }

  lemma InnerHeaders(data: seq<byte>, off: nat)
    requires |data| < INT_LIMIT && ContentAt(data, off).Got? && Constructed(data[off])
    ensures FailsWithin(data, off) <==> FailsAmong(ContentAt(data, off).value, 0)
  {
    OwnHeader(data, off);
    hide ContentAt, Overruns, ReachesIn;
    var content := ContentAt(data, off).value;
    if FailsWithin(data, off) {
      var inner, at: nat :| Reaches(data, off, inner, at) && at < |inner| && Overruns(inner, at);
      assert ReachesIn(content, 0, inner, at);
    }
    if FailsAmong(content, 0) {
      var inner, at: nat :| ReachesIn(content, 0, inner, at) && at < |inner| && Overruns(inner, at);
      assert Reaches(data, off, inner, at);
    }
  }

  lemma {:induction false} PanicsExactlyIn(content: seq<byte>, cur: nat)
    requires |content| < INT_LIMIT
    ensures DecodeAll(content, cur).Panic? <==> FailsAmong(content, cur)
    decreases |content|, 1, |content| - cur
  {
    hide ContentAt, Overruns, EncodedLength;
    if cur < |content| {
      PanicsExactly(content, cur);
      if DecodeAt(content, cur).Got? {
        PanicsExactlyIn(content, Later(content, cur));
      }
      FirstOrLater(content, cur);
    }
  }

  lemma FirstOrLater(content: seq<byte>, cur: nat)
    requires |content| < INT_LIMIT && cur < |content|
    ensures FailsAmong(content, cur) <==>
            FailsWithin(content, cur) || (DecodeAt(content, cur).Got? && FailsAmong(content, Later(content, cur)))
  {
    hide Reaches, DecodeAt, Overruns, Later;
    if FailsAmong(content, cur) {
      var inner, at: nat :| ReachesIn(content, cur, inner, at) && at < |inner| && Overruns(inner, at);
      if Reaches(content, cur, inner, at) {
        assert FailsWithin(content, cur);
      } else {
        assert ReachesIn(content, Later(content, cur), inner, at);
      }
    }
    if FailsWithin(content, cur) {
      var inner, at: nat :| Reaches(content, cur, inner, at) && at < |inner| && Overruns(inner, at);
      assert ReachesIn(content, cur, inner, at);
    }
    if DecodeAt(content, cur).Got? && FailsAmong(content, Later(content, cur)) {
      var inner, at: nat :| ReachesIn(content, Later(content, cur), inner, at) && at < |inner| && Overruns(inner, at);
      assert ReachesIn(content, cur, inner, at);
    }
  }

  /** At most seven length octets in the header at place at. */
  predicate ShortHeader(inner: seq<byte>, at: nat) {
    at + 1 < |inner| ==> inner[at + 1] < 0x88
  }

  lemma {:induction false} ReachedIsPart(data: seq<byte>, off: nat, inner: seq<byte>, at: nat)
    requires |data| < INT_LIMIT && Reaches(data, off, inner, at)
    ensures |inner| <= |data|
    decreases |data|, 0
  {
    hide LengthAt, Wrap;
    if !(inner == data && at == off) {
      ReachedIsPartIn(ContentAt(data, off).value, 0, inner, at);
    }
  }

  lemma {:induction false} ReachedIsPartIn(content: seq<byte>, cur: nat, inner: seq<byte>, at: nat)
    requires |content| < INT_LIMIT && ReachesIn(content, cur, inner, at)
    ensures |inner| <= |content|
    decreases |content|, 1, |content| - cur
  {
    hide DecodeAt, EncodedLength;
    if Reaches(content, cur, inner, at) {
      ReachedIsPart(content, cur, inner, at);
    } else {
      ReachedIsPartIn(content, Later(content, cur), inner, at);
    }
  }

  lemma ShortHeaderDoesNotOverrun(data: seq<byte>, off: nat)
    requires |data| <= INT_LIMIT - 0x100_0000_0000_0000 && ShortHeader(data, off)
    ensures !Overruns(data, off)
  {
    if off + 1 < |data| && data[off + 1] > 0x80 && off + 2 + (data[off + 1] - 0x80) <= |data| {
      ShortLength(data[off + 2..off + 2 + (data[off + 1] - 0x80)]);
    }
  }

  /** When no header that is reached announces eight or more length octets the reader does not fail. */
  lemma NeverPanics(data: seq<byte>, off: nat)
    requires |data| <= INT_LIMIT - 0x100_0000_0000_0000
    requires forall inner, at: nat :: Reaches(data, off, inner, at) ==> ShortHeader(inner, at)
    ensures !DecodeAt(data, off).Panic?
  {
    PanicsExactly(data, off);
    hide Reaches, DecodeAt, Overruns, ShortHeader;
    if FailsWithin(data, off) {
      var inner, at: nat :| Reaches(data, off, inner, at) && at < |inner| && Overruns(inner, at);
      ReachedIsPart(data, off, inner, at);
      ShortHeaderDoesNotOverrun(inner, at);
    }
  }

  /** Extracting identifiers from a packet fails on exactly the packets on which the reader does. */
  lemma RequestPanicsExactly(pkt: seq<byte>)
    requires |pkt| < INT_LIMIT
    ensures RequestOids(pkt).Panic? <==> FailsWithin(pkt, 0)
  {
    PanicsExactly(pkt, 0);
    hide DecodeAt, FailsWithin;
  }

  /** Eight length octets can make the length negative, and then the reader fails. */
  lemma LongLengthPanics()
    ensures DecodeAt([0x04, 0x88, 0xFF, 0xFF, 0xFF, 0xFF, 0xFF, 0xFF, 0xFF, 0xFF], 0).Panic?
  {
    var data: seq<byte> := [0x04, 0x88, 0xFF, 0xFF, 0xFF, 0xFF, 0xFF, 0xFF, 0xFF, 0xFF];
    assert data[2..10] == Repeat(0xFF, 8);
    EightOnes();
    assert LengthAt(data, 1) == Some(Length(-1, 10));
    PanicsExactlyOnOverrun(data, 0);
  }

  /** Up to seven octets of ones are read as they are. */
  lemma {:induction false} OnesRead(n: nat)
    requires n <= 7
    ensures Accumulated(Repeat(0xFF, n)) == Power256(n) - 1
  {
    if n > 0 {
      OnesRead(n - 1);
      assert Repeat(0xFF, n)[..n - 1] == Repeat(0xFF, n - 1);
      SevenOctets(n);
    }
  }

  lemma EightOnes()
    ensures Accumulated(Repeat(0xFF, 8)) == -1
  {
    OnesRead(7);
    SevenOctets(7);
    assert Repeat(0xFF, 8)[..7] == Repeat(0xFF, 7);
  }

  // ----- object identifiers -----

  /** The octets of a subidentifier that are followed by another one. */
  function LeadingOctets(v: nat): seq<byte> {
    if v == 0 then [] else LeadingOctets(v / 128) + [128 + v % 128]
  }

  function Base128(v: nat): seq<byte> {
    LeadingOctets(v / 128) + [v % 128]
  }

  function Base128All(arcs: seq<nat>): seq<byte> {
    if arcs == [] then [] else Base128(arcs[0]) + Base128All(arcs[1..])
  }

  /** X.690 section 8.19: the first two arcs share one subidentifier. */
  function EncodeOid(arcs: seq<nat>): seq<byte>
    requires LegalOid(arcs)
  {
    Base128(40 * arcs[0] + arcs[1]) + Base128All(arcs[2..])
  }

  /** At least two arcs; the first is 0, 1 or 2, and below 2 the second is less than 40. Later arcs fit Go's int. */
  predicate LegalOid(arcs: seq<nat>) {
    |arcs| >= 2 && arcs[0] <= 2 && (arcs[0] < 2 ==> arcs[1] < 40) && forall i :: 2 <= i < |arcs| ==> arcs[i] < INT_LIMIT
  }

  lemma {:induction false} LeadingRead(pre: seq<byte>, v: nat, post: seq<byte>)
    requires v < INT_LIMIT
    ensures ArcAt(pre + (LeadingOctets(v) + post), |pre|, 0) ==
            ArcAt(pre + (LeadingOctets(v) + post), |pre| + |LeadingOctets(v)|, v)
    decreases v
  {
    hide ArcAt;
    if v > 0 {
      LeadingRead(pre, v / 128, [128 + v % 128] + post);
      assert LeadingOctets(v) == LeadingOctets(v / 128) + [128 + v % 128];
      OneMoreLeading(pre, LeadingOctets(v / 128), v, post);
    }
  }

  lemma OneMoreLeading(pre: seq<byte>, lead: seq<byte>, v: nat, post: seq<byte>)
    requires v < INT_LIMIT
    requires var data := pre + (lead + ([128 + v % 128] + post));
             ArcAt(data, |pre|, 0) == ArcAt(data, |pre| + |lead|, v / 128)
    ensures var all := lead + [128 + v % 128];
            ArcAt(pre + (all + post), |pre|, 0) == ArcAt(pre + (all + post), |pre| + |all|, v)
  {
    hide ArcAt;
    var data := pre + (lead + ([128 + v % 128] + post));
    LeadingOctet(data, |pre| + |lead|, v);
    assert (lead + [128 + v % 128]) + post == lead + ([128 + v % 128] + post);
  }

  lemma LeadingOctet(data: seq<byte>, i: nat, v: nat)
    requires i < |data| && data[i] == 128 + v % 128 && v < INT_LIMIT
    ensures ArcAt(data, i, v / 128) == ArcAt(data, i + 1, v)
  {
    assert Wrap(v / 128 * 128 + v % 128) == v;
  }

  lemma Base128Read(pre: seq<byte>, v: nat, post: seq<byte>)
    requires v < INT_LIMIT
    ensures ArcAt(pre + (Base128(v) + post), |pre|, 0) == Some((v, |pre| + |Base128(v)|))
  {
    hide LeadingOctets, ArcAt;
    LeadingRead(pre, v / 128, [v % 128] + post);
    LeadingThenLast(pre, LeadingOctets(v / 128), v, post);
  }

  lemma LeadingThenLast(pre: seq<byte>, lead: seq<byte>, v: nat, post: seq<byte>)
    requires v < INT_LIMIT
    requires var data := pre + (lead + ([v % 128] + post));
             ArcAt(data, |pre|, 0) == ArcAt(data, |pre| + |lead|, v / 128)
    ensures ArcAt(pre + ((lead + [v % 128]) + post), |pre|, 0) == Some((v, |pre| + |lead + [v % 128]|))
  {
    hide ArcAt;
    var data := pre + (lead + ([v % 128] + post));
    LastOctet(data, |pre| + |lead|, v);
    assert (lead + [v % 128]) + post == lead + ([v % 128] + post);
  }

  lemma LastOctet(data: seq<byte>, i: nat, v: nat)
    requires i < |data| && data[i] == v % 128 && v < INT_LIMIT
    ensures ArcAt(data, i, v / 128) == Some((v, i + 1))
  {
    assert Wrap(v / 128 * 128 + v % 128) == v;
  }

  lemma {:induction false} ArcsRead(pre: seq<byte>, arcs: seq<nat>)
    requires forall i :: 0 <= i < |arcs| ==> arcs[i] < INT_LIMIT
    ensures ArcsFrom(pre + Base128All(arcs), |pre|) == Some(arcs)
    decreases |arcs|
  {
    if arcs != [] {
      hide ArcAt, Base128;
      var b, rest := Base128(arcs[0]), Base128All(arcs[1..]);
      Base128Read(pre, arcs[0], rest);
      ArcsRead(pre + b, arcs[1..]);
      hide Base128All;
      assert pre + (b + rest) == (pre + b) + rest;
      assert [arcs[0]] + arcs[1..] == arcs;
    }
  }

  /** The first octet of a subidentifier of 128 or more has its top bit and another one set. */
  lemma {:induction false} FirstOctet(v: nat)
    requires v > 0
    ensures LeadingOctets(v) != [] && LeadingOctets(v)[0] > 128
  {
    if v >= 128 {
      FirstOctet(v / 128);
    } else {
      assert LeadingOctets(v) == [] + [128 + v % 128];
    }
  }

  /** The reader inverts the encoding exactly when the second arc is below 40. */
  lemma OidRoundTrip(arcs: seq<nat>)
    requires LegalOid(arcs)
    ensures DecodeOid(EncodeOid(arcs)) == Some(arcs) <==> arcs[1] < 40
  {
    assert |arcs| >= 2;
    hide *;
    if 40 * arcs[0] + arcs[1] < 128 {
      ShortFirst(arcs);
    } else {
      LongFirst(arcs);
    }
  }

  /** The first two arcs in one octet: it tells them apart as far as the second is below 40. */
  lemma ShortFirst(arcs: seq<nat>)
    requires LegalOid(arcs) && 40 * arcs[0] + arcs[1] < 128
    ensures DecodeOid(EncodeOid(arcs)) == Some(arcs) <==> arcs[1] < 40
  {
    var first := 40 * arcs[0] + arcs[1];
    assert LeadingOctets(first / 128) == [];
    assert EncodeOid(arcs) == [first as byte] + Base128All(arcs[2..]);
    hide EncodeOid;
    ArcsRead([first as byte], arcs[2..]);
    assert arcs == [arcs[0], arcs[1]] + arcs[2..];
  }

  /** In several octets they are not read back. */
  lemma LongFirst(arcs: seq<nat>)
    requires LegalOid(arcs) && 40 * arcs[0] + arcs[1] >= 128
    ensures DecodeOid(EncodeOid(arcs)) != Some(arcs) && arcs[1] >= 40
  {
    var first := 40 * arcs[0] + arcs[1];
    FirstOctet(first / 128);
    assert EncodeOid(arcs)[0] == LeadingOctets(first / 128)[0] > 128;
    hide EncodeOid;
  }

  // ----- SNMP requests -----

  datatype VarBind = VarBind(oid: seq<nat>, value: Node)

  predicate Askable(binds: seq<VarBind>) {
    forall k :: 0 <= k < |binds| ==>
      LegalOid(binds[k].oid) && binds[k].oid[1] < 40 && WellFormed(binds[k].value)
  }

  function BindNodes(binds: seq<VarBind>): seq<Node>
    requires Askable(binds)
  {
    if binds == [] then []
    else
      assert LegalOid(binds[0].oid);
      [Node(0x30, [], [Node(0x06, EncodeOid(binds[0].oid), []), binds[0].value])] + BindNodes(binds[1..])
  }

  function Oids(binds: seq<VarBind>): seq<seq<nat>> {
    if binds == [] then [] else [binds[0].oid] + Oids(binds[1..])
  }

  /** A version, a community string and a PDU of a request identifier, two numbers and the bindings. */
  function Request(tag: byte, version: seq<byte>, community: seq<byte>, numbers: seq<seq<byte>>, binds: seq<VarBind>): Node
    requires |numbers| == 3 && Askable(binds)
  {
    Node(0x30, [], [
      Node(0x02, version, []), Node(0x04, community, []),
      Node(tag, [], [
        Node(0x02, numbers[0], []), Node(0x02, numbers[1], []), Node(0x02, numbers[2], []),
        Node(0x30, [], BindNodes(binds))])])
  }

  lemma {:induction false} BindsWellFormed(binds: seq<VarBind>)
    requires Askable(binds)
    ensures AllWellFormed(BindNodes(binds))
  {
    if binds != [] {
      BindsWellFormed(binds[1..]);
      var oid, value := Node(0x06, EncodeOid(binds[0].oid), []), binds[0].value;
      assert [oid, value][1..] == [value] && [value][1..] == [];
      assert WellFormed(value);
      assert AllWellFormed([value]);
      assert AllWellFormed([oid, value]);
    }
  }

  lemma {:induction false} BindsRead(binds: seq<VarBind>)
    requires Askable(binds)
    ensures VarBindOids(BindNodes(binds)) == Oids(binds)
  {
    if binds != [] {
      hide EncodeOid, DecodeOid;
      BindsRead(binds[1..]);
      OidRoundTrip(binds[0].oid);
      assert BindNodes(binds)[1..] == BindNodes(binds[1..]);
    }
  }

  lemma {:induction false} PrimitivesWellFormed(a: seq<Node>, b: seq<Node>)
    requires forall k :: 0 <= k < |a| ==> !Constructed(a[k].tag) && a[k].children == []
    requires AllWellFormed(b)
    ensures AllWellFormed(a + b)
  {
    if a == [] {
      assert a + b == b;
    } else {
      PrimitivesWellFormed(a[1..], b);
      assert (a + b)[1..] == a[1..] + b;
      assert WellFormed(a[0]);
    }
  }

  /** From the bytes of any well-formed request, whatever follows it, its identifiers are read back in order. */
  lemma RequestRead(
      tag: byte, version: seq<byte>, community: seq<byte>, numbers: seq<seq<byte>>, binds: seq<VarBind>, post: seq<byte>)
    requires tag == 0xA0 || tag == 0xA1 || tag == 0xA5
    requires |numbers| == 3 && Askable(binds)
    requires var r := Request(tag, version, community, numbers, binds);
             |Content(r)| < 0x1_0000 && |Encode(r) + post| < INT_LIMIT
    ensures RequestOids(Encode(Request(tag, version, community, numbers, binds)) + post) == Got(Oids(binds))
  {
    hide Content, Encode, DecodeAt, BindNodes, Oids, VarBindOids;
    var r := Request(tag, version, community, numbers, binds);
    BindsWellFormed(binds);
    BindsRead(binds);
    var list := Node(0x30, [], BindNodes(binds));
    assert AllWellFormed([list]) by {
      assert [list][1..] == [];
    }
    var prims := [Node(0x02, numbers[0], []), Node(0x02, numbers[1], []), Node(0x02, numbers[2], [])];
    PrimitivesWellFormed(prims, [list]);
    var pdu := Node(tag, [], prims + [list]);
    assert r.children[2] == pdu;
    assert AllWellFormed([pdu]) by {
      assert [pdu][1..] == [];
    }
    var head := [Node(0x02, version, []), Node(0x04, community, [])];
    PrimitivesWellFormed(head, [pdu]);
    assert r.children == head + [pdu];
    RoundTrip([], r, post);
    assert [] + (Encode(r) + post) == Encode(r) + post;
  }
}
