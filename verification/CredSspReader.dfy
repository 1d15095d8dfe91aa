/** What a CredSSP client reads from the server's request and challenge. */
module CredSspReader {
  import opened Bytes
  import opened Asn1
  import opened CredSsp

  /** Two and four bytes, the lowest first. */
  lemma LittleEndian()
    ensures Le16(0x0102) == [2, 1] && Le32(0x0102_0304) == [4, 3, 2, 1]
    ensures FromLe16([2, 1], 0) == 0x0102 && FromLe32([4, 3, 2, 1], 0) == 0x0102_0304
  {
  }

  // ----- a reader of DER elements (X.690 section 8.1) -----

  datatype Element = Element(tag: byte, content: seq<byte>, rest: seq<byte>)

  /** The first element: a length of one octet below 128, or 0x81 or 0x82 and one or two octets. */
  function ReadElement(b: seq<byte>): Option<Element> {
    if |b| < 2 then None
    else if b[1] < 128 then Taken(b, 2, b[1])
    else if b[1] == 0x81 && |b| >= 3 then Taken(b, 3, b[2])
    else if b[1] == 0x82 && |b| >= 4 then Taken(b, 4, 0x100 * b[2] as int + b[3])
    else None
  }

  function Taken(b: seq<byte>, from: nat, n: nat): Option<Element>
    requires 0 < from <= |b|
  {
    if from + n > |b| then None else Some(Element(b[0], b[from..from + n], b[from + n..]))
  }

  lemma BuiltIsRead(tag: byte, content: seq<byte>, rest: seq<byte>)
    requires |content| < 0x1_0000
    ensures ReadElement(Build(tag, content) + rest) == Some(Element(tag, content, rest))
  {
    var b, n := Build(tag, content) + rest, 1 + |LengthOctets(|content|)|;
    assert b == [tag] + LengthOctets(|content|) + (content + rest);
    assert b[n..n + |content|] == content && b[n + |content|..] == rest;
  }

  /** The content of the one element that there is, if it has this tag. */
  function Only(b: seq<byte>, tag: byte): Option<seq<byte>> {
    match ReadElement(b)
    case None => None
    case Some(e) => if e.tag == tag && e.rest == [] then Some(e.content) else None
  }

  lemma OnlyBuilt(tag: byte, content: seq<byte>)
    requires |content| < 0x1_0000
    ensures Only(Build(tag, content), tag) == Some(content)
  {
    BuiltIsRead(tag, content, []);
    assert Build(tag, content) + [] == Build(tag, content);
    hide ReadElement;
  }

  /** Tag by tag into an element that holds one element only. */
  function Into(b: seq<byte>, tags: seq<byte>): Option<seq<byte>>
    decreases |tags|
  {
    if tags == [] then Some(b)
    else match Only(b, tags[0])
      case None => None
      case Some(c) => Into(c, tags[1..])
  }

  lemma IntoStep(tag: byte, content: seq<byte>, tags: seq<byte>)
    requires |content| < 0x1_0000
    ensures Into(Build(tag, content), [tag] + tags) == Into(content, tags)
  {
    OnlyBuilt(tag, content);
    assert ([tag] + tags)[1..] == tags;
    hide Only;
  }

  // ----- the request -----

  /** Version and token of a TSRequest: a sequence of [0] INTEGER and of [1] around a sequence of [0] OCTET STRING. */
  datatype Request = Request(version: seq<byte>, token: seq<byte>)

  function ReadRequest(b: seq<byte>): Option<Request> {
    match Only(b, 0x30)
    case None => None
    case Some(body) =>
      match ReadElement(body)
      case None => None
      case Some(first) =>
        var version, token := Into(first.content, [0x02]), Into(first.rest, [0xA1, 0x30, 0xA0, 0x04]);
        if first.tag != 0xA0 || version.None? || token.None? then None else Some(Request(version.value, token.value))
  }

  /** State, mechanism and response of a NegTokenResp (RFC 4178 section 4.2.2). */
  datatype Response = Response(state: seq<byte>, mechanism: seq<byte>, token: seq<byte>)

  function ReadResponse(b: seq<byte>): Option<Response> {
    match Into(b, [0xA1, 0x30])
    case None => None
    case Some(body) =>
      match ReadElement(body)
      case None => None
      case Some(first) =>
        match ReadElement(first.rest)
        case None => None
        case Some(second) =>
          var state, mech, token := Into(first.content, [0x0A]), Into(second.content, [0x06]), Into(second.rest, [0xA2, 0x04]);
          if first.tag != 0xA0 || second.tag != 0xA1 || state.None? || mech.None? || token.None? then None
          else Some(Response(state.value, mech.value, token.value))
  }

  lemma ResponseRead(ntlm: seq<byte>)
    requires |ntlm| <= 65_479
    ensures ReadResponse(SpnegoToken(ntlm)) == Some(Response([1], [0x2B, 0x06, 0x01, 0x04, 0x01, 0x82, 0x37, 0x02, 0x02, 0x0A], ntlm))
  {
    var state, mech := Build(0x0A, [1]), Build(0x06, NTLMSSP_OID);
    var token := Build(0x04, ntlm);
    var body := Build(0xA0, state) + (Build(0xA1, mech) + Build(0xA2, token));
    assert SpnegoToken(ntlm) == Build(0xA1, Build(0x30, body)) by {
      hide Build;
      assert Ctx(0, state) + Ctx(1, mech) + Ctx(2, token) == body;
    }
    assert |state| == 3 && |mech| == 12 && |token| <= 65_483 && |body| <= 65_506;
    hide Build, Into, ReadElement, SpnegoToken;
    IntoStep(0xA1, Build(0x30, body), [0x30]);
    IntoStep(0x30, body, []);
    assert [0xA1] + [0x30] == [0xA1, 0x30] && [0x30] + [] == [0x30];
    BuiltIsRead(0xA0, state, Build(0xA1, mech) + Build(0xA2, token));
    BuiltIsRead(0xA1, mech, Build(0xA2, token));
    IntoOne(0x0A, [1]);
    IntoOne(0x06, NTLMSSP_OID);
    IntoStep(0xA2, token, [0x04]);
    IntoOne(0x04, ntlm);
    assert [0xA2] + [0x04] == [0xA2, 0x04];
    IntoNothing(body);
  }

  lemma IntoNothing(b: seq<byte>)
    ensures Into(b, []) == Some(b)
  {
  }

  lemma IntoOne(tag: byte, content: seq<byte>)
    requires |content| < 0x1_0000
    ensures Into(Build(tag, content), [tag]) == Some(content)
  {
    IntoStep(tag, content, []);
    assert [tag] + [] == [tag];
    hide Build;
  }

  lemma RequestRead(ntlm: seq<byte>)
    requires |ntlm| <= 65_479
    ensures ReadRequest(TsRequest(ntlm)) == Some(Request([6], SpnegoToken(ntlm)))
  {
    var version, spnego := Build(0x02, [6]), SpnegoToken(ntlm);
    var octets := Build(0x04, spnego);
    var item := Build(0xA0, octets);
    var body := Build(0xA0, version) + Build(0xA1, Build(0x30, item));
    assert TsRequest(ntlm) == Build(0x30, body);
    assert |version| == 3 && |spnego| <= 65_514 && |octets| <= 65_518 && |item| <= 65_522 && |body| <= 65_535;
    hide Build, SpnegoToken, Into, ReadElement, Only;
    OnlyBuilt(0x30, body);
    BuiltIsRead(0xA0, version, Build(0xA1, Build(0x30, item)));
    IntoOne(0x02, [6]);
    TokenReached(item, octets, spnego);
  }

  lemma TokenReached(item: seq<byte>, octets: seq<byte>, token: seq<byte>)
    requires octets == Build(0x04, token) && item == Build(0xA0, octets) && |token| <= 65_514
    ensures Into(Build(0xA1, Build(0x30, item)), [0xA1, 0x30, 0xA0, 0x04]) == Some(token)
  {
    assert |octets| <= 65_518 && |item| <= 65_522;
    hide *;
    IntoStep(0xA1, Build(0x30, item), [0x30, 0xA0, 0x04]);
    IntoStep(0x30, item, [0xA0, 0x04]);
    IntoStep(0xA0, octets, [0x04]);
    IntoOne(0x04, token);
    assert [0xA1] + [0x30, 0xA0, 0x04] == [0xA1, 0x30, 0xA0, 0x04];
    assert [0x30] + [0xA0, 0x04] == [0x30, 0xA0, 0x04] && [0xA0] + [0x04] == [0xA0, 0x04];
  }

  /**
   * The token stands one SEQUENCE higher than MS-CSSP section 2.2.1.1 puts it: a reader of a SEQUENCE OF SEQUENCE finds
   * none.
   */
  lemma OneSequenceShort(ntlm: seq<byte>)
    requires |ntlm| <= 65_479
    ensures var body := Only(TsRequest(ntlm), 0x30);
            body.Some? && ReadElement(body.value).Some? && Into(ReadElement(body.value).value.rest, [0xA1, 0x30, 0x30]) == None
  {
    var version, spnego := Build(0x02, [6]), SpnegoToken(ntlm);
    var octets := Build(0x04, spnego);
    var item := Build(0xA0, octets);
    var body := Build(0xA0, version) + Build(0xA1, Build(0x30, item));
    assert TsRequest(ntlm) == Build(0x30, body);
    assert |version| == 3 && |spnego| <= 65_514 && |octets| <= 65_518 && |item| <= 65_522 && |body| <= 65_535;
    hide Build, SpnegoToken;
    OnlyBuilt(0x30, body);
    BuiltIsRead(0xA0, version, Build(0xA1, Build(0x30, item)));
    IntoStep(0xA1, Build(0x30, item), [0x30, 0x30]);
    IntoStep(0x30, item, [0x30]);
    WrongTag(0xA0, octets, 0x30);
    assert [0xA1] + [0x30, 0x30] == [0xA1, 0x30, 0x30] && [0x30] + [0x30] == [0x30, 0x30];
    hide Into, ReadElement, Only;
  }

  lemma WrongTag(tag: byte, content: seq<byte>, other: byte)
    requires |content| < 0x1_0000 && tag != other
    ensures Into(Build(tag, content), [other]) == None
  {
    BuiltIsRead(tag, content, []);
    assert Build(tag, content) + [] == Build(tag, content);
    hide ReadElement, Build;
  }

  /** A content that does not fit two length octets is cut, and what is cut off stands behind the element. */
  lemma CutContent(tag: byte, content: seq<byte>)
    requires |content| >= 0x1_0000
    ensures Only(Build(tag, content), tag) == None
  {
    var b, n := Build(tag, content), |content| % 0x1_0000;
    assert b[1] == 0x82 && b[2] == |content| / 0x100 % 0x100 && b[3] == |content| % 0x100;
    assert 0x100 * (|content| / 0x100 % 0x100) + |content| % 0x100 == n;
    assert ReadElement(b) == Taken(b, 4, n);
    assert b[4 + n..] != [];
  }

  lemma RequestTooLong(ntlm: seq<byte>)
    requires |ntlm| > 65_479
    ensures ReadRequest(TsRequest(ntlm)) == None
  {
    var spnego := SpnegoToken(ntlm);
    assert |spnego| > 65_514;
    var body := Build(0xA0, Build(0x02, [6])) + Build(0xA1, Build(0x30, Build(0xA0, Build(0x04, spnego))));
    assert TsRequest(ntlm) == Build(0x30, body) && |body| > 65_535;
    hide Build, SpnegoToken, Only;
    CutContent(0x30, body);
  }

  /**
   * A client finds version 6 and, as the response of the one token, the message: exactly for messages of at most 65479
   * bytes, with which the whole request still fits its length octets.
   */
  lemma TokenIsMessage(ntlm: seq<byte>)
    ensures ReadRequest(TsRequest(ntlm)).Some? <==> |ntlm| <= 65_479
    ensures |ntlm| <= 65_479 ==>
              var q := ReadRequest(TsRequest(ntlm)).value;
              && q.version == [6] && ReadResponse(q.token).Some?
              && ReadResponse(q.token).value.token == ntlm && ReadResponse(q.token).value.state == [1]
  {
    hide *;
    if |ntlm| <= 65_479 {
      RequestRead(ntlm);
      ResponseRead(ntlm);
    } else {
      RequestTooLong(ntlm);
    }
  }

  // ----- the challenge -----

  /** The fixed fields of a CHALLENGE_MESSAGE (MS-NLMP section 2.2.1.2) hold what the server was given. */
  lemma FixedFields(id: Identity)
    requires id.Valid()
    ensures var c := Challenge(id);
            && |c| >= 56 && c[..8] == [0x4E, 0x54, 0x4C, 0x4D, 0x53, 0x53, 0x50, 0x00]
            && FromLe32(c, 8) == 2 && FromLe32(c, 20) == 0xE28A_8215 && c[24..32] == id.challenge
            && c[32..40] == Repeat(0, 8)
            && c[48] == id.major && c[49] == id.minor && FromLe16(c, 50) == id.build && c[52..56] == [0, 0, 0, 15]
  {
    var c, n, m := Challenge(id), |id.domain|, |TargetInfo(id)|;
    var f := FixedPart(id, n, m);
    ChallengeFields(id);
    FixedPlaces(id, n, m);
    hide FixedPart, TargetInfo, Le16, Le32;
    assert c[..56] == f;
    SubSlice(c, 0, f, 0, 8);
    SubSlice(c, 0, f, 20, 24);
    SubSlice(c, 0, f, 24, 32);
    SubSlice(c, 0, f, 32, 40);
    SubSlice(c, 0, f, 50, 52);
    SubSlice(c, 0, f, 52, 56);
    assert c[48] == f[48] && c[49] == f[49];
    Le32RoundTrip(c, 20, FLAGS);
    Le16RoundTrip(c, 50, id.build);
  }

  lemma FixedPlaces(id: Identity, n: nat, m: nat)
    requires id.Valid()
    ensures var f := FixedPart(id, n, m);
            && f[0..8] == MAGIC && f[20..24] == Le32(FLAGS) && f[24..32] == id.challenge && f[32..40] == Repeat(0, 8)
            && f[48] == id.major && f[49] == id.minor && f[50..52] == Le16(id.build) && f[52..56] == [0, 0, 0, 15]
  {
    hide Le16, Le32, Descriptor;
  }

  /**
   * The flags (MS-NLMP section 2.2.2.5) announce what the message has: UNICODE names, a target name, target information
   * and a version; with NTLM and extended session security.
   */
  lemma FlagsAnnounce(id: Identity)
    requires id.Valid()
    ensures |Challenge(id)| >= 24
    ensures var f := FromLe32(Challenge(id), 20);
            && f % 2 == 1 && f / 0x4 % 2 == 1 && f / 0x80_0000 % 2 == 1 && f / 0x200_0000 % 2 == 1
            && f / 0x200 % 2 == 1 && f / 0x8_0000 % 2 == 1
  {
    FixedFields(id);
    hide *;
    Bits(FromLe32(Challenge(id), 20));
  }

  lemma Bits(f: int)
    requires f == 0xE28A_8215
    ensures f % 2 == 1 && f / 0x4 % 2 == 1 && f / 0x80_0000 % 2 == 1 && f / 0x200_0000 % 2 == 1
    ensures f / 0x200 % 2 == 1 && f / 0x8_0000 % 2 == 1
  {
  }

  /** The five pairs by their identifiers: names of computer and domain, NetBIOS and DNS, and the time. */
  lemma PairsById(id: Identity)
    requires id.Valid() && |id.computer| < 0x1_0000 && |id.domain| < 0x1_0000
    ensures ReadAvs(TargetInfo(id)) ==
            Some([AvPair(2, id.domain), AvPair(1, id.computer), AvPair(4, id.domain), AvPair(3, id.computer), AvPair(7, id.filetime)])
  {
    TargetInfoRead(id);
  }
}
