/** NTLM messages: building a challenge, wrapping it in DER for CredSSP, and finding it again. */
module CredSsp {
  import opened Bytes
  import opened Asn1

  // ----- little-endian fields -----

  function Le16(v: uint16): (b: seq<byte>)
    ensures |b| == 2
  {
    [v % 0x100, v / 0x100]
  }

  function Le32(v: uint32): (b: seq<byte>)
    ensures |b| == 4
  {
    Le16(v % 0x1_0000) + Le16(v / 0x1_0000)
  }

  function FromLe16(s: seq<byte>, i: nat): uint16
    requires i + 2 <= |s|
  {
    s[i] + s[i + 1] as int * 0x100
  }

  function FromLe32(s: seq<byte>, i: nat): uint32
    requires i + 4 <= |s|
  {
    FromLe16(s, i) + FromLe16(s, i + 2) as int * 0x1_0000
  }

  lemma Le32RoundTrip(s: seq<byte>, i: nat, v: uint32)
    requires i + 4 <= |s| && s[i..i + 4] == Le32(v)
    ensures FromLe32(s, i) == v
  {
    assert s[i] == s[i..i + 4][0] && s[i + 1] == s[i..i + 4][1];
    assert s[i + 2] == s[i..i + 4][2] && s[i + 3] == s[i..i + 4][3];
  }

  lemma Le16RoundTrip(s: seq<byte>, i: nat, v: uint16)
    requires i + 2 <= |s| && s[i..i + 2] == Le16(v)
    ensures FromLe16(s, i) == v
  {
    assert s[i] == s[i..i + 2][0] && s[i + 1] == s[i..i + 2][1];
  }

  // ----- finding a message -----

  /** NTLMSSP and a zero byte. */
  const MAGIC: seq<byte> := [0x4E, 0x54, 0x4C, 0x4D, 0x53, 0x53, 0x50, 0x00]

  predicate MagicAt(data: seq<byte>, i: nat) {
    PartAt(data, MAGIC, i)
  }

  function FindType(data: seq<byte>, want: uint32): Option<seq<byte>> {
    match FirstPart(data, MAGIC, 0)
    case None => None
    case Some(k) => if k + 12 > |data| || FromLe32(data, k + 8) != want then None else Some(data[k..])
  }

  method FindNTLMType(data: seq<byte>, want: uint32) returns (r: Option<seq<byte>>)
    ensures r == FindType(data, want)
  {
    var idx := 0;
    while idx + 8 <= |data| && data[idx..idx + 8] != MAGIC
      invariant FirstPart(data, MAGIC, 0) == FirstPart(data, MAGIC, idx)
    {
      idx := idx + 1;
    }
    if idx + 12 > |data| {
      return None;
    }
    if FromLe32(data, idx + 8) != want {
      return None;
    }
    return Some(data[idx..]);
  }

  // ----- wrapping -----

  const NTLMSSP_OID: seq<byte> := [0x2B, 0x06, 0x01, 0x04, 0x01, 0x82, 0x37, 0x02, 0x02, 0x0A]

  function SpnegoToken(ntlm: seq<byte>): seq<byte> {
    Ctx(1, Build(0x30, Ctx(0, Build(0x0A, [1])) + Ctx(1, Build(0x06, NTLMSSP_OID)) + Ctx(2, Build(0x04, ntlm))))
  }

  function TsRequest(ntlm: seq<byte>): seq<byte> {
    Build(0x30, Ctx(0, Build(0x02, [6])) + Ctx(1, Build(0x30, Ctx(0, Build(0x04, SpnegoToken(ntlm))))))
  }

  /** A byte of the signature. */
  predicate InMagic(b: byte) {
    b in {0x4E, 0x54, 0x4C, 0x4D, 0x53, 0x50, 0x00}
  }

  /** Among the eight bytes from i on is one that the signature does not have. */
  predicate Breaks(h: seq<byte>, i: nat)
    requires i + 8 <= |h|
  {
    exists j :: i <= j < i + 8 && !InMagic(h[j])
  }

  /** Every eight bytes in a row hold one that the signature does not have, and so does the first place. */
  ghost predicate Guarded(h: seq<byte>) {
    && (h != [] ==> !InMagic(h[0]))
    && forall i :: 0 <= i <= |h| - 8 ==> Breaks(h, i)
  }

  lemma PrefixGuarded(s: seq<byte>, h: seq<byte>)
    requires 0 < |s| <= 8 && !InMagic(s[0]) && Guarded(h)
    ensures Guarded(s + h)
  {
    var all := s + h;
    forall i | 0 <= i <= |all| - 8
      ensures Breaks(all, i)
    {
      if i == 0 {
        assert !InMagic(all[0]);
      } else if i <= |s| {
        assert h != [] ==> all[|s|] == h[0];
        assert i <= |s| < i + 8;
      } else {
        assert Breaks(h, i - |s|);
        var j :| i - |s| <= j < i - |s| + 8 && !InMagic(h[j]);
        assert all[j + |s|] == h[j];
      }
    }
  }

  /** Data that ends in the message and has only guarded bytes before it. */
  ghost predicate GuardedBefore(data: seq<byte>, ntlm: seq<byte>) {
    |data| >= |ntlm| && data[|data| - |ntlm|..] == ntlm && Guarded(data[..|data| - |ntlm|])
  }

  lemma PrefixKeepsGuard(s: seq<byte>, data: seq<byte>, ntlm: seq<byte>)
    requires 0 < |s| <= 8 && !InMagic(s[0]) && GuardedBefore(data, ntlm)
    ensures GuardedBefore(s + data, ntlm)
  {
    var h := data[..|data| - |ntlm|];
    PrefixGuarded(s, h);
    assert (s + data)[..|s + data| - |ntlm|] == s + h;
    assert (s + data)[|s + data| - |ntlm|..] == ntlm;
  }

  /** A tag that the signature does not have, and its length octets, keep the guard. */
  lemma BuildKeepsGuard(tag: byte, content: seq<byte>, ntlm: seq<byte>)
    requires !InMagic(tag) && GuardedBefore(content, ntlm)
    ensures GuardedBefore(Build(tag, content), ntlm)
  {
    PrefixKeepsGuard([tag] + LengthOctets(|content|), content, ntlm);
  }

  lemma SpnegoGuarded(ntlm: seq<byte>)
    ensures GuardedBefore(SpnegoToken(ntlm), ntlm)
  {
    var state, mech := Ctx(0, Build(0x0A, [1])), Ctx(1, Build(0x06, NTLMSSP_OID));
    var front, back, token := mech[..7], mech[7..], Build(0xA2, Build(0x04, ntlm));
    assert 0 < |state| <= 8 && 0 < |back| <= 8 && !InMagic(state[0]) && !InMagic(front[0]) && !InMagic(back[0]);
    assert !InMagic(0x04) && !InMagic(0xA2) && !InMagic(0x30) && !InMagic(0xA1);
    assert SpnegoToken(ntlm) == Build(0xA1, Build(0x30, state + mech + token));
    hide *;
    NothingBefore(ntlm);
    BuildKeepsGuard(0x04, ntlm, ntlm);
    BuildKeepsGuard(0xA2, Build(0x04, ntlm), ntlm);
    PrefixKeepsGuard(back, token, ntlm);
    PrefixKeepsGuard(front, back + token, ntlm);
    PrefixKeepsGuard(state, front + (back + token), ntlm);
    Regrouped(state, mech, token);
    BuildKeepsGuard(0x30, state + mech + token, ntlm);
    BuildKeepsGuard(0xA1, Build(0x30, state + mech + token), ntlm);
  }

  lemma Regrouped(state: seq<byte>, mech: seq<byte>, token: seq<byte>)
    requires |mech| >= 7
    ensures state + (mech[..7] + (mech[7..] + token)) == state + mech + token
  {
    assert mech == mech[..7] + mech[7..];
  }

  lemma NothingBefore(ntlm: seq<byte>)
    ensures GuardedBefore(ntlm, ntlm)
  {
  }

  lemma RequestGuarded(ntlm: seq<byte>)
    ensures GuardedBefore(TsRequest(ntlm), ntlm)
  {
    hide GuardedBefore, Guarded, SpnegoToken;
    SpnegoGuarded(ntlm);
    var t := SpnegoToken(ntlm);
    BuildKeepsGuard(0x04, t, ntlm);
    BuildKeepsGuard(0xA0, Build(0x04, t), ntlm);
    BuildKeepsGuard(0x30, Build(0xA0, Build(0x04, t)), ntlm);
    var negoTokens := Build(0xA1, Build(0x30, Build(0xA0, Build(0x04, t))));
    BuildKeepsGuard(0xA1, Build(0x30, Build(0xA0, Build(0x04, t))), ntlm);
    var version := Ctx(0, Build(0x02, [6]));
    PrefixKeepsGuard(version, negoTokens, ntlm);
    BuildKeepsGuard(0x30, version + negoTokens, ntlm);
  }

  /** The signature is not found before the message: not within the headers and not across their end. */
  lemma NoEarlierMagic(data: seq<byte>, ntlm: seq<byte>, i: nat)
    requires GuardedBefore(data, ntlm) && MAGIC <= ntlm && i < |data| - |ntlm|
    ensures !MagicAt(data, i)
  {
    var n := |data| - |ntlm|;
    var h := data[..n];
    if i + 8 <= n {
      assert Breaks(h, i);
      var j :| i <= j < i + 8 && !InMagic(h[j]);
      assert data[i..i + 8][j - i] == h[j];
    } else if i + 8 <= |data| {
      assert data[n..][0] == ntlm[0] == MAGIC[0];
      assert data[i..i + 8][n - i] == data[n];
    }
  }

  /**
   * From a wrapped message that starts with the signature, findNTLMType returns exactly that message when it is
   * long enough to have a type and has the one wanted, and nothing otherwise.
   */
  lemma WrappedMessageFound(ntlm: seq<byte>, want: uint32)
    requires MAGIC <= ntlm
    ensures FindType(TsRequest(ntlm), want) ==
            if |ntlm| >= 12 && FromLe32(ntlm, 8) == want then Some(ntlm) else None
  {
    hide TsRequest;
    var data := TsRequest(ntlm);
    var n := |data| - |ntlm|;
    RequestGuarded(ntlm);
    forall i: nat | i < n
      ensures !PartAt(data, MAGIC, i)
    {
      NoEarlierMagic(data, ntlm, i);
    }
    assert data[n..] == ntlm;
    assert data[n..n + 8] == ntlm[..8] == MAGIC;
    assert MagicAt(data, n);
    if |ntlm| >= 12 {
      assert forall k :: 0 <= k < 12 ==> data[n + k] == ntlm[k];
    }
  }

  // ----- the challenge -----

  const FIXED_LENGTH: nat := 56
  const FLAGS: uint32 := 0xE28A_8215

  /** Who the server says it is: names in UTF-16 and a FILETIME, the client's challenge and the version. */
  datatype Identity = Identity(
    computer: seq<byte>, domain: seq<byte>, filetime: seq<byte>, challenge: seq<byte>,
    major: byte, minor: byte, build: uint16)
  {
    predicate Valid() {
      |filetime| == 8 && |challenge| == 8
    }
  }

  datatype AvPair = AvPair(id: uint16, value: seq<byte>)

  /** The length field holds the low 16 bits of the value's length. */
  function EncodeAv(p: AvPair): (b: seq<byte>)
    ensures |b| == 4 + |p.value|
  {
    Le16(p.id) + Le16(|p.value| % 0x1_0000) + p.value
  }

  function TargetPairs(id: Identity): seq<AvPair> {
    [AvPair(2, id.domain), AvPair(1, id.computer), AvPair(4, id.domain), AvPair(3, id.computer), AvPair(7, id.filetime)]
  }

  function TargetInfo(id: Identity): seq<byte> {
    EncodeAv(AvPair(2, id.domain)) + EncodeAv(AvPair(1, id.computer)) + EncodeAv(AvPair(4, id.domain)) +
    EncodeAv(AvPair(3, id.computer)) + EncodeAv(AvPair(7, id.filetime)) + EncodeAv(AvPair(0, []))
  }

  method AppendAv(buf: seq<byte>, id: uint16, val: seq<byte>) returns (out: seq<byte>)
    ensures out == buf + EncodeAv(AvPair(id, val))
  {
    var n := |val| % 0x1_0000;
    out := buf + [id % 0x100, id / 0x100];
    out := out + [n % 0x100, n / 0x100];
    out := out + val;
    assert out == buf + ([id % 0x100, id / 0x100] + [n % 0x100, n / 0x100] + val);
  }

  method BuildTargetInfo(id: Identity) returns (buf: seq<byte>)
    ensures buf == TargetInfo(id)
  {
    hide EncodeAv;
    buf := AppendAv([], 2, id.domain);
    buf := AppendAv(buf, 1, id.computer);
    buf := AppendAv(buf, 4, id.domain);
    buf := AppendAv(buf, 3, id.computer);
    buf := AppendAv(buf, 7, id.filetime);
    buf := AppendAv(buf, 0, []);
  }

  /** How a client reads target information: pairs up to the one with identifier 0 (MS-NLMP section 2.2.2.1). */
  function ReadAvs(s: seq<byte>): Option<seq<AvPair>> {
    if |s| < 4 then None
    else
      var n := FromLe16(s, 2);
      if FromLe16(s, 0) == 0 then Some([])
      else if 4 + n > |s| then None
      else Before(AvPair(FromLe16(s, 0), s[4..4 + n]), ReadAvs(s[4 + n..]))
  }

  function Before(p: AvPair, rest: Option<seq<AvPair>>): Option<seq<AvPair>> {
    match rest
    case None => None
    case Some(ps) => Some([p] + ps)
  }

  lemma AvRead(p: AvPair, post: seq<byte>)
    requires |p.value| < 0x1_0000
    ensures ReadAvs(EncodeAv(p) + post) == if p.id == 0 then Some([]) else Before(p, ReadAvs(post))
  {
    var s := EncodeAv(p) + post;
    assert s[0..2] == Le16(p.id) && s[2..4] == Le16(|p.value|);
    Le16RoundTrip(s, 0, p.id);
    Le16RoundTrip(s, 2, |p.value|);
    hide FromLe16, Le16;
    assert s[4..4 + |p.value|] == p.value && s[4 + |p.value|..] == post;
  }

  /** A client reads the five pairs in order when both names are under 65536 bytes. */
  lemma TargetInfoRead(id: Identity)
    requires id.Valid() && |id.computer| < 0x1_0000 && |id.domain| < 0x1_0000
    ensures ReadAvs(TargetInfo(id)) == Some(TargetPairs(id))
  {
    var e5 := EncodeAv(AvPair(0, []));
    var e4 := EncodeAv(AvPair(7, id.filetime)) + e5;
    var e3 := EncodeAv(AvPair(3, id.computer)) + e4;
    var e2 := EncodeAv(AvPair(4, id.domain)) + e3;
    var e1 := EncodeAv(AvPair(1, id.computer)) + e2;
    RightNested(id);
    hide EncodeAv, ReadAvs, TargetInfo, Before;
    AvRead(AvPair(2, id.domain), e1);
    AvRead(AvPair(1, id.computer), e2);
    AvRead(AvPair(4, id.domain), e3);
    AvRead(AvPair(3, id.computer), e4);
    AvRead(AvPair(7, id.filetime), e5);
    AvRead(AvPair(0, []), []);
    assert e5 + [] == e5;
    FiveBefore(id);
  }

  lemma FiveBefore(id: Identity)
    ensures Before(AvPair(2, id.domain), Before(AvPair(1, id.computer), Before(AvPair(4, id.domain),
              Before(AvPair(3, id.computer), Before(AvPair(7, id.filetime), Some([])))))) == Some(TargetPairs(id))
  {
    var ps := TargetPairs(id);
    assert [ps[4]] + [] == [ps[4]] && [ps[3]] + [ps[4]] == [ps[3], ps[4]];
    assert [ps[2]] + [ps[3], ps[4]] == [ps[2], ps[3], ps[4]];
    assert [ps[1]] + [ps[2], ps[3], ps[4]] == [ps[1], ps[2], ps[3], ps[4]];
    assert [ps[0]] + [ps[1], ps[2], ps[3], ps[4]] == ps;
  }

  lemma RightNested(id: Identity)
    ensures TargetInfo(id) ==
            EncodeAv(AvPair(2, id.domain)) + (EncodeAv(AvPair(1, id.computer)) + (EncodeAv(AvPair(4, id.domain)) +
            (EncodeAv(AvPair(3, id.computer)) + (EncodeAv(AvPair(7, id.filetime)) + EncodeAv(AvPair(0, []))))))
  {
    hide EncodeAv;
  }

  /** A length, the same as capacity, and an offset. */
  function Descriptor(length: nat, offset: nat): (b: seq<byte>)
    ensures |b| == 8
  {
    Le16(length % 0x1_0000) + Le16(length % 0x1_0000) + Le32(offset % 0x1_0000_0000)
  }

  function FixedPart(id: Identity, nameLength: nat, infoLength: nat): (b: seq<byte>)
    requires id.Valid()
    ensures |b| == FIXED_LENGTH
  {
    MAGIC + Le32(2) + Descriptor(nameLength, FIXED_LENGTH) + Le32(FLAGS) + id.challenge + Repeat(0, 8) +
    Descriptor(infoLength, FIXED_LENGTH + nameLength) + [id.major, id.minor] + Le16(id.build) + [0, 0, 0, 15]
  }

  lemma FixedPartIs(id: Identity, nameLength: nat, infoLength: nat)
    requires id.Valid()
    ensures FixedPart(id, nameLength, infoLength) ==
            [] + MAGIC + Le32(2) + Descriptor(nameLength, FIXED_LENGTH) + Le32(FLAGS) + id.challenge + Repeat(0, 8) +
            Descriptor(infoLength, FIXED_LENGTH + nameLength) + [id.major, id.minor] + Le16(id.build) + [0, 0, 0, 15]
  {
    assert [] + MAGIC == MAGIC;
  }

  function Challenge(id: Identity): seq<byte>
    requires id.Valid()
  {
    FixedPart(id, |id.domain|, |TargetInfo(id)|) + id.domain + TargetInfo(id)
  }

  /** One write behind everything written so far; the rest of the buffer stays zero. */
  method Extend(a: array<byte>, off: nat, t: seq<byte>, ghost prefix: seq<byte>)
    requires off == |prefix| && off + |t| <= a.Length && a[..off] == prefix
    requires forall k :: off <= k < a.Length ==> a[k] == 0
    modifies a
    ensures a[..off + |t|] == prefix + t
    ensures forall k :: off + |t| <= k < a.Length ==> a[k] == 0
  {
    Write(a, off, t);
    assert a[..off] == prefix;
    assert a[..off + |t|] == a[..off] + a[off..off + |t|];
  }

  /** The type 2 message in a zeroed buffer, field by field. */
  method BuildNTLMChallenge(id: Identity) returns (msg: array<byte>)
    requires id.Valid()
    ensures msg[..] == Challenge(id)
  {
    hide TargetInfo, Le16, Le32, Repeat, Descriptor, FixedPart;
    var targetInfo := BuildTargetInfo(id);
    var nameLength, infoLength := |id.domain|, |targetInfo|;
    msg := new byte[FIXED_LENGTH + nameLength + infoLength](_ => 0);
    ghost var done: seq<byte> := [];
    Extend(msg, 0, MAGIC, done);
    done := done + MAGIC;
    Extend(msg, 8, Le32(2), done);
    done := done + Le32(2);
    Extend(msg, 12, Descriptor(nameLength, FIXED_LENGTH), done);
    done := done + Descriptor(nameLength, FIXED_LENGTH);
    Extend(msg, 20, Le32(FLAGS), done);
    done := done + Le32(FLAGS);
    Extend(msg, 24, id.challenge, done);
    done := done + id.challenge;
    assert msg[..40] == done + Repeat(0, 8);
    done := done + Repeat(0, 8);
    Extend(msg, 40, Descriptor(infoLength, FIXED_LENGTH + nameLength), done);
    done := done + Descriptor(infoLength, FIXED_LENGTH + nameLength);
    Extend(msg, 48, [id.major, id.minor], done);
    done := done + [id.major, id.minor];
    Extend(msg, 50, Le16(id.build), done);
    done := done + Le16(id.build);
    Extend(msg, 52, [0, 0, 0, 15], done);
    done := done + [0, 0, 0, 15];
    FixedPartIs(id, nameLength, infoLength);
    assert done == FixedPart(id, nameLength, infoLength);
    Extend(msg, FIXED_LENGTH, id.domain, done);
    done := done + id.domain;
    Extend(msg, FIXED_LENGTH + nameLength, targetInfo, done);
    assert msg[..] == msg[..FIXED_LENGTH + nameLength + infoLength];
  }

  // ----- reading a field -----

  /** The bytes that the descriptor at off points to; none when it is cut off, empty or out of bounds. */
  function FieldBytes(blob: seq<byte>, off: nat): seq<byte> {
    if off + 8 > |blob| then []
    else
      var length, offset := FromLe16(blob, off), FromLe32(blob, off + 4);
      if length == 0 || offset + length > |blob| then [] else blob[offset..offset + length]
  }

  lemma DescriptorRead(blob: seq<byte>, off: nat, length: nat, offset: uint32)
    requires off + 8 <= |blob| && blob[off..off + 8] == Descriptor(length, offset)
    ensures FromLe16(blob, off) == length % 0x1_0000 && FromLe32(blob, off + 4) == offset
  {
    var d := Descriptor(length, offset);
    SubSlice(blob, off, d, 0, 2);
    SubSlice(blob, off, d, 4, 8);
    assert d[0..2] == Le16(length % 0x1_0000) && d[4..8] == Le32(offset);
    Le16RoundTrip(blob, off, length % 0x1_0000);
    Le32RoundTrip(blob, off + 4, offset);
  }

  lemma ChallengeFields(id: Identity)
    requires id.Valid()
    ensures var c := Challenge(id);
            && |c| >= FIXED_LENGTH && MAGIC <= c && FromLe32(c, 8) == 2
            && c[12..20] == Descriptor(|id.domain|, FIXED_LENGTH)
            && c[40..48] == Descriptor(|TargetInfo(id)|, FIXED_LENGTH + |id.domain|)
  {
    var c := Challenge(id);
    var n, m := |id.domain|, |TargetInfo(id)|;
    var f := FixedPart(id, n, m);
    hide TargetInfo, Le16, Descriptor;
    assert f[..8] == MAGIC && f[8..12] == Le32(2);
    assert f[12..20] == Descriptor(n, FIXED_LENGTH);
    assert f[40..48] == Descriptor(m, FIXED_LENGTH + n);
    hide FixedPart;
    assert c[..FIXED_LENGTH] == f;
    SubSlice(c, 0, f, 0, 8);
    SubSlice(c, 0, f, 8, 12);
    SubSlice(c, 0, f, 12, 20);
    SubSlice(c, 0, f, 40, 48);
    Le32RoundTrip(c, 8, 2);
  }

  /** The name field of the challenge reads back as the domain name exactly when its length fits 16 bits. */
  lemma TargetNameRead(id: Identity)
    requires id.Valid()
    ensures FieldBytes(Challenge(id), 12) == id.domain <==> |id.domain| < 0x1_0000
  {
    hide FixedPart, TargetInfo, Challenge, FromLe16, FromLe32, Descriptor;
    ChallengeFields(id);
    NameInPlace(id);
    DescriptorRead(Challenge(id), 12, |id.domain|, FIXED_LENGTH);
  }

  lemma NameInPlace(id: Identity)
    requires id.Valid()
    ensures var c, n := Challenge(id), |id.domain|;
            FIXED_LENGTH + n <= |c| && c[FIXED_LENGTH..FIXED_LENGTH + n] == id.domain
  {
    hide FixedPart, TargetInfo;
  }

  /** The information field reads back as all the pairs when both lengths fit their fields. */
  lemma TargetInfoFieldRead(id: Identity)
    requires id.Valid() && |TargetInfo(id)| < 0x1_0000
    ensures FieldBytes(Challenge(id), 40) == TargetInfo(id)
    ensures ReadAvs(FieldBytes(Challenge(id), 40)) == Some(TargetPairs(id))
  {
    hide FixedPart, EncodeAv, ReadAvs, FromLe16, FromLe32, Challenge, Descriptor;
    assert |TargetInfo(id)| == 24 + 2 * |id.domain| + 2 * |id.computer| + 8;
    TargetInfoRead(id);
    hide TargetInfo;
    ChallengeFields(id);
    InfoInPlace(id);
    DescriptorRead(Challenge(id), 40, |TargetInfo(id)|, FIXED_LENGTH + |id.domain|);
  }

  lemma InfoInPlace(id: Identity)
    requires id.Valid()
    ensures var c, n, m := Challenge(id), |id.domain|, |TargetInfo(id)|;
            |c| == FIXED_LENGTH + n + m && c[FIXED_LENGTH + n..FIXED_LENGTH + n + m] == TargetInfo(id)
  {
    hide FixedPart, TargetInfo;
  }

  /** The server's own challenge, wrapped, is found as a type 2 message and as no other. */
  lemma ChallengeFound(id: Identity, want: uint32)
    requires id.Valid()
    ensures FindType(TsRequest(Challenge(id)), want) == if want == 2 then Some(Challenge(id)) else None
  {
    ChallengeFields(id);
    hide Challenge, TsRequest, FindType;
    WrappedMessageFound(Challenge(id), want);
  }
}
