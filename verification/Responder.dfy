/** Rewrite rules applied in place to a replayed response. */
module Responder {
  import opened Bytes
  import opened HostIp
  import T = Template

  /** The types of the switch; seq, ip and port are placeholders, any other name is unknown. */
  datatype RuleType =
    | TimestampRule | TimestampPast | TimestampUnix | GuidRule | RandomRule | Placeholder | Echo
    | NetbiosName | Hostname | Domain | MacAddress | NbnsName | NbnsDomain
    | HttpDate | DcerpcCallId | HostAddress | Leak | Unknown

  type int64 = x: int | -INT_LIMIT <= x < INT_LIMIT

  /** Offset and length are whatever a manifest says, in 64 bits. */
  datatype Rule = Rule(offset: int64, length: int64, kind: RuleType)

  type Eight = s: seq<byte> | |s| == 8 witness [0, 0, 0, 0, 0, 0, 0, 0]
  type Sixteen = s: seq<byte> | |s| == 16 witness [0, 0, 0, 0, 0, 0, 0, 0, 0, 0, 0, 0, 0, 0, 0, 0]

  type Name32 = s: seq<byte> | |s| == 32 witness seq(32, i => 0)

  /** The credential store's answer for a rule's token. */
  datatype Credential = NoStore | UnknownId | Text(text: seq<byte>)

  /**
   * What the surroundings give to one rule. From the clock and the random source: the FILETIME of now and of the boot
   * time, the Unix time, a GUID, random bytes unless the source fails, and the date as HTTP prints it. From the
   * options: the computer name in NetBIOS encoding and as 16 bytes, the domain as 16 bytes, both as text, and the
   * parsed MAC address. For the rule's token: the captured address unless it is malformed, and the credential. The
   * host's own address, if it can be told.
   */
  datatype Supply = Supply(
    filetime: Eight, bootFiletime: Eight, unix: Eight, guid: Sixteen, randomFails: bool, random: nat -> byte,
    date: seq<byte>, netbios: Name32, nbnsName: Sixteen, nbnsDomain: Sixteen, hostname: seq<byte>, domain: seq<byte>,
    mac: seq<byte>, captured: Option<Address>, host: Option<Address>, credential: Credential)

  // ----- the DCE/RPC call_id walk -----

  function FragmentLength(s: seq<byte>, i: nat): nat
    requires i + 16 <= |s|
  {
    s[i + 8] + 256 * s[i + 9] as int
  }

  /** A connection-oriented PDU header at i whose fragment lies within the response. */
  predicate FragmentAt(s: seq<byte>, i: nat) {
    i + 16 <= |s| && s[i] == 5 && FragmentLength(s, i) >= 16 && i + FragmentLength(s, i) <= |s|
  }

  function Walk(s: seq<byte>, id: seq<byte>, i: nat): (r: seq<byte>)
    requires |id| == 4
    ensures |r| == |s|
    decreases |s| - i
  {
    if FragmentAt(s, i) then Walk(Splice(s, i + 12, id), id, i + FragmentLength(s, i)) else s
  }

  /** One step of the walk, read off the header at i. */
  lemma WalkStep(s: seq<byte>, id: seq<byte>, i: nat)
    requires |id| == 4
    ensures i + 16 > |s| ==> Walk(s, id, i) == s
    ensures i + 16 <= |s| ==>
              var fragLen := s[i + 8] + 256 * s[i + 9] as int;
              Walk(s, id, i) ==
              if s[i] != 5 || fragLen < 16 || i + fragLen > |s| then s
              else Walk(Splice(s, i + 12, id), id, i + fragLen)
  {
    hide Splice;
  }

  method EchoCallId(response: array<byte>, callID: seq<byte>)
    requires |callID| == 4
    modifies response
    ensures response[..] == Walk(old(response[..]), callID, 0)
  {
    hide *;
    var i := 0;
    WalkStep(response[..], callID, 0);
    while i + 16 <= response.Length
      invariant 0 <= i && Walk(response[..], callID, i) == Walk(old(response[..]), callID, 0)
      invariant i + 16 > response.Length ==> response[..] == Walk(old(response[..]), callID, 0)
      decreases response.Length - i
    {
      WalkStep(response[..], callID, i);
      if response[i] != 5 {
        break;
      }
      var fragLen := response[i + 8] + 256 * response[i + 9] as int;
      if fragLen < 16 || i + fragLen > response.Length {
        break;
      }
      Write(response, i + 12, callID);
      i := i + fragLen;
      WalkStep(response[..], callID, i);
    }
  }

  predicate Fragment(f: seq<byte>) {
    FragmentAt(f, 0) && FragmentLength(f, 0) == |f|
  }

  function Concat(fs: seq<seq<byte>>): seq<byte> {
    if fs == [] then [] else fs[0] + Concat(fs[1..])
  }

  /** Each fragment with its own call_id field, and nothing else, replaced. */
  function Stamped(fs: seq<seq<byte>>, id: seq<byte>): seq<seq<byte>>
    requires |id| == 4 && forall k :: 0 <= k < |fs| ==> Fragment(fs[k])
  {
    if fs == [] then []
    else
      assert Fragment(fs[0]);
      [Splice(fs[0], 12, id)] + Stamped(fs[1..], id)
  }

  lemma HeaderInPlace(pre: seq<byte>, s: seq<byte>)
    ensures FragmentAt(pre + s, |pre|) <==> FragmentAt(s, 0)
    ensures FragmentAt(s, 0) ==> FragmentLength(pre + s, |pre|) == FragmentLength(s, 0)
  {
  }

  lemma {:induction false} WalkFrom(pre: seq<byte>, fs: seq<seq<byte>>, tail: seq<byte>, id: seq<byte>)
    requires |id| == 4 && !FragmentAt(tail, 0) && forall k :: 0 <= k < |fs| ==> Fragment(fs[k])
    ensures Walk(pre + (Concat(fs) + tail), id, |pre|) == pre + (Concat(Stamped(fs, id)) + tail)
    decreases |fs|
  {
    if fs == [] {
      HeaderInPlace(pre, tail);
      assert [] + tail == tail;
    } else {
      var f := fs[0];
      assert Fragment(f);
      FirstFragment(pre, f, Concat(fs[1..]) + tail, id);
      hide *;
      WalkFrom(pre + Splice(f, 12, id), fs[1..], tail, id);
      Reassociate(pre, f, Concat(fs[1..]), tail);
      Reassociate(pre, Splice(f, 12, id), Concat(Stamped(fs[1..], id)), tail);
      ConcatStep(fs, id);
    }
  }

  lemma ConcatStep(fs: seq<seq<byte>>, id: seq<byte>)
    requires |id| == 4 && fs != [] && forall k :: 0 <= k < |fs| ==> Fragment(fs[k])
    ensures |fs[0]| >= 16 && Concat(fs) == fs[0] + Concat(fs[1..])
    ensures Concat(Stamped(fs, id)) == Splice(fs[0], 12, id) + Concat(Stamped(fs[1..], id))
  {
    assert Fragment(fs[0]);
    assert Stamped(fs, id)[1..] == Stamped(fs[1..], id);
  }

  lemma Reassociate(a: seq<byte>, b: seq<byte>, c: seq<byte>, d: seq<byte>)
    ensures (a + b) + (c + d) == a + ((b + c) + d) && a + (b + (c + d)) == a + ((b + c) + d)
  {
    assert b + (c + d) == (b + c) + d;
    assert (a + b) + (c + d) == a + (b + (c + d));
  }

  lemma FirstFragment(pre: seq<byte>, f: seq<byte>, rest: seq<byte>, id: seq<byte>)
    requires |id| == 4 && Fragment(f)
    ensures |f| >= 16
    ensures var g := pre + Splice(f, 12, id); Walk(pre + (f + rest), id, |pre|) == Walk(g + rest, id, |g|)
  {
    var s := pre + (f + rest);
    assert FragmentAt(s, |pre|) && FragmentLength(s, |pre|) == |f|;
    assert Splice(s, |pre| + 12, id) == (pre + Splice(f, 12, id)) + rest;
  }

  function HeadLength(s: seq<byte>): (n: nat)
    requires FragmentAt(s, 0)
    ensures 16 <= n <= |s|
  {
    FragmentLength(s, 0)
  }

  /** The fragments that a response starts with. */
  function Fragments(s: seq<byte>): (fs: seq<seq<byte>>)
    ensures forall k :: 0 <= k < |fs| ==> Fragment(fs[k])
  {
    if !FragmentAt(s, 0) then []
    else
      var n := HeadLength(s);
      [s[..n]] + Fragments(s[n..])
  }

  /** What follows them. */
  function Rest(s: seq<byte>): (tail: seq<byte>)
    ensures !FragmentAt(tail, 0)
  {
    if !FragmentAt(s, 0) then s else Rest(s[HeadLength(s)..])
  }

  lemma {:induction false} FragmentsAndRest(s: seq<byte>)
    ensures s == Concat(Fragments(s)) + Rest(s)
  {
    hide *;
    if FragmentAt(s, 0) {
      var n := HeadLength(s);
      FragmentsAndRest(s[n..]);
      FragmentsStep(s);
      Rejoin(s, n, Concat(Fragments(s[n..])), Rest(s[n..]));
    } else {
      NoFragments(s);
    }
  }

  lemma Rejoin(s: seq<byte>, n: nat, more: seq<byte>, tail: seq<byte>)
    requires n <= |s| && s[n..] == more + tail
    ensures s == (s[..n] + more) + tail
  {
    assert s == s[..n] + s[n..];
    assert (s[..n] + more) + tail == s[..n] + (more + tail);
  }

  lemma NoFragments(s: seq<byte>)
    requires !FragmentAt(s, 0)
    ensures s == Concat(Fragments(s)) + Rest(s)
  {
    assert [] + s == s;
  }

  lemma FragmentsStep(s: seq<byte>)
    requires FragmentAt(s, 0)
    ensures var n := HeadLength(s);
            Rest(s) == Rest(s[n..]) && Concat(Fragments(s)) == s[..n] + Concat(Fragments(s[n..]))
  {
    hide FragmentLength;
    var n := HeadLength(s);
    var fs, more := Fragments(s), Fragments(s[n..]);
    assert fs == [s[..n]] + more;
    assert fs[1..] == more;
  }

  /**
   * For any bytes at all: the walk puts the call_id into the header of every leading fragment and changes no
   * other byte. A response that is nothing but fragments has all of them stamped.
   */
  lemma WalkStampsFragments(s: seq<byte>, id: seq<byte>)
    requires |id| == 4
    ensures Walk(s, id, 0) == Concat(Stamped(Fragments(s), id)) + Rest(s)
  {
    hide Fragments, Rest, Walk, Concat, Stamped;
    var fs, tail := Fragments(s), Rest(s);
    FragmentsAndRest(s);
    WalkFrom([], fs, tail, id);
    assert [] + (Concat(fs) + tail) == s;
    assert [] + (Concat(Stamped(fs, id)) + tail) == Concat(Stamped(fs, id)) + tail;
  }

  lemma {:induction false} AllFragments(fs: seq<seq<byte>>, id: seq<byte>)
    requires |id| == 4 && forall k :: 0 <= k < |fs| ==> Fragment(fs[k])
    ensures Walk(Concat(fs), id, 0) == Concat(Stamped(fs, id))
  {
    WalkFrom([], fs, [], id);
    assert [] + (Concat(fs) + []) == Concat(fs);
    assert [] + (Concat(Stamped(fs, id)) + []) == Concat(Stamped(fs, id));
  }

  // ----- one rule -----

  function RandomBytes(random: nat -> byte, n: nat): (s: seq<byte>)
    ensures |s| == n
  {
    seq(n, i requires 0 <= i < n => random(i))
  }

  /** Where the rule's bytes end, in 64-bit arithmetic. */
  function End(rule: Rule): int64 {
    Wrap(rule.offset + rule.length)
  }

  /** The rule passes the bounds checks on a response of n bytes. */
  predicate InBounds(rule: Rule, n: nat) {
    0 <= rule.offset < n && End(rule) <= n
  }

  /** The length is too short for what the type writes, or what the rule needs is not there. */
  predicate Refuses(rule: Rule, supply: Supply) {
    match rule.kind
    case TimestampRule => rule.length < 8
    case TimestampPast => rule.length < 8
    case GuidRule => rule.length < 16
    case RandomRule => supply.randomFails
    case HostAddress => supply.captured.None?
    case Leak => supply.credential.UnknownId?
    case Unknown => true
    case _ => false
  }

  /**
   * A slice cannot be taken: the rule's bytes end before they start and its type cuts them out, an echo rule only if
   * they also end within the probe; or a number has no room.
   */
  predicate Panics(rule: Rule, n: nat, probeLength: nat, supply: Supply) {
    && InBounds(rule, n)
    && match rule.kind
       case RandomRule => End(rule) < rule.offset
       case Echo => End(rule) < rule.offset && End(rule) <= probeLength
       case NetbiosName => End(rule) < rule.offset
       case Hostname => End(rule) < rule.offset
       case Domain => End(rule) < rule.offset
       case Leak => End(rule) < rule.offset && supply.credential.Text?
       case TimestampRule => rule.length >= 8 && n - rule.offset < 8
       case TimestampPast => rule.length >= 8 && n - rule.offset < 8
       case TimestampUnix => rule.length >= 4 && n - rule.offset < if rule.length >= 8 then 8 else 4
       case _ => false
  }

  function Cut(b: seq<byte>, n: nat): (r: seq<byte>)
    ensures |r| <= n && r <= b
  {
    if |b| <= n then b else b[..n]
  }

  /** The credential in its slot of n bytes, zeros behind it. */
  function LeakSlot(text: seq<byte>, n: nat): (r: seq<byte>)
    ensures |r| == n
  {
    Cut(text, n) + Repeat(0, n - |Cut(text, n)|)
  }

  /** The bytes a rule writes at its offset when neither happens; types that search the response write none there. */
  function Written(rule: Rule, n: nat, probe: seq<byte>, supply: Supply): (r: seq<byte>)
    requires InBounds(rule, n) && !Panics(rule, n, |probe|, supply) && !Refuses(rule, supply)
    ensures rule.offset + |r| <= n
  {
    var room, slot := n - rule.offset, End(rule) - rule.offset;
    match rule.kind
    case TimestampRule => supply.filetime
    case TimestampPast => supply.bootFiletime
    case TimestampUnix => if rule.length >= 8 then supply.unix else if rule.length >= 4 then supply.unix[..4] else []
    case GuidRule => Cut(supply.guid, room)
    case RandomRule => RandomBytes(supply.random, slot)
    case Echo => if End(rule) <= |probe| then probe[rule.offset..End(rule)] else []
    case NetbiosName => Cut(supply.netbios, slot)
    case Hostname => Cut(supply.hostname, slot)
    case Domain => Cut(supply.domain, slot)
    case MacAddress => if |supply.mac| == 6 && rule.length >= 6 then Cut(supply.mac, room) else []
    case NbnsName => if rule.length >= 16 then Cut(supply.nbnsName, room) else []
    case NbnsDomain => if rule.length >= 16 then Cut(supply.nbnsDomain, room) else []
    case Leak => if supply.credential.Text? then LeakSlot(supply.credential.text, slot) else []
    case _ => []
  }

  /** "Date: " */
  const DATE_HEADER: seq<byte> := [0x44, 0x61, 0x74, 0x65, 0x3A, 0x20]

  /** The date behind the first date header, if it fits. */
  function Dated(s: seq<byte>, date: seq<byte>): (r: seq<byte>)
    ensures |r| == |s|
  {
    match FirstPart(s, DATE_HEADER, 0)
    case None => s
    case Some(i) => if i + 6 + |date| <= |s| then Splice(s, i + 6, date) else s
  }

  /** The response after one rule. */
  function Patched(s: seq<byte>, probe: seq<byte>, rule: Rule, supply: Supply): (r: Outcome<seq<byte>>)
    ensures r.Got? ==> |r.value| == |s|
  {
    if !InBounds(rule, |s|) then Refused
    else if Panics(rule, |s|, |probe|, supply) then Panic
    else if Refuses(rule, supply) then Refused
    else
      match rule.kind
      case HttpDate => Got(Dated(s, supply.date))
      case DcerpcCallId => Got(if |probe| < 16 || probe[0] != 5 then s else Walk(s, probe[12..16], 0))
      case HostAddress =>
        Got(if supply.host.None? then s else Rehosted(s, supply.captured.value, supply.host.value, 0))
      case Unknown => Refused
      case _ => Got(Splice(s, rule.offset, Written(rule, |s|, probe, supply)))
  }

  /** binary.LittleEndian.PutUint64(response[off:], v), or PutUint32; a slice too short for the number panics. */
  method Put(response: array<byte>, off: nat, v: seq<byte>) returns (ok: bool)
    requires off <= response.Length
    modifies response
    ensures ok == (off + |v| <= response.Length)
    ensures response[..] == if ok then Splice(old(response[..]), off, v) else old(response[..])
  {
    ok := off + |v| <= response.Length;
    if ok {
      Write(response, off, v);
    }
  }

  lemma SpliceNothing(s: seq<byte>, off: nat)
    requires off <= |s|
    ensures Splice(s, off, []) == s
  {
  }

  /** copy(response[off:], b) */
  method CopyTail(response: array<byte>, off: nat, b: seq<byte>)
    requires off <= response.Length
    modifies response
    ensures response[..] == Splice(old(response[..]), off, Cut(b, response.Length - off))
  {
    Write(response, off, Cut(b, response.Length - off));
  }

  /** copy(response[off:end], b); a slice that ends before it starts panics. */
  method CopySlot(response: array<byte>, off: nat, end: int, b: seq<byte>) returns (ok: bool)
    requires off <= response.Length && end <= response.Length
    modifies response
    ensures ok == (off <= end)
    ensures response[..] == if ok then Splice(old(response[..]), off, Cut(b, end - off)) else old(response[..])
  {
    ok := off <= end;
    if ok {
      Write(response, off, Cut(b, end - off));
    }
  }

  /** A text cut to the rule's length and copied into its slot. */
  method CopyText(response: array<byte>, rule: Rule, end: int, text: seq<byte>) returns (ok: bool)
    requires InBounds(rule, response.Length) && end == End(rule)
    modifies response
    ensures ok == (rule.offset <= end)
    ensures response[..] ==
            if ok then Splice(old(response[..]), rule.offset, Cut(text, end - rule.offset)) else old(response[..])
  {
    var b := text;
    if |b| > rule.length {
      if rule.length < 0 {
        return false;
      }
      b := b[..rule.length];
    }
    ok := CopySlot(response, rule.offset, end, b);
  }

  /** A credential cut to the rule's length, into a slot filled with zeros before. */
  method CopyLeak(response: array<byte>, rule: Rule, end: int, text: seq<byte>) returns (ok: bool)
    requires InBounds(rule, response.Length) && end == End(rule)
    modifies response
    ensures ok == (rule.offset <= end)
    ensures response[..] ==
            if ok then Splice(old(response[..]), rule.offset, LeakSlot(text, end - rule.offset)) else old(response[..])
  {
    var b := text;
    if |b| > rule.length {
      if rule.length < 0 {
        return false;
      }
      b := b[..rule.length];
    }
    if end < rule.offset {
      return false;
    }
    ghost var was := response[..];
    for i := rule.offset to end
      invariant forall k :: rule.offset <= k < i ==> response[k] == 0
      invariant forall k :: 0 <= k < response.Length && !(rule.offset <= k < i) ==> response[k] == was[k]
    {
      response[i] := 0;
    }
    ok := CopySlot(response, rule.offset, end, b);
    SplicedIs(was, rule.offset, LeakSlot(text, end - rule.offset), response[..]);
  }

  method PutDate(response: array<byte>, date: seq<byte>)
    modifies response
    ensures response[..] == Dated(old(response[..]), date)
  {
    var idx := 0;
    while idx + 6 <= response.Length && response[idx..idx + 6] != DATE_HEADER
      invariant FirstPart(response[..], DATE_HEADER, 0) == FirstPart(response[..], DATE_HEADER, idx)
    {
      assert response[..][idx..idx + 6] == response[idx..idx + 6];
      idx := idx + 1;
    }
    if idx + 6 <= response.Length {
      assert response[..][idx..idx + 6] == response[idx..idx + 6];
      if idx + 6 + |date| <= response.Length {
        Write(response, idx + 6, date);
      }
    }
  }

  /** Times, GUIDs and random bytes; the bounds checks are behind it. */
  method ApplySupplied(response: array<byte>, ghost probe: seq<byte>, rule: Rule, end: int, supply: Supply)
    returns (r: Outcome<()>)
    requires InBounds(rule, response.Length) && end == End(rule)
    requires rule.kind in {TimestampRule, TimestampPast, TimestampUnix, GuidRule, RandomRule}
    modifies response
    ensures Did(old(response[..]), response[..], probe, rule, supply, r)
  {
    hide Splice, RandomBytes, End;
    var room := true;
    SpliceNothing(response[..], rule.offset);
    match rule.kind {
      case TimestampRule =>
        if rule.length < 8 {
          return Refused;
        }
        room := Put(response, rule.offset, supply.filetime);
      case TimestampPast =>
        if rule.length < 8 {
          return Refused;
        }
        room := Put(response, rule.offset, supply.bootFiletime);
      case TimestampUnix =>
        if rule.length >= 8 {
          room := Put(response, rule.offset, supply.unix);
        } else if rule.length >= 4 {
          room := Put(response, rule.offset, supply.unix[..4]);
        }
      case GuidRule =>
        if rule.length < 16 {
          return Refused;
        }
        CopyTail(response, rule.offset, supply.guid);
      case RandomRule =>
        if end < rule.offset {
          return Panic;
        }
        if supply.randomFails {
          return Refused;
        }
        Write(response, rule.offset, RandomBytes(supply.random, end - rule.offset));
    }
    return if room then Got(()) else Panic;
  }

  /** Names and addresses from the options; the bounds checks are behind it. */
  method ApplyOption(response: array<byte>, ghost probe: seq<byte>, rule: Rule, end: int, supply: Supply)
    returns (r: Outcome<()>)
    requires InBounds(rule, response.Length) && end == End(rule)
    requires rule.kind in {NetbiosName, Hostname, Domain, MacAddress, NbnsName, NbnsDomain}
    modifies response
    ensures Did(old(response[..]), response[..], probe, rule, supply, r)
  {
    hide Splice;
    var room := true;
    SpliceNothing(response[..], rule.offset);
    match rule.kind {
      case NetbiosName =>
        var encoded := if 0 < rule.length < 32 then supply.netbios[..rule.length] else supply.netbios;
        room := CopySlot(response, rule.offset, end, encoded);
      case Hostname =>
        room := CopyText(response, rule, end, supply.hostname);
      case Domain =>
        room := CopyText(response, rule, end, supply.domain);
      case MacAddress =>
        if |supply.mac| == 6 && rule.length >= 6 {
          CopyTail(response, rule.offset, supply.mac);
        }
      case NbnsName =>
        if rule.length >= 16 {
          CopyTail(response, rule.offset, supply.nbnsName);
        }
      case NbnsDomain =>
        if rule.length >= 16 {
          CopyTail(response, rule.offset, supply.nbnsDomain);
        }
    }
    return if room then Got(()) else Panic;
  }

  /** The types that look at the probe, at the whole response or at the rule's token; the bounds checks are behind it. */
  method ApplyOther(response: array<byte>, probe: seq<byte>, rule: Rule, end: int, supply: Supply)
    returns (r: Outcome<()>)
    requires InBounds(rule, response.Length) && end == End(rule)
    requires rule.kind in {Placeholder, Echo, HttpDate, DcerpcCallId, HostAddress, Leak, Unknown}
    modifies response
    ensures Did(old(response[..]), response[..], probe, rule, supply, r)
  {
    hide Walk, Splice, Dated, Rehosted, LeakSlot, Wrap;
    SpliceNothing(response[..], rule.offset);
    var room := true;
    match rule.kind {
      case Placeholder =>
      case Echo =>
        if end <= |probe| {
          if end < rule.offset {
            return Panic;
          }
          room := CopySlot(response, rule.offset, end, probe[rule.offset..end]);
        }
      case HttpDate =>
        PutDate(response, supply.date);
      case DcerpcCallId =>
        if |probe| >= 16 && probe[0] == 5 {
          EchoCallId(response, probe[12..16]);
        }
      case HostAddress =>
        if supply.captured.None? {
          return Refused;
        }
        if supply.host.Some? {
          ReplaceAddress(response, supply.captured.value, supply.host.value);
        }
      case Leak =>
        match supply.credential {
          case NoStore =>
          case UnknownId =>
            return Refused;
          case Text(text) =>
            room := CopyLeak(response, rule, end, text);
        }
      case Unknown =>
        return Refused;
    }
    return if room then Got(()) else Panic;
  }

  lemma OneRuleStops(s: seq<byte>, probe: seq<byte>, rule: Rule, supply: Supply)
    ensures var r, n, m := Patched(s, probe, rule, supply), |s|, |probe|;
            && (r.Panic? <==> Panics(rule, n, m, supply))
            && (r.Refused? <==> !InBounds(rule, n) || (Refuses(rule, supply) && !Panics(rule, n, m, supply)))
  {
    hide InBounds, Written;
  }

  lemma DidStops(s: seq<byte>, probe: seq<byte>, rule: Rule, supply: Supply)
    ensures forall t, r :: Did(s, t, probe, rule, supply, r) ==>
              && (r.Panic? <==> Patched(s, probe, rule, supply).Panic?)
              && (r.Refused? <==> Patched(s, probe, rule, supply).Refused?)
  {
    hide Patched;
  }

  /** The response s became t as the rule says; on a refusal it is unchanged. */
  ghost predicate Did(s: seq<byte>, t: seq<byte>, probe: seq<byte>, rule: Rule, supply: Supply, r: Outcome<()>) {
    match Patched(s, probe, rule, supply)
    case Got(v) => r == Got(()) && t == v
    case Refused => r == Refused && t == s
    case Panic => r == Panic
  }

  /**
   * The result tells which of the three happened; the response itself is changed in place. A rule fails, and is
   * refused, on exactly these numbers and surroundings, whatever the bytes of the response and of the probe are.
   */
  method ApplyRule(response: array<byte>, probe: seq<byte>, rule: Rule, supply: Supply) returns (r: Outcome<()>)
    modifies response
    ensures Did(old(response[..]), response[..], probe, rule, supply, r)
    ensures r.Panic? <==> Panics(rule, response.Length, |probe|, supply)
    ensures r.Refused? <==>
            || !InBounds(rule, response.Length)
            || (Refuses(rule, supply) && !Panics(rule, response.Length, |probe|, supply))
  {
    if rule.offset < 0 || rule.offset >= response.Length {
      return Refused;
    }
    var end := Wrap(rule.offset + rule.length);
    if end > response.Length {
      return Refused;
    }
    assert InBounds(rule, response.Length) && end == End(rule);
    hide *;
    OneRuleStops(response[..], probe, rule, supply);
    DidStops(response[..], probe, rule, supply);
    if rule.kind in {TimestampRule, TimestampPast, TimestampUnix, GuidRule, RandomRule} {
      r := ApplySupplied(response, probe, rule, end, supply);
    } else if rule.kind in {NetbiosName, Hostname, Domain, MacAddress, NbnsName, NbnsDomain} {
      r := ApplyOption(response, probe, rule, end, supply);
    } else {
      r := ApplyOther(response, probe, rule, end, supply);
    }
  }

  // ----- all rules of a template -----

  /** The response after all rules, one behind the other, up to one that refuses or fails. */
  function PatchedAll(s: seq<byte>, probe: seq<byte>, rules: seq<Rule>, supplies: seq<Supply>): (r: Outcome<seq<byte>>)
    requires |rules| == |supplies|
    ensures r.Got? ==> |r.value| == |s|
    decreases |rules|
  {
    if rules == [] then Got(s)
    else
      match Patched(s, probe, rules[0], supplies[0])
      case Refused => Refused
      case Panic => Panic
      case Got(t) => PatchedAll(t, probe, rules[1..], supplies[1..])
  }

  /** The loop of GetResponse over the rules. */
  method ApplyRules(response: array<byte>, probe: seq<byte>, rules: seq<Rule>, supplies: seq<Supply>)
    returns (r: Outcome<()>)
    requires |rules| == |supplies|
    modifies response
    ensures match PatchedAll(old(response[..]), probe, rules, supplies)
            case Got(t) => r == Got(()) && response[..] == t
            case Refused => r == Refused
            case Panic => r == Panic
  {
    for k := 0 to |rules|
      invariant PatchedAll(response[..], probe, rules[k..], supplies[k..]) ==
                PatchedAll(old(response[..]), probe, rules, supplies)
    {
      assert rules[k..][1..] == rules[k + 1..] && supplies[k..][1..] == supplies[k + 1..];
      r := ApplyRule(response, probe, rules[k], supplies[k]);
      if !r.Got? {
        return;
      }
    }
    return Got(());
  }

  /** The rule is neither refused nor does it fail, on any response of n bytes and any probe of m. */
  predicate Accepted(rule: Rule, n: nat, m: nat, supply: Supply) {
    InBounds(rule, n) && !Panics(rule, n, m, supply) && !Refuses(rule, supply)
  }

  /** The first rule that is not accepted, if any. */
  ghost predicate StopsAt(rules: seq<Rule>, n: nat, m: nat, supplies: seq<Supply>, k: nat)
    requires |rules| == |supplies|
  {
    && k < |rules| && !Accepted(rules[k], n, m, supplies[k])
    && forall j :: 0 <= j < k ==> Accepted(rules[j], n, m, supplies[j])
  }

  /**
   * Replay fails exactly when the first rule that is not accepted is one that panics, and is refused exactly when it
   * is another. Of probe and response only the lengths decide which rule that is, no byte of them.
   */
  lemma {:induction false} RulesStopExactly(s: seq<byte>, probe: seq<byte>, rules: seq<Rule>, supplies: seq<Supply>)
    requires |rules| == |supplies|
    ensures var r, n, m := PatchedAll(s, probe, rules, supplies), |s|, |probe|;
            && (r.Panic? <==> exists k: nat :: StopsAt(rules, n, m, supplies, k) && Panics(rules[k], n, m, supplies[k]))
            && (r.Refused? <==> exists k: nat :: StopsAt(rules, n, m, supplies, k) && !Panics(rules[k], n, m, supplies[k]))
    decreases |rules|
  {
    if rules != [] {
      var n, m := |s|, |probe|;
      OneRuleStops(s, probe, rules[0], supplies[0]);
      var first := Patched(s, probe, rules[0], supplies[0]);
      assert first.Got? <==> Accepted(rules[0], n, m, supplies[0]);
      hide Panics, InBounds, Refuses, Patched;
      if first.Got? {
        RulesStopExactly(first.value, probe, rules[1..], supplies[1..]);
        StopsLater(rules, n, m, supplies);
      } else {
        assert StopsAt(rules, n, m, supplies, 0);
        assert forall k: nat :: StopsAt(rules, n, m, supplies, k) ==> k == 0;
      }
    }
  }

  /** An echo rule of negative length fails or does nothing: the length of the probe decides. */
  lemma EchoFailsByProbe(supply: Supply)
    ensures var rule := Rule(10, -5, Echo);
            && Patched(Repeat(0, 20), Repeat(0, 20), rule, supply).Panic?
            && Patched(Repeat(0, 20), Repeat(0, 3), rule, supply) == Got(Repeat(0, 20))
  {
    SpliceNothing(Repeat(0, 20), 10);
    assert End(Rule(10, -5, Echo)) == 5;
    assert Written(Rule(10, -5, Echo), 20, Repeat(0, 3), supply) == [];
  }

  lemma StopsLater(rules: seq<Rule>, n: nat, m: nat, supplies: seq<Supply>)
    requires rules != [] && |rules| == |supplies| && Accepted(rules[0], n, m, supplies[0])
    ensures forall k: nat :: StopsAt(rules, n, m, supplies, k) ==> k > 0 && StopsAt(rules[1..], n, m, supplies[1..], k - 1)
    ensures forall k: nat :: StopsAt(rules[1..], n, m, supplies[1..], k) ==> StopsAt(rules, n, m, supplies, k + 1)
  {
    hide Accepted;
    forall k: nat | StopsAt(rules, n, m, supplies, k)
      ensures k > 0 && StopsAt(rules[1..], n, m, supplies[1..], k - 1)
    {
      assert forall j :: 0 <= j < k - 1 ==> rules[1..][j] == rules[j + 1] && supplies[1..][j] == supplies[j + 1];
    }
    forall k: nat | StopsAt(rules[1..], n, m, supplies[1..], k)
      ensures StopsAt(rules, n, m, supplies, k + 1)
    {
      assert forall j :: 0 < j < k + 1 ==> rules[j] == rules[1..][j - 1] && supplies[j] == supplies[1..][j - 1];
    }
  }

  function RuleTypeOf(t: T.FieldType): RuleType {
    match t
    case TimestampUnix => TimestampUnix
    case Timestamp => TimestampRule
    case Guid => GuidRule
    case Random => RandomRule
  }

  /** The rule that a manifest holds for a detected field. */
  function RuleOf(f: T.DynamicField): Rule {
    Rule(Wrap(f.offset), Wrap(f.length), RuleTypeOf(f.kind))
  }

  function RulesOf(fs: seq<T.DynamicField>): (rs: seq<Rule>)
    ensures |rs| == |fs| && forall k :: 0 <= k < |fs| ==> rs[k] == RuleOf(fs[k])
  {
    if fs == [] then [] else [RuleOf(fs[0])] + RulesOf(fs[1..])
  }

  /** A field that lies in a response of n bytes, with the type its length calls for. */
  predicate FieldFits(f: T.DynamicField, n: nat) {
    0 < f.length && f.offset + f.length <= n < INT_LIMIT && f.kind == T.InferFieldType(f.length)
  }

  /** What the supply has for a field. */
  function Renewed(f: T.DynamicField, supply: Supply): seq<byte> {
    match f.kind
    case TimestampUnix => supply.unix[..4]
    case Timestamp => supply.filetime
    case Guid => supply.guid
    case Random => RandomBytes(supply.random, f.length)
  }

  /** The rule of one detected field is accepted and writes the field, the whole field and nothing else. */
  lemma FieldPatched(s: seq<byte>, probe: seq<byte>, f: T.DynamicField, supply: Supply)
    requires FieldFits(f, |s|) && !supply.randomFails
    ensures |Renewed(f, supply)| == f.length
    ensures Patched(s, probe, RuleOf(f), supply) == Got(Splice(s, f.offset, Renewed(f, supply)))
  {
  }

  /** Nothing differs outside the fields. */
  predicate SameOutside(r: seq<byte>, s: seq<byte>, fs: seq<T.DynamicField>) {
    |r| == |s| && forall i :: 0 <= i < |s| && !T.Covered(fs, i) ==> r[i] == s[i]
  }

  /** The field holds what its supply gave. */
  predicate Holds(r: seq<byte>, f: T.DynamicField, supply: Supply) {
    f.offset + f.length <= |r| && r[f.offset..f.offset + f.length] == Renewed(f, supply)
  }

  /** Outside the fields nothing changes; inside each field stands what its supply gave. */
  lemma {:induction false} FieldsPatched(s: seq<byte>, probe: seq<byte>, fs: seq<T.DynamicField>, supplies: seq<Supply>)
    requires |supplies| == |fs| && T.Separated(fs)
    requires forall k :: 0 <= k < |fs| ==> FieldFits(fs[k], |s|) && !supplies[k].randomFails
    ensures var r := PatchedAll(s, probe, RulesOf(fs), supplies);
            && r.Got? && SameOutside(r.value, s, fs)
            && (forall k :: 0 <= k < |fs| ==> Holds(r.value, fs[k], supplies[k]))
    decreases |fs|
  {
    hide Patched, Splice, Renewed, SameOutside, Holds;
    if fs == [] {
      NoFields(s);
    } else {
      var f, rest := fs[0], fs[1..];
      FieldPatched(s, probe, f, supplies[0]);
      var t := Splice(s, f.offset, Renewed(f, supplies[0]));
      FirstRule(s, t, probe, fs, supplies);
      hide PatchedAll, RulesOf, FieldFits, T.Covered;
      assert forall k :: 0 <= k < |rest| ==> rest[k] == fs[k + 1] && supplies[1..][k] == supplies[k + 1];
      TailFits(fs, |s|);
      FieldsPatched(t, probe, rest, supplies[1..]);
      var r := PatchedAll(s, probe, RulesOf(fs), supplies);
      FirstField(s, r.value, fs, supplies[0]);
      forall k | 0 <= k < |fs|
        ensures Holds(r.value, fs[k], supplies[k])
      {
        if k > 0 {
          assert Holds(r.value, rest[k - 1], supplies[1..][k - 1]);
        }
      }
    }
  }

  lemma FirstRule(s: seq<byte>, t: seq<byte>, probe: seq<byte>, fs: seq<T.DynamicField>, supplies: seq<Supply>)
    requires |supplies| == |fs| && fs != [] && forall k :: 0 <= k < |fs| ==> FieldFits(fs[k], |s|)
    requires Patched(s, probe, RuleOf(fs[0]), supplies[0]) == Got(t)
    ensures PatchedAll(s, probe, RulesOf(fs), supplies) == PatchedAll(t, probe, RulesOf(fs[1..]), supplies[1..])
  {
    hide Patched;
    assert RulesOf(fs)[0] == RuleOf(fs[0]) && RulesOf(fs)[1..] == RulesOf(fs[1..]);
  }

  lemma TailFits(fs: seq<T.DynamicField>, n: nat)
    requires fs != [] && T.Separated(fs) && forall k :: 0 <= k < |fs| ==> FieldFits(fs[k], n)
    ensures T.Separated(fs[1..]) && forall k :: 0 <= k < |fs[1..]| ==> FieldFits(fs[1..][k], n)
  {
  }

  lemma NoFields(s: seq<byte>)
    ensures SameOutside(s, s, [])
  {
  }

  lemma FirstField(s: seq<byte>, r: seq<byte>, fs: seq<T.DynamicField>, supply: Supply)
    requires fs != [] && T.Separated(fs) && FieldFits(fs[0], |s|) && |Renewed(fs[0], supply)| == fs[0].length
    requires SameOutside(r, Splice(s, fs[0].offset, Renewed(fs[0], supply)), fs[1..])
    ensures SameOutside(r, s, fs) && Holds(r, fs[0], supply)
  {
    hide Renewed;
    var f, rest := fs[0], fs[1..];
    var t := Splice(s, f.offset, Renewed(f, supply));
    SpliceAt(s, f.offset, Renewed(f, supply));
    hide Splice;
    forall i | 0 <= i < |s|
      ensures !T.Covered(fs, i) ==> r[i] == s[i]
      ensures f.Covers(i) ==> r[i] == t[i]
    {
      CoveredStep(fs, i);
    }
  }

  lemma CoveredStep(fs: seq<T.DynamicField>, i: int)
    requires fs != [] && T.Separated(fs)
    ensures fs[0].Covers(i) || T.Covered(fs[1..], i) ==> T.Covered(fs, i)
    ensures fs[0].Covers(i) ==> !T.Covered(fs[1..], i)
  {
    if T.Covered(fs[1..], i) {
      var k :| 0 <= k < |fs[1..]| && fs[1..][k].Covers(i);
      assert fs[k + 1].Covers(i) && fs[0].offset + fs[0].length < fs[k + 1].offset;
    }
  }

  lemma SpliceAt(s: seq<byte>, off: nat, b: seq<byte>)
    requires off + |b| <= |s|
    ensures Splice(s, off, b)[off..off + |b|] == b
    ensures forall i :: 0 <= i < |s| && !(off <= i < off + |b|) ==> Splice(s, off, b)[i] == s[i]
  {
  }

  /**
   * Replaying a captured response: no rule made from the detected fields is refused, every byte on which all
   * captures agree is sent as captured, and every byte on which they differ lies in exactly the bytes supplied anew.
   */
  lemma ReplayKeepsAgreed(caps: seq<seq<byte>>, fs: seq<T.DynamicField>, probe: seq<byte>, supplies: seq<Supply>)
    requires caps != [] && T.RunsOf(caps, fs, |caps[0]|) && |caps[0]| < INT_LIMIT
    requires |supplies| == |fs| && forall k :: 0 <= k < |fs| ==> !supplies[k].randomFails
    ensures var r := PatchedAll(caps[0], probe, RulesOf(fs), supplies);
            && r.Got?
            && (forall i :: 0 <= i < |caps[0]| && !T.Differs(caps, i) ==> r.value[i] == caps[0][i])
            && (forall k :: 0 <= k < |fs| ==> Holds(r.value, fs[k], supplies[k]))
  {
    forall k | 0 <= k < |fs|
      ensures FieldFits(fs[k], |caps[0]|)
    {
      assert T.MaximalRun(caps, fs[k], |caps[0]|);
    }
    hide T.MaximalRun, T.Differs, PatchedAll, Holds;
    FieldsPatched(caps[0], probe, fs, supplies);
  }
}
