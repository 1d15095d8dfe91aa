/** What stands in a replayed response after each type of rule. */
module ResponderContents {
  import opened Bytes
  import opened HostIp
  import opened Responder
  import T = Template

  // ----- call_id -----

  /** A connection-oriented DCE/RPC fragment (C706 section 12.6.3.1): version 5, its own length little-endian at 8. */
  predicate Pdu(f: seq<byte>) {
    |f| >= 16 && f[0] == 5 && f[8] + 256 * f[9] as int == |f|
  }

  /** The fragments of a response differ from the captured ones in their call_id alone, and that is the probe's. */
  predicate Correlated(r: seq<byte>, f: seq<byte>, probe: seq<byte>) {
    && |r| == |f| >= 16 && |probe| >= 16 && r[12..16] == probe[12..16]
    && forall j :: 0 <= j < |f| && !(12 <= j < 16) ==> r[j] == f[j]
  }

  lemma PduIsFragment(f: seq<byte>)
    requires Pdu(f)
    ensures Fragment(f)
  {
  }

  lemma {:induction false} StampedCorrelates(fs: seq<seq<byte>>, probe: seq<byte>)
    requires |probe| >= 16 && forall k :: 0 <= k < |fs| ==> Pdu(fs[k])
    ensures forall k :: 0 <= k < |fs| ==> Fragment(fs[k])
    ensures var rs := Stamped(fs, probe[12..16]);
            |rs| == |fs| && forall k :: 0 <= k < |fs| ==> Correlated(rs[k], fs[k], probe)
    decreases |fs|
  {
    forall k | 0 <= k < |fs|
      ensures Fragment(fs[k])
    {
      PduIsFragment(fs[k]);
    }
    if fs != [] {
      StampedCorrelates(fs[1..], probe);
      SpliceAt(fs[0], 12, probe[12..16]);
      assert Correlated(Splice(fs[0], 12, probe[12..16]), fs[0], probe);
    }
  }

  /**
   * A response made of fragments is sent with the client's call_id in every one of them and no other byte changed, as
   * far as the probe is a connection-oriented one; otherwise it is sent as captured.
   */
  lemma CallIdRule(fs: seq<seq<byte>>, probe: seq<byte>, rule: Rule, supply: Supply) returns (rs: seq<seq<byte>>)
    requires fs != [] && forall k :: 0 <= k < |fs| ==> Pdu(fs[k])
    requires rule.kind.DcerpcCallId? && 0 <= rule.offset && 0 <= rule.length && rule.offset + rule.length <= |Concat(fs)|
    requires rule.offset < |Concat(fs)| < INT_LIMIT
    ensures Patched(Concat(fs), probe, rule, supply) == Got(Concat(rs)) && |rs| == |fs|
    ensures |probe| >= 16 && probe[0] == 5 ==> forall k :: 0 <= k < |fs| ==> Correlated(rs[k], fs[k], probe)
    ensures |probe| < 16 || probe[0] != 5 ==> rs == fs
  {
    rs := fs;
    if |probe| >= 16 && probe[0] == 5 {
      StampedCorrelates(fs, probe);
      AllFragments(fs, probe[12..16]);
      rs := Stamped(fs, probe[12..16]);
    }
    hide Concat, Stamped, Walk, Correlated;
  }

  // ----- rules that write at their offset -----

  /** A rule whose bytes lie within the response. */
  predicate Fits(rule: Rule, s: seq<byte>) {
    0 <= rule.offset < |s| < INT_LIMIT && 0 <= rule.length && rule.offset + rule.length <= |s|
  }

  /** The response holds these bytes at the rule's offset and is as it was elsewhere. */
  predicate Holding(s: seq<byte>, r: Outcome<seq<byte>>, off: nat, bytes: seq<byte>) {
    && off + |bytes| <= |s| && r.Got? && |r.value| == |s|
    && (forall i :: 0 <= i < |bytes| ==> r.value[off + i] == bytes[i])
    && (forall i :: 0 <= i < |s| && !(off <= i < off + |bytes|) ==> r.value[i] == s[i])
  }

  lemma Spliced(s: seq<byte>, off: nat, bytes: seq<byte>)
    requires off + |bytes| <= |s|
    ensures Holding(s, Got(Splice(s, off, bytes)), off, bytes)
  {
  }

  /** What a rule writes is what its response holds. */
  lemma WritesAt(s: seq<byte>, probe: seq<byte>, rule: Rule, supply: Supply, bytes: seq<byte>)
    requires Fits(rule, s) && Accepted(rule, |s|, |probe|, supply) && Written(rule, |s|, probe, supply) == bytes
    requires !rule.kind.HttpDate? && !rule.kind.DcerpcCallId? && !rule.kind.HostAddress?
    ensures rule.offset + |bytes| <= |s| && Holding(s, Patched(s, probe, rule, supply), rule.offset, bytes)
    ensures bytes == [] ==> Patched(s, probe, rule, supply) == Got(s)
  {
    hide Panics, Written, Cut;
    assert !rule.kind.Unknown?;
    Spliced(s, rule.offset, bytes);
    SpliceNothing(s, rule.offset);
    hide Splice, Holding;
  }

  lemma EndIs(rule: Rule, s: seq<byte>)
    requires Fits(rule, s)
    ensures End(rule) == rule.offset + rule.length && InBounds(rule, |s|)
  {
  }

  /**
   * A rule without negative length never fails on a slice, and is refused exactly when it starts outside the response or
   * ends behind it, has no room for its type, or lacks what its type needs.
   */
  lemma RefusedExactly(s: seq<byte>, probe: seq<byte>, rule: Rule, supply: Supply)
    requires |s| < INT_LIMIT && 0 <= rule.length && rule.offset + rule.length < INT_LIMIT
    ensures !Patched(s, probe, rule, supply).Panic?
    ensures Patched(s, probe, rule, supply).Refused? <==>
            || rule.offset < 0 || rule.offset >= |s| || rule.offset + rule.length > |s|
            || ((rule.kind.TimestampRule? || rule.kind.TimestampPast?) && rule.length < 8)
            || (rule.kind.GuidRule? && rule.length < 16) || (rule.kind.RandomRule? && supply.randomFails)
            || (rule.kind.HostAddress? && supply.captured.None?) || (rule.kind.Leak? && supply.credential.UnknownId?)
            || rule.kind.Unknown?
  {
    OneRuleStops(s, probe, rule, supply);
    hide Patched;
    assert rule.offset >= 0 ==> End(rule) == rule.offset + rule.length;
  }

  /** FILETIME of now or of the boot time, eight bytes; Unix time in eight or four bytes, or none. */
  lemma TimeRules(s: seq<byte>, probe: seq<byte>, rule: Rule, supply: Supply)
    requires Fits(rule, s)
    ensures var r, n := Patched(s, probe, rule, supply), rule.length;
            && (rule.kind.TimestampRule? && n >= 8 ==> Holding(s, r, rule.offset, supply.filetime))
            && (rule.kind.TimestampPast? && n >= 8 ==> Holding(s, r, rule.offset, supply.bootFiletime))
            && (rule.kind.TimestampUnix? && n >= 8 ==> Holding(s, r, rule.offset, supply.unix))
            && (rule.kind.TimestampUnix? && 4 <= n < 8 ==> Holding(s, r, rule.offset, supply.unix[..4]))
            && (rule.kind.TimestampUnix? && n < 4 ==> r == Got(s))
  {
    EndIs(rule, s);
    hide Patched, Holding, End, InBounds;
    var n := rule.length;
    if rule.kind.TimestampRule? && n >= 8 {
      WritesAt(s, probe, rule, supply, supply.filetime);
    } else if rule.kind.TimestampPast? && n >= 8 {
      WritesAt(s, probe, rule, supply, supply.bootFiletime);
    } else if rule.kind.TimestampUnix? {
      WritesAt(s, probe, rule, supply, if n >= 8 then supply.unix else if n >= 4 then supply.unix[..4] else []);
    }
  }

  /** Sixteen bytes of GUID, or as many random ones as the rule is long. */
  lemma RandomRules(s: seq<byte>, probe: seq<byte>, rule: Rule, supply: Supply)
    requires Fits(rule, s)
    ensures var r := Patched(s, probe, rule, supply);
            && (rule.kind.GuidRule? && rule.length >= 16 ==> Holding(s, r, rule.offset, supply.guid))
            && (rule.kind.RandomRule? && !supply.randomFails ==>
                Holding(s, r, rule.offset, seq(rule.length, i requires 0 <= i < rule.length => supply.random(i))))
  {
    EndIs(rule, s);
    hide Patched, Holding, End, InBounds;
    if rule.kind.GuidRule? && rule.length >= 16 {
      WritesAt(s, probe, rule, supply, supply.guid);
    } else if rule.kind.RandomRule? && !supply.randomFails {
      WritesAt(s, probe, rule, supply, RandomBytes(supply.random, rule.length));
    }
  }

  /** The probe's own bytes at the same offset, if it has them. */
  lemma EchoRule(s: seq<byte>, probe: seq<byte>, rule: Rule, supply: Supply)
    requires Fits(rule, s) && rule.kind.Echo?
    ensures var r, end := Patched(s, probe, rule, supply), rule.offset + rule.length;
            if end <= |probe| then Holding(s, r, rule.offset, probe[rule.offset..end]) else r == Got(s)
  {
    EndIs(rule, s);
    hide Patched, Holding, End, InBounds;
    var end := rule.offset + rule.length;
    WritesAt(s, probe, rule, supply, if end <= |probe| then probe[rule.offset..end] else []);
  }

  /** The first n bytes of a text, or all of it. */
  function Prefix(text: seq<byte>, n: nat): seq<byte> {
    text[..if |text| < n then |text| else n]
  }

  lemma CutIs(text: seq<byte>, n: nat)
    ensures Cut(text, n) == Prefix(text, n) && |Prefix(text, n)| <= n
  {
  }

  /** Names, cut to the rule's length; nothing behind them is touched. */
  lemma NameRules(s: seq<byte>, probe: seq<byte>, rule: Rule, supply: Supply)
    requires Fits(rule, s) && (rule.kind.NetbiosName? || rule.kind.Hostname? || rule.kind.Domain?)
    ensures var text := if rule.kind.NetbiosName? then supply.netbios
                        else if rule.kind.Hostname? then supply.hostname else supply.domain;
            Holding(s, Patched(s, probe, rule, supply), rule.offset, Prefix(text, rule.length))
  {
    var text := if rule.kind.NetbiosName? then supply.netbios
                else if rule.kind.Hostname? then supply.hostname else supply.domain;
    EndIs(rule, s);
    CutIs(text, rule.length);
    hide Patched, Holding, End, InBounds, Cut, Prefix;
    WritesAt(s, probe, rule, supply, Prefix(text, rule.length));
  }

  /** The six bytes of a MAC address in a slot that has room for them; a shorter slot is left alone. */
  lemma MacRule(s: seq<byte>, probe: seq<byte>, rule: Rule, supply: Supply)
    requires Fits(rule, s) && rule.kind.MacAddress?
    ensures var r := Patched(s, probe, rule, supply);
            if |supply.mac| == 6 && rule.length >= 6 then Holding(s, r, rule.offset, supply.mac) else r == Got(s)
  {
    EndIs(rule, s);
    hide Patched, Holding, End, InBounds;
    WritesAt(s, probe, rule, supply, if |supply.mac| == 6 && rule.length >= 6 then supply.mac else []);
  }

  /** The sixteen bytes of a NetBIOS name or domain likewise. */
  lemma NbnsRules(s: seq<byte>, probe: seq<byte>, rule: Rule, supply: Supply)
    requires Fits(rule, s) && (rule.kind.NbnsName? || rule.kind.NbnsDomain?)
    ensures var r, name := Patched(s, probe, rule, supply), if rule.kind.NbnsName? then supply.nbnsName else supply.nbnsDomain;
            if rule.length >= 16 then Holding(s, r, rule.offset, name) else r == Got(s)
  {
    EndIs(rule, s);
    hide Patched, Holding, End, InBounds;
    var name := if rule.kind.NbnsName? then supply.nbnsName else supply.nbnsDomain;
    WritesAt(s, probe, rule, supply, if rule.length >= 16 then name else []);
  }

  /** A credential fills its slot: the text, cut if it is too long, and zeros behind it. */
  lemma LeakRule(s: seq<byte>, probe: seq<byte>, rule: Rule, supply: Supply)
    requires Fits(rule, s) && rule.kind.Leak?
    ensures var r, n := Patched(s, probe, rule, supply), rule.length;
            match supply.credential
            case NoStore => r == Got(s)
            case UnknownId => r.Refused?
            case Text(text) =>
              Holding(s, r, rule.offset, seq(n, i requires 0 <= i < n => if i < |text| then text[i] else 0))
  {
    EndIs(rule, s);
    if supply.credential.UnknownId? {
      hide Written, LeakSlot;
    } else {
      hide Patched, Holding, End, InBounds, LeakSlot;
      if supply.credential.Text? {
        var text, n := supply.credential.text, rule.length;
        var slot := seq(n, i requires 0 <= i < n => if i < |text| then text[i] else 0);
        SlotIs(text, n, slot);
        WritesAt(s, probe, rule, supply, slot);
      } else {
        WritesAt(s, probe, rule, supply, []);
      }
    }
  }

  lemma SlotIs(text: seq<byte>, n: nat, slot: seq<byte>)
    requires |slot| == n && forall i :: 0 <= i < n ==> slot[i] == if i < |text| then text[i] else 0
    ensures LeakSlot(text, n) == slot
  {
  }

  /** The date stands behind the first date header, if there is one with room behind it; all else is as it was. */
  lemma DateRule(s: seq<byte>, probe: seq<byte>, rule: Rule, supply: Supply, i: nat)
    requires Fits(rule, s) && rule.kind.HttpDate?
    ensures (forall j: nat :: !PartAt(s, DateHeader(), j)) ==> Patched(s, probe, rule, supply) == Got(s)
    ensures PartAt(s, DateHeader(), i) && (forall j: nat :: j < i ==> !PartAt(s, DateHeader(), j)) ==>
              var r := Patched(s, probe, rule, supply);
              if i + 6 + |supply.date| <= |s| then Holding(s, r, i + 6, supply.date) else r == Got(s)
  {
    hide *;
    HeaderIs();
    DatePatched(s, probe, rule, supply);
    DatedIs(s, supply.date, i);
    if i + 6 + |supply.date| <= |s| {
      Spliced(s, i + 6, supply.date);
    }
  }

  lemma DatePatched(s: seq<byte>, probe: seq<byte>, rule: Rule, supply: Supply)
    requires Fits(rule, s) && rule.kind.HttpDate?
    ensures Patched(s, probe, rule, supply) == Got(Dated(s, supply.date))
  {
    hide Dated;
  }

  lemma HeaderIs()
    ensures DateHeader() == DATE_HEADER
  {
  }

  lemma DatedIs(s: seq<byte>, date: seq<byte>, i: nat)
    ensures (forall j: nat :: !PartAt(s, DATE_HEADER, j)) ==> Dated(s, date) == s
    ensures PartAt(s, DATE_HEADER, i) && (forall j: nat :: j < i ==> !PartAt(s, DATE_HEADER, j)) ==>
              Dated(s, date) == if i + 6 + |date| <= |s| then Splice(s, i + 6, date) else s
  {
    hide Splice, PartAt;
  }

  /** The characters D, a, t, e, colon and space. */
  function DateHeader(): seq<byte> {
    ['D' as int as byte, 'a' as int as byte, 't' as int as byte, 'e' as int as byte, ':' as int as byte, ' ' as int as byte]
  }

  /** seq, ip and port change nothing yet; a name that is none of the types is an error, and so is a bad token. */
  lemma OtherRules(s: seq<byte>, probe: seq<byte>, rule: Rule, supply: Supply)
    requires Fits(rule, s)
    ensures var r := Patched(s, probe, rule, supply);
            && (rule.kind.Placeholder? ==> r == Got(s)) && (rule.kind.Unknown? ==> r.Refused?)
            && (rule.kind.HostAddress? && supply.captured.None? ==> r.Refused?)
            && (rule.kind.HostAddress? && supply.captured.Some? && supply.host.None? ==> r == Got(s))
            && (rule.kind.HostAddress? && supply.captured.Some? && supply.host.Some? ==>
                r == Got(Rehosted(s, supply.captured.value, supply.host.value, 0)))
  {
    SpliceNothing(s, rule.offset);
    hide Splice, Rehosted;
  }

  // ----- the detector's types -----

  /** Four bytes that differ are taken for a Unix time, eight for a FILETIME, sixteen for a GUID, others for noise. */
  lemma FieldTypes(n: nat)
    ensures RuleTypeOf(T.InferFieldType(n)) ==
            if n == 4 then TimestampUnix else if n == 8 then TimestampRule else if n == 16 then GuidRule else RandomRule
  {
  }

  /** Every field that the detector finds has the type of its length. */
  lemma DetectedTypes(caps: seq<seq<byte>>, fs: seq<T.DynamicField>, k: nat)
    requires caps != [] && T.RunsOf(caps, fs, |caps[0]|) && k < |fs|
    ensures RuleOf(fs[k]).kind ==
            if fs[k].length == 4 then TimestampUnix else if fs[k].length == 8 then TimestampRule
            else if fs[k].length == 16 then GuidRule else RandomRule
  {
    assert T.MaximalRun(caps, fs[k], |caps[0]|);
    hide T.Differs;
    FieldTypes(fs[k].length);
  }
}
