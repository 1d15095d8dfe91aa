/** From captured exchanges to a probe signature and the response's dynamic fields. */
module Template {
  import opened Bytes
  import opened Matcher

  // ----- the signature -----

  /** Bytes with a meaning in regular expressions: \ . + * ? ^ $ [ ] { } ( ) and the bar. */
  const META: set<byte> := {0x5C, 0x2E, 0x2B, 0x2A, 0x3F, 0x5E, 0x24, 0x5B, 0x5D, 0x7B, 0x7D, 0x28, 0x29, 0x7C}

  function HexDigit(v: byte): (c: byte)
    requires v < 16
    ensures IsHex(c) && HexValue(c) == v
  {
    if v < 10 then 0x30 + v else 0x57 + v
  }

  /** The token that a pattern shows a byte as. */
  function TokenOf(b: byte): (t: Token)
    ensures t.Valid() && !t.Wild? && forall x :: t.Stands(x) <==> x == b
    ensures t.Printed()[0] != CARET && t.Printed()[|t.Printed()| - 1] != DOLLAR
  {
    if 0x20 <= b <= 0x7E && b !in META then Plain(b) else Hex(HexDigit(b / 16), HexDigit(b % 16))
  }

  function TokensOf(s: seq<byte>): (ts: seq<Token>)
    ensures |ts| == |s| && AllValid(ts) && Wild !in ts
    ensures forall i :: 0 <= i < |s| ==> ts[i] == TokenOf(s[i])
  {
    seq(|s|, i requires 0 <= i < |s| => TokenOf(s[i]))
  }

  function PatternLength(n: nat): nat {
    if n < 8 then n else 8
  }

  /** The first n bytes as a pattern shows them. */
  function Shown(s: seq<byte>, n: nat): seq<byte>
    requires n <= |s|
  {
    Printed(TokensOf(s[..n]))
  }

  function PatternOf(probe: seq<byte>): seq<byte> {
    if |probe| < 4 then [] else [CARET] + Shown(probe, PatternLength(|probe|))
  }

  lemma ShownNext(s: seq<byte>, i: nat)
    requires i < |s|
    ensures var b := s[i];
            Shown(s, i + 1) ==
            Shown(s, i) + if 0x20 <= b <= 0x7E && b !in META then [b]
                          else [BACKSLASH, LOWER_X, HexDigit(b / 16), HexDigit(b % 16)]
  {
    var t := TokenOf(s[i]);
    assert TokensOf(s[..i + 1]) == TokensOf(s[..i]) + [t];
    PrintedAppend(TokensOf(s[..i]), [t]);
    assert Printed([t]) == t.Printed() + Printed([t][1..]) == t.Printed();
  }

  method FindStablePattern(probe: seq<byte>) returns (pattern: seq<byte>)
    ensures pattern == PatternOf(probe)
  {
    if |probe| < 4 {
      return [];
    }
    var patternLen := 8;
    if |probe| < patternLen {
      patternLen := |probe|;
    }
    pattern := [CARET];
    assert Shown(probe, 0) == [];
    hide Shown, TokenOf;
    for i := 0 to patternLen
      invariant pattern == [CARET] + Shown(probe, i)
    {
      var b := probe[i];
      ShownNext(probe, i);
      if b >= 0x20 && b <= 0x7E && b !in META {
        pattern := pattern + [b];
      } else {
        pattern := pattern + [BACKSLASH, LOWER_X, HexDigit(b / 16), HexDigit(b % 16)];
      }
    }
  }

  function SignatureOf(probe: seq<byte>): Signature {
    Signature(PatternOf(probe), [], |probe|, |probe| + 100, 0)
  }

  method GenerateSignature(probe: seq<byte>) returns (sig: Signature)
    ensures sig == SignatureOf(probe)
  {
    sig := Signature([], [], |probe|, |probe| + 100, 0);
    var patternBytes := FindStablePattern(probe);
    if |patternBytes| > 0 {
      sig := sig.(pattern := patternBytes);
    }
  }

  lemma {:induction false} PrintedEnds(ts: seq<Token>)
    requires ts != [] && AllValid(ts)
    ensures Printed(ts) != [] && Printed(ts)[0] == ts[0].Printed()[0]
    ensures var last := ts[|ts| - 1].Printed(); Printed(ts)[|Printed(ts)| - 1] == last[|last| - 1]
  {
    if |ts| == 1 {
      assert ts[1..] == [];
    } else {
      PrintedEnds(ts[1..]);
      assert Printed(ts) == ts[0].Printed() + Printed(ts[1..]);
      hide Printed;
    }
  }

  /** Only the generated anchor is trimmed from a generated pattern. */
  lemma GeneratedBody(probe: seq<byte>)
    requires |probe| >= 4
    ensures Body(PatternOf(probe)) == Printed(TokensOf(probe[..PatternLength(|probe|)]))
  {
    var ts := TokensOf(probe[..PatternLength(|probe|)]);
    PrintedEnds(ts);
    assert PatternOf(probe)[1..] == Printed(ts);
  }

  /**
   * The matcher accepts data for a generated signature exactly when its length is that of the probe or up to 100
   * more and, from four bytes on, it starts with the probe's first eight bytes (or all of it, if shorter). The
   * signature of an empty probe is a connect banner and accepts only the empty buffer.
   */
  lemma SignatureMeaning(probe: seq<byte>, data: seq<byte>)
    ensures var n := |probe|;
            Accepts(CompiledOf(SignatureOf(probe)), data) <==>
            if n == 0 then data == []
            else n <= |data| <= n + 100 && (n >= 4 ==> probe[..PatternLength(n)] <= data)
  {
    var sig, n := SignatureOf(probe), |probe|;
    assert Decoded([]) == [];
    if n >= 4 {
      var head := probe[..PatternLength(n)];
      var ts := TokensOf(head);
      GeneratedBody(probe);
      PatternMeaning(sig, ts, data);
      hide Accepts, CompiledOf;
      if n <= |data| {
        assert TokensMatch(ts, data, 0) <==> head <= data by {
          if TokensMatch(ts, data, 0) {
            forall i | 0 <= i < |head|
              ensures head[i] == data[i]
            {
              assert ts[i].Stands(data[0 + i]);
            }
          }
        }
      }
    } else {
      assert Body([]) == [];
    }
  }

  /** What was captured is recognised again: each probe is accepted by its own signature. */
  lemma ProbeRecognised(probe: seq<byte>)
    ensures Accepts(CompiledOf(SignatureOf(probe)), probe)
  {
    SignatureMeaning(probe, probe);
  }

  // ----- dynamic fields -----

  datatype FieldType = TimestampUnix | Timestamp | Guid | Random

  datatype DynamicField = DynamicField(offset: nat, length: nat, kind: FieldType) {
    predicate Covers(i: int) {
      offset <= i < offset + length
    }
  }

  function InferFieldType(length: nat): FieldType {
    match length
    case 4 => TimestampUnix
    case 8 => Timestamp
    case 16 => Guid
    case _ => Random
  }

  /** Some capture is too short for offset i or has another byte there than the first one. */
  predicate Differs(caps: seq<seq<byte>>, i: int)
    requires caps != [] && 0 <= i < |caps[0]|
  {
    exists k :: 0 < k < |caps| && (i >= |caps[k]| || caps[k][i] != caps[0][i])
  }

  /** A run of differing offsets that cannot be extended on either side within the first n. */
  ghost predicate MaximalRun(caps: seq<seq<byte>>, f: DynamicField, n: nat)
    requires caps != [] && n <= |caps[0]|
  {
    && 0 < f.length && f.offset + f.length <= n && f.kind == InferFieldType(f.length)
    && (forall i :: f.Covers(i) ==> Differs(caps, i))
    && (f.offset > 0 ==> !Differs(caps, f.offset - 1))
    && (f.offset + f.length < n ==> !Differs(caps, f.offset + f.length))
  }

  /** In order, with a gap between any two. */
  predicate Separated(fs: seq<DynamicField>) {
    forall j, k :: 0 <= j < k < |fs| ==> fs[j].offset + fs[j].length < fs[k].offset
  }

  predicate Covered(fs: seq<DynamicField>, i: int) {
    exists k :: 0 <= k < |fs| && fs[k].Covers(i)
  }

  /** The maximal runs of differing offsets among the first n, in order. */
  ghost predicate RunsOf(caps: seq<seq<byte>>, fs: seq<DynamicField>, n: nat)
    requires caps != [] && n <= |caps[0]|
  {
    && (forall k :: 0 <= k < |fs| ==> MaximalRun(caps, fs[k], n))
    && Separated(fs)
    && (forall i :: 0 <= i < n ==> (Covered(fs, i) <==> Differs(caps, i)))
  }

  method IsDifferent(caps: seq<seq<byte>>, i: nat) returns (isDiff: bool)
    requires caps != [] && i < |caps[0]|
    ensures isDiff == Differs(caps, i)
  {
    isDiff := false;
    for k := 1 to |caps|
      invariant forall j :: 0 < j < k ==> i < |caps[j]| && caps[j][i] == caps[0][i]
    {
      if i >= |caps[k]| || caps[k][i] != caps[0][i] {
        return true;
      }
    }
  }

  /** The runs found before offset m, none of them still growing. */
  ghost predicate Closed(caps: seq<seq<byte>>, fs: seq<DynamicField>, m: nat)
    requires caps != [] && m <= |caps[0]|
  {
    && (forall k :: 0 <= k < |fs| ==> MaximalRun(caps, fs[k], |caps[0]|) && fs[k].offset + fs[k].length < m)
    && Separated(fs)
    && (forall i :: 0 <= i < m ==> (Covered(fs, i) <==> Differs(caps, i)))
  }

  /** The run that is growing at offset i, when there is one, starts at a maximal place. */
  ghost predicate Growing(caps: seq<seq<byte>>, start: nat, i: nat)
    requires caps != [] && start < i <= |caps[0]|
  {
    (forall j :: start <= j < i ==> Differs(caps, j)) && (start > 0 ==> !Differs(caps, start - 1))
  }

  lemma CoveredAdd(fs: seq<DynamicField>, f: DynamicField, i: int)
    ensures Covered(fs + [f], i) <==> Covered(fs, i) || f.Covers(i)
  {
    var g := fs + [f];
    if Covered(fs, i) {
      var k :| 0 <= k < |fs| && fs[k].Covers(i);
      assert g[k].Covers(i);
    }
    if f.Covers(i) {
      assert g[|fs|].Covers(i);
    }
  }

  /** A run that ends where the captures agree, or at the end of the first one, is a field. */
  lemma AddRun(caps: seq<seq<byte>>, fs: seq<DynamicField>, start: nat, end: nat) returns (f: DynamicField)
    requires caps != [] && start < end <= |caps[0]| && Closed(caps, fs, start) && Growing(caps, start, end)
    requires end < |caps[0]| ==> !Differs(caps, end)
    ensures f == DynamicField(start, end - start, InferFieldType(end - start))
    ensures end < |caps[0]| ==> Closed(caps, fs + [f], end + 1)
    ensures end == |caps[0]| ==> RunsOf(caps, fs + [f], end)
  {
    hide Differs, Covered;
    f := DynamicField(start, end - start, InferFieldType(end - start));
    assert MaximalRun(caps, f, |caps[0]|);
    forall i
      ensures Covered(fs + [f], i) <==> Covered(fs, i) || f.Covers(i)
    {
      CoveredAdd(fs, f, i);
    }
    forall i | start <= i
      ensures !Covered(fs, i)
    {
      NotBeyond(fs, start, i);
    }
    var g := fs + [f];
    assert forall k :: 0 <= k < |fs| ==> g[k] == fs[k];
  }

  lemma NotBeyond(fs: seq<DynamicField>, m: nat, i: int)
    requires m <= i && forall k :: 0 <= k < |fs| ==> fs[k].offset + fs[k].length < m
    ensures !Covered(fs, i)
  {
  }

  /** With one capture there is nothing to compare and no field; with more, exactly the maximal runs. */
  method DetectDynamicFields(caps: seq<seq<byte>>) returns (fields: seq<DynamicField>)
    requires caps != []
    ensures |caps| == 1 ==> fields == []
    ensures RunsOf(caps, fields, |caps[0]|)
  {
    fields := [];
    if |caps| < 2 {
      return;
    }
    hide Differs, Covered, MaximalRun;
    var base := caps[0];
    var diffStart: int := -1;
    NoneYet(caps);
    for i := 0 to |base|
      invariant -1 <= diffStart < i
      invariant Closed(caps, fields, if diffStart == -1 then i else diffStart)
      invariant if diffStart == -1 then i > 0 ==> !Differs(caps, i - 1) else Growing(caps, diffStart, i)
    {
      var isDiff := IsDifferent(caps, i);
      if isDiff && diffStart == -1 {
        diffStart := i;
      } else if !isDiff && diffStart != -1 {
        ghost var f := AddRun(caps, fields, diffStart, i);
        fields := fields + [DynamicField(diffStart, i - diffStart, InferFieldType(i - diffStart))];
        diffStart := -1;
      } else if !isDiff {
        NotBeyond(fields, i, i);
      }
    }
    if diffStart != -1 {
      ghost var f := AddRun(caps, fields, diffStart, |base|);
      fields := fields + [DynamicField(diffStart, |base| - diffStart, InferFieldType(|base| - diffStart))];
    }
  }

  lemma NoneYet(caps: seq<seq<byte>>)
    requires caps != []
    ensures Closed(caps, [], 0)
  {
  }
}
