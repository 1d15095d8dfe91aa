/** What patterns and generated signatures mean, byte by byte. */
module PatternCases {
  import opened Bytes
  import opened Matcher
  import opened Template

  // ----- generated signatures -----

  /**
   * A generated signature accepts what is as long as its probe or up to 100 bytes longer and, if the probe has four bytes,
   * agrees with it in the first eight, as far as it has that many. That of an empty probe accepts nothing but no data.
   */
  lemma GeneratedAccepts(probe: seq<byte>, data: seq<byte>)
    ensures Accepts(CompiledOf(SignatureOf(probe)), data) <==>
            if probe == [] then data == []
            else
              && |probe| <= |data| <= |probe| + 100
              && (|probe| >= 4 ==> forall i :: 0 <= i < 8 && i < |probe| ==> data[i] == probe[i])
  {
    hide Accepts, CompiledOf, SignatureOf;
    SignatureMeaning(probe, data);
    var head := probe[..PatternLength(|probe|)];
    if |probe| <= |data| {
      assert head <= data <==> forall i :: 0 <= i < |head| ==> data[i] == head[i];
    }
  }

  function LowerDigit(v: byte): byte
    requires v < 16
  {
    if v < 10 then '0' as byte + v else 'a' as byte + (v - 10)
  }

  /** A pattern is a caret and what shows the probe's first bytes; a probe under four bytes has none. */
  lemma PatternIs(probe: seq<byte>)
    ensures PatternOf(probe) ==
            if |probe| < 4 then [] else ['^' as byte] + Shown(probe, if |probe| < 8 then |probe| else 8)
  {
  }

  /** Printable bytes show as themselves, except those that mean something in a regular expression; others as escapes. */
  lemma ShownBytes(s: seq<byte>, i: nat)
    requires i < |s|
    ensures Shown(s, 0) == []
    ensures var b := s[i];
            Shown(s, i + 1) ==
            Shown(s, i) + if ' ' as byte <= b <= '~' as byte && b as char !in "\\.+*?^$[]{}()|" then [b]
                          else ['\\' as byte, 'x' as byte, LowerDigit(b / 16), LowerDigit(b % 16)]
  {
    ShownNext(s, i);
    hide Shown;
    var b := s[i];
    assert b in META <==> b as char in "\\.+*?^$[]{}()|";
    assert Shown(s, 0) == [] by {
      NothingShown(s);
    }
  }

  lemma NothingShown(s: seq<byte>)
    ensures Shown(s, 0) == []
  {
    assert s[..0] == [];
  }

  // ----- patterns -----

  /** A token by the bytes it stands for. */
  ghost predicate Means(t: Token, b: byte)
    requires t.Valid()
  {
    match t
    case Plain(p) => b == p
    case Hex(hi, lo) => exists h: nat, l: nat :: Shows(hi, h) && Shows(lo, l) && b == 16 * h + l
    case Wild => true
  }

  /** A hexadecimal digit in either case. */
  predicate Shows(c: byte, v: nat) {
    || (v < 10 && c == 0x30 + v)
    || (10 <= v < 16 && (c == 0x41 + (v - 10) || c == 0x61 + (v - 10)))
  }

  lemma ShowsExactly(c: byte)
    ensures IsHex(c) <==> exists v: nat :: Shows(c, v)
    ensures IsHex(c) ==> forall v: nat :: Shows(c, v) <==> v == HexValue(c)
  {
    if IsHex(c) {
      assert Shows(c, HexValue(c));
    }
  }

  lemma StandsMeans(t: Token, b: byte)
    requires t.Valid()
    ensures t.Stands(b) <==> Means(t, b)
  {
    if t.Hex? {
      ShowsExactly(t.hi);
      ShowsExactly(t.lo);
      assert HexPair(t.hi, t.lo) == 16 * HexValue(t.hi) + HexValue(t.lo);
      hide Shows, HexPair, HexValue, IsHex;
      if t.Stands(b) {
        assert Shows(t.hi, HexValue(t.hi)) && Shows(t.lo, HexValue(t.lo));
      }
    }
  }

  predicate Fits(n: nat, least: int, most: int) {
    (least <= 0 || least <= n) && (most <= 0 || n <= most)
  }

  /** Every token means the byte at its place from the given one on. */
  ghost predicate Reads(ts: seq<Token>, data: seq<byte>, at: nat)
    requires AllValid(ts)
  {
    at + |ts| <= |data| && forall i :: 0 <= i < |ts| ==> Means(ts[i], data[at + i])
  }

  lemma MatchReads(ts: seq<Token>, data: seq<byte>, at: nat)
    requires AllValid(ts)
    ensures TokensMatch(ts, data, at) <==> Reads(ts, data, at)
  {
    if at + |ts| <= |data| {
      forall i | 0 <= i < |ts|
        ensures ts[i].Stands(data[at + i]) <==> Means(ts[i], data[at + i])
      {
        StandsMeans(ts[i], data[at + i]);
      }
    }
  }

  /** A caret before a pattern and a dollar behind it mean nothing: both are taken off and matching is the same. */
  lemma AnchorsIgnored(body: seq<byte>)
    requires body != [] && body[0] != 0x5E && body[|body| - 1] != 0x24
    ensures Body(body) == Body([0x5E] + body) == Body(body + [0x24]) == Body([0x5E] + body + [0x24]) == body
  {
    assert ([0x5E] + body)[1..] == body && (body + [0x24])[..|body|] == body;
    assert ([0x5E] + body + [0x24])[1..] == body + [0x24];
  }

  /** A pattern of literals, escapes and wildcards accepts what reads as its tokens at the offset. */
  lemma PatternReads(sig: Signature, ts: seq<Token>, data: seq<byte>)
    requires sig.contains == [] && ts != [] && AllValid(ts) && Body(sig.pattern) == Printed(ts)
    ensures Accepts(CompiledOf(sig), data) <==>
            && Fits(|data|, sig.minLength, sig.maxLength)
            && Reads(ts, data, if sig.offset > 0 then sig.offset else 0)
  {
    PatternMeaning(sig, ts, data);
    MatchReads(ts, data, if sig.offset > 0 then sig.offset else 0);
    hide Accepts, CompiledOf, TokensMatch, Means;
  }

  /** A part that must occur is looked for anywhere; pattern and offset are then not looked at. */
  lemma ContainsReads(sig: Signature, ts: seq<Token>, data: seq<byte>)
    requires ts != [] && AllValid(ts) && Wild !in ts && sig.contains == Printed(ts)
    ensures Accepts(CompiledOf(sig), data) <==>
            Fits(|data|, sig.minLength, sig.maxLength) && exists at: nat :: Reads(ts, data, at)
  {
    hide Pieces, PiecesMatch, Reads, TokensMatch;
    DecodedTokens(ts);
    var part := Decoded(Printed(ts));
    assert CompiledOf(sig).contains == part != [];
    forall at: nat
      ensures PartAt(data, part, at) <==> Reads(ts, data, at)
    {
      MatchReads(ts, data, at);
      PartReads(ts, data, at);
    }
    assert Contains(data, part) <==> exists at: nat :: Reads(ts, data, at);
  }

  lemma PartReads(ts: seq<Token>, data: seq<byte>, at: nat)
    requires ts != [] && AllValid(ts) && Wild !in ts
    ensures PartAt(data, Decoded(Printed(ts)), at) <==> TokensMatch(ts, data, at)
  {
    hide Decoded, Printed;
    if at <= |data| {
      RunMatches(ts, data, at);
    }
  }

  /** Without pattern and part only the length counts, and a probe without a least length accepts no data alone. */
  lemma NothingToRead(sig: Signature, data: seq<byte>)
    requires sig.pattern == [] && sig.contains == []
    ensures Accepts(CompiledOf(sig), data) <==>
            && Fits(|data|, sig.minLength, sig.maxLength) && (sig.offset > 0 ==> sig.offset < |data|)
            && (sig.minLength == 0 ==> data == [])
  {
    assert Body([]) == [] && Decoded([]) == [];
  }

  /** A backslash and an x without two hexadecimal digits behind them stand for themselves. */
  lemma MalformedEscape(a: byte, b: byte, rest: seq<byte>)
    requires !IsHex(a) || !IsHex(b)
    ensures Decoded([0x5C, 0x78, a, b] + rest) == [0x5C] + Decoded([0x78, a, b] + rest)
  {
    var s := [0x5C, 0x78, a, b] + rest;
    assert s[0] == 0x5C && s[1..] == [0x78, a, b] + rest && s[2] == a && s[3] == b;
  }

  /** A dot among the two bytes behind a backslash and an x is no wildcard. */
  lemma DotInEscape(a: byte, b: byte)
    ensures Pieces([0x5C, 0x78, a, b], []) == [Some(Decoded([0x5C, 0x78, a, b]))]
  {
    var s := [0x5C, 0x78, a, b];
    assert s[4..] == [] && [] + s[..4] == s;
    hide Decoded;
    assert Pieces(s, []) == Pieces([], s) == Flushed(s);
  }

  // ----- dynamic fields -----

  /** The captures agree on an offset: each has it, and all the same byte there. */
  ghost predicate Agree(caps: seq<seq<byte>>, i: nat) {
    forall j, k :: 0 <= j < |caps| && 0 <= k < |caps| ==> i < |caps[j]| && i < |caps[k]| && caps[j][i] == caps[k][i]
  }

  lemma DiffersIs(caps: seq<seq<byte>>, i: nat)
    requires caps != [] && i < |caps[0]|
    ensures Differs(caps, i) <==> !Agree(caps, i)
  {
    if !Differs(caps, i) {
      assert forall k :: 0 <= k < |caps| ==> i < |caps[k]| && caps[k][i] == caps[0][i];
    }
  }

  /** The fields are the runs between which the captures agree, each as long as it can be. */
  lemma RunsExactly(caps: seq<seq<byte>>, fs: seq<DynamicField>)
    requires caps != [] && RunsOf(caps, fs, |caps[0]|)
    ensures forall i :: 0 <= i < |caps[0]| ==>
      (Agree(caps, i) <==> forall k :: 0 <= k < |fs| ==> i < fs[k].offset || fs[k].offset + fs[k].length <= i)
    ensures forall j, k :: 0 <= j < k < |fs| ==> fs[j].offset + fs[j].length < fs[k].offset
    ensures forall k :: 0 <= k < |fs| ==> fs[k].length > 0 && fs[k].offset + fs[k].length <= |caps[0]|
  {
    forall i | 0 <= i < |caps[0]|
      ensures Agree(caps, i) <==> forall k :: 0 <= k < |fs| ==> i < fs[k].offset || fs[k].offset + fs[k].length <= i
    {
      DiffersIs(caps, i);
      assert Covered(fs, i) <==> Differs(caps, i);
      hide Agree, Differs;
    }
    hide Agree, Differs;
  }
}
