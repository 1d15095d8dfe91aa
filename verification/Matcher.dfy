/** Probe patterns: how they are compiled and what a compiled probe accepts. */
module Matcher {
  import opened Bytes

  const CARET: byte := 0x5E
  const DOLLAR: byte := 0x24
  const DOT: byte := 0x2E
  const BACKSLASH: byte := 0x5C
  const LOWER_X: byte := 0x78

  /** Patterns are strings of bytes; lengths and offsets come from a configuration file and may be anything. */
  datatype Signature = Signature(pattern: seq<byte>, contains: seq<byte>, minLength: int, maxLength: int, offset: int)

  /** A run of literal bytes, or None for one byte of any value. */
  type Piece = Option<seq<byte>>

  datatype Compiled = Compiled(
    sig: Signature, prefix: seq<byte>, hasWildcard: bool, pieces: seq<Piece>, contains: seq<byte>)

  // ----- escapes -----

  predicate IsHex(c: byte) {
    0x30 <= c <= 0x39 || 0x41 <= c <= 0x46 || 0x61 <= c <= 0x66
  }

  function HexValue(c: byte): (v: byte)
    requires IsHex(c)
    ensures v < 16
  {
    if c <= 0x39 then c - 0x30 else if c <= 0x46 then c - 0x37 else c - 0x57
  }

  function HexPair(hi: byte, lo: byte): byte
    requires IsHex(hi) && IsHex(lo)
  {
    16 * HexValue(hi) + HexValue(lo)
  }

  /** A backslash and an x with two more bytes behind them. */
  predicate EscapeShape(s: seq<byte>) {
    |s| > 3 && s[0] == BACKSLASH && s[1] == LOWER_X
  }

  predicate Escape(s: seq<byte>) {
    EscapeShape(s) && IsHex(s[2]) && IsHex(s[3])
  }

  /** Escapes decoded; everything else, malformed escapes included, stands for itself. */
  function Decoded(s: seq<byte>): seq<byte> {
    if s == [] then []
    else if Escape(s) then [HexPair(s[2], s[3])] + Decoded(s[4..])
    else [s[0]] + Decoded(s[1..])
  }

  /** One step of the decoder from offset i, behind what is already decoded. */
  lemma DecodedFrom(p: seq<byte>, i: nat, result: seq<byte>)
    requires i < |p|
    ensures Escape(p[i..]) <==>
            i + 3 < |p| && p[i] == BACKSLASH && p[i + 1] == LOWER_X && IsHex(p[i + 2]) && IsHex(p[i + 3])
    ensures Escape(p[i..]) ==>
              result + Decoded(p[i..]) == result + [HexPair(p[i + 2], p[i + 3])] + Decoded(p[i + 4..])
    ensures !Escape(p[i..]) ==> result + Decoded(p[i..]) == result + [p[i]] + Decoded(p[i + 1..])
  {
    hide HexPair, IsHex;
    if Escape(p[i..]) {
      assert p[i..][4..] == p[i + 4..];
    } else {
      assert p[i..][1..] == p[i + 1..];
    }
  }

  method ParseHexPattern(pattern: seq<byte>) returns (result: seq<byte>)
    ensures result == Decoded(pattern)
  {
    hide Escape, HexPair, IsHex, HexValue;
    result := [];
    var i := 0;
    while i < |pattern|
      invariant i <= |pattern| && result + Decoded(pattern[i..]) == Decoded(pattern)
    {
      DecodedFrom(pattern, i, result);
      if i + 3 < |pattern| && pattern[i] == BACKSLASH && pattern[i + 1] == LOWER_X {
        if IsHex(pattern[i + 2]) && IsHex(pattern[i + 3]) {
          result := result + [HexPair(pattern[i + 2], pattern[i + 3])];
          i := i + 4;
          continue;
        }
      }
      result := result + [pattern[i]];
      i := i + 1;
    }
  }

  // ----- wildcards -----

  function Flushed(current: seq<byte>): seq<Piece> {
    if current == [] then [] else [Some(Decoded(current))]
  }

  function Pieces(s: seq<byte>, current: seq<byte>): seq<Piece>
    decreases |s|
  {
    if s == [] then Flushed(current)
    else if s[0] == DOT then Flushed(current) + [None] + Pieces(s[1..], [])
    else if EscapeShape(s) then Pieces(s[4..], current + s[..4])
    else Pieces(s[1..], current + s[..1])
  }

  method ParsePatternWithWildcards(pattern: seq<byte>) returns (pieces: seq<Piece>)
    ensures pieces == Pieces(pattern, [])
  {
    pieces := [];
    var current: seq<byte> := [];
    var i := 0;
    while i < |pattern|
      invariant i <= |pattern| && pieces + Pieces(pattern[i..], current) == Pieces(pattern, [])
    {
      ghost var rest := pattern[i..];
      if pattern[i] == DOT {
        assert rest[1..] == pattern[i + 1..];
        if |current| > 0 {
          var literal := ParseHexPattern(current);
          pieces := pieces + [Some(literal)];
          current := [];
        }
        pieces := pieces + [None];
        i := i + 1;
        continue;
      }
      if i + 3 < |pattern| && pattern[i] == BACKSLASH && pattern[i + 1] == LOWER_X {
        assert rest[4..] == pattern[i + 4..] && rest[..4] == pattern[i..i + 4];
        current := current + pattern[i..i + 4];
        i := i + 4;
        continue;
      }
      assert rest[1..] == pattern[i + 1..] && rest[..1] == [pattern[i]];
      current := current + [pattern[i]];
      i := i + 1;
    }
    if |current| > 0 {
      var literal := ParseHexPattern(current);
      pieces := pieces + [Some(literal)];
    }
  }

  /** The pieces match the data one behind the other from pos on. */
  predicate PiecesMatch(data: seq<byte>, pieces: seq<Piece>, pos: nat)
    requires pos <= |data|
    decreases |pieces|
  {
    if pieces == [] then true
    else match pieces[0]
      case None => pos + 1 <= |data| && PiecesMatch(data, pieces[1..], pos + 1)
      case Some(b) =>
        pos + |b| <= |data| && data[pos..pos + |b|] == b && PiecesMatch(data, pieces[1..], pos + |b|)
  }

  method MatchWithWildcards(data: seq<byte>, pieces: seq<Piece>) returns (ok: bool)
    ensures ok == PiecesMatch(data, pieces, 0)
  {
    var pos: nat := 0;
    for k := 0 to |pieces|
      invariant pos <= |data| && PiecesMatch(data, pieces, 0) == PiecesMatch(data, pieces[k..], pos)
    {
      assert pieces[k..][1..] == pieces[k + 1..];
      match pieces[k] {
        case None =>
          pos := pos + 1;
          if pos > |data| {
            return false;
          }
        case Some(b) =>
          if pos + |b| > |data| || data[pos..pos + |b|] != b {
            return false;
          }
          pos := pos + |b|;
      }
    }
    return true;
  }

  // ----- compiling and matching a probe -----

  function TrimPrefix(s: seq<byte>): seq<byte> {
    if s != [] && s[0] == CARET then s[1..] else s
  }

  function TrimSuffix(s: seq<byte>): seq<byte> {
    if s != [] && s[|s| - 1] == DOLLAR then s[..|s| - 1] else s
  }

  /** The pattern without its anchors. */
  function Body(pattern: seq<byte>): seq<byte> {
    TrimSuffix(TrimPrefix(pattern))
  }

  function CompiledOf(sig: Signature): Compiled {
    var body := Body(sig.pattern);
    var wild := DOT in body;
    Compiled(sig, if wild then [] else Decoded(body), wild, if wild then Pieces(body, []) else [], Decoded(sig.contains))
  }

  method Compile(sig: Signature) returns (c: Compiled)
    ensures c == CompiledOf(sig)
  {
    c := Compiled(sig, [], false, [], []);
    if sig.contains != [] {
      var d := ParseHexPattern(sig.contains);
      c := c.(contains := d);
    }
    if sig.pattern != [] {
      var pattern := TrimSuffix(TrimPrefix(sig.pattern));
      if DOT in pattern {
        var p := ParsePatternWithWildcards(pattern);
        c := c.(hasWildcard := true, pieces := p);
      } else {
        var p := ParseHexPattern(pattern);
        c := c.(prefix := p);
      }
    }
  }

  ghost predicate Contains(data: seq<byte>, part: seq<byte>) {
    exists i: nat :: PartAt(data, part, i)
  }

  method FindPart(data: seq<byte>, part: seq<byte>) returns (found: bool)
    ensures found == Contains(data, part)
  {
    var i: nat := 0;
    while i + |part| <= |data|
      invariant forall k: nat :: k < i ==> !PartAt(data, part, k)
    {
      if data[i..i + |part|] == part {
        assert PartAt(data, part, i);
        return true;
      }
      i := i + 1;
    }
    return false;
  }

  predicate LengthFits(sig: Signature, n: nat) {
    (sig.minLength > 0 ==> n >= sig.minLength) && (sig.maxLength > 0 ==> n <= sig.maxLength)
  }

  ghost predicate Accepts(c: Compiled, data: seq<byte>) {
    && LengthFits(c.sig, |data|)
    && if c.contains != [] then Contains(data, c.contains)
       else
         && (c.sig.offset > 0 ==> c.sig.offset < |data|)
         && var from := if c.sig.offset > 0 then data[c.sig.offset..] else data;
            if c.hasWildcard then PiecesMatch(from, c.pieces, 0)
            else if c.prefix != [] then c.prefix <= from
            else c.sig.minLength == 0 ==> data == []
  }

  method MatchProbe(c: Compiled, data: seq<byte>) returns (ok: bool)
    ensures ok == Accepts(c, data)
  {
    if c.sig.minLength > 0 && |data| < c.sig.minLength {
      return false;
    }
    if c.sig.maxLength > 0 && |data| > c.sig.maxLength {
      return false;
    }
    if |c.contains| > 0 {
      ok := FindPart(data, c.contains);
      return;
    }
    var searchData := data;
    if c.sig.offset > 0 {
      if c.sig.offset >= |data| {
        return false;
      }
      searchData := data[c.sig.offset..];
    }
    if c.hasWildcard {
      ok := MatchWithWildcards(searchData, c.pieces);
      return;
    } else if |c.prefix| > 0 {
      return c.prefix <= searchData;
    }
    if c.sig.minLength == 0 && |data| > 0 {
      return false;
    }
    return true;
  }

  /** The first probe that accepts the data, if any does. */
  method Match(probes: seq<Compiled>, data: seq<byte>) returns (found: Option<nat>)
    ensures match found
            case Some(k) => k < |probes| && Accepts(probes[k], data) && forall j :: 0 <= j < k ==> !Accepts(probes[j], data)
            case None => forall j :: 0 <= j < |probes| ==> !Accepts(probes[j], data)
  {
    for k := 0 to |probes|
      invariant forall j :: 0 <= j < k ==> !Accepts(probes[j], data)
    {
      var ok := MatchProbe(probes[k], data);
      if ok {
        return Some(k);
      }
    }
    return None;
  }

  // ----- what a pattern means, token by token -----

  /** A literal byte, an escaped byte given by two hex digits, or any byte. */
  datatype Token = Plain(b: byte) | Hex(hi: byte, lo: byte) | Wild {
    predicate Valid() {
      match this
      case Plain(b) => b != DOT && b != BACKSLASH
      case Hex(hi, lo) => IsHex(hi) && IsHex(lo)
      case Wild => true
    }

    function Printed(): seq<byte> {
      match this
      case Plain(b) => [b]
      case Hex(hi, lo) => [BACKSLASH, LOWER_X, hi, lo]
      case Wild => [DOT]
    }

    predicate Stands(b: byte)
      requires Valid()
    {
      match this
      case Plain(p) => b == p
      case Hex(hi, lo) => b == HexPair(hi, lo)
      case Wild => true
    }
  }

  predicate AllValid(ts: seq<Token>) {
    forall i :: 0 <= i < |ts| ==> ts[i].Valid()
  }

  function Printed(ts: seq<Token>): seq<byte> {
    if ts == [] then [] else ts[0].Printed() + Printed(ts[1..])
  }

  /** Each token stands for the byte at its place. */
  predicate TokensMatch(ts: seq<Token>, data: seq<byte>, pos: nat)
    requires AllValid(ts)
  {
    pos + |ts| <= |data| && forall i :: 0 <= i < |ts| ==> ts[i].Stands(data[pos + i])
  }

  lemma {:induction false} PrintedAppend(a: seq<Token>, b: seq<Token>)
    ensures Printed(a + b) == Printed(a) + Printed(b)
  {
    if a == [] {
      assert a + b == b;
    } else {
      assert (a + b)[1..] == a[1..] + b;
      PrintedAppend(a[1..], b);
    }
  }

  lemma {:induction false} DotIsWild(ts: seq<Token>)
    requires AllValid(ts)
    ensures DOT in Printed(ts) <==> Wild in ts
  {
    if ts != [] {
      DotIsWild(ts[1..]);
      assert ts == [ts[0]] + ts[1..];
      assert Wild in ts <==> ts[0] == Wild || Wild in ts[1..];
      assert DOT in ts[0].Printed() <==> ts[0] == Wild;
    }
  }

  /** Decoding what was printed gives back the bytes the tokens stand for. */
  lemma {:induction false} DecodedTokens(ts: seq<Token>)
    requires AllValid(ts) && Wild !in ts
    ensures |Decoded(Printed(ts))| == |ts|
    ensures forall i :: 0 <= i < |ts| ==> forall b :: ts[i].Stands(b) <==> b == Decoded(Printed(ts))[i]
  {
    if ts != [] {
      var t, s := ts[0], Printed(ts);
      DecodedTokens(ts[1..]);
      assert s == t.Printed() + Printed(ts[1..]);
      assert s[|t.Printed()|..] == Printed(ts[1..]);
      assert t in ts;
      assert Decoded(s)[1..] == Decoded(Printed(ts[1..]));
      forall i | 0 <= i < |ts|
        ensures forall b :: ts[i].Stands(b) <==> b == Decoded(s)[i]
      {
        if i > 0 {
          assert ts[i] == ts[1..][i - 1];
        }
      }
    }
  }

  /** The literal run of printed tokens matches exactly when each of them does. */
  lemma RunMatches(ts: seq<Token>, data: seq<byte>, pos: nat)
    requires AllValid(ts) && Wild !in ts && pos <= |data|
    ensures var b := Decoded(Printed(ts));
            (pos + |b| <= |data| && data[pos..pos + |b|] == b) <==> TokensMatch(ts, data, pos)
  {
    DecodedTokens(ts);
    var b := Decoded(Printed(ts));
    if pos + |b| <= |data| && TokensMatch(ts, data, pos) {
      forall i | 0 <= i < |b|
        ensures data[pos..pos + |b|][i] == b[i]
      {
        assert ts[i].Stands(data[pos + i]);
      }
    }
    if pos + |b| <= |data| && data[pos..pos + |b|] == b {
      forall i | 0 <= i < |ts|
        ensures ts[i].Stands(data[pos + i])
      {
        assert data[pos..pos + |b|][i] == b[i];
      }
    }
  }

  lemma FlushedMatches(done: seq<Token>, rest: seq<Piece>, data: seq<byte>, pos: nat)
    requires AllValid(done) && Wild !in done && pos <= |data|
    ensures PiecesMatch(data, Flushed(Printed(done)) + rest, pos) <==>
            TokensMatch(done, data, pos) && PiecesMatch(data, rest, pos + |done|)
  {
    hide TokensMatch;
    DecodedTokens(done);
    RunMatches(done, data, pos);
    if done == [] {
      assert Flushed(Printed(done)) + rest == rest;
      assert TokensMatch(done, data, pos) by {
        EmptyMatches(data, pos);
      }
    } else {
      assert done[0].Printed() != [];
      var all := Flushed(Printed(done)) + rest;
      assert all[0] == Some(Decoded(Printed(done))) && all[1..] == rest;
    }
  }

  lemma EmptyMatches(data: seq<byte>, pos: nat)
    requires pos <= |data|
    ensures TokensMatch([], data, pos)
  {
  }

  lemma MatchSplit(a: seq<Token>, b: seq<Token>, data: seq<byte>, pos: nat)
    requires AllValid(a) && AllValid(b)
    ensures AllValid(a + b)
    ensures TokensMatch(a + b, data, pos) <==> TokensMatch(a, data, pos) && TokensMatch(b, data, pos + |a|)
  {
    if TokensMatch(a + b, data, pos) {
      forall i | 0 <= i < |a|
        ensures a[i].Stands(data[pos + i])
      {
        assert (a + b)[i] == a[i];
      }
      forall i | 0 <= i < |b|
        ensures b[i].Stands(data[pos + |a| + i])
      {
        assert (a + b)[|a| + i] == b[i] && pos + (|a| + i) == pos + |a| + i;
      }
    }
    if TokensMatch(a, data, pos) && TokensMatch(b, data, pos + |a|) {
      forall i | 0 <= i < |a + b|
        ensures (a + b)[i].Stands(data[pos + i])
      {
        if i >= |a| {
          assert (a + b)[i] == b[i - |a|] && pos + |a| + (i - |a|) == pos + i;
        }
      }
    }
  }

  /** One wildcard needs one byte. */
  lemma WildMatches(data: seq<byte>, rest: seq<Piece>, pos: nat)
    requires pos <= |data|
    ensures PiecesMatch(data, [None] + rest, pos) <==> pos + 1 <= |data| && PiecesMatch(data, rest, pos + 1)
    ensures TokensMatch([Wild], data, pos) <==> pos + 1 <= |data|
  {
    assert ([None] + rest)[1..] == rest;
  }

  /** How the wildcard parser reads one printed token. */
  lemma PiecesStep(t: Token, rest: seq<byte>, current: seq<byte>)
    requires t.Valid()
    ensures Pieces(t.Printed() + rest, current) ==
            if t.Wild? then Flushed(current) + [None] + Pieces(rest, []) else Pieces(rest, current + t.Printed())
  {
    var s := t.Printed() + rest;
    assert s[|t.Printed()|..] == rest && s[..|t.Printed()|] == t.Printed();
  }

  /** The pieces of a printed pattern match exactly when each token does. */
  lemma {:induction false} PiecesOfTokens(done: seq<Token>, ts: seq<Token>, data: seq<byte>, pos: nat)
    requires AllValid(done) && AllValid(ts) && Wild !in done && pos <= |data|
    ensures AllValid(done + ts)
    ensures PiecesMatch(data, Pieces(Printed(ts), Printed(done)), pos) <==> TokensMatch(done + ts, data, pos)
    decreases |ts|
  {
    hide PiecesMatch, TokensMatch, Flushed;
    if ts == [] {
      hide Decoded;
      FlushedMatches(done, [], data, pos);
      assert Flushed(Printed(done)) + [] == Flushed(Printed(done));
      assert done + ts == done;
      if TokensMatch(done, data, pos) {
        EndMatches(done, data, pos);
      }
    } else {
      var t, rest := ts[0], ts[1..];
      PiecesStep(t, Printed(rest), Printed(done));
      hide Pieces;
      assert Printed(ts) == t.Printed() + Printed(rest);
      if t.Wild? {
        PiecesOfWild(done, ts, data, pos);
      } else {
        PrintedAppend(done, [t]);
        assert Printed([t]) == t.Printed() + Printed([t][1..]) == t.Printed();
        PiecesOfTokens(done + [t], rest, data, pos);
        assert done + [t] + rest == done + ts;
      }
    }
  }

  lemma EndMatches(ts: seq<Token>, data: seq<byte>, pos: nat)
    requires AllValid(ts) && TokensMatch(ts, data, pos)
    ensures PiecesMatch(data, [], pos + |ts|)
  {
  }

  lemma {:induction false} PiecesOfWild(done: seq<Token>, ts: seq<Token>, data: seq<byte>, pos: nat)
    requires AllValid(done) && AllValid(ts) && Wild !in done && pos <= |data| && ts != [] && ts[0].Wild?
    ensures AllValid(done + ts)
    ensures PiecesMatch(data, Flushed(Printed(done)) + [None] + Pieces(Printed(ts[1..]), []), pos) <==>
            TokensMatch(done + ts, data, pos)
    decreases |ts|, 0
  {
    hide PiecesMatch, TokensMatch, Flushed, Pieces, Printed;
    var rest, ps := ts[1..], Pieces(Printed(ts[1..]), []);
    assert Flushed(Printed(done)) + [None] + ps == Flushed(Printed(done)) + ([None] + ps);
    assert ts == [Wild] + rest;
    MatchSplit(done, ts, data, pos);
    MatchSplit([Wild], rest, data, pos + |done|);
    FlushedMatches(done, [None] + ps, data, pos);
    if TokensMatch(done, data, pos) {
      MatchBound(done, data, pos);
      WildMatches(data, ps, pos + |done|);
      if pos + |done| + 1 <= |data| {
        PrintedNone();
        PiecesOfTokens([], rest, data, pos + |done| + 1);
        assert [] + rest == rest;
      }
    }
  }

  lemma PrintedNone()
    ensures Printed([]) == []
  {
  }

  lemma MatchBound(ts: seq<Token>, data: seq<byte>, pos: nat)
    requires AllValid(ts) && TokensMatch(ts, data, pos)
    ensures pos + |ts| <= |data|
  {
  }

  /**
   * A probe whose pattern is made of literals, escapes and wildcards accepts exactly the data of a fitting length
   * in which every token stands for the byte at its place behind the offset.
   */
  lemma PatternMeaning(sig: Signature, ts: seq<Token>, data: seq<byte>)
    requires sig.contains == [] && ts != [] && AllValid(ts) && Body(sig.pattern) == Printed(ts)
    ensures Accepts(CompiledOf(sig), data) <==>
            && LengthFits(sig, |data|)
            && (sig.offset > 0 ==> sig.offset < |data|)
            && TokensMatch(ts, data, if sig.offset > 0 then sig.offset else 0)
  {
    hide TokensMatch, PiecesMatch, Pieces;
    var c := CompiledOf(sig);
    assert c.contains == Decoded([]) == [];
    DotIsWild(ts);
    var o := if sig.offset > 0 then sig.offset else 0;
    if LengthFits(sig, |data|) && (sig.offset > 0 ==> sig.offset < |data|) {
      var from := data[o..];
      assert from == if sig.offset > 0 then data[sig.offset..] else data;
      Shifted(ts, data, o);
      if Wild in ts {
        PiecesOfTokens([], ts, from, 0);
        PrintedNone();
        assert [] + ts == ts;
      } else {
        DecodedTokens(ts);
        RunMatches(ts, from, 0);
        var b := Decoded(Printed(ts));
        assert b <= from <==> |b| <= |from| && from[..|b|] == b;
      }
    }
  }

  lemma Shifted(ts: seq<Token>, data: seq<byte>, o: nat)
    requires AllValid(ts) && o <= |data|
    ensures TokensMatch(ts, data[o..], 0) <==> TokensMatch(ts, data, o)
  {
    if TokensMatch(ts, data[o..], 0) {
      forall i | 0 <= i < |ts|
        ensures ts[i].Stands(data[o + i])
      {
        assert data[o..][0 + i] == data[o + i];
      }
    }
    if TokensMatch(ts, data, o) {
      forall i | 0 <= i < |ts|
        ensures ts[i].Stands(data[o..][0 + i])
      {
      }
    }
  }
}
