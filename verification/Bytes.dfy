/** Bytes, fixed-width unsigned integers and their network-order encodings. */
module Bytes {
  type byte = x: int | 0 <= x < 0x100
  type uint16 = x: int | 0 <= x < 0x1_0000
  type uint32 = x: int | 0 <= x < 0x1_0000_0000

  datatype Option<+T> = None | Some(value: T)

  /** What a call does: it may return a value, refuse its input, or fail on a slice out of range. */
  datatype Outcome<+T> = Got(value: T) | Refused | Panic

  const INT_LIMIT: int := 0x8000_0000_0000_0000

  /** The 64-bit signed value with the same low bits. */
  function Wrap(x: int): (r: int)
    ensures -INT_LIMIT <= r < INT_LIMIT
    ensures -INT_LIMIT <= x < INT_LIMIT ==> r == x
    ensures INT_LIMIT <= x < 3 * INT_LIMIT ==> r == x - 2 * INT_LIMIT
  {
    (x + INT_LIMIT) % (2 * INT_LIMIT) - INT_LIMIT
  }

  function Power256(n: nat): nat {
    if n == 0 then 1 else 256 * Power256(n - 1)
  }

  function Enc16(v: uint16): (b: seq<byte>)
    ensures |b| == 2
  {
    [v / 0x100, v % 0x100]
  }

  function Enc32(v: uint32): (b: seq<byte>)
    ensures |b| == 4
  {
    Enc16(v / 0x1_0000) + Enc16(v % 0x1_0000)
  }

  /** Big-endian reads at an offset. */
  function Dec16(s: seq<byte>, i: nat): uint16
    requires i + 2 <= |s|
  {
    s[i] as int * 0x100 + s[i + 1]
  }

  function Dec32(s: seq<byte>, i: nat): uint32
    requires i + 4 <= |s|
  {
    Dec16(s, i) as int * 0x1_0000 + Dec16(s, i + 2)
  }

  lemma Enc16RoundTrip(v: uint16)
    ensures Dec16(Enc16(v), 0) == v
  {
  }

  lemma Enc32RoundTrip(v: uint32)
    ensures Dec32(Enc32(v), 0) == v
  {
    Enc16RoundTrip(v / 0x1_0000);
    Enc16RoundTrip(v % 0x1_0000);
  }

  lemma Dec16RoundTrip(s: seq<byte>, i: nat)
    requires i + 2 <= |s|
    ensures Enc16(Dec16(s, i)) == s[i..i + 2]
  {
  }

  lemma Dec32RoundTrip(s: seq<byte>, i: nat)
    requires i + 4 <= |s|
    ensures Enc32(Dec32(s, i)) == s[i..i + 4]
  {
    Dec16RoundTrip(s, i);
    Dec16RoundTrip(s, i + 2);
  }

  /** Reading inside a slice is reading at the shifted offset. */
  lemma Dec32Slice(s: seq<byte>, lo: nat, hi: nat, i: nat)
    requires lo <= hi <= |s| && lo + i + 4 <= hi
    ensures Dec32(s[lo..hi], i) == Dec32(s, lo + i)
  {
  }

  /** A piece of an occurrence of e in b lies at the matching place of b. */
  lemma SubSlice(b: seq<byte>, i: nat, e: seq<byte>, lo: nat, hi: nat)
    requires i + |e| <= |b| && b[i..i + |e|] == e && lo <= hi <= |e|
    ensures b[i + lo..i + hi] == e[lo..hi]
  {
    forall k | lo <= k < hi
      ensures b[i + lo..i + hi][k - lo] == e[k]
    {
      assert b[i..i + |e|][k] == b[i + k];
    }
    assert b[i + lo..i + hi] == e[lo..hi];
  }

  // ----- places of a part -----

  predicate PartAt(data: seq<byte>, part: seq<byte>, i: nat) {
    i + |part| <= |data| && data[i..i + |part|] == part
  }

  /** bytes.Index(data[i:], part), counted from the start of data. */
  function FirstPart(data: seq<byte>, part: seq<byte>, i: nat): (r: Option<nat>)
    ensures match r
            case Some(k) => i <= k && PartAt(data, part, k) && forall j :: i <= j < k ==> !PartAt(data, part, j)
            case None => forall j :: i <= j ==> !PartAt(data, part, j)
    decreases |data| - i
  {
    if i + |part| > |data| then None
    else if PartAt(data, part, i) then Some(i)
    else FirstPart(data, part, i + 1)
  }

  function Repeat(b: byte, n: nat): (s: seq<byte>)
    ensures |s| == n && forall i :: 0 <= i < n ==> s[i] == b
  {
    seq(n, i => b)
  }

  /** s with the bytes t written over it from offset off on. */
  function Splice(s: seq<byte>, off: nat, t: seq<byte>): (r: seq<byte>)
    requires off + |t| <= |s|
    ensures |r| == |s|
  {
    s[..off] + t + s[off + |t|..]
  }

  /** copy(a[off:], t) on a slice that is long enough. */
  method Write(a: array<byte>, off: nat, t: seq<byte>)
    requires off + |t| <= a.Length
    modifies a
    ensures a[..] == Splice(old(a[..]), off, t)
    ensures a[off..off + |t|] == t
    ensures forall k :: 0 <= k < a.Length && !(off <= k < off + |t|) ==> a[k] == old(a[k])
  {
    ghost var was := a[..];
    for i := 0 to |t|
      invariant forall k :: 0 <= k < i ==> a[off + k] == t[k]
      invariant forall k :: 0 <= k < a.Length && !(off <= k < off + i) ==> a[k] == was[k]
    {
      a[off + i] := t[i];
    }
    SplicedIs(was, off, t, a[..]);
    assert a[off..off + |t|] == t;
  }

  lemma SplicedIs(s: seq<byte>, off: nat, t: seq<byte>, r: seq<byte>)
    requires off + |t| <= |s| == |r|
    requires forall k :: 0 <= k < |t| ==> r[off + k] == t[k]
    requires forall k :: 0 <= k < |s| && !(off <= k < off + |t|) ==> r[k] == s[k]
    ensures r == Splice(s, off, t)
  {
  }

  /** binary.BigEndian.PutUint16 */
  method PutUint16(a: array<byte>, off: nat, v: uint16)
    requires off + 2 <= a.Length
    modifies a
    ensures a[..] == Splice(old(a[..]), off, Enc16(v))
    ensures a[off..off + 2] == Enc16(v)
    ensures forall k :: 0 <= k < a.Length && !(off <= k < off + 2) ==> a[k] == old(a[k])
  {
    Write(a, off, Enc16(v));
  }

  /** binary.BigEndian.PutUint32 */
  method PutUint32(a: array<byte>, off: nat, v: uint32)
    requires off + 4 <= a.Length
    modifies a
    ensures a[..] == Splice(old(a[..]), off, Enc32(v))
    ensures a[off..off + 4] == Enc32(v)
    ensures forall k :: 0 <= k < a.Length && !(off <= k < off + 4) ==> a[k] == old(a[k])
  {
    Write(a, off, Enc32(v));
  }
}
