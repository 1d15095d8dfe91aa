/** Putting the running host's address in the place of the captured one. */
module HostIp {
  import opened Bytes

  type Address = s: seq<byte> | |s| == 4 witness [0, 0, 0, 0]

  /** The scan from offset i on, over bytes that it changes itself. */
  function Rehosted(s: seq<byte>, captured: Address, host: Address, i: nat): (r: seq<byte>)
    ensures |r| == |s|
    decreases |s| - i
  {
    if i + 4 > |s| then s
    else Rehosted(if PartAt(s, captured, i) then Splice(s, i, host) else s, captured, host, i + 1)
  }

  method ReplaceAddress(response: array<byte>, captured: Address, host: Address)
    modifies response
    ensures response[..] == Rehosted(old(response[..]), captured, host, 0)
  {
    var i := 0;
    while i + 4 <= response.Length
      invariant Rehosted(response[..], captured, host, i) == Rehosted(old(response[..]), captured, host, 0)
    {
      assert response[..][i..i + 4] == response[i..i + 4];
      if response[i..i + 4] == captured {
        Write(response, i, host);
      }
      i := i + 1;
    }
  }

  // ----- when no captured address is left -----

  predicate NoneBefore(s: seq<byte>, captured: Address, n: nat) {
    forall i: nat :: i < n ==> !PartAt(s, captured, i)
  }

  /**
   * Some last bytes of the captured address are the first ones of the host's, but not the first ones of its own: the
   * host's address then completes a captured one that starts before it.
   */
  predicate Completes(captured: Address, host: Address, k: nat)
    requires 1 <= k <= 3
  {
    host[..4 - k] == captured[k..] && host[..4 - k] != captured[..4 - k]
  }

  predicate Clean(captured: Address, host: Address) {
    host != captured && forall k: nat :: 1 <= k <= 3 ==> !Completes(captured, host, k)
  }

  ghost predicate AlwaysGone(captured: Address, host: Address) {
    forall s: seq<byte> :: NoneBefore(Rehosted(s, captured, host, 0), captured, |s|)
  }

  /** The bytes of a window that starts k before a place where four bytes were written. */
  lemma WindowAcross(s: seq<byte>, i: nat, h: Address, k: nat)
    requires 1 <= k <= 3 && k <= i && i + 4 <= |s|
    ensures Splice(s, i, h)[i - k..i - k + 4] == s[i - k..i] + h[..4 - k]
  {
  }

  /** A window that the written bytes do not touch is as before. */
  lemma WindowBefore(s: seq<byte>, i: nat, h: Address, j: nat)
    requires j + 4 <= i && i + 4 <= |s|
    ensures Splice(s, i, h)[j..j + 4] == s[j..j + 4]
  {
  }

  lemma SpliceSame(s: seq<byte>, i: nat, h: Address)
    requires PartAt(s, h, i)
    ensures Splice(s, i, h) == s
  {
  }

  lemma StepStaysClean(s: seq<byte>, captured: Address, host: Address, i: nat)
    requires Clean(captured, host) && PartAt(s, captured, i) && NoneBefore(s, captured, i)
    ensures NoneBefore(Splice(s, i, host), captured, i + 1)
  {
    var t := Splice(s, i, host);
    forall j: nat | j <= i
      ensures !PartAt(t, captured, j)
    {
      if j == i {
        assert t[i..i + 4] == host;
      } else if j + 4 <= i {
        WindowBefore(s, i, host, j);
        assert !PartAt(s, captured, j);
      } else {
        AcrossStaysClean(s, captured, host, i, i - j);
      }
    }
  }

  lemma AcrossStaysClean(s: seq<byte>, captured: Address, host: Address, i: nat, k: nat)
    requires 1 <= k <= 3 && k <= i && PartAt(s, captured, i) && !PartAt(s, captured, i - k)
    requires !Completes(captured, host, k)
    ensures !PartAt(Splice(s, i, host), captured, i - k)
  {
    WindowAcross(s, i, host, k);
    SpliceSame(s, i, captured);
    WindowAcross(s, i, captured, k);
    var front := s[i - k..i];
    Halves(front, host[..4 - k], captured, k);
    Halves(front, captured[..4 - k], captured, k);
  }

  lemma Halves(a: seq<byte>, b: seq<byte>, c: Address, k: nat)
    requires |a| == k <= 4 && |b| == 4 - k
    ensures a + b == c <==> a == c[..k] && b == c[k..]
  {
    assert (a + b)[..k] == a && (a + b)[k..] == b;
    assert c == c[..k] + c[k..];
  }

  lemma {:induction false} CleanLeavesNone(s: seq<byte>, captured: Address, host: Address, i: nat)
    requires Clean(captured, host) && NoneBefore(s, captured, i)
    ensures NoneBefore(Rehosted(s, captured, host, i), captured, |s|)
    decreases |s| - i
  {
    hide Clean;
    if i + 4 <= |s| {
      if PartAt(s, captured, i) {
        StepStaysClean(s, captured, host, i);
        CleanLeavesNone(Splice(s, i, host), captured, host, i + 1);
      } else {
        CleanLeavesNone(s, captured, host, i + 1);
      }
    }
  }

  lemma {:induction false} SkipTo(s: seq<byte>, captured: Address, host: Address, i: nat, k: nat)
    requires i <= k && NoneBefore(s, captured, k)
    ensures Rehosted(s, captured, host, i) == Rehosted(s, captured, host, k)
    decreases k - i
  {
    if i < k {
      SkipTo(s, captured, host, i + 1, k);
    }
  }

  lemma Elements(s: seq<byte>, c: Address, i: nat)
    requires i + 4 <= |s|
    ensures PartAt(s, c, i) <==> s[i] == c[0] && s[i + 1] == c[1] && s[i + 2] == c[2] && s[i + 3] == c[3]
  {
    var w := s[i..i + 4];
    assert w[0] == s[i] && w[1] == s[i + 1] && w[2] == s[i + 2] && w[3] == s[i + 3];
    assert w == [w[0], w[1], w[2], w[3]] && c == [c[0], c[1], c[2], c[3]];
  }

  lemma Ends(c: Address, k: nat)
    requires 1 <= k <= 3
    ensures c[..4 - k] == c[k..] <==>
            if k == 1 then c[0] == c[1] == c[2] == c[3] else if k == 2 then c[0] == c[2] && c[1] == c[3] else c[0] == c[3]
  {
    var a, b := c[..4 - k], c[k..];
    assert forall j :: 0 <= j < 4 - k ==> a[j] == c[j] && b[j] == c[k + j];
    assert a == b <==> forall j :: 0 <= j < 4 - k ==> c[j] == c[k + j];
  }

  /** In the first k bytes of an address with the whole address behind them it starts at no earlier place. */
  lemma StartsOnce(c: Address, k: nat)
    requires 1 <= k <= 3 && c[..4 - k] != c[k..]
    ensures NoneBefore(c[..k] + c, c, k) && PartAt(c[..k] + c, c, k)
  {
    var s := c[..k] + c;
    assert s[k..k + 4] == c;
    Ends(c, k);
    forall i: nat | i < k
      ensures !PartAt(s, c, i)
    {
      Elements(s, c, i);
      hide PartAt;
    }
  }

  /** Such a response still holds a captured address after the scan, at its start. */
  lemma CapturedCompleted(captured: Address, host: Address, k: nat)
    requires 1 <= k <= 3 && Completes(captured, host, k)
    ensures PartAt(Rehosted(captured[..k] + captured, captured, host, 0), captured, 0)
  {
    var s := captured[..k] + captured;
    StartsOnce(captured, k);
    SkipTo(s, captured, host, 0, k);
    WindowAcross(s, k, host, k);
    assert s[0..k] == captured[..k];
    Halves(captured[..k], host[..4 - k], captured, k);
  }

  /**
   * Whatever the response, no captured address is left in it: this holds for exactly those pairs of addresses that
   * differ and of which the host's does not complete a captured one.
   */
  lemma GoneExactly(captured: Address, host: Address)
    ensures AlwaysGone(captured, host) <==> Clean(captured, host)
  {
    hide Rehosted, PartAt, Completes;
    if Clean(captured, host) {
      forall s: seq<byte>
        ensures NoneBefore(Rehosted(s, captured, host, 0), captured, |s|)
      {
        CleanLeavesNone(s, captured, host, 0);
      }
    } else if host == captured {
      OwnAddressStays(captured);
      NotGone(captured, captured, host);
    } else {
      var k: nat :| 1 <= k <= 3 && Completes(captured, host, k);
      CapturedCompleted(captured, host, k);
      NotGone(captured[..k] + captured, captured, host);
    }
  }

  lemma OwnAddressStays(captured: Address)
    ensures PartAt(Rehosted(captured, captured, captured, 0), captured, 0)
  {
    SpliceSame(captured, 0, captured);
  }

  lemma NotGone(s: seq<byte>, captured: Address, host: Address)
    requires |s| > 0 && PartAt(Rehosted(s, captured, host, 0), captured, 0)
    ensures !AlwaysGone(captured, host)
  {
    hide Rehosted, PartAt;
  }

  /** 10.0.0.5 captured on a host 5.6.7.8: the response 10.0.0 10.0.0.5 keeps 10.0.0.5. */
  lemma CanStayBehind()
    ensures Rehosted([10, 0, 0, 10, 0, 0, 5], [10, 0, 0, 5], [5, 6, 7, 8], 0) == [10, 0, 0, 5, 6, 7, 8]
  {
    var c: Address, h: Address := [10, 0, 0, 5], [5, 6, 7, 8];
    var s: seq<byte> := [10, 0, 0, 10, 0, 0, 5];
    assert c[..3] + c == s;
    Ends(c, 3);
    StartsOnce(c, 3);
    SkipTo(s, c, h, 0, 3);
    assert Splice(s, 3, h) == [10, 0, 0, 5, 6, 7, 8];
  }
}
