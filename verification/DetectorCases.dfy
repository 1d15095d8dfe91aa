/** The shipped thresholds, event by event: which attempt gets a source blocked. */
module DetectorCases {
  import opened Detector

  const MINUTE: int := 60_000_000_000

  /** Events of one kind from one source, stamped, in order and within a minute, later than the cooldown after zero. */
  predicate Burst(es: seq<Event>, kind: Kind, ip: string) {
    && ip != ""
    && (forall i :: 0 <= i < |es| ==> es[i].kind == kind && es[i].srcIp == ip && es[i].time > 5 * MINUTE)
    && (forall i, j :: 0 <= i < j < |es| ==> es[i].time <= es[j].time < es[i].time + MINUTE)
  }

  /** Which event of a burst blocks: the fourth failed login, the sixth of the middle kinds, the twelfth of the light ones. */
  function Strike(kind: Kind): nat
    requires !kind.Block? && !kind.Other?
  {
    match kind
    case AuthAttempt => 3
    case CredCapture => 5
    case MazeDescent => 5
    case FileDownload => 5
    case _ => 11
  }

  /** The source's events as hits: every stamped time, every time the same weight. */
  function Hits(es: seq<Event>, w: nat): (hs: seq<Hit>)
    ensures |hs| == |es| && forall i :: 0 <= i < |es| ==> hs[i] == Hit(es[i].time, w)
  {
    seq(|es|, i requires 0 <= i < |es| => Hit(es[i].time, w))
  }

  lemma {:induction false} BurstHits(es: seq<Event>, kind: Kind, ip: string)
    requires Burst(es, kind, ip) && !kind.Block? && !kind.Other?
    ensures OfSource(es, ip) == Hits(es, Weight(kind))
  {
    if es != [] {
      var n := |es| - 1;
      BurstHits(es[..n], kind, ip);
      assert es[n].Scored() && es[n].Now() == es[n].time && es[n].srcIp == ip && es[n].kind == kind;
      HitsSnoc(es, Weight(kind));
      hide Hits, Burst, Weight;
    }
  }

  lemma HitsSnoc(es: seq<Event>, w: nat)
    requires es != []
    ensures Hits(es, w) == Hits(es[..|es| - 1], w) + [Hit(es[|es| - 1].time, w)]
  {
  }

  lemma {:induction false} SumOfHits(hs: seq<Hit>, w: nat)
    requires forall i :: 0 <= i < |hs| ==> hs[i].w == w
    ensures Sum(hs) == |hs| * w
  {
    if hs != [] {
      SumOfHits(hs[..|hs| - 1], w);
    }
  }

  /** Within the minute every hit of the burst is still in the window. */
  lemma AllCount(c: Config, es: seq<Event>, kind: Kind, ip: string, i: nat)
    requires Burst(es, kind, ip) && i < |es| && !kind.Block? && !kind.Other? && c.window == MINUTE
    ensures Sum(InWindow(c, OfSource(es[..i], ip) + [Hit(es[i].Now(), Weight(es[i].kind))])) == (i + 1) * Weight(kind)
  {
    var w := Weight(kind);
    BurstHits(es[..i], kind, ip);
    var hs, h := Hits(es[..i], w), Hit(es[i].time, w);
    assert es[i].Now() == es[i].time && es[i].kind == kind;
    assert forall k :: 0 <= k < i ==> hs[k] == Hit(es[k].time, w) && hs[k].t > h.t - c.window;
    hide *;
    WholeWindow(c, hs, h, w);
  }

  lemma WholeWindow(c: Config, hs: seq<Hit>, h: Hit, w: nat)
    requires forall k :: 0 <= k < |hs| ==> hs[k].w == w && hs[k].t > h.t - c.window
    requires h.w == w
    ensures Sum(InWindow(c, hs + [h])) == (|hs| + 1) * w
  {
    hide Sum, Newer;
    assert (hs + [h])[..|hs|] == hs;
    AllNewer(hs, h.t - c.window);
    SumOfHits(hs, w);
    SumStep(hs, h);
  }

  /**
   * With the default settings - twelve points within a minute, five minutes of cooldown - a burst from one source gets it
   * blocked exactly once, at the fourth failed login, or the sixth credential, descent or download, or the twelfth
   * enumeration, connection or login.
   */
  lemma {:induction false} DefaultStrikes(c: Config, es: seq<Event>, kind: Kind, ip: string, i: nat)
    requires c == WithDefaults(Config(0, 0, 0)) && Burst(es, kind, ip) && i < |es| && !kind.Block? && !kind.Other?
    ensures Blocks(c, es, i) <==> i == Strike(kind)
    ensures LatestBlockOf(c, es[..i + 1], ip) == if i < Strike(kind) then 0 else es[Strike(kind)].time
  {
    assert c.window == MINUTE && c.threshold == 12 && es[i].srcIp == ip && es[i].Scored() && es[i].Now() == es[i].time;
    assert es[..0] == [];
    hide *;
    if i > 0 {
      DefaultStrikes(c, es, kind, ip, i - 1);
    } else {
      NothingBlocked(c, ip);
    }
    AllCount(c, es, kind, ip, i);
    BurstInTime(es, kind, ip);
    RunBlocksExactly(c, es, i);
    Cooled(c, es, kind, ip, i);
    Reached(kind, i);
    OneMore(c, es, i, ip);
  }

  lemma BurstInTime(es: seq<Event>, kind: Kind, ip: string)
    requires Burst(es, kind, ip)
    ensures InTime(es)
  {
    assert forall a :: 0 <= a < |es| ==> es[a].Now() == es[a].time;
  }

  /** Before the strike the cooldown counts from the zero time, after it from the strike. */
  lemma Cooled(c: Config, es: seq<Event>, kind: Kind, ip: string, i: nat)
    requires c == WithDefaults(Config(0, 0, 0)) && Burst(es, kind, ip) && i < |es| && !kind.Block? && !kind.Other?
    ensures Sub(es[i].time, if i <= Strike(kind) then 0 else es[Strike(kind)].time) > c.cooldown <==> i <= Strike(kind)
  {
  }

  lemma Reached(kind: Kind, i: nat)
    requires !kind.Block? && !kind.Other?
    ensures (i + 1) * Weight(kind) >= 12 <==> i >= Strike(kind)
  {
  }

  lemma NothingBlocked(c: Config, ip: string)
    ensures LatestBlockOf(c, [], ip) == 0
  {
  }

  lemma OneMore(c: Config, es: seq<Event>, i: nat, ip: string)
    requires i < |es|
    ensures LatestBlockOf(c, es[..i + 1], ip) ==
            if es[i].srcIp == ip && Blocks(c, es, i) then es[i].Now() else LatestBlockOf(c, es[..i], ip)
  {
    hide After, Fires;
    assert es[..i + 1][..i] == es[..i];
    LatestOfStep(c, es[..i + 1], ip);
  }

  /** Block events, unknown kinds and events without a source never count. */
  lemma NeverScored(c: Config, es: seq<Event>, i: nat)
    requires i < |es| && (es[i].kind.Block? || es[i].kind.Other? || es[i].srcIp == "")
    ensures !Blocks(c, es, i) && After(c, es[..i + 1]) == After(c, es[..i])
  {
    assert es[..i + 1][..i] == es[..i];
    hide Triggers, Observe;
  }

  /** An event without a stamp counts at the time it is seen, one with a stamp at its own. */
  lemma StampsCount(c: Config, es: seq<Event>, i: nat, seen: int)
    requires i < |es| && es[i].Scored() && es[i].time != 0
    ensures Blocks(c, es, i) == Blocks(c, es[i := es[i].(clock := seen)], i)
    ensures Blocks(c, es, i) == Blocks(c, es[i := es[i].(time := 0, clock := es[i].time)], i)
  {
    assert es[i := es[i].(clock := seen)][..i] == es[..i];
    assert es[i := es[i].(time := 0, clock := es[i].time)][..i] == es[..i];
    hide Triggers, After;
  }

  // ----- the score, event by event -----

  function Weighs(k: Kind): nat {
    if k == AuthAttempt then 3
    else if k == CredCapture || k == MazeDescent || k == FileDownload then 2
    else if k == Enumeration || k == Connection || k == AuthSuccess then 1
    else 0
  }

  function At(e: Event): int {
    if e.time != 0 then e.time else e.clock
  }

  /** The weights of the source's events after this time. */
  function Since(es: seq<Event>, ip: string, after: int): nat {
    if es == [] then 0
    else
      var e := es[|es| - 1];
      Since(es[..|es| - 1], ip, after) + if e.srcIp == ip && At(e) > after then Weighs(e.kind) else 0
  }

  lemma NewerSnoc(hs: seq<Hit>, h: Hit, cutoff: int)
    ensures Sum(Newer(hs + [h], cutoff)) == Sum(Newer(hs, cutoff)) + if h.t > cutoff then h.w else 0
  {
    assert (hs + [h])[..|hs|] == hs;
    assert Newer(hs, cutoff) + [] == Newer(hs, cutoff);
    hide Sum;
    if h.t > cutoff {
      SumStep(Newer(hs, cutoff), h);
    }
  }

  lemma {:induction false} NaiveScore(es: seq<Event>, ip: string, cutoff: int)
    requires ip != ""
    ensures Sum(Newer(OfSource(es, ip), cutoff)) == Since(es, ip, cutoff)
  {
    if es != [] {
      var e, rest := es[|es| - 1], es[..|es| - 1];
      NaiveScore(rest, ip, cutoff);
      SourceStep(es, ip);
      hide OfSource, Sum, Newer;
      NewerSnoc(OfSource(rest, ip), Hit(At(e), Weighs(e.kind)), cutoff);
      hide Weighs, At;
    }
  }

  lemma SourceStep(es: seq<Event>, ip: string)
    requires es != [] && ip != ""
    ensures var e, rest := es[|es| - 1], es[..|es| - 1];
            OfSource(es, ip) ==
            if e.srcIp == ip && Weighs(e.kind) > 0 then OfSource(rest, ip) + [Hit(At(e), Weighs(e.kind))] else OfSource(rest, ip)
  {
    var rest := es[..|es| - 1];
    assert OfSource(rest, ip) + [] == OfSource(rest, ip);
  }

  /** A cooldown of the largest duration is never over, because differences of times saturate there. */
  lemma SubExceeds(a: int, b: int, d: Duration)
    ensures Sub(a, b) > d <==> a - b > d && d != MAX_DURATION
  {
  }

  /**
   * In a run in time order an event blocks exactly when it has a source and a weight, the weights of the source's events
   * later than a window ago reach the threshold with it, and it comes more than the cooldown after the last block.
   */
  lemma BlocksByScore(c: Config, es: seq<Event>, i: nat)
    requires i < |es| && InTime(es)
    ensures var e, ip := es[i], es[i].srcIp;
            Blocks(c, es, i) <==>
            && ip != "" && Weighs(e.kind) > 0
            && Since(es[..i], ip, At(e) - c.window) + Weighs(e.kind) >= c.threshold
            && At(e) - LatestBlockOf(c, es[..i], ip) > c.cooldown && c.cooldown != MAX_DURATION
  {
    var e, ip := es[i], es[i].srcIp;
    EventIs(e);
    hide *;
    RunBlocksExactly(c, es, i);
    SubExceeds(At(e), LatestBlockOf(c, es[..i], ip), c.cooldown);
    if ip != "" {
      NaiveScore(es[..i], ip, At(e) - c.window);
      WindowSum(c, OfSource(es[..i], ip), Hit(At(e), Weighs(e.kind)));
    }
  }

  lemma EventIs(e: Event)
    ensures e.Scored() <==> e.srcIp != "" && Weighs(e.kind) > 0
    ensures e.Now() == At(e) && Weight(e.kind) == Weighs(e.kind)
  {
  }

  lemma WindowSum(c: Config, hs: seq<Hit>, h: Hit)
    ensures Sum(InWindow(c, hs + [h])) == Sum(Newer(hs, h.t - c.window)) + h.w
  {
    assert (hs + [h])[..|hs|] == hs;
    hide Sum, Newer;
    SumStep(Newer(hs, h.t - c.window), h);
  }
}
