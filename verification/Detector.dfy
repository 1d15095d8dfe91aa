/** Scoring each source over a sliding window, and blocking it with a cooldown. */
module Detector {
  const MAX_DURATION: int := 0x7FFF_FFFF_FFFF_FFFF

  /** A time.Duration in nanoseconds that can be negated. */
  type Duration = d: int | -MAX_DURATION <= d <= MAX_DURATION

  datatype Kind =
    | AuthAttempt | CredCapture | MazeDescent | FileDownload | Enumeration | Connection | AuthSuccess | Block | Other

  /** Times count nanoseconds from the zero time, 0; clock is what time.Now would return. */
  datatype Event = Event(kind: Kind, srcIp: string, time: int, clock: int) {
    function Now(): int {
      if time == 0 then clock else time
    }

    predicate Scored() {
      kind != Block && srcIp != "" && Weight(kind) != 0
    }
  }

  datatype Config = Config(window: Duration, cooldown: Duration, threshold: int)

  function WithDefaults(c: Config): (r: Config)
    ensures r.window != 0 && r.cooldown != 0 && r.threshold != 0
  {
    Config(if c.window == 0 then 60_000_000_000 else c.window,
           if c.cooldown == 0 then 300_000_000_000 else c.cooldown,
           if c.threshold == 0 then 12 else c.threshold)
  }

  function Weight(k: Kind): (w: nat)
    ensures w <= 3
  {
    match k
    case AuthAttempt => 3
    case CredCapture => 2
    case MazeDescent => 2
    case FileDownload => 2
    case Enumeration => 1
    case Connection => 1
    case AuthSuccess => 1
    case _ => 0
  }

  /** Time.Sub saturates at the largest and smallest duration. */
  function Sub(a: int, b: int): int {
    if a - b > MAX_DURATION then MAX_DURATION
    else if a - b < -MAX_DURATION - 1 then -MAX_DURATION - 1
    else a - b
  }

  datatype Hit = Hit(t: int, w: nat)

  /** What is kept of one source. */
  datatype Track = Track(hits: seq<Hit>, lastBlock: int)

  const UNSEEN := Track([], 0)

  function Newer(hits: seq<Hit>, cutoff: int): seq<Hit> {
    if hits == [] then []
    else
      var n := |hits| - 1;
      Newer(hits[..n], cutoff) + if hits[n].t > cutoff then [hits[n]] else []
  }

  function Sum(hits: seq<Hit>): nat {
    if hits == [] then 0 else Sum(hits[..|hits| - 1]) + hits[|hits| - 1].w
  }

  function Kept(c: Config, tr: Track, h: Hit): seq<Hit> {
    Newer(tr.hits, h.t - c.window) + [h]
  }

  predicate Triggers(c: Config, tr: Track, h: Hit) {
    Sum(Kept(c, tr, h)) >= c.threshold && Sub(h.t, tr.lastBlock) > c.cooldown
  }

  function Observe(c: Config, tr: Track, h: Hit): Track {
    Track(Kept(c, tr, h), if Triggers(c, tr, h) then h.t else tr.lastBlock)
  }

  // ----- the detector -----

  /** The hits newer than the cutoff, moved to the front of the same n places: reading stays ahead of writing. */
  method CompactShared(buf: array<Hit>, n: nat, cutoff: int) returns (k: nat, score: nat)
    requires n <= buf.Length
    modifies buf
    ensures k <= n && buf[..k] == Newer(old(buf[..n]), cutoff) && score == Sum(buf[..k])
  {
    hide *;
    score := 0;
    k := 0;
    ghost var was, kept := buf[..n], [];
    NewerNone(was, cutoff);
    for i := 0 to n
      invariant |kept| == k <= i <= n
      invariant forall j :: 0 <= j < k ==> buf[j] == kept[j]
      invariant forall j :: i <= j < n ==> buf[j] == was[j]
      invariant kept == Newer(was[..i], cutoff) && score == Sum(kept)
    {
      NewerStep(was, i, cutoff);
      if buf[i].t > cutoff {
        SumStep(kept, was[i]);
        kept := kept + [was[i]];
        score := score + buf[i].w;
        buf[k] := buf[i];
        k := k + 1;
      }
    }
    assert was[..n] == was;
    assert buf[..k] == kept;
  }

  lemma NewerNone(hits: seq<Hit>, cutoff: int)
    ensures Newer(hits[..0], cutoff) == [] && Sum([]) == 0
  {
  }

  lemma NewerStep(hits: seq<Hit>, i: nat, cutoff: int)
    requires i < |hits|
    ensures Newer(hits[..i + 1], cutoff) == Newer(hits[..i], cutoff) + if hits[i].t > cutoff then [hits[i]] else []
  {
    assert hits[..i + 1][..i] == hits[..i];
  }

  lemma SumStep(hits: seq<Hit>, h: Hit)
    ensures Sum(hits + [h]) == Sum(hits) + h.w
  {
    assert (hits + [h])[..|hits + [h]| - 1] == hits;
  }

  /** One source: its hits in the first n places of a buffer, and when it was last blocked. */
  class SrcState {
    const key: string
    var buf: array<Hit>
    var n: nat
    var lastBlock: int

    ghost predicate Valid()
      reads this
    {
      n <= buf.Length
    }

    ghost function Value(): Track
      requires Valid()
      reads this, buf
    {
      Track(buf[..n], lastBlock)
    }

    constructor (ip: string)
      ensures Valid() && fresh(buf) && key == ip && Value() == UNSEEN
    {
      key, buf, n, lastBlock := ip, new Hit[0], 0, 0;
    }

    /** append: into the same buffer while there is room, else into a larger one. */
    method Append(h: Hit)
      requires Valid()
      modifies this`n, this`buf, buf
      ensures Valid() && buf[..n] == old(buf[..n]) + [h] && (buf == old(buf) || fresh(buf))
    {
      if n == buf.Length {
        var bigger := new Hit[2 * n + 1](_ => h);
        for i := 0 to n
          invariant n == old(n) && buf == old(buf) && buf[..] == old(buf[..]) && bigger[..i] == buf[..i]
        {
          bigger[i] := buf[i];
        }
        buf := bigger;
      }
      buf[n] := h;
      n := n + 1;
    }

    /** The locked section of Write for one source. */
    method Score(c: Config, h: Hit) returns (trigger: bool)
      requires Valid()
      modifies this, buf
      ensures Valid() && Value() == Observe(c, old(Value()), h) && (buf == old(buf) || fresh(buf))
      ensures trigger == Triggers(c, old(Value()), h)
    {
      hide Newer, Sum, Sub;
      var kept, score := CompactShared(buf, n, h.t - c.window);
      n := kept;
      SumStep(buf[..n], h);
      Append(h);
      score := score + h.w;
      trigger := score >= c.threshold && Sub(h.t, lastBlock) > c.cooldown;
      if trigger {
        lastBlock := h.t;
      }
    }
  }

  class Detector {
    const config: Config
    var src: map<string, SrcState>
    ghost var tracks: map<string, Track>
    ghost var owner: map<array<Hit>, string>

    /** Every source has a state and a buffer of its own, and tracks holds the values of all of them. */
    ghost predicate Valid()
      reads this, src.Values, owner.Keys
    {
      src.Keys == tracks.Keys && forall k :: k in src ==> Holds(k)
    }

    ghost predicate Holds(k: string)
      requires k in src && src.Keys == tracks.Keys
      reads this, src.Values, owner.Keys
    {
      && src[k].key == k && src[k].buf in owner && owner[src[k].buf] == k
      && src[k].Valid() && src[k].Value() == tracks[k]
    }

    constructor (c: Config)
      ensures Valid() && config == WithDefaults(c) && tracks == map[] && owner == map[]
    {
      config := WithDefaults(c);
      src, tracks, owner := map[], map[], map[];
    }

    method Write(e: Event) returns (blocked: bool)
      requires Valid()
      modifies this, src.Values, owner.Keys
      ensures Valid() && fresh(src.Values - old(src.Values)) && fresh(owner.Keys - old(owner.Keys))
      ensures tracks == Next(config, old(tracks), e)
      ensures blocked == Fires(config, old(tracks), e)
    {
      NextIs(config, tracks, e);
      hide Observe, Triggers, Next, Fires, Lookup, Holds;
      if e.kind == Block || e.srcIp == "" {
        return false;
      }
      var w := Weight(e.kind);
      if w == 0 {
        return false;
      }
      var now := if e.time == 0 then e.clock else e.time;
      var ip := e.srcIp;
      if ip !in src {
        AddSource(ip);
      }
      blocked := ScoreSource(ip, Hit(now, w));
    }

    method AddSource(ip: string)
      requires Valid() && ip !in src
      modifies this
      ensures Valid() && fresh(src.Values - old(src.Values)) && fresh(owner.Keys - old(owner.Keys))
      ensures ip in src && tracks == old(tracks)[ip := UNSEEN]
    {
      var added := new SrcState(ip);
      src := src[ip := added];
      tracks := tracks[ip := UNSEEN];
      owner := owner[added.buf := ip];
      forall k | k in src && k != ip
        ensures Holds(k)
      {
        assert old(Holds(k));
      }
    }

    method ScoreSource(ip: string, h: Hit) returns (trigger: bool)
      requires Valid() && ip in src
      modifies this`tracks, this`owner, src.Values, owner.Keys
      ensures Valid() && fresh(owner.Keys - old(owner.Keys))
      ensures tracks == old(tracks)[ip := Observe(config, old(tracks)[ip], h)]
      ensures trigger == Triggers(config, old(tracks)[ip], h)
    {
      hide Observe, Triggers;
      var st := src[ip];
      assert Holds(ip);
      trigger := st.Score(config, h);
      tracks := tracks[ip := st.Value()];
      owner := owner[st.buf := ip];
      forall k | k in src && k != ip
        ensures Holds(k)
      {
        assert old(Holds(k));
        assert src[k] != st && src[k].buf != st.buf;
      }
      assert Holds(ip);
    }
  }

  function Lookup(m: map<string, Track>, ip: string): Track {
    if ip in m then m[ip] else UNSEEN
  }

  function Next(c: Config, m: map<string, Track>, e: Event): map<string, Track> {
    if !e.Scored() then m
    else m[e.srcIp := Observe(c, Lookup(m, e.srcIp), Hit(e.Now(), Weight(e.kind)))]
  }

  predicate Fires(c: Config, m: map<string, Track>, e: Event) {
    e.Scored() && Triggers(c, Lookup(m, e.srcIp), Hit(e.Now(), Weight(e.kind)))
  }

  lemma NextIs(c: Config, m: map<string, Track>, e: Event)
    ensures !e.Scored() ==> Next(c, m, e) == m && !Fires(c, m, e)
    ensures e.Scored() ==>
              var tr, h := if e.srcIp in m then m[e.srcIp] else UNSEEN, Hit(e.Now(), Weight(e.kind));
              && Next(c, m, e) == m[e.srcIp := Observe(c, tr, h)] == m[e.srcIp := UNSEEN][e.srcIp := Observe(c, tr, h)]
              && Fires(c, m, e) == Triggers(c, tr, h)
  {
    hide Observe, Triggers;
  }

  // ----- whole runs -----

  /** The tracks after a run of events. */
  function After(c: Config, es: seq<Event>): map<string, Track> {
    if es == [] then map[] else Next(c, After(c, es[..|es| - 1]), es[|es| - 1])
  }

  /** Event i of a run makes the detector block its source. */
  predicate Blocks(c: Config, es: seq<Event>, i: nat)
    requires i < |es|
  {
    Fires(c, After(c, es[..i]), es[i])
  }

  /** The scored events of one source as hits, in order. */
  function OfSource(es: seq<Event>, ip: string): seq<Hit> {
    if es == [] then []
    else
      var e := es[|es| - 1];
      OfSource(es[..|es| - 1], ip) + if e.Scored() && e.srcIp == ip then [Hit(e.Now(), Weight(e.kind))] else []
  }

  /** The track of a source that is the only one. */
  function Alone(c: Config, hs: seq<Hit>): Track {
    if hs == [] then UNSEEN else Observe(c, Alone(c, hs[..|hs| - 1]), hs[|hs| - 1])
  }

  /** The track of a source depends on its own events alone: sources never affect each other. */
  lemma {:induction false} SourcesIndependent(c: Config, es: seq<Event>, ip: string)
    ensures Lookup(After(c, es), ip) == Alone(c, OfSource(es, ip))
    ensures ip in After(c, es) <==> OfSource(es, ip) != []
  {
    if es != [] {
      hide Observe, Triggers;
      var n := |es| - 1;
      var e := es[n];
      SourcesIndependent(c, es[..n], ip);
      var before := OfSource(es[..n], ip);
      if e.Scored() && e.srcIp == ip {
        NextIs(c, After(c, es[..n]), e);
        AloneAppend(c, before, Hit(e.Now(), Weight(e.kind)));
      } else {
        assert before + [] == before;
      }
    }
  }

  lemma AloneAppend(c: Config, hs: seq<Hit>, h: Hit)
    ensures Alone(c, hs + [h]) == Observe(c, Alone(c, hs), h)
  {
    hide Observe;
    assert (hs + [h])[..|hs|] == hs;
  }

  /** Whether an event blocks its source is decided by that source's own events too. */
  lemma BlockIndependent(c: Config, es: seq<Event>, i: nat)
    requires i < |es|
    ensures Blocks(c, es, i) <==>
            es[i].Scored() &&
            Triggers(c, Alone(c, OfSource(es[..i], es[i].srcIp)), Hit(es[i].Now(), Weight(es[i].kind)))
  {
    SourcesIndependent(c, es[..i], es[i].srcIp);
  }

  // ----- the window -----

  predicate InOrder(hs: seq<Hit>) {
    forall i, j :: 0 <= i < j < |hs| ==> hs[i].t <= hs[j].t
  }

  /** The hits of a source after its last one, if nothing had ever been dropped: those newer than the window. */
  function InWindow(c: Config, hs: seq<Hit>): seq<Hit>
    requires hs != []
  {
    var n := |hs| - 1;
    Newer(hs[..n], hs[n].t - c.window) + [hs[n]]
  }

  lemma {:induction false} NewerTwice(hs: seq<Hit>, lo: int, hi: int)
    requires lo <= hi
    ensures Newer(Newer(hs, lo), hi) == Newer(hs, hi)
  {
    if hs != [] {
      var n := |hs| - 1;
      NewerTwice(hs[..n], lo, hi);
      var a := Newer(hs[..n], lo);
      if hs[n].t > lo {
        assert (a + [hs[n]])[..|a|] == a;
      } else {
        assert a + [] == a;
      }
    }
  }

  /** A hit at the end is filtered by itself. */
  lemma NewerAppend(hs: seq<Hit>, h: Hit, cutoff: int)
    ensures Newer(hs + [h], cutoff) == Newer(hs, cutoff) + if h.t > cutoff then [h] else []
  {
    assert (hs + [h])[..|hs|] == hs;
  }

  lemma AloneSnoc(c: Config, hs: seq<Hit>, before: seq<Hit>, h: Hit)
    requires hs == before + [h]
    ensures Alone(c, hs).hits == Newer(Alone(c, before).hits, h.t - c.window) + [h]
  {
    hide *;
    AloneAppend(c, before, h);
    ObserveHits(c, Alone(c, before), h);
  }

  lemma Snoc(hs: seq<Hit>)
    requires hs != []
    ensures hs == hs[..|hs| - 1] + [hs[|hs| - 1]]
  {
  }

  lemma ObserveHits(c: Config, tr: Track, h: Hit)
    ensures Observe(c, tr, h).hits == Newer(tr.hits, h.t - c.window) + [h]
  {
    hide Newer, Sum, Triggers;
  }

  /** What is kept and newer than a cutoff, after one more hit. */
  lemma KeptStep(c: Config, hs: seq<Hit>, cutoff: int)
    requires hs != []
    ensures var n := |hs| - 1;
            var cut := if cutoff < hs[n].t - c.window then hs[n].t - c.window else cutoff;
            Newer(Alone(c, hs).hits, cutoff) ==
            Newer(Alone(c, hs[..n]).hits, cut) + if hs[n].t > cutoff then [hs[n]] else []
  {
    hide Alone, Newer;
    var n := |hs| - 1;
    var a, own := Alone(c, hs[..n]).hits, hs[n].t - c.window;
    Snoc(hs);
    AloneSnoc(c, hs, hs[..n], hs[n]);
    NewerAppend(Newer(a, own), hs[n], cutoff);
    if own <= cutoff {
      NewerTwice(a, own, cutoff);
    } else {
      NewerBack(a, cutoff, own);
    }
  }

  lemma {:induction false} NewerBack(hs: seq<Hit>, lo: int, hi: int)
    requires lo <= hi
    ensures Newer(Newer(hs, hi), lo) == Newer(hs, hi)
  {
    if hs != [] {
      var n := |hs| - 1;
      NewerBack(hs[..n], lo, hi);
      hide Newer;
      NewerStep(hs, n, hi);
      assert hs[..n + 1] == hs;
      var a := Newer(hs[..n], hi);
      NewerAppend(a, hs[n], lo);
      assert a + [] == a;
    }
  }

  /** No hit is newer than the lower cutoff but not than the higher. */
  predicate NoneBetween(hs: seq<Hit>, lo: int, hi: int) {
    forall i :: 0 <= i < |hs| ==> !(lo < hs[i].t <= hi)
  }

  /** A higher cutoff keeps fewer hits, and the same number only when it keeps the same ones. */
  lemma {:induction false} HigherCutoff(hs: seq<Hit>, lo: int, hi: int)
    requires lo <= hi
    ensures |Newer(hs, hi)| <= |Newer(hs, lo)|
    ensures NoneBetween(hs, lo, hi) ==> Newer(hs, hi) == Newer(hs, lo)
    ensures !NoneBetween(hs, lo, hi) ==> |Newer(hs, hi)| < |Newer(hs, lo)|
  {
    if hs != [] {
      var n := |hs| - 1;
      HigherCutoff(hs[..n], lo, hi);
      assert NoneBetween(hs, lo, hi) <==> NoneBetween(hs[..n], lo, hi) && !(lo < hs[n].t <= hi);
    }
  }

  /** No hit above the cutoff was already out of the window of a later one. */
  predicate NoneForgotten(c: Config, hs: seq<Hit>, cutoff: int) {
    forall i, j :: 0 <= i < j < |hs| && hs[i].t > cutoff ==> hs[i].t > hs[j].t - c.window
  }

  lemma {:induction false} KeptExactly(c: Config, hs: seq<Hit>, cutoff: int)
    ensures |Newer(Alone(c, hs).hits, cutoff)| <= |Newer(hs, cutoff)|
    ensures NoneForgotten(c, hs, cutoff) ==> Newer(Alone(c, hs).hits, cutoff) == Newer(hs, cutoff)
    ensures !NoneForgotten(c, hs, cutoff) ==> |Newer(Alone(c, hs).hits, cutoff)| < |Newer(hs, cutoff)|
  {
    if hs != [] {
      var n := |hs| - 1;
      var own := hs[n].t - c.window;
      var cut := if cutoff < own then own else cutoff;
      KeptStep(c, hs, cutoff);
      KeptExactly(c, hs[..n], cut);
      HigherCutoff(hs[..n], cutoff, cut);
      hide Alone;
      NewerStep(hs, n, cutoff);
      assert hs[..n + 1] == hs;
      hide Newer;
      ForgottenStep(c, hs, cutoff, cut);
    }
  }

  lemma ForgottenStep(c: Config, hs: seq<Hit>, cutoff: int, cut: int)
    requires hs != [] && cut == if cutoff < hs[|hs| - 1].t - c.window then hs[|hs| - 1].t - c.window else cutoff
    ensures NoneForgotten(c, hs, cutoff) <==>
            NoneForgotten(c, hs[..|hs| - 1], cut) && NoneBetween(hs[..|hs| - 1], cutoff, cut)
  {
    var n := |hs| - 1;
    if NoneForgotten(c, hs, cutoff) {
      forall i | 0 <= i < n
        ensures !(cutoff < hs[..n][i].t <= cut)
      {
        assert hs[n].t == hs[n].t;
      }
    }
    if NoneForgotten(c, hs[..n], cut) && NoneBetween(hs[..n], cutoff, cut) {
      forall i, j | 0 <= i < j < |hs| && hs[i].t > cutoff
        ensures hs[i].t > hs[j].t - c.window
      {
        assert hs[..n][i] == hs[i];
        if j < n {
          assert hs[..n][j] == hs[j];
        }
      }
    }
  }

  /**
   * The hits kept are the whole history's hits in the window exactly when none of these had already left the window
   * of a later event.
   */
  lemma KeepsWindowExactly(c: Config, hs: seq<Hit>)
    requires hs != []
    ensures var n := |hs| - 1;
            Alone(c, hs).hits == InWindow(c, hs) <==> NoneForgotten(c, hs[..n], hs[n].t - c.window)
  {
    hide *;
    var n := |hs| - 1;
    Snoc(hs);
    AloneSnoc(c, hs, hs[..n], hs[n]);
    KeptExactly(c, hs[..n], hs[n].t - c.window);
    var a, b := Newer(Alone(c, hs[..n]).hits, hs[n].t - c.window), Newer(hs[..n], hs[n].t - c.window);
    SameEnd(a, b, hs[n]);
    WindowIs(c, hs);
  }

  lemma WindowIs(c: Config, hs: seq<Hit>)
    requires hs != []
    ensures var n := |hs| - 1; InWindow(c, hs) == Newer(hs[..n], hs[n].t - c.window) + [hs[n]]
  {
    hide Newer;
  }

  lemma SameEnd(a: seq<Hit>, b: seq<Hit>, h: Hit)
    ensures a + [h] == b + [h] <==> a == b
  {
    assert (a + [h])[..|a|] == a && (b + [h])[..|b|] == b;
    if a + [h] == b + [h] {
      assert |a + [h]| == |b + [h]|;
    }
  }

  /** In time order, forgetting old hits loses nothing. */
  lemma KeepsWindow(c: Config, hs: seq<Hit>)
    requires hs != [] && InOrder(hs)
    ensures Alone(c, hs).hits == InWindow(c, hs)
  {
    KeepsWindowExactly(c, hs);
  }

  // ----- the cooldown -----

  /** Hit i of a source's history makes the detector block it. */
  predicate BlockAt(c: Config, hs: seq<Hit>, i: nat)
    requires i < |hs|
  {
    Triggers(c, Alone(c, hs[..i]), hs[i])
  }

  /** The time of the latest hit that blocked, or the zero time. */
  function LatestBlock(c: Config, hs: seq<Hit>): int {
    if hs == [] then 0
    else
      var n := |hs| - 1;
      if BlockAt(c, hs, n) then hs[n].t else LatestBlock(c, hs[..n])
  }

  lemma {:induction false} LastBlockIsLatest(c: Config, hs: seq<Hit>)
    ensures Alone(c, hs).lastBlock == LatestBlock(c, hs)
  {
    if hs != [] {
      LastBlockIsLatest(c, hs[..|hs| - 1]);
    }
  }

  /**
   * In time order a hit blocks its source exactly when the weights of the source's hits in the window, summed over
   * the whole history, reach the threshold and more than the cooldown has passed since its latest block.
   */
  lemma BlocksExactly(c: Config, hs: seq<Hit>)
    requires hs != [] && InOrder(hs)
    ensures var n := |hs| - 1;
            BlockAt(c, hs, n) <==>
            Sum(InWindow(c, hs)) >= c.threshold && Sub(hs[n].t, LatestBlock(c, hs[..n])) > c.cooldown
  {
    var n := |hs| - 1;
    KeepsWindow(c, hs);
    Snoc(hs);
    AloneSnoc(c, hs, hs[..n], hs[n]);
    LastBlockIsLatest(c, hs[..n]);
  }

  /** Two blocks of one source with none between them are more than the cooldown apart, whatever its sign. */
  lemma NextBlockApart(c: Config, hs: seq<Hit>, i: nat, j: nat)
    requires i < j < |hs| && BlockAt(c, hs, i) && BlockAt(c, hs, j)
    requires forall k :: i < k < j ==> !BlockAt(c, hs, k)
    ensures hs[j].t - hs[i].t > c.cooldown
  {
    hide Kept, Sum, Alone;
    LastBlockIsLatest(c, hs[..j]);
    LatestIs(c, hs[..j], i, hs);
  }

  lemma {:induction false} LatestIs(c: Config, before: seq<Hit>, i: nat, hs: seq<Hit>)
    requires before <= hs && i < |before| && BlockAt(c, hs, i)
    requires forall k :: i < k < |before| ==> !BlockAt(c, hs, k)
    ensures LatestBlock(c, before) == hs[i].t
    decreases |before|
  {
    hide Triggers, Alone;
    var n := |before| - 1;
    assert before[..n] == hs[..n];
    assert BlockAt(c, before, n) == BlockAt(c, hs, n);
    if i < n {
      LatestIs(c, before[..n], i, hs);
    }
  }

  /** The latest block is no earlier than any block before it, unless the cooldown lets time run backwards. */
  lemma {:induction false} LatestBlockAfter(c: Config, hs: seq<Hit>, i: nat)
    requires c.cooldown >= -1 && i < |hs| && BlockAt(c, hs, i)
    ensures LatestBlock(c, hs) >= hs[i].t
  {
    var n := |hs| - 1;
    if i < n {
      assert hs[..n][..i] == hs[..i];
      LatestBlockAfter(c, hs[..n], i);
      LastBlockIsLatest(c, hs[..n]);
      hide Kept, Sum, Alone;
    }
  }

  /** Any two blocks of one source are more than the cooldown apart, whatever order the events come in. */
  lemma BlocksApart(c: Config, hs: seq<Hit>, i: nat, j: nat)
    requires c.cooldown >= -1 && i < j < |hs| && BlockAt(c, hs, i) && BlockAt(c, hs, j)
    ensures hs[j].t - hs[i].t > c.cooldown
  {
    assert hs[..j][..i] == hs[..i];
    LatestBlockAfter(c, hs[..j], i);
    LastBlockIsLatest(c, hs[..j]);
    hide Kept, Sum, Alone;
  }

  // ----- whole runs of mixed sources -----

  lemma {:induction false} SourcePrefix(es: seq<Event>, k: nat, ip: string)
    requires k <= |es|
    ensures OfSource(es[..k], ip) <= OfSource(es, ip)
    decreases |es|
  {
    if k < |es| {
      var n := |es| - 1;
      assert es[..n][..k] == es[..k];
      SourcePrefix(es[..n], k, ip);
    } else {
      assert es[..k] == es;
    }
  }

  /** The scored event at place i is the hit at its place among its source's events, and blocks if that hit does. */
  lemma PlaceInSource(c: Config, es: seq<Event>, i: nat)
    requires i < |es| && es[i].Scored()
    ensures var ip := es[i].srcIp;
            var hs, k := OfSource(es, ip), |OfSource(es[..i], ip)|;
            && k < |hs| && OfSource(es[..i + 1], ip) == hs[..k + 1] && hs[k] == Hit(es[i].Now(), Weight(es[i].kind))
            && hs[..k] == OfSource(es[..i], ip) && (Blocks(c, es, i) <==> BlockAt(c, hs, k))
  {
    hide Triggers, Alone;
    var ip := es[i].srcIp;
    SourcePrefix(es, i, ip);
    SourcePrefix(es, i + 1, ip);
    assert es[..i + 1][..i] == es[..i];
    assert OfSource(es[..i + 1], ip) == OfSource(es[..i], ip) + [Hit(es[i].Now(), Weight(es[i].kind))];
    BlockIndependent(c, es, i);
  }

  predicate InTime(es: seq<Event>) {
    forall i, j :: 0 <= i < j < |es| ==> es[i].Now() <= es[j].Now()
  }

  lemma {:induction false} SourceInOrder(es: seq<Event>, ip: string)
    requires InTime(es)
    ensures InOrder(OfSource(es, ip))
    ensures es != [] ==> forall k :: 0 <= k < |OfSource(es, ip)| ==> OfSource(es, ip)[k].t <= es[|es| - 1].Now()
  {
    if es != [] {
      var n := |es| - 1;
      SourceInOrder(es[..n], ip);
      if n > 0 {
        assert es[n - 1].Now() <= es[n].Now();
      }
    }
  }

  /** The time of the latest event of a run that blocked the source, or the zero time. */
  function LatestBlockOf(c: Config, es: seq<Event>, ip: string): int {
    if es == [] then 0
    else
      var n := |es| - 1;
      if es[n].srcIp == ip && Blocks(c, es, n) then es[n].Now() else LatestBlockOf(c, es[..n], ip)
  }

  lemma LatestSnoc(c: Config, hs: seq<Hit>, h: Hit)
    ensures LatestBlock(c, hs + [h]) == if BlockAt(c, hs + [h], |hs|) then h.t else LatestBlock(c, hs)
  {
    hide BlockAt;
    assert (hs + [h])[..|hs|] == hs;
  }

  lemma LatestOfStep(c: Config, es: seq<Event>, ip: string)
    requires es != []
    ensures var n := |es| - 1;
            LatestBlockOf(c, es, ip) ==
            if es[n].srcIp == ip && Blocks(c, es, n) then es[n].Now() else LatestBlockOf(c, es[..n], ip)
  {
    hide Blocks;
  }

  lemma {:induction false} LatestBlockOfSource(c: Config, es: seq<Event>, ip: string)
    ensures LatestBlockOf(c, es, ip) == LatestBlock(c, OfSource(es, ip))
  {
    if es != [] {
      var n := |es| - 1;
      LatestBlockOfSource(c, es[..n], ip);
      LatestOfStep(c, es, ip);
      var before := OfSource(es[..n], ip);
      if es[n].Scored() && es[n].srcIp == ip {
        PlaceInSource(c, es, n);
        LatestSnoc(c, before, Hit(es[n].Now(), Weight(es[n].kind)));
        assert OfSource(es, ip) == before + [Hit(es[n].Now(), Weight(es[n].kind))];
        hide *;
      } else {
        assert OfSource(es, ip) == before + [] == before;
        hide After, Triggers;
      }
    }
  }

  /**
   * Over any run in time order, whatever other sources do in it: an event blocks its source exactly when it is scored,
   * the weights of all the source's events in the window reach the threshold, and more than the cooldown has passed
   * since the latest event that blocked the source.
   */
  lemma RunBlocksExactly(c: Config, es: seq<Event>, i: nat)
    requires i < |es| && InTime(es)
    ensures Blocks(c, es, i) <==>
            && es[i].Scored()
            && Sum(InWindow(c, OfSource(es[..i], es[i].srcIp) + [Hit(es[i].Now(), Weight(es[i].kind))])) >= c.threshold
            && Sub(es[i].Now(), LatestBlockOf(c, es[..i], es[i].srcIp)) > c.cooldown
  {
    hide Triggers, Alone, Sub, Sum, InWindow, LatestBlock;
    var ip := es[i].srcIp;
    if es[i].Scored() {
      PlaceInSource(c, es, i);
      SourceInOrder(es[..i + 1], ip);
      var before, h := OfSource(es[..i], ip), Hit(es[i].Now(), Weight(es[i].kind));
      var now := OfSource(es[..i + 1], ip);
      assert now == before + [h] && now[..|before|] == before;
      BlocksExactly(c, now);
      LatestBlockOfSource(c, es[..i], ip);
    }
  }

  /** Over any run in any order two blocks of one source are more than the cooldown apart. */
  lemma RunBlocksApart(c: Config, es: seq<Event>, i: nat, j: nat)
    requires c.cooldown >= -1 && i < j < |es| && es[i].srcIp == es[j].srcIp && Blocks(c, es, i) && Blocks(c, es, j)
    ensures es[j].Now() - es[i].Now() > c.cooldown
  {
    hide Triggers, Alone;
    var ip := es[i].srcIp;
    PlaceInSource(c, es, i);
    PlaceInSource(c, es, j);
    SourcePrefix(es[..j], i + 1, ip);
    assert es[..j][..i + 1] == es[..i + 1];
    BlocksApart(c, OfSource(es, ip), |OfSource(es[..i], ip)|, |OfSource(es[..j], ip)|);
  }

  /** Whatever the run, two blocks of one source are more than the cooldown apart. */
  ghost predicate AlwaysApart(c: Config) {
    forall es: seq<Event>, i: nat, j: nat ::
      i < j < |es| && es[i].srcIp == es[j].srcIp && Blocks(c, es, i) && Blocks(c, es, j) ==>
        es[j].Now() - es[i].Now() > c.cooldown
  }

  /**
   * From -2 on down the cooldown no longer keeps blocks apart, whatever window and threshold are: two steps back in
   * time go further than it allows.
   */
  lemma ApartExactly(c: Config)
    ensures AlwaysApart(c) <==> c.cooldown >= -1
  {
    if c.cooldown >= -1 {
      forall es: seq<Event>, i: nat, j: nat
        | i < j < |es| && es[i].srcIp == es[j].srcIp && Blocks(c, es, i) && Blocks(c, es, j)
        ensures es[j].Now() - es[i].Now() > c.cooldown
      {
        RunBlocksApart(c, es, i, j);
      }
    } else {
      var es, i := BackInTime(c, "a");
      hide Blocks;
    }
  }

  /**
   * The run on which a cooldown of -2 or less fails: failed logins, as many as bring the score to one short of the
   * threshold and each further back than the window, and then three that are one more than the cooldown apart.
   */
  lemma {:induction false} BackInTime(c: Config, ip: string) returns (es: seq<Event>, i: nat)
    requires c.cooldown <= -2 && ip != ""
    ensures i + 2 < |es| && forall k :: 0 <= k < |es| ==> es[k].kind == AuthAttempt && es[k].srcIp == ip
    ensures Blocks(c, es, i) && Blocks(c, es, i + 2)
    ensures es[i + 2].Now() - es[i].Now() == 2 * c.cooldown + 2 <= c.cooldown
  {
    var hs;
    hs, i := BackwardHits(c);
    hide *;
    es := Logins(hs, ip);
    LoginsAreHits(c, hs, ip, i);
    LoginsAreHits(c, hs, ip, i + 2);
  }

  lemma {:induction false} BackwardHits(c: Config) returns (hs: seq<Hit>, i: nat)
    requires c.cooldown <= -2
    ensures i + 2 < |hs| && Heavy(hs)
    ensures BlockAt(c, hs, i) && BlockAt(c, hs, i + 2) && hs[i + 2].t - hs[i].t == 2 * c.cooldown + 2
  {
    i := BelowThreshold(c.threshold);
    var t := -3 * c.cooldown;
    var f := Falling(i, t, Abs(c.window) + 1);
    FallingKept(c, i, t, Abs(c.window) + 1);
    FallingAbove(i, t, Abs(c.window));
    hide *;
    hs := Backward(c, f, t);
    ThreeBlocks(c, f, t);
    BackwardPlaces(c, f, t);
  }

  predicate Heavy(hs: seq<Hit>) {
    forall k :: 0 <= k < |hs| ==> hs[k].w == 3
  }

  lemma {:induction false} FallingAbove(n: nat, t: int, x: nat)
    ensures Above(Falling(n, t, x + 1), t + x) && Heavy(Falling(n, t, x + 1))
  {
  }

  /** Three hits, each one more than the cooldown from the one before it. */
  function Backward(c: Config, f: seq<Hit>, t: int): seq<Hit> {
    f + [Hit(t, 3), Hit(t + c.cooldown + 1, 3), Hit(t + 2 * c.cooldown + 2, 3)]
  }

  lemma {:induction false} BackwardPlaces(c: Config, f: seq<Hit>, t: int)
    requires Heavy(f)
    ensures var hs := Backward(c, f, t);
            |hs| == |f| + 3 && Heavy(hs) && hs[|f|].t == t && hs[|f| + 2].t == t + 2 * c.cooldown + 2
  {
  }

  /** How many logins leave the score one short of the threshold. */
  function BelowThreshold(threshold: int): (n: nat)
    ensures 3 * n + 3 >= threshold && (n == 0 || 3 * n < threshold)
  {
    if threshold <= 3 then 0 else (threshold - 1) / 3
  }

  predicate Above(hs: seq<Hit>, cutoff: int) {
    forall k :: 0 <= k < |hs| ==> hs[k].t > cutoff
  }

  function Abs(x: int): nat {
    if x < 0 then -x else x
  }

  /** n hits of failed logins, each the step before the one in front of it; the last one is the step behind t. */
  function Falling(n: nat, t: int, step: nat): (hs: seq<Hit>)
    ensures |hs| == n && Heavy(hs) && forall k :: 0 <= k < n ==> hs[k].t >= t + step
  {
    if n == 0 then [] else Falling(n - 1, t + step, step) + [Hit(t + step, 3)]
  }

  lemma {:induction false} AllNewer(hs: seq<Hit>, cutoff: int)
    requires Above(hs, cutoff)
    ensures Newer(hs, cutoff) == hs
  {
    if hs != [] {
      AllNewer(hs[..|hs| - 1], cutoff);
      Snoc(hs);
    }
  }

  /** Steps back in time longer than the window lose no hit, and below the threshold none blocks. */
  lemma {:induction false} FallingKept(c: Config, n: nat, t: int, step: nat)
    requires step > -c.window && (n == 0 || 3 * n < c.threshold)
    ensures Quiet(c, Falling(n, t, step), 3 * n)
  {
    hide Quiet, Sum;
    if n > 0 {
      FallingKept(c, n - 1, t + step, step);
      hide *;
      FallingStep(c, n, t, step);
      QuietHit(c, Falling(n - 1, t + step, step), 3 * (n - 1), Hit(t + step, 3));
    } else {
      NoHits(c);
    }
  }

  /** Every hit is kept, their weights are score, and none of them blocked. */
  predicate Quiet(c: Config, hs: seq<Hit>, score: nat) {
    Alone(c, hs) == Track(hs, 0) && Sum(hs) == score
  }

  lemma {:induction false} NoHits(c: Config)
    ensures Quiet(c, [], 0)
  {
  }

  lemma {:induction false} FallingStep(c: Config, n: nat, t: int, step: nat)
    requires step > -c.window && n > 0
    ensures Falling(n, t, step) == Falling(n - 1, t + step, step) + [Hit(t + step, 3)]
    ensures Above(Falling(n - 1, t + step, step), t + step - c.window)
  {
  }

  lemma {:induction false} QuietHit(c: Config, f: seq<Hit>, score: nat, h: Hit)
    requires Quiet(c, f, score) && score + h.w < c.threshold && Above(f, h.t - c.window)
    ensures Quiet(c, f + [h], score + h.w)
  {
    hide Alone, Newer, Sum, Sub, Above;
    AloneAppend(c, f, h);
    AllNewer(f, h.t - c.window);
    SumStep(f, h);
  }

  lemma {:induction false} FrontKept(f: seq<Hit>, rest: seq<Hit>, cutoff: int)
    requires Above(f, cutoff)
    ensures f <= Newer(f + rest, cutoff) && Sum(Newer(f + rest, cutoff)) >= Sum(f)
    decreases |rest|
  {
    if rest == [] {
      assert f + rest == f;
      AllNewer(f, cutoff);
    } else {
      var n := |rest| - 1;
      FrontKept(f, rest[..n], cutoff);
      hide Newer, Sum, Above;
      assert f + rest == f + rest[..n] + [rest[n]];
      NewerAppend(f + rest[..n], rest[n], cutoff);
      SumStep(Newer(f + rest[..n], cutoff), rest[n]);
      assert Newer(f + rest[..n], cutoff) + [] == Newer(f + rest[..n], cutoff);
    }
  }

  /** While the hits f stay in the window and only one is missing to the threshold, the cooldown alone decides. */
  lemma {:induction false} OnTheBrink(c: Config, tr: Track, f: seq<Hit>, h: Hit)
    requires f <= tr.hits && Above(f, h.t - c.window)
    requires Sum(f) + h.w >= c.threshold
    ensures f <= Observe(c, tr, h).hits
    ensures Triggers(c, tr, h) <==> Sub(h.t, tr.lastBlock) > c.cooldown
    ensures Triggers(c, tr, h) ==> Observe(c, tr, h).lastBlock == h.t
  {
    hide Newer, Sum, Sub, Above;
    assert f + tr.hits[|f|..] == tr.hits;
    FrontKept(f, tr.hits[|f|..], h.t - c.window);
    SumStep(Newer(tr.hits, h.t - c.window), h);
  }

  lemma {:induction false} BrinkStep(c: Config, hs: seq<Hit>, f: seq<Hit>, h: Hit)
    requires f <= Alone(c, hs).hits && Above(f, h.t - c.window)
    requires Sum(f) + h.w >= c.threshold && Sub(h.t, Alone(c, hs).lastBlock) > c.cooldown
    ensures BlockAt(c, hs + [h], |hs|)
    ensures f <= Alone(c, hs + [h]).hits && Alone(c, hs + [h]).lastBlock == h.t
  {
    hide Alone, Triggers, Observe, Sum, Sub, Above;
    OnTheBrink(c, Alone(c, hs), f, h);
    AloneAppend(c, hs, h);
    assert (hs + [h])[..|hs|] == hs;
  }

  lemma {:induction false} ThreeBlocks(c: Config, f: seq<Hit>, t: int)
    requires c.cooldown <= -2 && t >= 0 && Quiet(c, f, Sum(f)) && Sum(f) + 3 >= c.threshold && Above(f, t + Abs(c.window))
    ensures var hs := Backward(c, f, t); |hs| == |f| + 3 && BlockAt(c, hs, |f|) && BlockAt(c, hs, |f| + 2)
  {
    var a, b, d := Hit(t, 3), Hit(t + c.cooldown + 1, 3), Hit(t + 2 * c.cooldown + 2, 3);
    BackwardSteps(c, t);
    AboveAll(c, f, t);
    assert f <= Alone(c, f).hits && Alone(c, f).lastBlock == 0 && Backward(c, f, t) == f + [a, b, d];
    hide *;
    ThreeOnTheBrink(c, f, a, b, d);
  }

  /** Each step back is one less than the cooldown allows. */
  lemma {:induction false} BackwardSteps(c: Config, t: int)
    requires c.cooldown <= -2 && t >= 0
    ensures Sub(t, 0) > c.cooldown && Sub(t + c.cooldown + 1, t) > c.cooldown
    ensures Sub(t + 2 * c.cooldown + 2, t + c.cooldown + 1) > c.cooldown
  {
  }

  lemma {:induction false} AboveAll(c: Config, f: seq<Hit>, t: int)
    requires c.cooldown <= -2 && Above(f, t + Abs(c.window))
    ensures Above(f, t - c.window) && Above(f, t + c.cooldown + 1 - c.window) && Above(f, t + 2 * c.cooldown + 2 - c.window)
  {
  }

  lemma {:induction false} ThreeOnTheBrink(c: Config, f: seq<Hit>, a: Hit, b: Hit, d: Hit)
    requires f <= Alone(c, f).hits && a.w == b.w == d.w && Sum(f) + a.w >= c.threshold
    requires Above(f, a.t - c.window) && Above(f, b.t - c.window) && Above(f, d.t - c.window)
    requires Sub(a.t, Alone(c, f).lastBlock) > c.cooldown && Sub(b.t, a.t) > c.cooldown && Sub(d.t, b.t) > c.cooldown
    ensures BlockAt(c, f + [a, b, d], |f|) && BlockAt(c, f + [a, b, d], |f| + 2)
  {
    hide *;
    BrinkStep(c, f, f, a);
    BrinkStep(c, f + [a], f, b);
    BrinkStep(c, f + [a] + [b], f, d);
    ThreeMore(f, a, b, d);
    SamePlace(c, f + [a], f + [a, b, d], |f|);
    SamePlace(c, f + [a] + [b] + [d], f + [a, b, d], |f| + 2);
  }

  lemma {:induction false} ThreeMore(f: seq<Hit>, a: Hit, b: Hit, d: Hit)
    ensures f + [a, b, d] == f + [a] + [b] + [d]
  {
  }

  lemma {:induction false} SamePlace(c: Config, xs: seq<Hit>, hs: seq<Hit>, i: nat)
    requires xs <= hs && i < |xs| && BlockAt(c, xs, i)
    ensures BlockAt(c, hs, i)
  {
    hide Triggers, Alone;
    assert xs[..i] == hs[..i];
  }

  // ----- hits as failed logins of one source -----

  function Logins(hs: seq<Hit>, ip: string): (es: seq<Event>)
    ensures |es| == |hs|
    ensures forall k :: 0 <= k < |hs| ==> es[k] == Event(AuthAttempt, ip, hs[k].t, hs[k].t)
  {
    seq(|hs|, k requires 0 <= k < |hs| => Event(AuthAttempt, ip, hs[k].t, hs[k].t))
  }

  lemma {:induction false} OfLogins(hs: seq<Hit>, ip: string)
    requires ip != "" && Heavy(hs)
    ensures OfSource(Logins(hs, ip), ip) == hs
  {
    if hs != [] {
      var n := |hs| - 1;
      assert Logins(hs, ip)[..n] == Logins(hs[..n], ip);
      OfLogins(hs[..n], ip);
      Snoc(hs);
    }
  }

  lemma LoginsAreHits(c: Config, hs: seq<Hit>, ip: string, i: nat)
    requires ip != "" && i < |hs| && Heavy(hs)
    ensures Blocks(c, Logins(hs, ip), i) <==> BlockAt(c, hs, i)
  {
    var es := Logins(hs, ip);
    hide Triggers, Alone, Blocks, OfSource, Logins;
    BlockIndependent(c, es, i);
    assert es[..i] == Logins(hs[..i], ip);
    OfLogins(hs[..i], ip);
  }

  /** Out of time order a hit can be missing: the third one's window holds the first, which the second pushed out. */
  lemma OutOfOrderForgets()
    ensures var c, hs := Config(10, 10, 12), [Hit(100, 1), Hit(200, 1), Hit(105, 1)];
            Alone(c, hs).hits != InWindow(c, hs)
  {
    var c, hs := Config(10, 10, 12), [Hit(100, 1), Hit(200, 1), Hit(105, 1)];
    hide Alone, InWindow;
    KeepsWindowExactly(c, hs);
    assert hs[..2][0] == Hit(100, 1) && hs[..2][1] == Hit(200, 1);
  }
}
