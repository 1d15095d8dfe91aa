/** Which IP identification each packet of a trace leaves with. */
module IpIds {
  import opened Bytes
  import opened TcpShaping
  import opened PacketRules
  import opened SynTrace

  /** A packet that moves the shared counter: any IPv4 packet of a counting Windows profile, ICMP of all others. */
  predicate Counts(p: Profile, s: seq<byte>) {
    Ipv4(s) && if p.winQuirks then p.ipid.Incremental? else s[9] == 1
  }

  /** A packet that draws a pseudo-random number. */
  predicate DrawsSeed(p: Profile, s: seq<byte>) {
    Ipv4(s) && p.winQuirks && p.ipid.Random?
  }

  function Counted(tr: seq<Event>, p: Profile): nat {
    if tr == [] then 0
    else
      var e := tr[|tr| - 1];
      Counted(tr[..|tr| - 1], p) + if e.Outbound? && Counts(p, e.pkt) then 1 else 0
  }

  function Drawn(tr: seq<Event>, p: Profile): nat {
    if tr == [] then 0
    else
      var e := tr[|tr| - 1];
      Drawn(tr[..|tr| - 1], p) + if e.Outbound? && DrawsSeed(p, e.pkt) then 1 else 0
  }

  function Seed(s: bv32, n: nat): bv32 {
    if n == 0 then s else XorShift(Seed(s, n - 1))
  }

  /** One packet: only a counting one moves the counter, only a drawing one the seed. */
  lemma OneId(s: seq<byte>, p: Profile, id: IpIdState, w: World, clk: Clock)
    requires id == w.id
    ensures Egress(s, p, id, w.cache, clk).1 ==
            IpIdState((id.counter + if Counts(p, s) then 1 else 0) % 0x1_0000,
                      if DrawsSeed(p, s) then XorShift(id.seed) else id.seed)
  {
    hide TcpStage, IcmpStage, IpStage, XorShift, Low16;
  }

  lemma OneEvent(tr: seq<Event>, p: Profile, w: World)
    requires tr != []
    ensures var e, id := tr[|tr| - 1], After(tr[..|tr| - 1], p, w).id;
            After(tr, p, w).id ==
            if e.Outbound? then
              IpIdState((id.counter + if Counts(p, e.pkt) then 1 else 0) % 0x1_0000,
                        if DrawsSeed(p, e.pkt) then XorShift(id.seed) else id.seed)
            else id
  {
    hide *;
    AfterStep(tr, p, w);
    NextIdState(After(tr[..|tr| - 1], p, w), tr[|tr| - 1], p);
  }

  lemma AfterStep(tr: seq<Event>, p: Profile, w: World)
    requires tr != []
    ensures After(tr, p, w) == Next(After(tr[..|tr| - 1], p, w), tr[|tr| - 1], p)
  {
    hide Next;
  }

  lemma NextIdState(w: World, e: Event, p: Profile)
    ensures Next(w, e, p).id ==
            if e.Outbound? then
              IpIdState((w.id.counter + if Counts(p, e.pkt) then 1 else 0) % 0x1_0000,
                        if DrawsSeed(p, e.pkt) then XorShift(w.id.seed) else w.id.seed)
            else w.id
  {
    hide Egress, Counts, DrawsSeed, XorShift;
    if e.Outbound? {
      OneId(e.pkt, p, w.id, w, e.clk);
    }
  }

  lemma ModStep(x: nat, y: nat)
    ensures (x % 0x1_0000 + y) % 0x1_0000 == (x + y) % 0x1_0000
  {
  }

  lemma NothingYet(p: Profile, w: World)
    ensures After([], p, w) == w && Counted([], p) == 0 && Drawn([], p) == 0
  {
  }

  lemma CountedStep(tr: seq<Event>, p: Profile)
    requires tr != []
    ensures var e := tr[|tr| - 1];
            Counted(tr, p) == Counted(tr[..|tr| - 1], p) + if e.Outbound? && Counts(p, e.pkt) then 1 else 0
  {
    hide Counts;
  }

  lemma DrawnStep(tr: seq<Event>, p: Profile)
    requires tr != []
    ensures var e := tr[|tr| - 1];
            Drawn(tr, p) == Drawn(tr[..|tr| - 1], p) + if e.Outbound? && DrawsSeed(p, e.pkt) then 1 else 0
  {
    hide DrawsSeed;
  }

  lemma SeedStep(s: bv32, n: nat)
    ensures Seed(s, 0) == s && Seed(s, n + 1) == XorShift(Seed(s, n))
  {
    hide XorShift;
  }

  /** After any trace the counter stands at the number of counting packets. */
  lemma {:induction false} CounterAfter(tr: seq<Event>, p: Profile, w: World)
    ensures After(tr, p, w).id.counter == (w.id.counter + Counted(tr, p)) % 0x1_0000
  {
    hide *;
    if tr == [] {
      NothingYet(p, w);
    } else {
      CounterAfter(tr[..|tr| - 1], p, w);
      OneEvent(tr, p, w);
      CountedStep(tr, p);
      ModStep(w.id.counter + Counted(tr[..|tr| - 1], p), 1);
    }
  }

  /** The generator has made one step for every drawing packet. */
  lemma {:induction false} SeedAfter(tr: seq<Event>, p: Profile, w: World)
    ensures After(tr, p, w).id.seed == Seed(w.id.seed, Drawn(tr, p))
  {
    hide *;
    if tr == [] {
      NothingYet(p, w);
      SeedStep(w.id.seed, 0);
    } else {
      SeedAfter(tr[..|tr| - 1], p, w);
      OneEvent(tr, p, w);
      DrawnStep(tr, p);
      SeedStep(w.id.seed, Drawn(tr[..|tr| - 1], p));
    }
  }

  lemma IdOf(p: Profile, s: seq<byte>, st: IpIdState)
    requires Ipv4(s)
    ensures NextId(p, s[9], st).0 ==
            if Counts(p, s) then (st.counter + 1) % 0x1_0000
            else if DrawsSeed(p, s) then Low16(XorShift(st.seed))
            else 0
  {
    hide XorShift, Low16;
  }

  lemma IdFrom(p: Profile, s: seq<byte>, st: IpIdState, x: nat, seed: bv32, n: nat)
    requires Ipv4(s) && st.counter == x % 0x1_0000 && st.seed == Seed(seed, n)
    ensures NextId(p, s[9], st).0 ==
            if Counts(p, s) then (x + 1) % 0x1_0000
            else if DrawsSeed(p, s) then Low16(Seed(seed, n + 1))
            else 0
  {
    hide *;
    IdOf(p, s, st);
    ModStep(x, 1);
    SeedStep(seed, n);
  }

  /** The identification behind a trace, told by how many packets of it counted and drew. */
  function WantedId(tr: seq<Event>, s: seq<byte>, p: Profile, id: IpIdState): uint16 {
    if Counts(p, s) then (id.counter + Counted(tr, p) + 1) % 0x1_0000
    else if DrawsSeed(p, s) then Low16(Seed(id.seed, Drawn(tr, p) + 1))
    else 0
  }

  lemma IdAfter(tr: seq<Event>, s: seq<byte>, p: Profile, id: IpIdState)
    requires Ipv4(s)
    ensures NextId(p, s[9], After(tr, p, World(map[], id)).id).0 == WantedId(tr, s, p, id)
  {
    var w := World(map[], id);
    var x, n := id.counter + Counted(tr, p), Drawn(tr, p);
    CounterAfter(tr, p, w);
    SeedAfter(tr, p, w);
    hide After, Counted, Drawn, Counts, DrawsSeed, Low16, Seed, NextId;
    IdFrom(p, s, After(tr, p, w).id, x, id.seed, n);
  }

  /**
   * Over any trace of SYNs in and packets out: under a counting Windows profile the identifications of all packets,
   * TCP and ICMP alike, go up by one from packet to packet; under a Linux or macOS profile those of ICMP packets do
   * and all others are 0; a random profile steps its generator once a packet and a zero profile sends 0.
   */
  lemma {:induction false} IdOnWire(tr: seq<Event>, s: seq<byte>, p: Profile, id: IpIdState, clk: Clock)
    requires WholeIpv4(s)
    ensures |Sent(tr, s, p, id, clk)| >= 20
    ensures Dec16(Sent(tr, s, p, id, clk), 4) == WantedId(tr, s, p, id)
  {
    assert Ipv4(s);
    hide *;
    SentId(tr, s, p, id, clk);
    IdAfter(tr, s, p, id);
  }

  lemma SentId(tr: seq<Event>, s: seq<byte>, p: Profile, id: IpIdState, clk: Clock)
    requires WholeIpv4(s)
    ensures |Sent(tr, s, p, id, clk)| >= 20
    ensures Dec16(Sent(tr, s, p, id, clk), 4) == NextId(p, s[9], After(tr, p, World(map[], id)).id).0
  {
    var w := After(tr, p, World(map[], id));
    EgressKeeps(s, p, w.id, w.cache, clk);
    hide Egress, NextId, After, SameTransport, SameBehindHeader;
  }
}
