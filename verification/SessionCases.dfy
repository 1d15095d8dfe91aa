/** What each exchange of a session says about the packets in it. */
module SessionCases {
  import opened Bytes
  import opened Session

  function Packets(es: seq<Exchange>): seq<Packet> {
    if es == [] then [] else es[0].probePackets + es[0].responsePackets + Packets(es[1..])
  }

  /** The time of the first packet that has one. */
  ghost predicate IsFirstTime(t: nat, ps: seq<Packet>) {
    if t == 0 then forall i :: 0 <= i < |ps| ==> ps[i].time == 0
    else exists k :: 0 <= k < |ps| && ps[k].time == t && forall i :: 0 <= i < k ==> ps[i].time == 0
  }

  /** Probes and responses with their payloads, the time of the first probe and the first time of a response. */
  ghost predicate Tells(e: Exchange) {
    && e.probePackets != [] && e.probe == Data(e.probePackets) && e.response == Data(e.responsePackets)
    && (forall i :: 0 <= i < |e.probePackets| ==> e.probePackets[i].dir == Inbound)
    && (forall i :: 0 <= i < |e.responsePackets| ==> e.responsePackets[i].dir == Outbound)
    && e.probeTime == e.probePackets[0].time && IsFirstTime(e.responseTime, e.responsePackets)
  }

  /** The payload of packets is what each carries, in order. */
  lemma DataLaws(a: seq<Packet>, p: Packet, b: seq<Packet>)
    ensures Data([]) == [] && Data([p]) == p.data && Data(a + b) == Data(a) + Data(b)
  {
    assert [p][1..] == [];
    DataAppend(a, b);
  }

  lemma {:induction false} FirstTimeIs(ps: seq<Packet>)
    ensures IsFirstTime(FirstTime(ps), ps)
  {
    if ps != [] && ps[0].time == 0 {
      var t, rest := FirstTime(ps), ps[1..];
      FirstTimeIs(rest);
      if t != 0 {
        var k :| 0 <= k < |rest| && rest[k].time == t && forall i :: 0 <= i < k ==> rest[i].time == 0;
        assert ps[k + 1].time == t && forall i :: 0 < i < k + 1 ==> ps[i] == rest[i - 1];
      } else {
        assert forall i :: 0 < i < |ps| ==> ps[i] == rest[i - 1];
      }
    }
  }

  lemma PairTells(index: nat, ins: seq<Packet>, outs: seq<Packet>)
    requires ins != [] && forall i :: 0 <= i < |ins| ==> ins[i].dir.Inbound?
    requires forall i :: 0 <= i < |outs| ==> outs[i].dir.Outbound?
    ensures Tells(Pair(index, ins, outs))
  {
    FirstTimeIs(outs);
    hide IsFirstTime, FirstTime, Data;
  }

  lemma {:induction false} GroupTells(ps: seq<Packet>, index: nat)
    ensures forall k :: 0 <= k < |Group(ps, index)| ==> Tells(Group(ps, index)[k])
    ensures Packets(Group(ps, index)) == FromFirstProbe(ps)
    decreases |ps|
  {
    hide Tells;
    if ps == [] {
    } else if ps[0].dir.Outbound? {
      GroupTells(ps[1..], index);
    } else {
      hide *;
      var ins, outs, rest := FirstBlock(ps);
      GroupStep(ps, index, ins, outs, rest);
      PairTells(index, ins, outs);
      GroupTells(rest, index + 1);
      PartsOfPair(index, ins, outs);
      assert FromFirstProbe(rest) == rest && FromFirstProbe(ps) == ps by {
        FromProbe(rest);
        FromProbe(ps);
      }
      PacketsStep(Pair(index, ins, outs), Group(rest, index + 1));
    }
  }

  lemma FromProbe(ps: seq<Packet>)
    requires ps != [] ==> ps[0].dir.Inbound?
    ensures FromFirstProbe(ps) == ps
  {
  }

  lemma PacketsStep(e: Exchange, es: seq<Exchange>)
    ensures Packets([e] + es) == e.probePackets + e.responsePackets + Packets(es)
  {
    assert ([e] + es)[1..] == es;
  }

  lemma PartsOfPair(index: nat, ins: seq<Packet>, outs: seq<Packet>)
    requires ins != []
    ensures Pair(index, ins, outs).probePackets == ins && Pair(index, ins, outs).responsePackets == outs
  {
  }

  /** The counted packets from the first probe on, each in one exchange and in order, with their payloads and times. */
  lemma ExtractTells(ps: seq<Packet>)
    ensures forall k :: 0 <= k < |Extract(ps)| ==> Tells(Extract(ps)[k]) && Extract(ps)[k].index == k
    ensures Packets(Extract(ps)) == FromFirstProbe(Distinct(ps))
  {
    ExtractConserves(ps);
    hide Distinct, Group, Tells;
    GroupTells(Distinct(ps), 0);
  }

  /** Each payload of each direction is counted once, the same bytes in both directions twice. */
  lemma DistinctExactly(ps: seq<Packet>)
    ensures var d := Distinct(ps);
            && (forall p :: p in ps && p.data != [] ==> exists q :: q in d && q.dir == p.dir && q.data == p.data)
            && (forall i, j :: 0 <= i < j < |d| ==> d[i].dir != d[j].dir || d[i].data != d[j].data)
  {
    DistinctOnce(ps);
    forall p | p in ps && p.data != []
      ensures exists q :: q in Distinct(ps) && q.dir == p.dir && q.data == p.data
    {
      var i :| 0 <= i < |ps| && ps[i] == p;
      DistinctCovers(ps, i);
      var q :| q in Distinct(ps) && Same(q, ps[i]);
    }
  }
}
