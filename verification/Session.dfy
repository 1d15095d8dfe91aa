/** From captured packets to probe/response exchanges. */
module Session {
  import opened Bytes

  datatype Direction = Inbound | Outbound

  /** time 0 is the zero time. */
  datatype Packet = Packet(time: nat, dir: Direction, data: seq<byte>)

  datatype Exchange = Exchange(
    index: nat, probe: seq<byte>, response: seq<byte>, probeTime: nat, responseTime: nat,
    probePackets: seq<Packet>, responsePackets: seq<Packet>)

  // ----- the packets that count -----

  predicate Same(p: Packet, q: Packet) {
    p.dir == q.dir && p.data == q.data
  }

  /** Neither empty nor a repetition of an earlier packet of the same direction. */
  predicate Counts(ps: seq<Packet>, i: nat)
    requires i < |ps|
  {
    ps[i].data != [] && forall j :: 0 <= j < i ==> !Same(ps[j], ps[i])
  }

  function Distinct(ps: seq<Packet>): seq<Packet> {
    if ps == [] then []
    else
      var n := |ps| - 1;
      Distinct(ps[..n]) + if Counts(ps, n) then [ps[n]] else []
  }

  function Data(ps: seq<Packet>): seq<byte> {
    if ps == [] then [] else ps[0].data + Data(ps[1..])
  }

  function Only(ps: seq<Packet>, d: Direction): seq<Packet> {
    if ps == [] then [] else (if ps[0].dir == d then [ps[0]] else []) + Only(ps[1..], d)
  }

  /** The packets from the first inbound one on. */
  function FromFirstProbe(ps: seq<Packet>): seq<Packet> {
    if ps == [] || ps[0].dir.Inbound? then ps else FromFirstProbe(ps[1..])
  }

  // ----- exchanges as alternating runs -----

  /** How many packets of direction d the sequence starts with. */
  function RunLength(ps: seq<Packet>, d: Direction): (n: nat)
    ensures n <= |ps|
    ensures forall i :: 0 <= i < n ==> ps[i].dir == d
    ensures n < |ps| ==> ps[n].dir != d
  {
    if ps == [] || ps[0].dir != d then 0 else 1 + RunLength(ps[1..], d)
  }

  function FirstTime(ps: seq<Packet>): nat {
    if ps == [] then 0 else if ps[0].time != 0 then ps[0].time else FirstTime(ps[1..])
  }

  /** The exchange of a run of probes and the run of responses behind it. */
  function Pair(index: nat, ins: seq<Packet>, outs: seq<Packet>): Exchange
    requires ins != []
  {
    Exchange(index, Data(ins), Data(outs), ins[0].time, FirstTime(outs), ins, outs)
  }

  /** Each exchange is a maximal run of inbound packets with the outbound run that follows it. */
  function Group(ps: seq<Packet>, index: nat): seq<Exchange>
    decreases |ps|
  {
    if ps == [] then []
    else if ps[0].dir.Outbound? then Group(ps[1..], index)
    else
      var i := RunLength(ps, Inbound);
      var o := RunLength(ps[i..], Outbound);
      [Pair(index, ps[..i], ps[i..i + o])] + Group(ps[i + o..], index + 1)
  }

  /** What ExtractExchanges appends for the given packets. */
  function Extract(ps: seq<Packet>): seq<Exchange> {
    Group(Distinct(ps), 0)
  }

  // ----- the loop's own view: closed exchanges and the current one -----

  datatype Progress = Progress(closed: seq<Exchange>, current: Option<Exchange>, next: nat)

  function Take(st: Progress, p: Packet): Progress {
    if p.dir.Inbound? then
      var s :=
        if st.current.None? then Progress(st.closed, Some(Exchange(st.next, [], [], p.time, 0, [], [])), st.next + 1)
        else if st.current.value.response != [] then
          Progress(st.closed + [st.current.value], Some(Exchange(st.next, [], [], p.time, 0, [], [])), st.next + 1)
        else st;
      var e := s.current.value;
      s.(current := Some(e.(probe := e.probe + p.data, probePackets := e.probePackets + [p])))
    else if st.current.None? then st
    else
      var e := st.current.value;
      st.(current := Some(e.(
        responseTime := if e.responseTime == 0 then p.time else e.responseTime,
        response := e.response + p.data, responsePackets := e.responsePackets + [p])))
  }

  function TakeAll(st: Progress, ps: seq<Packet>): Progress
    decreases |ps|
  {
    if ps == [] then st else TakeAll(Take(st, ps[0]), ps[1..])
  }

  function Close(st: Progress): seq<Exchange> {
    if st.current.None? then st.closed else st.closed + [st.current.value]
  }

  lemma {:induction false} TakeAllAppend(st: Progress, ps: seq<Packet>, p: Packet)
    ensures TakeAll(st, ps + [p]) == Take(TakeAll(st, ps), p)
    decreases |ps|
  {
    if ps == [] {
      assert ([p])[1..] == [];
    } else {
      assert (ps + [p])[1..] == ps[1..] + [p];
      TakeAllAppend(Take(st, ps[0]), ps[1..], p);
    }
  }

  lemma {:induction false} DataAppend(a: seq<Packet>, b: seq<Packet>)
    ensures Data(a + b) == Data(a) + Data(b)
  {
    if a == [] {
      assert a + b == b;
    } else {
      assert (a + b)[1..] == a[1..] + b;
      DataAppend(a[1..], b);
    }
  }

  lemma {:induction false} FirstTimeAppend(a: seq<Packet>, p: Packet)
    ensures FirstTime(a + [p]) == if FirstTime(a) == 0 then p.time else FirstTime(a)
  {
    if a == [] {
      assert (a + [p])[1..] == [];
    } else {
      assert (a + [p])[1..] == a[1..] + [p];
      FirstTimeAppend(a[1..], p);
    }
  }

  /** The current exchange is a pair of an inbound run and an outbound run. */
  predicate Open(e: Exchange) {
    e.probePackets != [] && e == Pair(e.index, e.probePackets, e.responsePackets)
    && (forall i :: 0 <= i < |e.responsePackets| ==> e.responsePackets[i].data != [])
  }

  lemma {:induction false} TakeAllSplit(st: Progress, a: seq<Packet>, b: seq<Packet>)
    ensures TakeAll(st, a + b) == TakeAll(TakeAll(st, a), b)
    decreases |a|
  {
    if a == [] {
      assert a + b == b;
    } else {
      assert (a + b)[1..] == a[1..] + b;
      TakeAllSplit(Take(st, a[0]), a[1..], b);
    }
  }

  /** A run of probes extends an exchange that has no response yet. */
  lemma {:induction false} TakeIns(st: Progress, ins: seq<Packet>)
    requires st.current.Some? && Open(st.current.value) && st.current.value.responsePackets == []
    requires forall i :: 0 <= i < |ins| ==> ins[i].dir.Inbound?
    ensures var e := st.current.value;
            TakeAll(st, ins) == st.(current := Some(Pair(e.index, e.probePackets + ins, [])))
    decreases |ins|
  {
    var e := st.current.value;
    if ins == [] {
      assert e.probePackets + [] == e.probePackets;
    } else {
      var p := ins[0];
      DataAppend(e.probePackets, [p]);
      assert Data([p]) == p.data + Data([p][1..]) == p.data;
      TakeIns(Take(st, p), ins[1..]);
      assert e.probePackets + [p] + ins[1..] == e.probePackets + ins;
    }
  }

  /** A run of responses extends the open exchange. */
  lemma {:induction false} TakeOuts(st: Progress, outs: seq<Packet>)
    requires st.current.Some? && Open(st.current.value)
    requires forall i :: 0 <= i < |outs| ==> outs[i].dir.Outbound? && outs[i].data != []
    ensures var e := st.current.value;
            TakeAll(st, outs) == st.(current := Some(Pair(e.index, e.probePackets, e.responsePackets + outs)))
    decreases |outs|
  {
    var e := st.current.value;
    if outs == [] {
      assert e.responsePackets + [] == e.responsePackets;
    } else {
      var p := outs[0];
      DataAppend(e.responsePackets, [p]);
      FirstTimeAppend(e.responsePackets, p);
      assert Data([p]) == p.data + Data([p][1..]) == p.data;
      TakeOuts(Take(st, p), outs[1..]);
      assert e.responsePackets + [p] + outs[1..] == e.responsePackets + outs;
    }
  }

  /** A probe that opens a new exchange closes the current one. */
  lemma TakeOpens(st: Progress, p: Packet)
    requires p.dir.Inbound?
    requires st.current.Some? ==> Open(st.current.value) && st.current.value.responsePackets != []
    ensures Take(st, p) == Progress(Close(st), Some(Pair(st.next, [p], [])), st.next + 1)
  {
    assert Data([p]) == p.data + Data([p][1..]) == p.data;
    assert [] + p.data == p.data && [] + [p] == [p];
  }

  /** One inbound run and the outbound run behind it make one exchange. */
  lemma TakeBlock(st: Progress, ins: seq<Packet>, outs: seq<Packet>)
    requires st.current.Some? ==> Open(st.current.value) && st.current.value.responsePackets != []
    requires ins != [] && forall i :: 0 <= i < |ins| ==> ins[i].dir.Inbound?
    requires forall i :: 0 <= i < |outs| ==> outs[i].dir.Outbound? && outs[i].data != []
    ensures TakeAll(st, ins + outs) == Progress(Close(st), Some(Pair(st.next, ins, outs)), st.next + 1)
    ensures Open(Pair(st.next, ins, outs))
  {
    hide Take, FirstTime, Data;
    TakeAllSplit(st, ins, outs);
    TakeOpens(st, ins[0]);
    var s := Take(st, ins[0]);
    TakeIns(s, ins[1..]);
    assert [ins[0]] + ins[1..] == ins;
    TakeOuts(TakeAll(st, ins), outs);
    assert [] + outs == outs;
  }

  lemma NothingLeft(st: Progress)
    ensures TakeAll(st, []) == st && Group([], st.next) == []
  {
  }

  /** A response before any probe is dropped. */
  lemma DropsEarly(st: Progress, ps: seq<Packet>)
    requires st.current.None? && ps != [] && ps[0].dir.Outbound?
    ensures TakeAll(st, ps) == TakeAll(st, ps[1..]) && Group(ps, st.next) == Group(ps[1..], st.next)
  {
    hide FirstTime, Data, Pair, RunLength;
  }

  /** The first inbound run, the outbound run behind it, and the packets from the next probe on. */
  lemma FirstBlock(ps: seq<Packet>) returns (ins: seq<Packet>, outs: seq<Packet>, rest: seq<Packet>)
    requires ps != [] && ps[0].dir.Inbound?
    ensures ps == (ins + outs) + rest && ins != []
    ensures forall i :: 0 <= i < |ins| ==> ins[i].dir.Inbound?
    ensures forall i :: 0 <= i < |outs| ==> outs[i].dir.Outbound?
    ensures rest != [] ==> outs != [] && rest[0].dir.Inbound?
    ensures |ins| == RunLength(ps, Inbound) && |outs| == RunLength(ps[|ins|..], Outbound)
  {
    var i := RunLength(ps, Inbound);
    assert i > 0;
    hide *;
    var tail := ps[i..];
    var o := RunLength(tail, Outbound);
    ins, outs, rest := ps[..i], tail[..o], tail[o..];
    CutTwice(ps, i, o);
  }

  lemma CutTwice(ps: seq<Packet>, i: nat, o: nat)
    requires i + o <= |ps|
    ensures ps == (ps[..i] + ps[i..][..o]) + ps[i..][o..]
  {
  }

  lemma GroupStep(ps: seq<Packet>, index: nat, ins: seq<Packet>, outs: seq<Packet>, rest: seq<Packet>)
    requires ps == (ins + outs) + rest && ins != [] && ps[0].dir.Inbound?
    requires |ins| == RunLength(ps, Inbound) && |outs| == RunLength(ps[|ins|..], Outbound)
    ensures Group(ps, index) == [Pair(index, ins, outs)] + Group(rest, index + 1)
  {
    hide RunLength, Pair;
    assert ps[..|ins|] == ins && ps[|ins|..|ins| + |outs|] == outs && ps[|ins| + |outs|..] == rest;
  }

  /** Nothing is open, or an exchange that has a response and is followed by a probe. */
  predicate AtBoundary(st: Progress, ps: seq<Packet>) {
    st.current.Some? ==>
      Open(st.current.value) && st.current.value.responsePackets != [] && (ps == [] || ps[0].dir.Inbound?)
  }

  /** The loop's state machine computes the alternating runs. */
  lemma {:induction false} MachineGroups(st: Progress, ps: seq<Packet>)
    requires forall i :: 0 <= i < |ps| ==> ps[i].data != []
    requires AtBoundary(st, ps)
    ensures Close(TakeAll(st, ps)) == Close(st) + Group(ps, st.next)
    decreases |ps|, 1
  {
    hide Take, FirstTime, Data, TakeAll, Group, Open, RunLength, Pair;
    if ps == [] {
      NothingLeft(st);
    } else if ps[0].dir.Outbound? {
      DropsEarly(st, ps);
      MachineGroups(st, ps[1..]);
    } else {
      MachineGroupsBlock(st, ps);
    }
  }

  lemma {:induction false} MachineGroupsBlock(st: Progress, ps: seq<Packet>)
    requires forall i :: 0 <= i < |ps| ==> ps[i].data != []
    requires AtBoundary(st, ps) && ps != [] && ps[0].dir.Inbound?
    ensures Close(TakeAll(st, ps)) == Close(st) + Group(ps, st.next)
    decreases |ps|, 0
  {
    hide Take, FirstTime, Data, TakeAll, Group, Open, RunLength;
    var ins, outs, rest := FirstBlock(ps);
    PartsNonempty(ins, outs, rest);
    GroupStep(ps, st.next, ins, outs, rest);
    TakeBlock(st, ins, outs);
    TakeAllSplit(st, ins + outs, rest);
    var t := TakeAll(st, ins + outs);
    var e := Pair(st.next, ins, outs);
    hide Pair;
    if rest == [] {
      NothingLeft(t);
    } else {
      MachineGroups(t, rest);
    }
    assert Close(t) == Close(st) + [e];
    assert Close(st) + [e] + Group(rest, st.next + 1) == Close(st) + ([e] + Group(rest, st.next + 1));
  }

  // ----- the packets that count, characterised -----

  lemma {:induction false} DistinctCovers(ps: seq<Packet>, i: nat)
    requires i < |ps| && ps[i].data != []
    ensures exists q :: q in Distinct(ps) && Same(q, ps[i])
  {
    var n := |ps| - 1;
    if i < n {
      DistinctCovers(ps[..n], i);
      var q :| q in Distinct(ps[..n]) && Same(q, ps[i]);
      assert q in Distinct(ps);
    } else if Counts(ps, n) {
      assert ps[n] in Distinct(ps);
    } else {
      var j :| 0 <= j < i && Same(ps[j], ps[i]);
      DistinctCovers(ps[..n], j);
      var q :| q in Distinct(ps[..n]) && Same(q, ps[j]);
      assert q in Distinct(ps);
    }
  }

  /** Every packet that counts is one of those captured, not empty, and unlike all earlier ones. */
  lemma {:induction false} DistinctOnce(ps: seq<Packet>)
    ensures forall q :: q in Distinct(ps) ==> q in ps && q.data != []
    ensures forall i, j :: 0 <= i < j < |Distinct(ps)| ==> !Same(Distinct(ps)[i], Distinct(ps)[j])
  {
    if ps != [] {
      var n := |ps| - 1;
      DistinctOnce(ps[..n]);
      var d := Distinct(ps[..n]);
      if Counts(ps, n) {
        forall i | 0 <= i < |d|
          ensures !Same(d[i], ps[n])
        {
          assert d[i] in ps[..n];
        }
      }
    }
  }

  /** A packet that is empty or repeats one captured before it. */
  predicate Repeats(ps: seq<Packet>, d: Packet) {
    d.data == [] || exists j :: 0 <= j < |ps| && Same(ps[j], d)
  }

  lemma {:induction false} DistinctIgnores(a: seq<Packet>, d: Packet, b: seq<Packet>)
    requires Repeats(a, d)
    ensures Distinct(a + [d] + b) == Distinct(a + b)
    decreases |b|
  {
    var x, y := a + [d] + b, a + b;
    if b == [] {
      assert y == a && x[..|x| - 1] == a;
    } else {
      var n := |b| - 1;
      DistinctIgnores(a, d, b[..n]);
      assert x[..|x| - 1] == a + [d] + b[..n] && y[..|y| - 1] == a + b[..n];
      CountsIgnores(a, d, b);
    }
  }

  lemma CountsIgnores(a: seq<Packet>, d: Packet, b: seq<Packet>)
    requires Repeats(a, d) && b != []
    ensures Counts(a + [d] + b, |a| + |b|) == Counts(a + b, |a| + |b| - 1)
  {
    var x, y, n := a + [d] + b, a + b, |a|;
    var p := b[|b| - 1];
    if p.data != [] && !Counts(y, n + |b| - 1) {
      var j :| 0 <= j < n + |b| - 1 && Same(y[j], p);
      assert x[if j < n then j else j + 1] == y[j];
    }
    if p.data != [] && !Counts(x, n + |b|) {
      var j :| 0 <= j < n + |b| && Same(x[j], p);
      if j == n {
        var k :| 0 <= k < |a| && Same(a[k], d);
        assert y[k] == a[k];
      } else {
        assert y[if j < n then j else j - 1] == x[j];
      }
    }
  }

  /** Capturing a packet again, anywhere after the first time, changes nothing. */
  lemma DuplicateIgnored(a: seq<Packet>, d: Packet, b: seq<Packet>)
    requires Repeats(a, d)
    ensures Extract(a + [d] + b) == Extract(a + b)
  {
    DistinctIgnores(a, d, b);
  }

  // ----- conservation -----

  function Probes(es: seq<Exchange>): seq<byte> {
    if es == [] then [] else es[0].probe + Probes(es[1..])
  }

  function Responses(es: seq<Exchange>): seq<byte> {
    if es == [] then [] else es[0].response + Responses(es[1..])
  }

  lemma {:induction false} OnlySame(a: seq<Packet>, d: Direction, b: seq<Packet>)
    requires forall i :: 0 <= i < |a| ==> a[i].dir == d
    ensures Only(a + b, d) == a + Only(b, d)
  {
    if a == [] {
      assert a + b == b;
    } else {
      assert (a + b)[1..] == a[1..] + b;
      OnlySame(a[1..], d, b);
      assert [a[0]] + (a[1..] + Only(b, d)) == a + Only(b, d);
    }
  }

  lemma {:induction false} OnlyOther(a: seq<Packet>, d: Direction, b: seq<Packet>)
    requires forall i :: 0 <= i < |a| ==> a[i].dir != d
    ensures Only(a + b, d) == Only(b, d)
  {
    if a == [] {
      assert a + b == b;
    } else {
      assert (a + b)[1..] == a[1..] + b;
      OnlyOther(a[1..], d, b);
    }
  }

  /** What grouping keeps of every payload, and the shape of its result. */
  ghost predicate Conserved(es: seq<Exchange>, ps: seq<Packet>, index: nat) {
    && Probes(es) == Data(Only(ps, Inbound))
    && Responses(es) == Data(Only(FromFirstProbe(ps), Outbound))
    && (forall i :: 0 <= i < |es| ==> es[i].index == index + i && es[i].probe != [])
    && (forall i :: 0 <= i < |es| - 1 ==> es[i].response != [])
  }

  lemma EmptyConserves(index: nat)
    ensures Conserved(Group([], index), [], index)
  {
  }

  lemma {:induction false} GroupConserves(ps: seq<Packet>, index: nat)
    requires forall i :: 0 <= i < |ps| ==> ps[i].data != []
    ensures Conserved(Group(ps, index), ps, index)
    decreases |ps|
  {
    if ps == [] {
      EmptyConserves(index);
    } else if ps[0].dir.Outbound? {
      GroupConserves(ps[1..], index);
      EarlyConserves(ps, index);
    } else {
      hide *;
      var ins, outs, rest := FirstBlock(ps);
      PartsNonempty(ins, outs, rest);
      GroupStep(ps, index, ins, outs, rest);
      GroupConserves(rest, index + 1);
      assert rest == [] ==> Group(rest, index + 1) == [] by {
        NothingLeft(Progress([], None, index + 1));
      }
      BlockConserves(ps, index, ins, outs, rest, Group(rest, index + 1));
    }
  }

  lemma PartsNonempty(ins: seq<Packet>, outs: seq<Packet>, rest: seq<Packet>)
    requires var ps := ins + outs + rest; forall i :: 0 <= i < |ps| ==> ps[i].data != []
    ensures forall i :: 0 <= i < |ins| ==> ins[i].data != []
    ensures forall i :: 0 <= i < |outs| ==> outs[i].data != []
    ensures forall i :: 0 <= i < |rest| ==> rest[i].data != []
  {
    var ps := ins + outs + rest;
    assert (forall i :: 0 <= i < |ins| ==> ins[i] == ps[i]) &&
           (forall i :: 0 <= i < |outs| ==> outs[i] == ps[|ins| + i]) &&
           (forall i :: 0 <= i < |rest| ==> rest[i] == ps[|ins| + |outs| + i]);
  }

  lemma EarlyConserves(ps: seq<Packet>, index: nat)
    requires ps != [] && ps[0].dir.Outbound? && Conserved(Group(ps[1..], index), ps[1..], index)
    ensures Conserved(Group(ps, index), ps, index)
  {
    hide Data, RunLength, Pair, Probes, Responses;
    OnlyOther([ps[0]], Inbound, ps[1..]);
    assert [ps[0]] + ps[1..] == ps;
  }

  lemma BlockConserves(ps: seq<Packet>, index: nat, ins: seq<Packet>, outs: seq<Packet>, rest: seq<Packet>, es: seq<Exchange>)
    requires ps == (ins + outs) + rest && ins != [] && ps[0].dir.Inbound?
    requires forall i :: 0 <= i < |ins| ==> ins[i].dir.Inbound? && ins[i].data != []
    requires forall i :: 0 <= i < |outs| ==> outs[i].dir.Outbound? && outs[i].data != []
    requires rest != [] ==> outs != [] && rest[0].dir.Inbound?
    requires Conserved(es, rest, index + 1)
    requires es != [] ==> rest != []
    ensures Conserved([Pair(index, ins, outs)] + es, ps, index)
  {
    hide *;
    BlockProbes(ins, outs, rest);
    BlockResponses(ins, outs, rest);
    BlockJoins(ps, index, ins, outs, rest, es);
  }

  lemma BlockProbes(ins: seq<Packet>, outs: seq<Packet>, rest: seq<Packet>)
    requires forall i :: 0 <= i < |ins| ==> ins[i].dir.Inbound?
    requires forall i :: 0 <= i < |outs| ==> outs[i].dir.Outbound?
    ensures Data(Only(ins + outs + rest, Inbound)) == Data(ins) + Data(Only(rest, Inbound))
  {
    hide *;
    assert ins + outs + rest == ins + (outs + rest);
    OnlySame(ins, Inbound, outs + rest);
    OnlyOther(outs, Inbound, rest);
    DataAppend(ins, Only(rest, Inbound));
  }

  lemma BlockResponses(ins: seq<Packet>, outs: seq<Packet>, rest: seq<Packet>)
    requires forall i :: 0 <= i < |ins| ==> ins[i].dir.Inbound?
    requires forall i :: 0 <= i < |outs| ==> outs[i].dir.Outbound?
    ensures Data(Only(ins + outs + rest, Outbound)) == Data(outs) + Data(Only(rest, Outbound))
  {
    hide *;
    assert ins + outs + rest == ins + (outs + rest);
    OnlyOther(ins, Outbound, outs + rest);
    OnlySame(outs, Outbound, rest);
    DataAppend(outs, Only(rest, Outbound));
  }

  /** One exchange in front of what the rest conserves. */
  lemma {:induction false} BlockJoins(ps: seq<Packet>, index: nat, ins: seq<Packet>, outs: seq<Packet>, rest: seq<Packet>, es: seq<Exchange>)
    requires ps != [] && ps[0].dir.Inbound? && ins != [] && ins[0].data != []
    requires outs != [] ==> outs[0].data != []
    requires Data(Only(ps, Inbound)) == Data(ins) + Data(Only(rest, Inbound))
    requires Data(Only(ps, Outbound)) == Data(outs) + Data(Only(rest, Outbound))
    requires rest != [] ==> outs != [] && rest[0].dir.Inbound?
    requires Conserved(es, rest, index + 1)
    requires es != [] ==> rest != []
    ensures Conserved([Pair(index, ins, outs)] + es, ps, index)
  {
    assert FromFirstProbe(ps) == ps && FromFirstProbe(rest) == rest;
    var e := Pair(index, ins, outs);
    assert e.probe != [] && (outs != [] ==> e.response != []);
    hide Data, FromFirstProbe, Only, Pair;
    assert ([e] + es)[1..] == es;
  }

  /**
   * Every distinct inbound payload is a probe, every distinct outbound payload from the first probe on is a
   * response, both in order; probes are not empty and only the last exchange may lack a response.
   */
  lemma ExtractConserves(ps: seq<Packet>)
    ensures Conserved(Extract(ps), Distinct(ps), 0)
  {
    DistinctOnce(ps);
    GroupConserves(Distinct(ps), 0);
  }

  // ----- the session object -----

  /** The loop's state after the first n packets. */
  ghost function Prefix(ps: seq<Packet>, n: nat): Progress
    requires n <= |ps|
  {
    TakeAll(Progress([], None, 0), Distinct(ps[..n]))
  }

  ghost function Start(ps: seq<Packet>): (st: Progress)
    ensures st == Prefix(ps, 0) == Progress([], None, 0)
    ensures Seen({}, ps, 0, Inbound) && Seen({}, ps, 0, Outbound)
  {
    Progress([], None, 0)
  }

  lemma PrefixStep(ps: seq<Packet>, n: nat)
    requires n < |ps|
    ensures Prefix(ps, n + 1) == if Counts(ps, n) then Take(Prefix(ps, n), ps[n]) else Prefix(ps, n)
  {
    hide Counts, TakeAll, Take;
    CountsSplit(ps, n);
    TakeAllAppend(Progress([], None, 0), Distinct(ps[..n]), ps[n]);
    assert Distinct(ps[..n]) + [] == Distinct(ps[..n]);
  }

  lemma PrefixWhole(ps: seq<Packet>, before: seq<Exchange>, after: seq<Exchange>)
    requires var st := Prefix(ps, |ps|);
             after == before + st.closed + if st.current.Some? then [st.current.value] else []
    ensures after == before + Extract(ps)
  {
    hide Group, TakeAll;
    assert ps[..|ps|] == ps;
    DistinctOnce(ps);
    MachineGroups(Progress([], None, 0), Distinct(ps));
    assert [] + Extract(ps) == Extract(ps);
  }

  lemma CountsSplit(ps: seq<Packet>, n: nat)
    requires n < |ps|
    ensures Distinct(ps[..n + 1]) == Distinct(ps[..n]) + if Counts(ps, n) then [ps[n]] else []
  {
    assert ps[..n + 1][..n] == ps[..n];
    assert Counts(ps[..n + 1], n) == Counts(ps, n);
  }

  /** The payloads of one direction among the first n packets. */
  ghost predicate Seen(seen: set<seq<byte>>, ps: seq<Packet>, n: nat, d: Direction)
    requires n <= |ps|
  {
    forall x :: x in seen <==> x != [] && exists j :: 0 <= j < n && ps[j].dir == d && ps[j].data == x
  }

  /** What the two payload sets become when one more packet is looked at. */
  lemma SeenStep(seen: set<seq<byte>>, ps: seq<Packet>, n: nat, d: Direction)
    requires n < |ps| && Seen(seen, ps, n, d)
    ensures ps[n].dir == d && ps[n].data != [] ==> Seen(seen + {ps[n].data}, ps, n + 1, d)
    ensures ps[n].dir == d && ps[n].data != [] ==> (Counts(ps, n) <==> ps[n].data !in seen)
    ensures ps[n].data == [] ==> !Counts(ps, n)
    ensures ps[n].dir != d || ps[n].data == [] ==> Seen(seen, ps, n + 1, d)
  {
  }

  class CaptureSession {
    var packets: seq<Packet>
    var exchanges: seq<Exchange>

    constructor ()
      ensures packets == [] && exchanges == []
    {
      packets, exchanges := [], [];
    }

    method AddPacket(p: Packet)
      modifies this`packets
      ensures packets == old(packets) + [p]
    {
      packets := packets + [p];
    }

    /** One packet that counts: the current exchange and the next index after it. */
    method Consume(pkt: Packet, exchange: Option<Exchange>, index: nat, ghost before: seq<Exchange>, ghost st: Progress)
      returns (current: Option<Exchange>, exchangeIndex: nat)
      requires exchange == st.current && index == st.next && exchanges == before + st.closed
      requires exchange.Some? ==> exchange.value.probe != []
      modifies this`exchanges
      ensures current == Take(st, pkt).current && exchangeIndex == Take(st, pkt).next
      ensures exchanges == before + Take(st, pkt).closed
      ensures pkt.data != [] && current.Some? ==> current.value.probe != []
    {
      current, exchangeIndex := exchange, index;
      if pkt.dir.Inbound? {
        if current.None? || |current.value.response| > 0 {
          if current.Some? {
            exchanges := exchanges + [current.value];
          }
          current := Some(Exchange(exchangeIndex, [], [], pkt.time, 0, [], []));
          exchangeIndex := exchangeIndex + 1;
        }
        var e := current.value;
        current := Some(e.(probe := e.probe + pkt.data, probePackets := e.probePackets + [pkt]));
      } else if current.Some? {
        var e := current.value;
        if e.responseTime == 0 {
          e := e.(responseTime := pkt.time);
        }
        current := Some(e.(response := e.response + pkt.data, responsePackets := e.responsePackets + [pkt]));
      }
    }

    /** Empty packets and payloads already seen in the packet's direction do not count; others are marked as seen. */
    method Look(n: nat, seenIn: set<seq<byte>>, seenOut: set<seq<byte>>)
      returns (counts: bool, newIn: set<seq<byte>>, newOut: set<seq<byte>>)
      requires n < |packets| && Seen(seenIn, packets, n, Inbound) && Seen(seenOut, packets, n, Outbound)
      ensures counts == Counts(packets, n) && (counts ==> packets[n].data != [])
      ensures Seen(newIn, packets, n + 1, Inbound) && Seen(newOut, packets, n + 1, Outbound)
    {
      hide Seen, Counts;
      SeenStep(seenIn, packets, n, Inbound);
      SeenStep(seenOut, packets, n, Outbound);
      newIn, newOut := seenIn, seenOut;
      var pkt := packets[n];
      if |pkt.data| == 0 {
        counts := false;
      } else if pkt.dir.Inbound? {
        counts := pkt.data !in seenIn;
        newIn := newIn + {pkt.data};
      } else {
        counts := pkt.data !in seenOut;
        newOut := newOut + {pkt.data};
      }
    }

    method ExtractExchanges()
      modifies this`exchanges
      ensures exchanges == old(exchanges) + Extract(packets)
    {
      if |packets| == 0 {
        return;
      }
      hide *;
      var current: Option<Exchange> := None;
      var exchangeIndex := 0;
      var seenIn: set<seq<byte>>, seenOut: set<seq<byte>> := {}, {};
      ghost var before := exchanges;
      ghost var st := Start(packets);
      for i := 0 to |packets|
        invariant Seen(seenIn, packets, i, Inbound) && Seen(seenOut, packets, i, Outbound)
        invariant st == Prefix(packets, i)
        invariant exchanges == before + st.closed && current == st.current && exchangeIndex == st.next
        invariant current.Some? ==> current.value.probe != []
      {
        var counts;
        counts, seenIn, seenOut := Look(i, seenIn, seenOut);
        PrefixStep(packets, i);
        if counts {
          current, exchangeIndex := Consume(packets[i], current, exchangeIndex, before, st);
          st := Take(st, packets[i]);
        }
      }
      if current.Some? && |current.value.probe| > 0 {
        exchanges := exchanges + [current.value];
      }
      PrefixWhole(packets, before, exchanges);
    }
  }
}
