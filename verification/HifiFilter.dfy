/** The send path of the kernel filter while it is armed. */
module HifiFilter {
  import opened Bytes
  import opened IpChecksum

  /** A net buffer: its first mapped MDL (null when it cannot be mapped) and the offset of the frame. */
  datatype NetBuffer = NetBuffer(mdl: array?<byte>, off: nat)

  /** A list of buffers with its large-send and checksum-offload requests. */
  datatype NetBufferList = NetBufferList(largeSend: bool, checksumOffload: bool, nbs: seq<NetBuffer>)

  /** Where the IPv4 header of the Ethernet frame at off starts, if a header may be there at all. */
  function IpStart(s: seq<byte>, off: nat): (r: Option<nat>)
    ensures r.Some? ==> r.value + 20 <= |s|
  {
    if off + 34 > |s| then None
    else if Dec16(s, off + 12) == 0x8100 then
      if |s| - off < 38 || Dec16(s, off + 16) != 0x0800 then None else Some(off + 18)
    else if Dec16(s, off + 12) != 0x0800 then None else Some(off + 14)
  }

  /** A frame that draws an ICMP identification. */
  predicate DrawsId(s: seq<byte>, off: nat) {
    var p := IpStart(s, off);
    p.Some? && s[p.value] / 16 == 4 && s[p.value + 9] == PROTO_ICMP
  }

  /** The frame as it leaves: outside its IPv4 packet it is unchanged. */
  ghost predicate FrameSent(s: seq<byte>, r: seq<byte>, off: nat, icmpId: uint16, recompute: bool) {
    match IpStart(s, off)
    case None => r == s
    case Some(p) =>
      && |r| == |s| && r[..p] == s[..p]
      && Rewritten(s[p..], r[p..], WantedId(s[p..], 1, if DrawsId(s, off) then icmpId else 0), recompute)
  }

  function Frame(nb: NetBuffer): seq<byte>
    reads if nb.mdl == null then {} else {nb.mdl}
  {
    if nb.mdl == null then [] else nb.mdl[..]
  }

  ghost function Mdls(nbs: seq<NetBuffer>): set<object> {
    set j | 0 <= j < |nbs| && nbs[j].mdl != null :: nbs[j].mdl as object
  }

  ghost predicate Distinct(nbs: seq<NetBuffer>) {
    forall i, j :: 0 <= i < j < |nbs| && nbs[i].mdl != null ==> nbs[i].mdl != nbs[j].mdl
  }

  /** How many of the first n frames draw an identification. */
  ghost function Draws(frames: seq<seq<byte>>, nbs: seq<NetBuffer>, n: nat): nat
    requires n <= |frames| && n <= |nbs|
  {
    if n == 0 then 0
    else Draws(frames, nbs, n - 1) + if DrawsId(frames[n - 1], nbs[n - 1].off) then 1 else 0
  }

  /** The number the frame at place j is sent with, if the counter stood at c before the list. */
  ghost function IdAt(c: uint16, frames: seq<seq<byte>>, nbs: seq<NetBuffer>, j: nat): uint16
    requires j <= |frames| && j <= |nbs|
  {
    (c as int + Draws(frames, nbs, j)) % 0x1_0000
  }

  lemma IdStep(c: uint16, frames: seq<seq<byte>>, nbs: seq<NetBuffer>, j: nat)
    requires j < |frames| && j < |nbs|
    ensures IdAt(c, frames, nbs, j + 1) ==
            (IdAt(c, frames, nbs, j) as int + if DrawsId(frames[j], nbs[j].off) then 1 else 0) % 0x1_0000
  {
  }

  ghost method Snapshot(nbs: seq<NetBuffer>) returns (frames: seq<seq<byte>>)
    ensures |frames| == |nbs| && forall j :: 0 <= j < |nbs| ==> frames[j] == Frame(nbs[j])
  {
    frames := [];
    for i := 0 to |nbs|
      invariant |frames| == i && forall j :: 0 <= j < i ==> frames[j] == Frame(nbs[j])
    {
      frames := frames + [Frame(nbs[i])];
    }
  }

  ghost method SnapshotAll(lists: seq<NetBufferList>) returns (before: seq<seq<seq<byte>>>)
    ensures |before| == |lists|
    ensures forall l :: 0 <= l < |lists| ==> |before[l]| == |lists[l].nbs|
    ensures forall l :: 0 <= l < |lists| ==> ListKept(lists[l], before[l])
  {
    before := [];
    for k := 0 to |lists|
      invariant |before| == k
      invariant forall l :: 0 <= l < k ==> |before[l]| == |lists[l].nbs| && ListKept(lists[l], before[l])
    {
      var frames := Snapshot(lists[k].nbs);
      before := before + [frames];
    }
  }

  /** The counter before list l, if it stood at c before the first one and large-send lists draw nothing. */
  ghost function StartOf(c: uint16, before: seq<seq<seq<byte>>>, lists: seq<NetBufferList>, l: nat): uint16
    requires |before| == |lists| && forall k :: 0 <= k < |lists| ==> |before[k]| == |lists[k].nbs|
    requires l <= |lists|
  {
    if l == 0 then c
    else
      var start := StartOf(c, before, lists, l - 1);
      if lists[l - 1].largeSend then start else IdAt(start, before[l - 1], lists[l - 1].nbs, |lists[l - 1].nbs|)
  }

  /** The frames of one list as they leave, the counter having stood at c before it. */
  ghost predicate ListSent(list: NetBufferList, before: seq<seq<byte>>, c: uint16)
    requires |before| == |list.nbs|
    reads Mdls(list.nbs)
  {
    forall j :: 0 <= j < |list.nbs| ==>
      if list.largeSend then Frame(list.nbs[j]) == before[j]
      else FrameSent(before[j], Frame(list.nbs[j]), list.nbs[j].off, IdAt(c, before, list.nbs, j + 1), !list.checksumOffload)
  }

  /** The frames of one list as they were. */
  ghost predicate ListKept(list: NetBufferList, before: seq<seq<byte>>)
    requires |before| == |list.nbs|
    reads Mdls(list.nbs)
  {
    forall j :: 0 <= j < |list.nbs| ==> Frame(list.nbs[j]) == before[j]
  }

  class Filter {
    var icmpId: uint16

    /** One buffer of an armed send. */
    method SendBuffer(nb: NetBuffer, recompute: bool)
      modifies this`icmpId, if nb.mdl == null then {} else {nb.mdl}
      ensures icmpId == (old(icmpId) as int + if DrawsId(old(Frame(nb)), nb.off) then 1 else 0) % 0x1_0000
      ensures FrameSent(old(Frame(nb)), Frame(nb), nb.off, icmpId, recompute)
    {
      hide Rewritten, WantedId;
      if nb.mdl == null {
        return;
      }
      var eth, off := nb.mdl, nb.off;
      if off + 34 > eth.Length {
        return;
      }
      var avail := eth.Length - off;
      var et := eth[off + 12] as int * 0x100 + eth[off + 13];
      var l2 := 14;
      if et == 0x8100 {
        if avail < 38 {
          return;
        }
        et := eth[off + 16] as int * 0x100 + eth[off + 17];
        l2 := 18;
      }
      if et != 0x0800 {
        return;
      }
      var ip := off + l2;
      var id: uint16 := 0;
      if eth.Length - ip >= 10 && eth[ip] / 16 == 4 && eth[ip + 9] == PROTO_ICMP {
        icmpId := (icmpId as int + 1) % 0x1_0000;
        id := icmpId;
      }
      assert eth[..][ip..] == eth[ip..] && eth[..][..ip] == eth[..ip];
      var _ := RewriteIpId(eth, ip, 1, id, recompute);
      assert eth[..][ip..] == eth[ip..] && eth[..][..ip] == eth[..ip];
    }

    /** The buffers of one list, each its own memory: every frame gets the next number if it draws one. */
    method SendList(nbs: seq<NetBuffer>, recompute: bool) returns (ghost frames: seq<seq<byte>>)
      requires Distinct(nbs)
      modifies this`icmpId, Mdls(nbs)
      ensures |frames| == |nbs| && forall j :: 0 <= j < |nbs| ==> frames[j] == old(Frame(nbs[j]))
      ensures icmpId == IdAt(old(icmpId), frames, nbs, |nbs|)
      ensures forall j :: 0 <= j < |nbs| ==>
                FrameSent(frames[j], Frame(nbs[j]), nbs[j].off, IdAt(old(icmpId), frames, nbs, j + 1), recompute)
    {
      hide DrawsId, FrameSent, IdAt;
      frames := Snapshot(nbs);
      IdStart(icmpId, frames, nbs);
      for i := 0 to |nbs|
        invariant icmpId == IdAt(old(icmpId), frames, nbs, i)
        invariant forall j :: i <= j < |nbs| ==> Frame(nbs[j]) == frames[j]
        invariant forall j :: 0 <= j < i ==>
                    FrameSent(frames[j], Frame(nbs[j]), nbs[j].off, IdAt(old(icmpId), frames, nbs, j + 1), recompute)
      {
        label Before:
        SendBuffer(nbs[i], recompute);
        IdStep(old(icmpId), frames, nbs, i);
        assert forall j :: 0 <= j < |nbs| && j != i ==> Frame(nbs[j]) == old@Before(Frame(nbs[j]));
      }
    }

    /**
     * Large-send lists are left alone; in all others each frame that draws an identification gets the number after the
     * one drawn last, across lists; the checksum is recomputed only where the NIC will not.
     */
    method Send(lists: seq<NetBufferList>) returns (ghost before: seq<seq<seq<byte>>>)
      requires forall l :: 0 <= l < |lists| ==> Distinct(lists[l].nbs)
      requires forall l, m :: 0 <= l < m < |lists| ==> Mdls(lists[l].nbs) !! Mdls(lists[m].nbs)
      modifies this`icmpId, set l, o | 0 <= l < |lists| && o in Mdls(lists[l].nbs) :: o
      ensures |before| == |lists| && forall l :: 0 <= l < |lists| ==> |before[l]| == |lists[l].nbs|
      ensures forall l :: 0 <= l < |lists| ==> old(ListKept(lists[l], before[l]))
      ensures icmpId == StartOf(old(icmpId), before, lists, |lists|)
      ensures forall l :: 0 <= l < |lists| ==> ListSent(lists[l], before[l], StartOf(old(icmpId), before, lists, l))
    {
      hide ListKept, ListSent, StartOf, IdAt, Frame, FrameSent, DrawsId;
      before := SnapshotAll(lists);
      StartNone(icmpId, before, lists);
      for k := 0 to |lists|
        invariant icmpId == StartOf(old(icmpId), before, lists, k)
        invariant forall l :: k <= l < |lists| ==> ListKept(lists[l], before[l])
        invariant forall l :: 0 <= l < k ==> ListSent(lists[l], before[l], StartOf(old(icmpId), before, lists, l))
      {
        StartStep(old(icmpId), before, lists, k);
        SendUnlessLarge(lists[k], before[k]);
      }
    }

    method SendUnlessLarge(list: NetBufferList, ghost before: seq<seq<byte>>)
      requires Distinct(list.nbs) && |before| == |list.nbs| && ListKept(list, before)
      modifies this`icmpId, Mdls(list.nbs)
      ensures ListSent(list, before, old(icmpId))
      ensures icmpId == if list.largeSend then old(icmpId) else IdAt(old(icmpId), before, list.nbs, |list.nbs|)
    {
      hide DrawsId, FrameSent, IdAt;
      if !list.largeSend {
        ghost var frames := SendList(list.nbs, !list.checksumOffload);
        assert frames == before;
      }
    }
  }

  lemma StartNone(c: uint16, before: seq<seq<seq<byte>>>, lists: seq<NetBufferList>)
    requires |before| == |lists| && forall k :: 0 <= k < |lists| ==> |before[k]| == |lists[k].nbs|
    ensures StartOf(c, before, lists, 0) == c
  {
  }

  lemma StartStep(c: uint16, before: seq<seq<seq<byte>>>, lists: seq<NetBufferList>, l: nat)
    requires |before| == |lists| && forall k :: 0 <= k < |lists| ==> |before[k]| == |lists[k].nbs|
    requires l < |lists|
    ensures var start := StartOf(c, before, lists, l);
            StartOf(c, before, lists, l + 1) ==
            if lists[l].largeSend then start else IdAt(start, before[l], lists[l].nbs, |lists[l].nbs|)
  {
  }

  lemma IdStart(c: uint16, frames: seq<seq<byte>>, nbs: seq<NetBuffer>)
    ensures IdAt(c, frames, nbs, 0) == c
  {
  }
}
