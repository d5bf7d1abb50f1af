/** The receiving side of the transport: acknowledgements, the duplicate filter
    and the conditional mode that keeps busy neighbours from taking a multicast
    out of turn. */
module RtpReceiver {
  import opened Prelude
  import R = Rtp

  /** What a router keeps about a neighbour it receives from. */
  datatype Peer = Peer(conditional: bool, nextMcast: uint32, recvSeq: uint32)

  /** A packet: its header, the neighbours listed in a sequence record, and the
      announced multicast number. */
  datatype Packet = Packet(hello: bool, conditional: bool, seqNum: uint32, ack: uint32,
                           listed: seq<R.NbrId>, announced: Option<uint32>)

  /** `acked` is the acknowledgement to process, `ackNow` a duplicate's answer. */
  datatype Result = Result(peer: Peer, accepted: bool, acked: Option<uint32>, ackNow: bool)

  /** The test for a packet not seen before. */
  predicate Fresh(recvSeq: uint32, seqNum: uint32) {
    seqNum == 0 || recvSeq < seqNum || (recvSeq == UINT32_MAX && seqNum == 1)
  }

  function Announce(p: Peer, pkt: Packet, me: R.NbrId): Peer {
    if !pkt.hello || pkt.listed == [] then p
    else Peer(me !in pkt.listed, if pkt.announced.Some? then pkt.announced.value else p.nextMcast, p.recvSeq)
  }

  function Receive(p: Peer, pkt: Packet, me: R.NbrId): Result {
    var a := Announce(p, pkt, me);
    if pkt.conditional && !a.conditional then Result(a, false, None, false)
    else
      var b := if pkt.conditional then a.(conditional := false) else a;
      if pkt.conditional && pkt.seqNum != b.nextMcast then Result(b, false, None, false)
      else
        var acked := if pkt.ack != 0 then Some(pkt.ack) else None;
        if !Fresh(b.recvSeq, pkt.seqNum) then Result(b, false, acked, true)
        else Result(if pkt.seqNum == 0 then b else b.(recvSeq := pkt.seqNum), true, acked, false)
  }

  /** What is on the wire, as the neighbour sees it. */
  function PacketOf(w: R.Wire): Packet {
    match w
    case Unicast(_, seqNum, _, conditional) => Packet(false, conditional, seqNum, 0, [], None)
    case Multicast(_, seqNum, _, conditional) => Packet(false, conditional, seqNum, 0, [], None)
    case HelloSeq(_, listed, seqNum) => Packet(true, false, 0, 0, listed, Some(seqNum))
  }

  lemma {:induction false} ListedAreBusy(nbrs: seq<R.Neighbour>, link: seq<R.NbrId>, k: nat, n: R.NbrId)
    requires k <= |link| && R.OnLink(link, |nbrs|)
    ensures n in R.NonEmpty(nbrs, link, k) <==> n in link[..k] && nbrs[n].queue != []
  {
    if k > 0 {
      ListedAreBusy(nbrs, link, k - 1, n);
      assert link[..k] == link[..k - 1] + [link[k - 1]];
    }
  }

  lemma {:induction false} BusyAreListed(nbrs: seq<R.Neighbour>, link: seq<R.NbrId>, k: nat)
    requires k <= |link| && R.OnLink(link, |nbrs|)
    ensures R.Busy(nbrs, link, k) > 0 ==> R.NonEmpty(nbrs, link, k) != []
  {
    if k > 0 { BusyAreListed(nbrs, link, k - 1); }
  }

  /** What a multicast puts on the wire. */
  lemma McastWire(t: R.Transport, link: seq<R.NbrId>, payload: R.Payload)
    requires R.OnLink(link, |t.nbrs|)
    requires 0 < R.Busy(t.nbrs, link, |link|) < R.Others(t.nbrs, link, |link|)
    ensures R.SendMcast(t, link, payload).wire == t.wire + [R.HelloSeq(link, R.NonEmpty(t.nbrs, link, |link|), t.seqNum)]
                                                         + [R.Multicast(link, t.seqNum, payload, true)]
  {}

  /** A neighbour that hears the hello takes the conditional multicast after it if
      and only if the sender has nothing else queued for it and the number is
      new; so no neighbour takes it ahead of packets it still has to be sent. */
  lemma ConditionalExact(t: R.Transport, link: seq<R.NbrId>, payload: R.Payload, n: R.NbrId, p: Peer)
    requires R.OnLink(link, |t.nbrs|) && n in link && t.seqNum != 0
    requires 0 < R.Busy(t.nbrs, link, |link|) < R.Others(t.nbrs, link, |link|)
    ensures var r := R.SendMcast(t, link, payload); var hello := r.wire[|t.wire|]; var mcast := r.wire[|t.wire| + 1];
            && |r.wire| == |t.wire| + 2 && hello.HelloSeq? && mcast.Multicast?
            && var heard := Receive(p, PacketOf(hello), n);
            heard.accepted && (Receive(heard.peer, PacketOf(mcast), n).accepted
                               <==> t.nbrs[n].queue == [] && Fresh(p.recvSeq, t.seqNum))
  {
    hide R.NonEmpty, R.SendMcast, R.Others, R.Busy;
    McastWire(t, link, payload);
    ListedAreBusy(t.nbrs, link, |link|, n);
    BusyAreListed(t.nbrs, link, |link|);
    assert link[..|link|] == link;
  }

  /** A neighbour with an empty queue is not counted as busy. */
  lemma {:induction false} IdleUnlessBusy(nbrs: seq<R.Neighbour>, link: seq<R.NbrId>, k: nat, n: R.NbrId)
    requires k <= |link| && R.OnLink(link, |nbrs|) && n in link[..k] && !nbrs[n].self
    ensures R.Others(nbrs, link, k) > 0
    ensures R.Busy(nbrs, link, k) == 0 ==> nbrs[n].queue == []
  {
    assert link[..k] == link[..k - 1] + [link[k - 1]];
    if n != link[k - 1] { IdleUnlessBusy(nbrs, link, k - 1, n); }
  }

  // ---------------------------------------------------------------- wrap-around

  /** The number used `k` packets after `s`. */
  function SeqAfter(s: uint32, k: nat): uint32 {
    if k == 0 then s else R.SeqInc(SeqAfter(s, k - 1))
  }

  lemma {:induction false} SeqAfterClosed(s: uint32, k: nat)
    requires s != 0 && k < UINT32_MAX
    ensures SeqAfter(s, k) as int == if s + k <= UINT32_MAX then s + k else s + k - UINT32_MAX
  {
    if k > 0 { SeqAfterClosed(s, k - 1); }
  }

  /** A neighbour whose last packet had number `s` takes the packet sent `k`
      packets later for a duplicate exactly when the numbers wrapped in between,
      unless that packet directly follows the largest number. */
  lemma WrapAroundExact(s: uint32, k: nat)
    requires s != 0 && 0 < k < UINT32_MAX
    ensures Fresh(s, SeqAfter(s, k)) <==> s + k <= UINT32_MAX || (s == UINT32_MAX && k == 1)
  {
    SeqAfterClosed(s, k);
  }

  /** Two packets apart across the wrap: the second is refused. */
  lemma WrapAroundRefuses()
    ensures SeqAfter(UINT32_MAX - 1, 2) == 1 && !Fresh(UINT32_MAX - 1, SeqAfter(UINT32_MAX - 1, 2))
  {
    SeqAfterClosed(UINT32_MAX - 1, 2);
  }

  class Neighbour {
    var conditional: bool
    var nextMcast: uint32
    var recvSeq: uint32

    ghost function View(): Peer
      reads this
    {
      Peer(conditional, nextMcast, recvSeq)
    }

    constructor ()
      ensures View() == Peer(false, 0, 0)
    {
      conditional, nextMcast, recvSeq := false, 0, 0;
    }

    method ReadAnnouncement(pkt: Packet, me: R.NbrId)
      modifies this
      ensures View() == Announce(old(View()), pkt, me)
    {
      if pkt.hello && pkt.listed != [] {
        conditional := true;
        for i := 0 to |pkt.listed|
          invariant conditional <==> me !in pkt.listed[..i]
          invariant nextMcast == old(nextMcast) && recvSeq == old(recvSeq)
        {
          assert pkt.listed[..i + 1] == pkt.listed[..i] + [pkt.listed[i]];
          if pkt.listed[i] == me {
            conditional := false;
          }
        }
        assert pkt.listed[..|pkt.listed|] == pkt.listed;
        if pkt.announced.Some? {
          nextMcast := pkt.announced.value;
        }
      }
    }

    method Take(pkt: Packet, me: R.NbrId) returns (accepted: bool, acked: Option<uint32>, ackNow: bool)
      modifies this
      ensures Result(View(), accepted, acked, ackNow) == Receive(old(View()), pkt, me)
    {
      accepted, acked, ackNow := false, None, false;
      ReadAnnouncement(pkt, me);
      if pkt.conditional {
        if !conditional {
          return;
        }
        conditional := false;
        if pkt.seqNum != nextMcast {
          return;
        }
      }
      if pkt.ack != 0 {
        acked := Some(pkt.ack);
      }
      if pkt.seqNum != 0 {
        if recvSeq >= pkt.seqNum && !(recvSeq == UINT32_MAX && pkt.seqNum == 1) {
          ackNow := true;
          return;
        }
        recvSeq := pkt.seqNum;
      }
      accepted := true;
    }
  }
}
