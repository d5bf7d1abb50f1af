/** The transport as the daemon runs it: queues, buffers and timers updated in
    place, each operation proved to compute the specified transition. */
module RtpSender {
  import opened Prelude
  import opened R = Rtp

  class Sender {
    var seqNum: uint32
    var nbrs: seq<Neighbour>
    var bufs: map<BufId, Buf>
    var nextBuf: BufId
    var frees: seq<BufId>
    var wire: seq<Wire>

    ghost function View(): Transport
      reads this
    {
      Transport(seqNum, nbrs, bufs, nextBuf, frees, wire)
    }

    constructor (first: uint32)
      requires first != 0
      ensures Init(View()) && View().seqNum == first
    {
      seqNum, nbrs, bufs, nextBuf, frees, wire := first, [], map[], 0, [], [];
    }

    method SetPacket(n: NbrId, i: nat, p: Packet)
      requires n < |nbrs| && i < |nbrs[n].queue|
      modifies this`nbrs
      ensures nbrs == SetQueue(old(nbrs), n, old(nbrs[n].queue)[i := p])
    {
      nbrs := nbrs[n := nbrs[n].(queue := nbrs[n].queue[i := p])];
    }

    /** A new buffer has no holder yet. */
    method BufNew(payload: Payload, conditional: bool) returns (b: BufId)
      modifies this`bufs, this`nextBuf
      ensures b == old(nextBuf) && nextBuf == b + 1 && bufs == old(bufs)[b := Buf(payload, 0, conditional)]
    {
      b := nextBuf;
      bufs := bufs[b := Buf(payload, 0, conditional)];
      nextBuf := nextBuf + 1;
    }

    method PacketNew(b: BufId) returns (p: Packet)
      requires b in bufs
      modifies this`bufs
      ensures p == Packet(seqNum, b, 1, false, 0)
      ensures bufs == old(bufs)[b := old(bufs)[b].(refcnt := old(bufs)[b].refcnt + 1)]
    {
      bufs := bufs[b := bufs[b].(refcnt := bufs[b].refcnt + 1)];
      p := Packet(seqNum, b, 1, false, 0);
    }

    method BufRelease(b: BufId)
      requires b in bufs && bufs[b].refcnt > 0
      modifies this`bufs, this`frees
      ensures View() == Release(old(View()), b)
    {
      bufs := bufs[b := bufs[b].(refcnt := bufs[b].refcnt - 1)];
      if bufs[b].refcnt == 0 {
        frees := frees + [b];
        bufs := bufs - {b};
      }
      assert bufs == Release(old(View()), b).bufs;
    }

    /** Remove the first packet of a queue, wherever its timer stands. */
    method PacketDel(n: NbrId)
      requires RefsOk(View()) && n < |nbrs| && nbrs[n].queue != []
      modifies this`nbrs, this`bufs, this`frees
      ensures View() == Dequeue(old(View()), n)
    {
      var b := nbrs[n].queue[0].buf;
      QueuedIsLive(View(), n, 0);
      nbrs := nbrs[n := nbrs[n].(queue := nbrs[n].queue[1..])];
      BufRelease(b);
    }

    method SendPacket(n: NbrId, i: nat)
      requires RefsOk(View()) && n < |nbrs| && i < |nbrs[n].queue|
      modifies this`nbrs, this`wire
      ensures View() == Send(old(View()), n, i)
    {
      var p := nbrs[n].queue[i];
      QueuedIsLive(View(), n, i);
      SetPacket(n, i, p.(timer := true, sent := p.sent + 1));
      wire := wire + [Unicast(n, p.seqNum, bufs[p.buf].payload, bufs[p.buf].conditional)];
    }

    method AdvanceSeq()
      modifies this`seqNum
      ensures seqNum == SeqInc(old(seqNum)) && seqNum != 0
    {
      seqNum := (seqNum + 1) % 0x1_0000_0000;
      if seqNum == 0 {
        seqNum := 1;
      }
    }

    method QueueUcast(n: NbrId, payload: Payload)
      requires n < |nbrs|
      modifies this
      ensures View() == SendUcast(old(View()), n, payload)
    {
      var b := BufNew(payload, false);
      var p := PacketNew(b);
      if nbrs[n].queue == [] {
        p := p.(timer := true, sent := 1);
        wire := wire + [Unicast(n, p.seqNum, payload, false)];
      }
      nbrs := nbrs[n := nbrs[n].(queue := nbrs[n].queue + [p])];
      AdvanceSeq();
      assert bufs == old(bufs)[b := Buf(payload, 1, false)];
      assert wire == SendUcast(old(View()), n, payload).wire;
    }

    method CountLink(link: seq<NbrId>) returns (total: nat, pending: nat)
      requires OnLink(link, |nbrs|)
      ensures total == Others(nbrs, link, |link|) && pending == Busy(nbrs, link, |link|)
    {
      total, pending := 0, 0;
      for i := 0 to |link|
        invariant total == Others(nbrs, link, i) && pending == Busy(nbrs, link, i)
      {
        if !nbrs[link[i]].self {
          if nbrs[link[i]].queue != [] {
            pending := pending + 1;
          }
          total := total + 1;
        }
      }
    }

    /** The neighbours told to ignore the conditional multicast. */
    method ListBusy(link: seq<NbrId>) returns (listed: seq<NbrId>)
      requires OnLink(link, |nbrs|)
      ensures listed == NonEmpty(nbrs, link, |link|)
    {
      listed := [];
      for i := 0 to |link|
        invariant listed == NonEmpty(nbrs, link, i)
      {
        if nbrs[link[i]].queue != [] {
          listed := listed + [link[i]];
        }
      }
    }

    method QueueMcast(link: seq<NbrId>, payload: Payload)
      requires OnLink(link, |nbrs|)
      modifies this
      ensures View() == SendMcast(old(View()), link, payload)
    {
      hide Others, Busy, NonEmpty;
      var total, pending := CountLink(link);
      if total == 0 {
        return;
      }
      var conditional := false;
      if pending < total {
        if pending > 0 {
          conditional := true;
          var listed := ListBusy(link);
          wire := wire + [HelloSeq(link, listed, seqNum)];
        }
        wire := wire + [Multicast(link, seqNum, payload, conditional)];
      }
      ghost var sent := wire;
      assert sent == SendMcast(old(View()), link, payload).wire;
      var b := BufNew(payload, conditional);
      ghost var p := Packet(seqNum, b, 1, false, 0);
      for i := 0 to |link|
        invariant nbrs == Append(old(nbrs), link, p, i)
        invariant bufs == old(bufs)[b := Buf(payload, i, conditional)] && nextBuf == b + 1
        invariant seqNum == old(seqNum) && frees == old(frees) && wire == sent
      {
        var q := PacketNew(b);
        nbrs := nbrs[link[i] := nbrs[link[i]].(queue := nbrs[link[i]].queue + [q])];
      }
      AdvanceSeq();
    }

    method HandleAck(n: NbrId, ack: uint32)
      requires RefsOk(View()) && n < |nbrs|
      modifies this
      ensures View() == ProcessAck(old(View()), n, ack)
    {
      hide RefsOk;
      if nbrs[n].queue != [] && nbrs[n].queue[0].seqNum == ack {
        DequeueKeeps(View(), n);
        PacketDel(n);
        if nbrs[n].queue != [] {
          SendPacket(n, 0);
        }
      }
    }

    method DeleteNbr(n: NbrId)
      requires RefsOk(View()) && n < |nbrs|
      modifies this
      ensures View() == NbrDel(old(View()), n)
    {
      hide RefsOk;
      while nbrs[n].queue != []
        invariant n < |nbrs| && RefsOk(View())
        invariant Drain(View(), n) == Drain(old(View()), n)
        decreases |nbrs[n].queue|
      {
        DequeueKeeps(View(), n);
        PacketDel(n);
      }
      nbrs := nbrs[n := nbrs[n].(alive := false)];
    }

    method AddNbr(self: bool)
      modifies this`nbrs
      ensures View() == NbrNew(old(View()), self)
    {
      nbrs := nbrs + [Neighbour(true, self, [])];
    }

    method RetransTimer(n: NbrId, i: nat)
      requires RefsOk(View()) && n < |nbrs| && i < |nbrs[n].queue|
      modifies this
      ensures View() == Timeout(old(View()), n, i)
    {
      hide RefsOk, Drain;
      var p := nbrs[n].queue[i];
      if p.attempts + 1 > MAX_ATTEMPTS {
        DeleteNbr(n);
        return;
      }
      SameHolders(View(), n, nbrs[n].queue[i := p.(attempts := p.attempts + 1, timer := false)]);
      SetPacket(n, i, p.(attempts := p.attempts + 1, timer := false));
      SendPacket(n, i);
    }
  }
}
