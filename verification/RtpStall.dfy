/** Packets of the reliable transport that nothing sends again: a multicast's
    copies at idle neighbours and at the router itself have no timer. */
module RtpStall {
  import opened Rtp
  import C = RtpChannel

  /** Neighbour `n` has a queue whose first packet was never unicast. */
  predicate Untimed(t: Transport, n: NbrId) {
    Live(t, n) && t.nbrs[n].queue != [] && !t.nbrs[n].queue[0].timer
  }

  /** Steps of a run, from any state. */
  ghost predicate Steps(states: seq<Transport>, events: seq<Event>) {
    && |states| == |events| + 1 && Inv(states[0])
    && forall i :: 0 <= i < |events| ==> Enabled(states[i], events[i]) && states[i + 1] == Next(states[i], events[i])
  }

  /** The neighbour stays, its queue only grows and nothing is unicast to it. */
  ghost predicate Waits(t: Transport, r: Transport, n: NbrId) {
    && Live(t, n) && Live(r, n) && t.nbrs[n].queue <= r.nbrs[n].queue
    && forall w :: w in r.wire && w.Unicast? && w.to == n ==> w in t.wire
  }

  lemma McastWaits(t: Transport, link: seq<NbrId>, payload: Payload, n: NbrId)
    requires Inv(t) && Enabled(t, EvMcast(link, payload)) && Live(t, n)
    ensures Waits(t, SendMcast(t, link, payload), n)
    ensures n in link && Others(t.nbrs, link, |link|) > 0 ==>
              SendMcast(t, link, payload).nbrs[n].queue == t.nbrs[n].queue + [Packet(t.seqNum, t.nextBuf, 1, false, 0)]
    ensures n !in link || Others(t.nbrs, link, |link|) == 0 ==> SendMcast(t, link, payload).nbrs[n] == t.nbrs[n]
  {
    hide Inv, Append, Others, Busy, NonEmpty;
    AppendAt(t.nbrs, link, Packet(t.seqNum, t.nextBuf, 1, false, 0), |link|, n);
    assert link[..|link|] == link;
  }

  /** Only the acknowledgement of the first packet, or the end of the neighbour,
      ends the wait. */
  lemma StepWaits(t: Transport, e: Event, n: NbrId)
    requires Inv(t) && Enabled(t, e) && Untimed(t, n)
    requires e != EvAck(n, t.nbrs[n].queue[0].seqNum) && e != EvNbrDel(n)
    ensures Waits(t, Next(t, e), n) && Untimed(Next(t, e), n)
  {
    hide RefsOk, SendMcast, Drain;
    if !C.Touches(e, n) {
      hide Next;
      C.UntouchedSame(t, e, n);
    } else if e.EvMcast? {
      McastWaits(t, e.link, e.payload, n);
    }
  }

  /** From then on, over any number of events: a packet queued by a multicast at
      an empty queue is never sent again, it holds up all later ones, and its
      buffer stays allocated. */
  lemma {:induction false} HeadWaits(states: seq<Transport>, events: seq<Event>, n: NbrId, k: nat)
    requires Steps(states, events) && k < |states| && Untimed(states[0], n)
    requires forall i :: 0 <= i < k ==> events[i] != EvAck(n, states[0].nbrs[n].queue[0].seqNum) && events[i] != EvNbrDel(n)
    ensures Inv(states[k]) && Waits(states[0], states[k], n) && Untimed(states[k], n)
    ensures forall p :: p in states[0].nbrs[n].queue ==> p.buf in states[k].bufs
  {
    hide RefsOk, QueuesOk, Next;
    if k > 0 {
      HeadWaits(states, events, n, k - 1);
      NextKeeps(states[k - 1], events[k - 1]);
      StepWaits(states[k - 1], events[k - 1], n);
    }
    forall p | p in states[0].nbrs[n].queue ensures p.buf in states[k].bufs {
      var i :| 0 <= i < |states[0].nbrs[n].queue| && states[0].nbrs[n].queue[i] == p;
      assert states[k].nbrs[n].queue[i] == p;
      QueuedIsLive(states[k], n, i);
    }
  }

  /** Events that do not address neighbour `n`, as all are for the router's own
      entry: it is never unicast to and acknowledges nothing. */
  predicate Spares(e: Event, n: NbrId) {
    !(e.EvUcast? && e.n == n) && !(e.EvAck? && e.n == n) && e != EvNbrDel(n)
  }

  lemma StepSpares(t: Transport, e: Event, n: NbrId)
    requires Inv(t) && Enabled(t, e) && Spares(e, n)
    requires Live(t, n) && (t.nbrs[n].queue == [] || Untimed(t, n))
    ensures Live(Next(t, e), n) && (Next(t, e).nbrs[n].queue == [] || Untimed(Next(t, e), n))
  {
    hide RefsOk, SendMcast, Drain;
    if !C.Touches(e, n) {
      hide Next;
      C.UntouchedSame(t, e, n);
    } else if e.EvMcast? {
      McastWaits(t, e.link, e.payload, n);
    }
  }

  lemma {:induction false} RunSpares(states: seq<Transport>, events: seq<Event>, n: NbrId, k: nat)
    requires Steps(states, events) && k < |states| && Live(states[0], n) && states[0].nbrs[n].queue == []
    requires forall i :: 0 <= i < k ==> Spares(events[i], n)
    ensures Inv(states[k]) && Live(states[k], n) && (states[k].nbrs[n].queue == [] || Untimed(states[k], n))
  {
    hide RefsOk, QueuesOk, Next;
    if k > 0 {
      RunSpares(states, events, n, k - 1);
      NextKeeps(states[k - 1], events[k - 1]);
      StepSpares(states[k - 1], events[k - 1], n);
    }
  }

  /** Once the router's own entry is on a link, the buffer of no multicast sent
      there is freed as long as that entry exists, however many neighbours
      acknowledge it. */
  lemma OwnEntryPins(states: seq<Transport>, events: seq<Event>, n: NbrId, k: nat, j: nat)
    requires Steps(states, events) && k < j < |states| && Live(states[0], n) && states[0].nbrs[n].queue == []
    requires forall i :: 0 <= i < j ==> Spares(events[i], n)
    requires events[k].EvMcast? && n in events[k].link
    requires OnLink(events[k].link, |states[k].nbrs|) && Others(states[k].nbrs, events[k].link, |events[k].link|) > 0
    ensures states[k].nextBuf in states[j].bufs && states[k].nextBuf !in states[j].frees
  {
    hide QueuesOk, SendMcast, Others, Holds;
    RunSpares(states, events, n, k);
    McastWaits(states[k], events[k].link, events[k].payload, n);
    NextKeeps(states[k], events[k]);
    var p := Packet(states[k].seqNum, states[k].nextBuf, 1, false, 0);
    assert states[k + 1].nbrs[n].queue[|states[k].nbrs[n].queue|] == p;
    HeadWaits(states[k + 1..], events[k + 1..], n, j - (k + 1));
  }
}
