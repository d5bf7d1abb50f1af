/** What becomes of a neighbour that cannot take the packet at the head of its
    queue: one that was busy at a conditional multicast is deleted after sixteen
    timeouts, one that missed a plain multicast waits. */
module RtpBlocked {
  import opened Prelude
  import opened RtpChannel
  import R = Rtp
  import V = RtpReceiver
  import W = RtpStall

  // ---------------------------------------------------------------- busy at a conditional multicast

  predicate Alive(l: Link) {
    R.Live(l.tx, l.peer)
  }

  /** Message `i`, listed as in `Listed`, is at the head of the queue and timed. */
  ghost predicate AtHead(l: Link, s: uint32, i: nat) {
    && Listed(l, s, i) && l.done == i
    && (Alive(l) ==> l.tx.nbrs[l.peer].queue != [] && l.tx.nbrs[l.peer].queue[0].timer && Tries(l) >= 1)
  }

  function Tries(l: Link): nat {
    if Alive(l) && l.tx.nbrs[l.peer].queue != [] then l.tx.nbrs[l.peer].queue[0].attempts else 0
  }

  predicate TimesOut(e: Event, peer: R.NbrId) {
    e.Local? && e.e.EvTimeout? && e.e.n == peer
  }

  /** Nothing moves the head on; only its timer does anything to it. */
  lemma HeadLocal(l: Link, e: R.Event, s: uint32, i: nat)
    requires Sound(l) && Enabled(l, Local(e)) && AtHead(l, s, i) && Alive(l)
    ensures var r := Next(l, Local(e));
            Alive(r) ==> && r.tx.nbrs[l.peer].queue != [] && r.tx.nbrs[l.peer].queue[0].timer
                         && Tries(r) == Tries(l) + if TimesOut(Local(e), l.peer) then 1 else 0
  {
    hide R.RefsOk, R.SendMcast, R.Drain, R.Inv, WireOk, AcceptedOk, Increasing, Listed;
    assert R.Inv(l.tx) && l.peer < |l.tx.nbrs|;
    if !Touches(e, l.peer) {
      UntouchedSame(l.tx, e, l.peer);
    } else if e.EvMcast? {
      W.McastWaits(l.tx, e.link, e.payload, l.peer);
    } else if e.EvTimeout? {
      R.TimeoutKeeps(l.tx, e.n, e.i);
      R.NbrDelKeeps(l.tx, e.n);
    } else if e.EvNbrDel? {
      R.NbrDelKeeps(l.tx, e.n);
    }
  }

  lemma HeadStays(l: Link, e: Event, s: uint32, i: nat)
    requires Sound(l) && Enabled(l, e) && AtHead(l, s, i)
    ensures AtHead(Next(l, e), s, i)
    ensures Alive(Next(l, e)) ==> Alive(l) && Tries(Next(l, e)) == Tries(l) + if TimesOut(e, l.peer) then 1 else 0
  {
    hide R.Inv, R.Next, R.Enabled, Sound, Listed, V.Receive, R.ProcessAck;
    ListedKeeps(l, e, s, i);
    if e.DeliverAck? && e.ack != 0 && HeadIs(l, e.ack) {
      AckMeansAccepted(l, e.ack);
      ListedMeans(l, s, i);
      assert false;
    }
    if e.Local? {
      if Alive(l) { HeadLocal(l, e.e, s, i); } else { DeadStays(l, e.e); }
    }
  }

  lemma DeadStays(l: Link, e: R.Event)
    requires Sound(l) && Enabled(l, Local(e)) && !Alive(l)
    ensures !Alive(Next(l, Local(e)))
  {
    hide R.RefsOk, R.QueuesOk;
    assert !Touches(e, l.peer) || e.EvMcast?;
    if !Touches(e, l.peer) { UntouchedSame(l.tx, e, l.peer); }
  }

  /** An acknowledgement that brings message `i` to the head sends it and starts
      its timer. */
  lemma BecomesHead(l: Link, e: Event, s: uint32, i: nat)
    requires Sound(l) && Enabled(l, e) && Listed(l, s, i) && l.done < i && Next(l, e).done == i
    ensures AtHead(Next(l, e), s, i) && (Alive(Next(l, e)) ==> Tries(Next(l, e)) == 1)
  {
    hide R.RefsOk, WireOk, Increasing, Listed;
    ListedKeeps(l, e, s, i);
    ListedMeans(l, s, i);
    R.DequeueKeeps(l.tx, l.peer);
  }

  /** At step `k` a conditional multicast goes out while the neighbour is busy. */
  ghost predicate BusyAt(states: seq<Link>, events: seq<Event>, k: nat) {
    && Run(states, events) && k < |events| && events[k].Local? && events[k].e.EvMcast?
    && var l, link := states[k], events[k].e.link;
       && l.peer in link && R.Enabled(l.tx, events[k].e) && Conditional(l.tx, link)
       && l.peer < |l.tx.nbrs| && l.tx.nbrs[l.peer].queue != []
  }

  lemma QueuedBehind(l: Link)
    requires Sound(l) && Alive(l) && l.tx.nbrs[l.peer].queue != []
    ensures l.done < |l.queued|
  {}

  lemma DoneWithin(l: Link, s: uint32, i: nat)
    requires Sound(l) && Listed(l, s, i)
    ensures l.done <= i
  {}

  lemma McastDone(l: Link, e: R.Event)
    requires Enabled(l, Local(e))
    ensures Next(l, Local(e)).done == l.done && Next(l, Local(e)).peer == l.peer
  {}

  /** What precedes it may still be acknowledged; it may become the head, and then
      it is timed, but it never leaves the queue. */
  lemma {:induction false} NeverPast(states: seq<Link>, events: seq<Event>, k: nat, j: nat)
    requires BusyAt(states, events, k) && k < j < |states|
    ensures Sound(states[j]) && Listed(states[j], states[k].tx.seqNum, |states[k].queued|)
    ensures states[j].done <= |states[k].queued|
    ensures states[j].done == |states[k].queued| ==> AtHead(states[j], states[k].tx.seqNum, |states[k].queued|)
    decreases j
  {
    hide R.Inv, R.Next, R.Enabled, Next, Enabled, Sound, Listed, AtHead, Conditional;
    var s, i := states[k].tx.seqNum, |states[k].queued|;
    RunSound(states, events, j);
    RunSound(states, events, j - 1);
    BusyNeverAccepts(states, events, k, j);
    DoneWithin(states[j], s, i);
    if j == k + 1 {
      assert states[k].done < i by { LiveAt(states[k], events[k].e); QueuedBehind(states[k]); }
      McastDone(states[k], events[k].e);
    } else {
      NeverPast(states, events, k, j - 1);
      if states[j - 1].done == i { HeadStays(states[j - 1], events[j - 1], s, i); }
      else if states[j].done == i { BecomesHead(states[j - 1], events[j - 1], s, i); }
    }
  }

  lemma LiveAt(l: Link, e: R.Event)
    requires R.Enabled(l.tx, e) && e.EvMcast? && l.peer in e.link
    ensures Alive(l)
  {}

  /** Timeouts of the neighbour's packets between steps `i` and `j`. */
  function Timeouts(events: seq<Event>, peer: R.NbrId, i: nat, j: nat): nat
    requires i <= j <= |events|
    decreases j
  {
    if i == j then 0 else Timeouts(events, peer, i, j - 1) + if TimesOut(events[j - 1], peer) then 1 else 0
  }

  lemma TriesBound(l: Link)
    requires Sound(l) && Alive(l) && l.tx.nbrs[l.peer].queue != []
    ensures Tries(l) <= R.MAX_ATTEMPTS
  {
    hide R.RefsOk;
  }

  lemma {:induction false} CountTries(states: seq<Link>, events: seq<Event>, k: nat, i: nat, j: nat)
    requires BusyAt(states, events, k) && k < i <= j < |states| && states[i].done == |states[k].queued|
    ensures states[j].done == |states[k].queued| && states[j].peer == states[i].peer
    ensures Alive(states[j]) ==> Alive(states[i]) && Tries(states[j]) == Tries(states[i]) + Timeouts(events, states[i].peer, i, j)
    decreases j
  {
    hide R.Inv, R.Next, R.Enabled, Next, Enabled, Sound, Listed, Conditional, Run;
    NeverPast(states, events, k, j);
    if i < j {
      CountTries(states, events, k, i, j - 1);
      NeverPast(states, events, k, j - 1);
      StepOf(states, events, j - 1);
      HeadStays(states[j - 1], events[j - 1], states[k].tx.seqNum, |states[k].queued|);
      SamePeer(states[j - 1], events[j - 1]);
    }
  }

  lemma StepOf(states: seq<Link>, events: seq<Event>, j: nat)
    requires Run(states, events) && j + 1 < |states|
    ensures j < |events| && Enabled(states[j], events[j]) && states[j + 1] == Next(states[j], events[j])
  {}

  lemma SamePeer(l: Link, e: Event)
    requires Enabled(l, e)
    ensures Next(l, e).peer == l.peer
  {}

  /** Once the flagged packet is at the head, every timeout sends it again in vain;
      it is unicast sixteen times in all and the sixteenth timeout deletes the
      neighbour, unless something else does before. */
  lemma BusyIsDeleted(states: seq<Link>, events: seq<Event>, k: nat, i: nat, j: nat)
    requires BusyAt(states, events, k) && k < i <= j < |states| && states[i].done == |states[k].queued|
    ensures |states[j].accepted| == states[j].done == |states[k].queued|
    ensures Alive(states[j]) ==> Tries(states[j]) == Tries(states[i]) + Timeouts(events, states[i].peer, i, j) <= R.MAX_ATTEMPTS
    ensures Timeouts(events, states[i].peer, i, j) >= R.MAX_ATTEMPTS ==> !Alive(states[j])
  {
    hide R.Inv, Next, Enabled, Conditional, Run, WireOk, Increasing;
    CountTries(states, events, k, i, j);
    NeverPast(states, events, k, j);
    NeverPast(states, events, k, i);
    if Alive(states[j]) {
      TriesBound(states[j]);
    }
  }

  // ---------------------------------------------------------------- a multicast that was missed

  /** Message `i`, numbered `s`, waits at the head of the queue without a timer;
      nothing was unicast to the neighbour since `before`. */
  ghost predicate Missed(l: Link, s: uint32, i: nat, before: seq<R.Wire>) {
    && i < |l.queued| && l.queued[i].seqNum == s && l.done == i == |l.accepted|
    && (Alive(l) ==> W.Untimed(l.tx, l.peer))
    && (forall w :: w in l.tx.wire && w.Unicast? && w.to == l.peer ==> w in before)
    && (forall w :: w in before && w.Unicast? && w.to == l.peer ==> w.seqNum < s)
  }

  lemma MissedStart(l: Link, link: seq<R.NbrId>, payload: R.Payload)
    requires Sound(l) && Enabled(l, Local(R.EvMcast(link, payload))) && l.peer in link && l.tx.nbrs[l.peer].queue == []
    ensures Missed(Next(l, Local(R.EvMcast(link, payload))), l.tx.seqNum, |l.queued|, l.tx.wire)
  {
    hide R.Inv, R.Append, R.Others, R.Busy, R.NonEmpty, R.SendMcast, Conditional;
    assert link[..|link|] == link;
    V.IdleUnlessBusy(l.tx.nbrs, link, |link|, l.peer);
    W.McastWaits(l.tx, link, payload, l.peer);
    EmptyQueue(l);
    forall w | w in l.tx.wire && w.Unicast? && w.to == l.peer ensures w.seqNum < l.tx.seqNum {
      assert WireAt(l, w);
    }
  }

  lemma MissedLocal(l: Link, e: R.Event, s: uint32, i: nat, before: seq<R.Wire>)
    requires Sound(l) && Enabled(l, Local(e)) && Missed(l, s, i, before)
    ensures Missed(Next(l, Local(e)), s, i, before)
  {
    hide R.RefsOk, R.Next, WireOk, AcceptedOk, Increasing, Pending;
    if !Alive(l) {
      DeadStays(l, e);
      assert !Touches(e, l.peer);
      UntouchedSame(l.tx, e, l.peer);
    } else if e == R.EvNbrDel(l.peer) {
      R.NbrDelKeeps(l.tx, l.peer);
      assert R.Next(l.tx, e) == R.NbrDel(l.tx, l.peer) by { DeletesIt(l.tx, e); }
    } else {
      W.StepWaits(l.tx, e, l.peer);
    }
  }

  lemma DeletesIt(t: R.Transport, e: R.Event)
    requires R.Enabled(t, e) && e.EvNbrDel?
    ensures R.Next(t, e) == R.NbrDel(t, e.n)
  {}

  lemma MissedDeliver(l: Link, w: R.Wire, s: uint32, i: nat, before: seq<R.Wire>)
    requires Sound(l) && Enabled(l, Deliver(w)) && Missed(l, s, i, before) && !(w.Multicast? && w.seqNum == s)
    ensures Missed(Next(l, Deliver(w)), s, i, before)
  {
    hide R.Inv, Pending, WireOk, AcceptedOk, Increasing, V.Receive;
    if !w.HelloSeq? { TakenExact(l, w); }
  }

  lemma MissedStep(l: Link, e: Event, s: uint32, i: nat, before: seq<R.Wire>)
    requires Sound(l) && Enabled(l, e) && Missed(l, s, i, before)
    requires !(e.Deliver? && e.w.Multicast? && e.w.seqNum == s)
    ensures Missed(Next(l, e), s, i, before)
  {
    hide R.Inv, R.Next, R.Enabled, R.ProcessAck, Sound, Missed;
    match e
    case Local(e) => MissedLocal(l, e, s, i, before);
    case Deliver(w) => MissedDeliver(l, w, s, i, before);
    case Acknowledge => MissedAcks(l, l.acks + {l.rx.recvSeq}, s, i, before);
    case DeliverAck(ack) =>
      if ack != 0 && HeadIs(l, ack) {
        AckMeansAccepted(l, ack);
        MissedAcks(l, l.acks, s, i, before);
        assert false;
      }
  }

  lemma MissedAcks(l: Link, acks: set<uint32>, s: uint32, i: nat, before: seq<R.Wire>)
    requires Missed(l, s, i, before)
    ensures Missed(l.(acks := acks), s, i, before) && l.done == |l.accepted|
  {}

  /** A neighbour that was idle when a multicast went out and never receives it
      accepts nothing any more: over any continuation the packet stays at the head
      without a timer and nothing is unicast to that neighbour. */
  lemma {:induction false} MissedWaits(states: seq<Link>, events: seq<Event>, k: nat, j: nat)
    requires Run(states, events) && k < j < |states| && events[k].Local? && events[k].e.EvMcast?
    requires states[k].peer in events[k].e.link && Enabled(states[k], events[k])
    requires states[k].peer < |states[k].tx.nbrs| && states[k].tx.nbrs[states[k].peer].queue == []
    requires forall i :: k < i < j && events[i].Deliver? && events[i].w.Multicast? ==> events[i].w.seqNum != states[k].tx.seqNum
    ensures Missed(states[j], states[k].tx.seqNum, |states[k].queued|, states[k].tx.wire)
    decreases j
  {
    hide R.Inv, Next, Enabled, Sound, Missed;
    RunSound(states, events, j - 1);
    if j == k + 1 {
      MissedStart(states[k], events[k].e.link, events[k].e.payload);
    } else {
      MissedWaits(states, events, k, j - 1);
      MissedStep(states[j - 1], events[j - 1], states[k].tx.seqNum, |states[k].queued|, states[k].tx.wire);
    }
  }
}
