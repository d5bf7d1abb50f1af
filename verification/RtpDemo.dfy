/** Concrete runs of the transport in which a neighbour is never served. */
module RtpDemo {
  import opened RtpChannel
  import opened RtpBlocked
  import R = Rtp
  import V = RtpReceiver
  import W = RtpStall

  /** Two neighbours on one link, nothing queued. */
  function Pair(): R.Transport {
    R.Transport(1, [R.Neighbour(true, false, []), R.Neighbour(true, false, [])], map[], 0, [], [])
  }

  function Start(): Link {
    Link(Pair(), 0, [], 0, V.Peer(false, 0, 0), [], {})
  }

  lemma StartInit()
    ensures Init(Start()) && Sound(Start()) && Run([Start()], [])
  {
    forall b: R.BufId ensures R.Holds(Pair().nbrs, b) == 0 {
      var one := [R.Neighbour(true, false, [])];
      assert one[1..] == [] && R.Holds(one, b) == 0;
      assert Pair().nbrs[1..] == one;
    }
    assert R.Inv(Pair());
    RunSound([Start()], [], 0);
  }

  const UCAST := Local(R.EvUcast(0, []))
  const MCAST := Local(R.EvMcast([0, 1], []))

  lemma Counts(nbrs: seq<R.Neighbour>)
    requires |nbrs| == 2 && !nbrs[0].self && !nbrs[1].self
    ensures R.Others(nbrs, [0, 1], 2) == 2
    ensures R.Busy(nbrs, [0, 1], 2) == (if nbrs[0].queue == [] then 0 else 1) + if nbrs[1].queue == [] then 0 else 1
  {
    assert R.Others(nbrs, [0, 1], 0) == 0 && R.Busy(nbrs, [0, 1], 0) == 0;
    assert R.Others(nbrs, [0, 1], 1) == 1;
  }

  /** A unicast to the first neighbour and a multicast right behind it. */
  function Busy1(): Link {
    var l := Start();
    l.(tx := R.SendUcast(l.tx, 0, []), queued := [Msg(1, [], false)])
  }

  lemma UnicastSent()
    ensures Enabled(Start(), UCAST) && Next(Start(), UCAST) == Busy1() && Sound(Busy1())
    ensures Enabled(Busy1(), MCAST) && Conditional(Busy1().tx, [0, 1]) && Busy1().tx.nbrs[0].queue != []
  {
    hide Sound, R.Others, R.Busy, R.NonEmpty;
    StartInit();
    NextKeeps(Start(), UCAST);
    Counts(Busy1().tx.nbrs);
  }

  /** What the multicast leaves at the first neighbour. */
  lemma MulticastSent(l: Link)
    requires Enabled(Busy1(), MCAST) && l == Next(Busy1(), MCAST)
    ensures Sound(l) && Alive(l) && l.tx.nbrs[l.peer].queue != [] && l.tx.nbrs[l.peer].queue[0].timer
    ensures l.queued == [Msg(1, [], false), Msg(2, [], true)] && l.done == 0 && l.peer == 0
  {
    hide Sound, R.Others, R.Busy, R.NonEmpty, R.SendMcast;
    UnicastSent();
    NextKeeps(Busy1(), MCAST);
    assert R.Inv(Busy1().tx) by { SoundInv(Busy1()); }
    W.McastWaits(Busy1().tx, [0, 1], [], 0);
  }

  lemma SoundInv(l: Link)
    requires Sound(l)
    ensures R.Inv(l.tx)
  {}

  /** The first neighbour is busy with a unicast when the multicast goes out; it
      takes and acknowledges the unicast, is sent its copy of the multicast, and
      refuses it. */
  lemma BusyReachable() returns (states: seq<Link>, events: seq<Event>)
    ensures BusyAt(states, events, 1) && |events| == 6
    ensures events[5] == Deliver(R.Unicast(0, 2, [], true))
    ensures states[5].done == |states[1].queued| == |states[5].accepted| == |states[6].accepted| < |states[6].queued|
  {
    hide R.Others, R.Busy, R.NonEmpty, R.SendMcast, R.ProcessAck, R.Inv, V.Receive, Sound, Conditional, Init;
    StartInit();
    UnicastSent();
    var l1 := Busy1();
    var l2 := Next(l1, MCAST);
    MulticastSent(l2);
    RoundTripAdvances(l2);
    var copy := CopyFor(0, Msg(1, [], false));
    var l3 := Next(l2, Deliver(copy));
    var l4 := Next(l3, Acknowledge);
    var l5 := Next(l4, DeliverAck(1));
    var flagged := CopyFor(0, Msg(2, [], true));
    DeliverKeeps(l2, copy);
    Acknowledged(l3);
    AckedNext(l4, l5);
    assert flagged in l5.tx.wire;
    var l6 := Next(l5, Deliver(flagged));
    states := [Start(), l1, l2, l3, l4, l5, l6];
    events := [UCAST, MCAST, Deliver(copy), Acknowledge, DeliverAck(1), Deliver(flagged)];
    assert Run(states, events) by { SixSteps(states, events); }
    BusyNeverAccepts(states, events, 1, 6);
    BusyNeverAccepts(states, events, 1, 5);
  }

  lemma AckedNext(l4: Link, l5: Link)
    requires Sound(l4) && Enabled(l4, DeliverAck(1)) && l5 == Next(l4, DeliverAck(1))
    requires l4.queued == [Msg(1, [], false), Msg(2, [], true)] && l4.done == 0 && l5.done == 1 && l4.peer == 0
    ensures CopyFor(0, Msg(2, [], true)) in l5.tx.wire
  {
    hide R.ProcessAck, R.Inv, Sound;
    AckSends(l4, 1);
  }

  lemma SixSteps(states: seq<Link>, events: seq<Event>)
    requires |states| == 7 && |events| == 6 && Init(states[0])
    requires Enabled(states[0], events[0]) && states[1] == Next(states[0], events[0])
    requires Enabled(states[1], events[1]) && states[2] == Next(states[1], events[1])
    requires Enabled(states[2], events[2]) && states[3] == Next(states[2], events[2])
    requires Enabled(states[3], events[3]) && states[4] == Next(states[3], events[3])
    requires Enabled(states[4], events[4]) && states[5] == Next(states[4], events[4])
    requires Enabled(states[5], events[5]) && states[6] == Next(states[5], events[5])
    ensures Run(states, events)
  {
    hide Init, Enabled, Next;
    forall i | 0 <= i < 6 ensures Enabled(states[i], events[i]) && states[i + 1] == Next(states[i], events[i]) {
      assert i == 0 || i == 1 || i == 2 || i == 3 || i == 4 || i == 5;
    }
  }

  /** A multicast to two idle neighbours: the first one's packet has no timer. */
  lemma MissedReachable() returns (states: seq<Link>, events: seq<Event>)
    ensures Run(states, events) && events == [MCAST] && Missed(states[1], 1, 0, []) && Alive(states[1])
  {
    hide R.Others, R.Busy, R.NonEmpty, R.SendMcast, Sound, Conditional, Init;
    StartInit();
    Counts(Pair().nbrs);
    MissedStart(Start(), [0, 1], []);
    assert R.Inv(Pair()) by { SoundInv(Start()); }
    W.McastWaits(Pair(), [0, 1], [], 0);
    states, events := [Start(), Next(Start(), MCAST)], [MCAST];
  }

  /** The router's own entry and one neighbour. */
  function OwnAndOther(): R.Transport {
    R.Transport(1, [R.Neighbour(true, true, []), R.Neighbour(true, false, [])], map[], 0, [], [])
  }

  lemma OwnAndOtherRun() returns (states: seq<R.Transport>, events: seq<R.Event>)
    ensures R.Run(states, events) && events == [R.EvNbrNew(true), R.EvNbrNew(false)] && states[2] == OwnAndOther()
  {
    var t0 := R.Transport(1, [], map[], 0, [], []);
    var t1 := R.NbrNew(t0, true);
    states, events := [t0, t1, R.NbrNew(t1, false)], [R.EvNbrNew(true), R.EvNbrNew(false)];
    assert states[2].nbrs == OwnAndOther().nbrs;
  }

  const ACK := R.EvAck(1, 1)

  lemma Acked(t: R.Transport)
    requires R.Inv(OwnAndOther()) && R.Enabled(OwnAndOther(), MCAST.e) && t == R.Next(OwnAndOther(), MCAST.e)
    ensures R.Enabled(t, ACK) && |R.Next(t, ACK).nbrs| == 2 && R.Next(t, ACK).nbrs[1].queue == []
  {
    hide R.Inv, R.Append, R.Others, R.NonEmpty, R.SendMcast, R.Busy;
    var before := OwnAndOther();
    OtherCount(before.nbrs);
    W.McastWaits(before, [0, 1], [], 1);
    assert t.nbrs[1].queue == [R.Packet(1, 0, 1, false, 0)];
    assert |t.nbrs| == 2 by { SameCount(before, [0, 1], []); }
  }

  lemma SameCount(t: R.Transport, link: seq<R.NbrId>, payload: R.Payload)
    requires R.OnLink(link, |t.nbrs|)
    ensures |R.SendMcast(t, link, payload).nbrs| == |t.nbrs|
  {}

  /** Acknowledged by everybody else, the multicast still has its buffer. */
  lemma OwnEntryReachable() returns (states: seq<R.Transport>, events: seq<R.Event>)
    ensures R.Run(states, events) && events == [R.EvNbrNew(true), R.EvNbrNew(false), MCAST.e, ACK]
    ensures |states[4].nbrs| == 2 && states[4].nbrs[1].queue == [] && 0 in states[4].bufs && 0 !in states[4].frees
  {
    hide R.Inv, R.Next, R.Others;
    states, events := OwnAndOtherRun();
    R.RunKeepsInv(states, events, 2);
    var t2 := OwnAndOther();
    var t3 := R.Next(t2, MCAST.e);
    Acked(t3);
    var t4 := R.Next(t3, ACK);
    OtherCount(t2.nbrs);
    W.OwnEntryPins([t2, t3, t4], [MCAST.e, ACK], 0, 0, 2);
    states, events := states + [t3, t4], events + [MCAST.e, ACK];
  }

  lemma OtherCount(nbrs: seq<R.Neighbour>)
    requires |nbrs| == 2 && nbrs[0].self && !nbrs[1].self
    ensures R.Others(nbrs, [0, 1], 2) == 1
  {
    assert R.Others(nbrs, [0, 1], 0) == 0 && R.Others(nbrs, [0, 1], 1) == 0;
  }
}
