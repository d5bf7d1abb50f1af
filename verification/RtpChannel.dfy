/** The reliable transport and one neighbour, joined by a channel that loses,
    duplicates, delays and reorders: what the neighbour accepts. */
module RtpChannel {
  import opened Prelude
  import R = Rtp
  import V = RtpReceiver

  /** A message as queued for the neighbour; `conditional` is its header flag. */
  datatype Msg = Msg(seqNum: uint32, payload: R.Payload, conditional: bool)

  /** `queued` lists what was handed to the transport for the neighbour, `done`
      counts the packets taken off its queue by an acknowledgement, `acks` holds
      every acknowledgement number the neighbour ever put on the wire. */
  datatype Link = Link(tx: R.Transport, peer: R.NbrId, queued: seq<Msg>, done: nat,
                       rx: V.Peer, accepted: seq<Msg>, acks: set<uint32>)

  datatype Event =
    | Local(e: R.Event)        // the sending router acts
    | Deliver(w: R.Wire)       // any copy of anything sent arrives, at any time
    | Acknowledge              // the neighbour sends its receive number
    | DeliverAck(ack: uint32)  // any copy of any acknowledgement arrives

  /** What neighbour `n` can receive. */
  predicate Concerns(w: R.Wire, n: R.NbrId) {
    if w.Unicast? then w.to == n else n in w.link
  }

  predicate Touches(e: R.Event, peer: R.NbrId) {
    match e
    case EvUcast(n, _) => n == peer
    case EvMcast(link, _) => peer in link
    case EvAck(n, _) => n == peer
    case EvTimeout(n, _) => n == peer
    case EvNbrDel(n) => n == peer
    case EvNbrNew(_) => false
  }

  /** Sequence numbers do not wrap; the neighbour's acknowledgements come over the
      channel. */
  predicate Enabled(l: Link, e: Event) {
    match e
    case Local(e) => R.Enabled(l.tx, e) && (e.EvUcast? || e.EvMcast? ==> l.tx.seqNum < UINT32_MAX)
                     && !(e.EvAck? && e.n == l.peer)
    case Deliver(w) => w in l.tx.wire && Concerns(w, l.peer)
    case Acknowledge => true
    case DeliverAck(ack) => ack in l.acks && R.Live(l.tx, l.peer)
  }

  /** A multicast is conditional when some but not all neighbours are busy. */
  predicate Conditional(t: R.Transport, link: seq<R.NbrId>)
    requires R.OnLink(link, |t.nbrs|)
  {
    0 < R.Busy(t.nbrs, link, |link|) < R.Others(t.nbrs, link, |link|)
  }

  /** What a local event queues for the neighbour. */
  function Queues(l: Link, e: R.Event): seq<Msg>
    requires R.Enabled(l.tx, e)
  {
    if e.EvUcast? && e.n == l.peer then [Msg(l.tx.seqNum, e.payload, false)]
    else if e.EvMcast? && l.peer in e.link then [Msg(l.tx.seqNum, e.payload, Conditional(l.tx, e.link))]
    else []
  }

  function Next(l: Link, e: Event): Link
    requires Enabled(l, e)
  {
    match e
    case Local(e) => l.(tx := R.Next(l.tx, e), queued := l.queued + Queues(l, e))
    case Deliver(w) =>
      var r := V.Receive(l.rx, V.PacketOf(w), l.peer);
      l.(rx := r.peer, accepted := l.accepted + if r.accepted && !w.HelloSeq? then [MsgOf(w)] else [])
    case Acknowledge => l.(acks := l.acks + {l.rx.recvSeq})
    case DeliverAck(ack) =>
      if ack == 0 || !HeadIs(l, ack) then l
      else l.(tx := R.ProcessAck(l.tx, l.peer, ack), done := l.done + 1)
  }

  function MsgOf(w: R.Wire): Msg
    requires !w.HelloSeq?
  {
    Msg(w.seqNum, w.payload, w.conditional)
  }

  predicate HeadIs(l: Link, ack: uint32) {
    l.peer < |l.tx.nbrs| && l.tx.nbrs[l.peer].queue != [] && l.tx.nbrs[l.peer].queue[0].seqNum == ack
  }

  // ---------------------------------------------------------------- the invariant

  predicate Increasing(q: seq<Msg>, limit: uint32) {
    && (forall i :: 0 <= i < |q| ==> 0 < q[i].seqNum < limit)
    && (forall i, j :: 0 <= i < j < |q| ==> q[i].seqNum < q[j].seqNum)
  }

  /** Queue entry `p` still carries message `m`. */
  predicate Carries(tx: R.Transport, p: R.Packet, m: Msg) {
    && p.seqNum == m.seqNum && p.buf in tx.bufs
    && tx.bufs[p.buf].payload == m.payload && tx.bufs[p.buf].conditional == m.conditional
  }

  function CopyFor(n: R.NbrId, m: Msg): R.Wire {
    R.Unicast(n, m.seqNum, m.payload, m.conditional)
  }

  /** The queue is what was handed over and not yet acknowledged; a packet whose
      timer runs has been sent. */
  predicate Pending(l: Link)
    requires l.peer < |l.tx.nbrs|
  {
    var q := l.tx.nbrs[l.peer].queue;
    && |l.queued| == l.done + |q|
    && (forall i :: 0 <= i < |q| ==> Carries(l.tx, q[i], l.queued[l.done + i]))
    && (q != [] && q[0].timer ==> CopyFor(l.peer, l.queued[l.done]) in l.tx.wire)
  }

  /** Messages the neighbour may take: those acknowledged and the next. */
  function Window(l: Link): seq<Msg> {
    if l.done < |l.queued| then l.queued[..l.done + 1] else l.queued
  }

  predicate Numbered(ms: seq<Msg>, seqNum: uint32) {
    exists i :: 0 <= i < |ms| && ms[i].seqNum == seqNum
  }

  /** Unconditional copies are of messages in the window; a hello that does not
      list the neighbour announces one. */
  predicate WireAt(l: Link, w: R.Wire) {
    match w
    case Unicast(_, _, _, _) => MsgOf(w) in Window(l)
    case Multicast(_, _, _, conditional) => MsgOf(w) in l.queued && (!conditional ==> MsgOf(w) in Window(l))
    case HelloSeq(_, listed, seqNum) =>
      listed != [] && Numbered(l.queued, seqNum) && (l.peer !in listed ==> Numbered(Window(l), seqNum))
  }

  predicate WireOk(l: Link) {
    forall w :: w in l.tx.wire && Concerns(w, l.peer) ==> WireAt(l, w)
  }

  /** What the neighbour accepted is what was queued, up to one packet ahead of
      what the sender knows; in conditional mode it waits for one in the window. */
  predicate AcceptedOk(l: Link) {
    && l.done <= |l.accepted| <= l.done + 1
    && l.accepted <= l.queued
    && l.rx.recvSeq == (if l.accepted == [] then 0 else l.accepted[|l.accepted| - 1].seqNum)
    && (l.rx.conditional ==> Numbered(Window(l), l.rx.nextMcast))
    && (forall v :: v in l.acks ==> v <= l.rx.recvSeq)
  }

  ghost predicate Sound(l: Link) {
    && R.Inv(l.tx) && l.tx.seqNum != 0 && l.peer < |l.tx.nbrs| && !l.tx.nbrs[l.peer].self
    && Increasing(l.queued, l.tx.seqNum)
    && (l.tx.nbrs[l.peer].alive ==> Pending(l))
    && WireOk(l) && AcceptedOk(l)
  }

  // ---------------------------------------------------------------- what events leave alone

  /** Buffers that survive keep their contents. */
  ghost predicate SameBufs(t: R.Transport, r: R.Transport) {
    forall b :: b in t.bufs && b in r.bufs ==>
      r.bufs[b].payload == t.bufs[b].payload && r.bufs[b].conditional == t.bufs[b].conditional
  }

  /** Nothing that concerns neighbour `n` differs between the two states. */
  ghost predicate Same(t: R.Transport, r: R.Transport, n: R.NbrId) {
    && n < |t.nbrs| && n < |r.nbrs| && r.nbrs[n] == t.nbrs[n]
    && SameBufs(t, r) && t.wire <= r.wire
    && forall w :: w in r.wire && Concerns(w, n) ==> w in t.wire
  }

  lemma {:induction false} DrainSame(t: R.Transport, m: R.NbrId)
    requires m < |t.nbrs|
    ensures var r := R.Drain(t, m);
            && r.bufs.Keys <= t.bufs.Keys && SameBufs(t, r) && r.seqNum == t.seqNum
    decreases |t.nbrs[m].queue|
  {
    if t.nbrs[m].queue != [] {
      DrainSame(R.Dequeue(t, m), m);
    }
  }

  lemma NbrDelSame(t: R.Transport, m: R.NbrId, n: R.NbrId)
    requires R.Inv(t) && m < |t.nbrs| && n < |t.nbrs| && m != n
    ensures Same(t, R.NbrDel(t, m), n)
  {
    R.NbrDelKeeps(t, m);
    DrainSame(t, m);
  }

  lemma McastSame(t: R.Transport, link: seq<R.NbrId>, payload: R.Payload, n: R.NbrId)
    requires R.Inv(t) && R.Enabled(t, R.EvMcast(link, payload)) && n < |t.nbrs| && n !in link
    ensures Same(t, R.SendMcast(t, link, payload), n)
  {
    hide R.Append, R.Others, R.Busy, R.NonEmpty;
    R.AppendAt(t.nbrs, link, R.Packet(t.seqNum, t.nextBuf, 1, false, 0), |link|, n);
    assert link[..|link|] == link;
  }

  lemma FreshBuffer(t: R.Transport)
    requires R.RefsOk(t)
    ensures t.nextBuf !in t.bufs
  {}

  lemma UcastSame(t: R.Transport, m: R.NbrId, payload: R.Payload, n: R.NbrId)
    requires R.RefsOk(t) && m < |t.nbrs| && n < |t.nbrs| && m != n
    ensures Same(t, R.SendUcast(t, m, payload), n)
  {
    hide R.RefsOk;
    FreshBuffer(t);
  }

  lemma UntouchedSame(t: R.Transport, e: R.Event, n: R.NbrId)
    requires R.Inv(t) && R.Enabled(t, e) && n < |t.nbrs| && !Touches(e, n)
    ensures Same(t, R.Next(t, e), n)
  {
    hide R.SendMcast, R.SendUcast, R.NbrDel, R.RefsOk, R.QueuesOk;
    match e
    case EvUcast(m, payload) => UcastSame(t, m, payload, n);
    case EvMcast(link, payload) => McastSame(t, link, payload, n);
    case EvNbrDel(m) => NbrDelSame(t, m, n);
    case EvTimeout(m, i) => NbrDelSame(t, m, n);
    case _ =>
  }

  lemma SeqNumGrows(t: R.Transport, e: R.Event)
    requires R.Enabled(t, e) && (e.EvUcast? || e.EvMcast? ==> t.seqNum < UINT32_MAX)
    ensures t.seqNum <= R.Next(t, e).seqNum
    ensures e.EvUcast? ==> R.Next(t, e).seqNum == t.seqNum + 1
  {
    if e.EvNbrDel? || e.EvTimeout? { DrainSame(t, e.n); }
  }

  // ---------------------------------------------------------------- the window

  /** More queued or more done: nothing leaves the window. */
  lemma WindowGrows(l: Link, r: Link)
    requires l.queued <= r.queued && l.done <= r.done
    ensures forall m :: m in Window(l) ==> m in Window(r)
    ensures forall s :: Numbered(Window(l), s) ==> Numbered(Window(r), s)
  {
    forall m | m in Window(l) ensures m in Window(r) {
      var i :| 0 <= i < |Window(l)| && Window(l)[i] == m;
      assert Window(r)[i] == l.queued[i];
    }
    forall s | Numbered(Window(l), s) ensures Numbered(Window(r), s) {
      var i :| 0 <= i < |Window(l)| && Window(l)[i].seqNum == s;
      assert Window(r)[i] == l.queued[i];
    }
  }

  lemma WireStays(l: Link, r: Link, w: R.Wire)
    requires WireAt(l, w) && l.queued <= r.queued && l.done <= r.done && r.peer == l.peer
    ensures WireAt(r, w)
  {
    WindowGrows(l, r);
    forall m | m in l.queued ensures m in r.queued {
      var i :| 0 <= i < |l.queued| && l.queued[i] == m;
      assert r.queued[i] == m;
    }
    forall s | Numbered(l.queued, s) ensures Numbered(r.queued, s) {
      var i :| 0 <= i < |l.queued| && l.queued[i].seqNum == s;
      assert r.queued[i].seqNum == s;
    }
  }

  /** A new message is next for a neighbour whose queue was empty. */
  lemma NextInWindow(l: Link, r: Link, m: Msg)
    requires r.queued == l.queued + [m] && r.done == l.done == |l.queued|
    ensures m in Window(r) && Numbered(Window(r), m.seqNum)
  {
    assert Window(r)[l.done] == m;
  }

  // ---------------------------------------------------------------- every step keeps it

  lemma SameKeeps(l: Link, r: R.Transport)
    requires Sound(l) && R.Inv(r) && Same(l.tx, r, l.peer) && l.tx.seqNum <= r.seqNum
    ensures Sound(l.(tx := r))
  {
    hide R.RefsOk, R.QueuesOk, WireAt;
    var q := r.nbrs[l.peer].queue;
    if r.nbrs[l.peer].alive {
      forall i | 0 <= i < |q| ensures Carries(r, q[i], l.queued[l.done + i]) {
        R.QueuedIsLive(r, l.peer, i);
        assert Carries(l.tx, q[i], l.queued[l.done + i]);
      }
    }
    forall w | w in r.wire && Concerns(w, l.peer) ensures WireAt(l.(tx := r), w) {
      assert WireAt(l, w);
      WireStays(l, l.(tx := r), w);
    }
  }

  /** The parts a step that queues `m` has to show. */
  lemma QueuedKeeps(l: Link, r: Link, m: Msg)
    requires Sound(l) && R.Inv(r.tx) && l.peer < |r.tx.nbrs| && !r.tx.nbrs[l.peer].self
    requires r == l.(tx := r.tx, queued := l.queued + [m])
    requires m.seqNum == l.tx.seqNum < r.tx.seqNum
    requires r.tx.nbrs[l.peer].alive ==> Pending(r)
    requires forall w :: w in r.tx.wire && Concerns(w, l.peer) ==> w in l.tx.wire || WireAt(r, w)
    ensures Sound(r)
  {
    hide R.Inv, Pending, WireAt;
    WindowGrows(l, r);
    forall w | w in r.tx.wire && Concerns(w, l.peer) ensures WireAt(r, w) {
      if w in l.tx.wire {
        assert WireAt(l, w);
        WireStays(l, r, w);
      }
    }
  }

  lemma QueuedPending(l: Link, r: Link, m: Msg, p: R.Packet)
    requires Sound(l) && l.tx.nbrs[l.peer].alive && l.peer < |r.tx.nbrs|
    requires r == l.(tx := r.tx, queued := l.queued + [m])
    requires r.tx.nbrs[l.peer].queue == l.tx.nbrs[l.peer].queue + [p]
    requires l.tx.nextBuf !in l.tx.bufs && p.buf == l.tx.nextBuf && Carries(r.tx, p, m)
    requires forall b :: b in l.tx.bufs ==> b in r.tx.bufs
    requires SameBufs(l.tx, r.tx) && l.tx.wire <= r.tx.wire
    requires p.timer && l.tx.nbrs[l.peer].queue == [] ==> CopyFor(l.peer, m) in r.tx.wire
    ensures Pending(r)
  {
    hide R.Inv, WireOk, AcceptedOk, Increasing;
    var q, q' := l.tx.nbrs[l.peer].queue, r.tx.nbrs[l.peer].queue;
    forall i | 0 <= i < |q'| ensures Carries(r.tx, q'[i], r.queued[r.done + i]) {
      if i < |q| { assert Carries(l.tx, q[i], l.queued[l.done + i]); }
    }
    assert q != [] ==> q'[0] == q[0] && r.queued[r.done] == l.queued[l.done];
  }

  lemma UcastKeeps(l: Link, payload: R.Payload)
    requires Sound(l) && R.Live(l.tx, l.peer) && l.tx.seqNum < UINT32_MAX
    ensures Sound(Next(l, Local(R.EvUcast(l.peer, payload))))
  {
    hide R.RefsOk, R.QueuesOk, Pending, WireOk, AcceptedOk, Increasing;
    R.SendUcastKeeps(l.tx, l.peer, payload);
    FreshBuffer(l.tx);
    var r := Next(l, Local(R.EvUcast(l.peer, payload)));
    var m := Msg(l.tx.seqNum, payload, false);
    var q := l.tx.nbrs[l.peer].queue;
    var p := R.Packet(l.tx.seqNum, l.tx.nextBuf, 1, q == [], if q == [] then 1 else 0);
    QueuedPending(l, r, m, p);
    if q == [] {
      assert l.done == |l.queued| by { EmptyQueue(l); }
      NextInWindow(l, r, m);
    }
    QueuedKeeps(l, r, m);
  }

  lemma EmptyQueue(l: Link)
    requires Sound(l) && l.tx.nbrs[l.peer].alive && l.tx.nbrs[l.peer].queue == []
    ensures l.done == |l.queued|
  {}

  /** What a multicast adds for a neighbour of the link. */
  lemma McastKeeps(l: Link, link: seq<R.NbrId>, payload: R.Payload)
    requires Sound(l) && Enabled(l, Local(R.EvMcast(link, payload))) && l.peer in link
    ensures Sound(Next(l, Local(R.EvMcast(link, payload))))
  {
    hide R.RefsOk, R.QueuesOk, R.Append, R.Others, R.Busy, R.NonEmpty, Pending, WireOk, AcceptedOk, Increasing;
    assert link[..|link|] == link;
    V.IdleUnlessBusy(l.tx.nbrs, link, |link|, l.peer);
    R.SendMcastKeeps(l.tx, link, payload);
    FreshBuffer(l.tx);
    var r := Next(l, Local(R.EvMcast(link, payload)));
    var m := Msg(l.tx.seqNum, payload, Conditional(l.tx, link));
    var p := R.Packet(l.tx.seqNum, l.tx.nextBuf, 1, false, 0);
    R.AppendAt(l.tx.nbrs, link, p, |link|, l.peer);
    QueuedPending(l, r, m, p);
    McastWire(l, link, payload);
    QueuedKeeps(l, r, m);
  }

  lemma McastWire(l: Link, link: seq<R.NbrId>, payload: R.Payload)
    requires Sound(l) && Enabled(l, Local(R.EvMcast(link, payload))) && l.peer in link
    ensures var r := Next(l, Local(R.EvMcast(link, payload)));
            forall w :: w in r.tx.wire && Concerns(w, l.peer) ==> w in l.tx.wire || WireAt(r, w)
  {
    hide R.Inv, R.Append, R.Others, R.Busy, R.NonEmpty, WireOk, AcceptedOk, Increasing;
    assert link[..|link|] == link;
    V.IdleUnlessBusy(l.tx.nbrs, link, |link|, l.peer);
    V.ListedAreBusy(l.tx.nbrs, link, |link|, l.peer);
    V.BusyAreListed(l.tx.nbrs, link, |link|);
    var r := Next(l, Local(R.EvMcast(link, payload)));
    var m := Msg(l.tx.seqNum, payload, Conditional(l.tx, link));
    assert r.queued[|l.queued|] == m;
    if l.tx.nbrs[l.peer].queue == [] {
      EmptyQueue(l);
      NextInWindow(l, r, m);
    }
  }

  /** A retransmission repeats the message at the head. */
  lemma ResendKeeps(l: Link)
    requires Sound(l) && R.Enabled(l.tx, R.EvTimeout(l.peer, 0))
    requires l.tx.nbrs[l.peer].queue[0].attempts < R.MAX_ATTEMPTS
    ensures Sound(Next(l, Local(R.EvTimeout(l.peer, 0))))
  {
    hide R.RefsOk, R.Drain, R.QueuesOk, R.NbrDel, Increasing, WireAt;
    R.TimeoutKeeps(l.tx, l.peer, 0);
    var r := Next(l, Local(R.EvTimeout(l.peer, 0)));
    var q, q' := l.tx.nbrs[l.peer].queue, r.tx.nbrs[l.peer].queue;
    assert r.queued == l.queued;
    assert Carries(l.tx, q[0], l.queued[l.done + 0]);
    forall i | 0 <= i < |q'| ensures Carries(r.tx, q'[i], r.queued[r.done + i]) {
      assert Carries(l.tx, q[i], l.queued[l.done + i]);
    }
    var copy := CopyFor(l.peer, l.queued[l.done]);
    assert r.tx.wire == l.tx.wire + [copy];
    assert Window(l)[l.done] == l.queued[l.done] == MsgOf(copy);
    forall w | w in r.tx.wire && Concerns(w, l.peer) ensures WireAt(r, w) {
      if w == copy { CopyInWindow(r, w); } else { assert WireAt(l, w); WireStays(l, r, w); }
    }
  }

  lemma CopyInWindow(l: Link, w: R.Wire)
    requires w.Unicast? && MsgOf(w) in Window(l)
    ensures WireAt(l, w)
  {}

  lemma DeletionKeeps(l: Link)
    requires Sound(l) && R.Live(l.tx, l.peer)
    ensures Sound(Next(l, Local(R.EvNbrDel(l.peer))))
  {
    hide R.RefsOk, R.Drain, WireAt;
    R.NbrDelKeeps(l.tx, l.peer);
    SeqNumGrows(l.tx, R.EvNbrDel(l.peer));
    var r := Next(l, Local(R.EvNbrDel(l.peer)));
    assert r.queued == l.queued && Window(r) == Window(l);
    forall w | w in r.tx.wire && Concerns(w, l.peer) ensures WireAt(r, w) {
      assert WireAt(l, w);
      WireStays(l, r, w);
    }
  }

  lemma TimeoutKeeps(l: Link)
    requires Sound(l) && R.Enabled(l.tx, R.EvTimeout(l.peer, 0))
    ensures Sound(Next(l, Local(R.EvTimeout(l.peer, 0))))
  {
    hide R.RefsOk, R.QueuesOk, R.NbrDel, WireOk, AcceptedOk, Increasing, Pending;
    if l.tx.nbrs[l.peer].queue[0].attempts < R.MAX_ATTEMPTS {
      ResendKeeps(l);
    } else {
      DeletionKeeps(l);
      assert Next(l, Local(R.EvTimeout(l.peer, 0))) == Next(l, Local(R.EvNbrDel(l.peer)));
    }
  }

  lemma LocalKeeps(l: Link, e: R.Event)
    requires Sound(l) && Enabled(l, Local(e))
    ensures Sound(Next(l, Local(e)))
  {
    hide R.RefsOk, R.QueuesOk, R.Next, WireOk, AcceptedOk, Increasing, Pending, Same;
    if !Touches(e, l.peer) {
      UntouchedSame(l.tx, e, l.peer);
      R.NextKeeps(l.tx, e);
      SeqNumGrows(l.tx, e);
      SameKeeps(l, R.Next(l.tx, e));
      assert l.queued + [] == l.queued;
    } else if e.EvUcast? {
      UcastKeeps(l, e.payload);
    } else if e.EvMcast? {
      McastKeeps(l, e.link, e.payload);
    } else if e.EvTimeout? {
      R.TimeoutKeeps(l.tx, e.n, e.i);
      TimeoutKeeps(l);
    } else {
      DeletionKeeps(l);
    }
  }

  /** Whatever passes the conditional check is in the window. */
  lemma PassedInWindow(l: Link, w: R.Wire)
    requires Sound(l) && w in l.tx.wire && Concerns(w, l.peer) && !w.HelloSeq?
    requires w.conditional ==> l.rx.conditional && l.rx.nextMcast == w.seqNum
    ensures MsgOf(w) in Window(l)
  {
    hide R.Inv, Pending;
    assert WireAt(l, w);
    if w.Multicast? && w.conditional {
      var i :| 0 <= i < |Window(l)| && Window(l)[i].seqNum == w.seqNum;
      var j :| 0 <= j < |l.queued| && l.queued[j] == MsgOf(w);
      assert l.queued[i].seqNum == l.queued[j].seqNum;
      assert i == j;
    }
  }

  /** Of the messages in the window only the next one can be new. */
  lemma OnlyNextIsNew(l: Link, m: Msg)
    requires Sound(l) && m in Window(l)
    ensures V.Fresh(l.rx.recvSeq, m.seqNum) <==> |l.accepted| == l.done < |l.queued| && m == l.queued[l.done]
    ensures m.seqNum != 0 && (V.Fresh(l.rx.recvSeq, m.seqNum) ==> l.rx.recvSeq < m.seqNum)
  {
    hide R.Inv, Pending, WireOk;
    var i :| 0 <= i < |Window(l)| && Window(l)[i] == m;
    assert l.queued[i] == m;
    if i < |l.accepted| {
      assert l.queued[|l.accepted| - 1] == l.accepted[|l.accepted| - 1];
    }
  }

  /** The neighbour takes a packet exactly when it is the next message, not yet
      taken, and if flagged, the one it was told to expect. */
  lemma TakenExact(l: Link, w: R.Wire)
    requires Sound(l) && Enabled(l, Deliver(w)) && !w.HelloSeq?
    ensures V.Receive(l.rx, V.PacketOf(w), l.peer).accepted
            <==> && |l.accepted| == l.done < |l.queued| && MsgOf(w) == l.queued[l.done]
                 && (w.conditional ==> l.rx.conditional && l.rx.nextMcast == w.seqNum)
  {
    hide R.Inv, Pending, WireOk, AcceptedOk, Increasing;
    if w.conditional ==> l.rx.conditional && l.rx.nextMcast == w.seqNum {
      PassedInWindow(l, w);
      OnlyNextIsNew(l, MsgOf(w));
    }
  }

  lemma DeliverKeeps(l: Link, w: R.Wire)
    requires Sound(l) && Enabled(l, Deliver(w))
    ensures Sound(Next(l, Deliver(w)))
  {
    hide R.Inv, Pending, Increasing, WireAt;
    var r := Next(l, Deliver(w));
    assert Window(r) == Window(l);
    PendingSame(l, r);
    forall x | x in r.tx.wire && Concerns(x, l.peer) ensures WireAt(r, x) {
      assert WireAt(l, x);
      WireStays(l, r, x);
    }
    if w.HelloSeq? {
      assert WireAt(l, w);
      HelloAt(l, w);
    } else {
      TakenExact(l, w);
      if V.Receive(l.rx, V.PacketOf(w), l.peer).accepted {
        PassedInWindow(l, w);
        OnlyNextIsNew(l, MsgOf(w));
      }
    }
  }

  lemma HelloAt(l: Link, w: R.Wire)
    requires w.HelloSeq? && WireAt(l, w)
    ensures l.peer !in w.listed ==> Numbered(Window(l), w.seqNum)
  {}

  lemma PendingSame(l: Link, r: Link)
    requires l.peer < |l.tx.nbrs| && r.tx == l.tx && r.peer == l.peer && r.queued == l.queued && r.done == l.done
    ensures Pending(r) == Pending(l)
  {}

  /** The neighbour acknowledges the head of the queue only once it has it. */
  lemma AckMeansAccepted(l: Link, ack: uint32)
    requires Sound(l) && Enabled(l, DeliverAck(ack)) && HeadIs(l, ack)
    ensures l.done < |l.accepted| && ack != 0
  {
    hide R.RefsOk, R.QueuesOk, WireOk;
    assert Carries(l.tx, l.tx.nbrs[l.peer].queue[0], l.queued[l.done + 0]);
    assert ack == l.queued[l.done].seqNum && ack <= l.rx.recvSeq;
    assert l.queued[|l.accepted| - 1] == l.accepted[|l.accepted| - 1];
  }

  /** The acknowledgement puts the next queued message on the wire, if any, and
      nothing else for the neighbour. */
  lemma AckSends(l: Link, ack: uint32)
    requires Sound(l) && R.Live(l.tx, l.peer) && HeadIs(l, ack)
    ensures R.ProcessAck(l.tx, l.peer, ack).wire ==
            l.tx.wire + if l.done + 1 < |l.queued| then [CopyFor(l.peer, l.queued[l.done + 1])] else []
  {
    hide R.RefsOk, WireOk, AcceptedOk, Increasing;
    var q := l.tx.nbrs[l.peer].queue;
    R.DequeueKeeps(l.tx, l.peer);
    if |q| > 1 {
      assert Carries(l.tx, q[1], l.queued[l.done + 1]);
      R.QueuedIsLive(R.Dequeue(l.tx, l.peer), l.peer, 0);
    }
  }

  lemma AckPending(l: Link, ack: uint32)
    requires Sound(l) && R.Live(l.tx, l.peer) && ack in l.acks && HeadIs(l, ack) && ack != 0
    ensures Pending(Next(l, DeliverAck(ack)))
  {
    hide R.RefsOk, WireOk, AcceptedOk, Increasing;
    var r := Next(l, DeliverAck(ack));
    R.ProcessAckKeeps(l.tx, l.peer, ack);
    var q, q' := l.tx.nbrs[l.peer].queue, r.tx.nbrs[l.peer].queue;
    forall i | 0 <= i < |q'| ensures Carries(r.tx, q'[i], r.queued[r.done + i]) {
      assert Carries(l.tx, q[i + 1], l.queued[l.done + (i + 1)]);
      R.QueuedIsLive(r.tx, l.peer, i);
    }
    if q' != [] { AckSends(l, ack); }
  }

  lemma AckWire(l: Link, ack: uint32)
    requires Sound(l) && Enabled(l, DeliverAck(ack)) && HeadIs(l, ack) && ack != 0
    ensures WireOk(Next(l, DeliverAck(ack)))
  {
    hide R.RefsOk, R.QueuesOk, R.ProcessAck, AcceptedOk, Increasing, WireAt;
    var r := Next(l, DeliverAck(ack));
    AckSends(l, ack);
    forall w | w in r.tx.wire && Concerns(w, l.peer) ensures WireAt(r, w) {
      if w in l.tx.wire {
        assert WireAt(l, w);
        WireStays(l, r, w);
      } else {
        assert MsgOf(w) == Window(r)[l.done + 1];
        CopyInWindow(r, w);
      }
    }
  }

  lemma AckKeeps(l: Link, ack: uint32)
    requires Sound(l) && Enabled(l, DeliverAck(ack)) && HeadIs(l, ack)
    ensures Sound(Next(l, DeliverAck(ack)))
    ensures l.done < |l.accepted|
  {
    hide R.RefsOk, R.QueuesOk, Pending, WireOk, Increasing;
    AckMeansAccepted(l, ack);
    R.ProcessAckKeeps(l.tx, l.peer, ack);
    AckPending(l, ack);
    AckWire(l, ack);
    WindowGrows(l, Next(l, DeliverAck(ack)));
    assert R.ProcessAck(l.tx, l.peer, ack).seqNum == l.tx.seqNum;
  }

  lemma Acknowledged(l: Link)
    requires Sound(l)
    ensures Sound(Next(l, Acknowledge))
  {
    hide R.Inv, Increasing, WireAt;
    var r := Next(l, Acknowledge);
    PendingSame(l, r);
    forall x | x in r.tx.wire && Concerns(x, l.peer) ensures WireAt(r, x) {
      assert WireAt(l, x);
      WireStays(l, r, x);
    }
  }

  lemma NextKeeps(l: Link, e: Event)
    requires Sound(l) && Enabled(l, e)
    ensures Sound(Next(l, e))
  {
    hide R.Inv, R.Enabled, R.Next, R.ProcessAck, Pending, WireOk, Increasing;
    match e
    case Local(e) => LocalKeeps(l, e);
    case Deliver(w) => DeliverKeeps(l, w);
    case Acknowledge => Acknowledged(l);
    case DeliverAck(ack) => if ack != 0 && HeadIs(l, ack) { AckKeeps(l, ack); }
  }

  // ---------------------------------------------------------------- runs

  /** The neighbour has just come up: nothing was queued for it or sent to it. */
  ghost predicate Init(l: Link) {
    && R.Inv(l.tx) && l.tx.seqNum != 0 && R.Live(l.tx, l.peer) && !l.tx.nbrs[l.peer].self
    && l.tx.nbrs[l.peer].queue == [] && (forall w :: w in l.tx.wire ==> !Concerns(w, l.peer))
    && l.queued == [] && l.accepted == [] && l.done == 0 && l.rx == V.Peer(false, 0, 0) && l.acks == {}
  }

  ghost predicate Run(states: seq<Link>, events: seq<Event>) {
    && |states| == |events| + 1 && Init(states[0])
    && forall i :: 0 <= i < |events| ==> Enabled(states[i], events[i]) && states[i + 1] == Next(states[i], events[i])
  }

  lemma {:induction false} RunSound(states: seq<Link>, events: seq<Event>, k: nat)
    requires Run(states, events) && k < |states|
    ensures Sound(states[k])
  {
    hide R.Inv, R.Next, R.Enabled, Next, Enabled;
    if k == 0 {
      assert Init(states[0]);
    } else {
      RunSound(states, events, k - 1);
      NextKeeps(states[k - 1], events[k - 1]);
    }
  }

  /** At all times the packets the neighbour accepted, unicast or multicast, are a
      prefix of those queued for it: in order, each exactly once; and the sender
      forgets a packet only after the neighbour accepted it. */
  lemma InOrderExactlyOnce(states: seq<Link>, events: seq<Event>, k: nat)
    requires Run(states, events) && k < |states|
    ensures states[k].accepted <= states[k].queued
    ensures states[k].done <= |states[k].accepted| <= states[k].done + 1
  {
    hide R.Inv, Run;
    RunSound(states, events, k);
  }

  /** From every reachable state whose head is being retransmitted without the
      flag, delivering it and an acknowledgement makes progress by exactly one. */
  lemma RoundTripAdvances(l: Link)
    requires Sound(l) && R.Live(l.tx, l.peer) && l.tx.nbrs[l.peer].queue != []
    requires l.tx.nbrs[l.peer].queue[0].timer && l.done < |l.queued| && !l.queued[l.done].conditional
    ensures var copy := CopyFor(l.peer, l.queued[l.done]);
            && Enabled(l, Deliver(copy))
            && var l1 := Next(l, Deliver(copy)); var l2 := Next(l1, Acknowledge);
            && Enabled(l2, DeliverAck(copy.seqNum))
            && var l3 := Next(l2, DeliverAck(copy.seqNum));
            l3.done == l.done + 1 == |l3.accepted| && Sound(l3)
  {
    hide R.Inv, WireOk, R.ProcessAck, V.Receive;
    var copy := CopyFor(l.peer, l.queued[l.done]);
    assert Carries(l.tx, l.tx.nbrs[l.peer].queue[0], l.queued[l.done + 0]);
    DeliverKeeps(l, copy);
    TakenExact(l, copy);
    TakenNumber(l, copy);
    var l1 := Next(l, Deliver(copy));
    Acknowledged(l1);
    var l2 := Next(l1, Acknowledge);
    assert HeadIs(l2, copy.seqNum);
    AckKeeps(l2, copy.seqNum);
  }

  lemma TakenNumber(l: Link, w: R.Wire)
    requires Sound(l) && Enabled(l, Deliver(w)) && !w.HelloSeq? && l.done < |l.queued| && MsgOf(w) == l.queued[l.done]
    requires !w.conditional
    ensures V.Receive(l.rx, V.PacketOf(w), l.peer).peer.recvSeq == w.seqNum
    ensures |Next(l, Deliver(w)).accepted| == l.done + 1
  {
    hide R.Inv, Pending, WireOk;
    TakenExact(l, w);
    if |l.accepted| > l.done { assert l.accepted[l.done] == l.queued[l.done]; }
  }

  // ---------------------------------------------------------------- copies that are refused

  /** Every hello numbered `s` named the neighbour as busy, the message with that
      number is conditional and not among those accepted. */
  predicate Listed(l: Link, s: uint32, i: nat) {
    && i < |l.queued| && l.queued[i].seqNum == s && l.queued[i].conditional && |l.accepted| <= i
    && (forall w :: w in l.tx.wire && Concerns(w, l.peer) && w.HelloSeq? && w.seqNum == s ==> l.peer in w.listed)
    && !(l.rx.conditional && l.rx.nextMcast == s)
  }

  /** New hellos carry the number about to be used. */
  lemma NewHellos(t: R.Transport, e: R.Event, w: R.Wire)
    requires R.Inv(t) && R.Enabled(t, e) && w in R.Next(t, e).wire && w !in t.wire && w.HelloSeq?
    ensures w.seqNum == t.seqNum
  {
    hide R.RefsOk, R.QueuesOk, R.Drain, R.Append, R.Others, R.Busy, R.NonEmpty;
    if e.EvNbrDel? || e.EvTimeout? { R.NbrDelKeeps(t, e.n); }
  }

  lemma ListedLocal(l: Link, e: R.Event, s: uint32, i: nat)
    requires Sound(l) && Enabled(l, Local(e)) && Listed(l, s, i)
    ensures Listed(Next(l, Local(e)), s, i)
  {
    hide R.Inv, R.Next, R.Enabled, Pending, WireOk, AcceptedOk, Conditional;
    var r := Next(l, Local(e));
    forall w | w in r.tx.wire && Concerns(w, l.peer) && w.HelloSeq? && w.seqNum == s ensures l.peer in w.listed {
      if w !in l.tx.wire { NewHellos(l.tx, e, w); }
    }
  }

  lemma ListedDeliver(l: Link, w: R.Wire, s: uint32, i: nat)
    requires Sound(l) && Enabled(l, Deliver(w)) && Listed(l, s, i)
    ensures Listed(Next(l, Deliver(w)), s, i)
  {
    hide R.Inv, Pending, WireOk, AcceptedOk, Increasing;
    if !w.HelloSeq? { TakenExact(l, w); }
  }

  lemma ListedKeeps(l: Link, e: Event, s: uint32, i: nat)
    requires Sound(l) && Enabled(l, e) && Listed(l, s, i)
    ensures Listed(Next(l, e), s, i)
  {
    hide R.Inv, R.Next, R.Enabled, Pending, WireOk, AcceptedOk, Increasing;
    match e
    case Local(e) => ListedLocal(l, e, s, i);
    case Deliver(w) => ListedDeliver(l, w, s, i);
    case Acknowledge =>
    case DeliverAck(ack) =>
      if ack != 0 && HeadIs(l, ack) { AckSends(l, ack); }
  }

  /** A conditional multicast sent while the neighbour is busy is listed. */
  lemma BusyIsListed(l: Link, link: seq<R.NbrId>, payload: R.Payload)
    requires Sound(l) && Enabled(l, Local(R.EvMcast(link, payload))) && l.peer in link
    requires l.tx.nbrs[l.peer].queue != [] && Conditional(l.tx, link)
    ensures Listed(Next(l, Local(R.EvMcast(link, payload))), l.tx.seqNum, |l.queued|)
  {
    hide R.Inv, R.Append, R.Others, R.Busy, R.NonEmpty;
    assert link[..|link|] == link;
    V.ListedAreBusy(l.tx.nbrs, link, |link|, l.peer);
    forall w | w in l.tx.wire && Concerns(w, l.peer) && w.HelloSeq? ensures w.seqNum != l.tx.seqNum {
      assert WireAt(l, w);
    }
  }

  /** So the neighbour never accepts it, nor anything queued behind it: no copy,
      whenever it arrives, passes the conditional check. */
  lemma {:induction false} BusyNeverAccepts(states: seq<Link>, events: seq<Event>, k: nat, j: nat)
    requires Run(states, events) && k < j < |states| && events[k].Local? && events[k].e.EvMcast?
    requires var l, link := states[k], events[k].e.link;
             && l.peer in link && R.Enabled(l.tx, events[k].e) && Conditional(l.tx, link)
             && l.peer < |l.tx.nbrs| && l.tx.nbrs[l.peer].queue != []
    ensures |states[j].accepted| <= |states[k].queued| < |states[j].queued|
    ensures Listed(states[j], states[k].tx.seqNum, |states[k].queued|)
  {
    hide R.Inv, R.Next, Next, Sound, Listed;
    RunSound(states, events, j - 1);
    if j == k + 1 {
      BusyIsListed(states[k], events[k].e.link, events[k].e.payload);
    } else {
      BusyNeverAccepts(states, events, k, j - 1);
      ListedKeeps(states[j - 1], events[j - 1], states[k].tx.seqNum, |states[k].queued|);
    }
    ListedMeans(states[j], states[k].tx.seqNum, |states[k].queued|);
  }

  lemma ListedMeans(l: Link, s: uint32, i: nat)
    requires Listed(l, s, i)
    ensures |l.accepted| <= i < |l.queued|
  {}
}
