/** EIGRP reliable transport: stop-and-wait towards every neighbour, buffers
    shared between the queues by reference counting, retransmission limits. */
module Rtp {
  import opened Prelude

  const MAX_ATTEMPTS := 16

  type NbrId = nat
  type BufId = nat
  type Payload = seq<uint8>

  /** `sent` counts the times the packet was unicast. */
  datatype Packet = Packet(seqNum: uint32, buf: BufId, attempts: nat, timer: bool, sent: nat)

  datatype Neighbour = Neighbour(alive: bool, self: bool, queue: seq<Packet>)

  /** `conditional` is the flag in the packet header; a conditional multicast
      leaves it set in the buffer the later unicasts are made from. */
  datatype Buf = Buf(payload: Payload, refcnt: nat, conditional: bool)

  datatype Wire =
    | Unicast(to: NbrId, seqNum: uint32, payload: Payload, conditional: bool)
    | Multicast(link: seq<NbrId>, seqNum: uint32, payload: Payload, conditional: bool)
    | HelloSeq(link: seq<NbrId>, listed: seq<NbrId>, seqNum: uint32)

  /** Neighbours are numbered in the order they appeared; `frees` records the
      buffers returned to the allocator, `wire` everything transmitted. */
  datatype Transport = Transport(seqNum: uint32, nbrs: seq<Neighbour>, bufs: map<BufId, Buf>, nextBuf: BufId,
                                 frees: seq<BufId>, wire: seq<Wire>)

  /** Sequence number 0 is reserved for unreliable packets. */
  function SeqInc(s: uint32): uint32 {
    if s == UINT32_MAX then 1 else s + 1
  }

  // ---------------------------------------------------------------- operations

  predicate Live(t: Transport, n: NbrId) {
    n < |t.nbrs| && t.nbrs[n].alive
  }

  function SetQueue(nbrs: seq<Neighbour>, n: NbrId, q: seq<Packet>): seq<Neighbour>
    requires n < |nbrs|
  {
    nbrs[n := nbrs[n].(queue := q)]
  }

  function PayloadOf(t: Transport, b: BufId): Payload {
    if b in t.bufs then t.bufs[b].payload else []
  }

  predicate FlagOf(t: Transport, b: BufId) {
    b in t.bufs && t.bufs[b].conditional
  }

  function Release(t: Transport, b: BufId): Transport {
    if b !in t.bufs then t
    else if t.bufs[b].refcnt <= 1 then t.(bufs := t.bufs - {b}, frees := t.frees + [b])
    else t.(bufs := t.bufs[b := t.bufs[b].(refcnt := t.bufs[b].refcnt - 1)])
  }

  /** Take the first packet off a queue. */
  function Dequeue(t: Transport, n: NbrId): Transport
    requires n < |t.nbrs| && t.nbrs[n].queue != []
  {
    Release(t.(nbrs := SetQueue(t.nbrs, n, t.nbrs[n].queue[1..])), t.nbrs[n].queue[0].buf)
  }

  /** Transmit a queued packet and start its timer. */
  function Send(t: Transport, n: NbrId, i: nat): Transport
    requires n < |t.nbrs| && i < |t.nbrs[n].queue|
  {
    var p := t.nbrs[n].queue[i];
    t.(nbrs := SetQueue(t.nbrs, n, t.nbrs[n].queue[i := p.(timer := true, sent := p.sent + 1)]),
       wire := t.wire + [Unicast(n, p.seqNum, PayloadOf(t, p.buf), FlagOf(t, p.buf))])
  }

  function SendUcast(t: Transport, n: NbrId, payload: Payload): Transport
    requires n < |t.nbrs|
  {
    var q := t.nbrs[n].queue;
    var first := q == [];
    t.(seqNum := SeqInc(t.seqNum),
       nbrs := SetQueue(t.nbrs, n, q + [Packet(t.seqNum, t.nextBuf, 1, first, if first then 1 else 0)]),
       bufs := t.bufs[t.nextBuf := Buf(payload, 1, false)],
       nextBuf := t.nextBuf + 1,
       wire := t.wire + if first then [Unicast(n, t.seqNum, payload, false)] else [])
  }

  predicate OnLink(link: seq<NbrId>, count: nat) {
    forall i :: 0 <= i < |link| ==> link[i] < count
  }

  /** Neighbours of the link that are not the router itself. */
  function Others(nbrs: seq<Neighbour>, link: seq<NbrId>, k: nat): nat
    requires k <= |link| && OnLink(link, |nbrs|)
  {
    if k == 0 then 0 else Others(nbrs, link, k - 1) + if nbrs[link[k - 1]].self then 0 else 1
  }

  function Busy(nbrs: seq<Neighbour>, link: seq<NbrId>, k: nat): (c: nat)
    requires k <= |link| && OnLink(link, |nbrs|)
    ensures c <= Others(nbrs, link, k)
  {
    if k == 0 then 0
    else Busy(nbrs, link, k - 1) + if nbrs[link[k - 1]].self || nbrs[link[k - 1]].queue == [] then 0 else 1
  }

  function NonEmpty(nbrs: seq<Neighbour>, link: seq<NbrId>, k: nat): seq<NbrId>
    requires k <= |link| && OnLink(link, |nbrs|)
  {
    if k == 0 then []
    else NonEmpty(nbrs, link, k - 1) + if nbrs[link[k - 1]].queue == [] then [] else [link[k - 1]]
  }

  function Append(nbrs: seq<Neighbour>, link: seq<NbrId>, p: Packet, k: nat): (r: seq<Neighbour>)
    requires k <= |link| && OnLink(link, |nbrs|)
    ensures |r| == |nbrs|
  {
    if k == 0 then nbrs
    else
      var before := Append(nbrs, link, p, k - 1);
      SetQueue(before, link[k - 1], before[link[k - 1]].queue + [p])
  }

  /** One multicast for the idle neighbours, conditional when some are busy; a
      packet for later unicast in every queue, the router's own included. */
  function SendMcast(t: Transport, link: seq<NbrId>, payload: Payload): Transport
    requires OnLink(link, |t.nbrs|)
  {
    var total, pending := Others(t.nbrs, link, |link|), Busy(t.nbrs, link, |link|);
    if total == 0 then t
    else
      t.(seqNum := SeqInc(t.seqNum),
         nbrs := Append(t.nbrs, link, Packet(t.seqNum, t.nextBuf, 1, false, 0), |link|),
         bufs := t.bufs[t.nextBuf := Buf(payload, |link|, 0 < pending < total)],
         nextBuf := t.nextBuf + 1,
         wire := t.wire
                 + (if 0 < pending < total then [HelloSeq(link, NonEmpty(t.nbrs, link, |link|), t.seqNum)] else [])
                 + (if pending < total then [Multicast(link, t.seqNum, payload, pending > 0)] else []))
  }

  function ProcessAck(t: Transport, n: NbrId, ack: uint32): Transport
    requires n < |t.nbrs|
  {
    var q := t.nbrs[n].queue;
    if q == [] || q[0].seqNum != ack then t
    else
      var d := Dequeue(t, n);
      if d.nbrs[n].queue == [] then d else Send(d, n, 0)
  }

  function Drain(t: Transport, n: NbrId): Transport
    requires n < |t.nbrs|
    decreases if n < |t.nbrs| then |t.nbrs[n].queue| else 0
  {
    if t.nbrs[n].queue == [] then t else Drain(Dequeue(t, n), n)
  }

  function NbrDel(t: Transport, n: NbrId): (r: Transport)
    requires n < |t.nbrs|
  {
    DrainShape(t, n);
    var d := Drain(t, n);
    d.(nbrs := d.nbrs[n := d.nbrs[n].(alive := false)])
  }

  lemma DrainShape(t: Transport, n: NbrId)
    requires n < |t.nbrs|
    ensures |Drain(t, n).nbrs| == |t.nbrs|
    decreases |t.nbrs[n].queue|
  {
    if t.nbrs[n].queue != [] { DrainShape(Dequeue(t, n), n); }
  }

  /** The timer of packet `i` runs out. */
  function Timeout(t: Transport, n: NbrId, i: nat): Transport
    requires n < |t.nbrs| && i < |t.nbrs[n].queue|
  {
    var p := t.nbrs[n].queue[i];
    if p.attempts + 1 > MAX_ATTEMPTS then NbrDel(t, n)
    else Send(t.(nbrs := SetQueue(t.nbrs, n, t.nbrs[n].queue[i := p.(attempts := p.attempts + 1, timer := false)])), n, i)
  }

  function NbrNew(t: Transport, self: bool): Transport {
    t.(nbrs := t.nbrs + [Neighbour(true, self, [])])
  }

  datatype Event =
    | EvUcast(n: NbrId, payload: Payload)
    | EvMcast(link: seq<NbrId>, payload: Payload)
    | EvAck(n: NbrId, ack: uint32)
    | EvTimeout(n: NbrId, i: nat)
    | EvNbrDel(n: NbrId)
    | EvNbrNew(self: bool)

  predicate Enabled(t: Transport, e: Event) {
    match e
    case EvUcast(n, _) => Live(t, n)
    case EvMcast(link, _) => Distinct(link) && OnLink(link, |t.nbrs|) && forall i :: 0 <= i < |link| ==> Live(t, link[i])
    case EvAck(n, _) => Live(t, n)
    case EvTimeout(n, i) => Live(t, n) && i < |t.nbrs[n].queue| && t.nbrs[n].queue[i].timer
    case EvNbrDel(n) => Live(t, n)
    case EvNbrNew(_) => true
  }

  function Next(t: Transport, e: Event): Transport
    requires Enabled(t, e)
  {
    match e
    case EvUcast(n, payload) => SendUcast(t, n, payload)
    case EvMcast(link, payload) => SendMcast(t, link, payload)
    case EvAck(n, ack) => ProcessAck(t, n, ack)
    case EvTimeout(n, i) => Timeout(t, n, i)
    case EvNbrDel(n) => NbrDel(t, n)
    case EvNbrNew(self) => NbrNew(t, self)
  }

  // ---------------------------------------------------------------- invariants

  /** Only the first packet of a queue has ever been sent or has a timer, and
      it has been sent at most once per attempt. */
  predicate QueueOk(q: seq<Packet>) {
    && (forall i :: 0 < i < |q| ==> !q[i].timer && q[i].sent == 0 && q[i].attempts == 1)
    && (q != [] ==> q[0].sent <= q[0].attempts <= MAX_ATTEMPTS
                    && (if q[0].timer then q[0].sent == q[0].attempts else q[0].sent == 0 && q[0].attempts == 1))
  }

  predicate QueuesOk(t: Transport) {
    forall n :: 0 <= n < |t.nbrs| ==> QueueOk(t.nbrs[n].queue) && (!t.nbrs[n].alive ==> t.nbrs[n].queue == [])
  }

  /** Packets of one queue that hold buffer `b`. */
  function HoldsIn(q: seq<Packet>, b: BufId): nat {
    if q == [] then 0 else (if q[0].buf == b then 1 else 0) + HoldsIn(q[1..], b)
  }

  function Holds(nbrs: seq<Neighbour>, b: BufId): nat {
    if nbrs == [] then 0 else HoldsIn(nbrs[0].queue, b) + Holds(nbrs[1..], b)
  }

  /** A live buffer is held, and counted, by exactly its reference count of
      queued packets; every other one was freed, once. */
  ghost predicate RefsOk(t: Transport) {
    && (forall b: BufId :: b in t.bufs ==> t.bufs[b].refcnt == Holds(t.nbrs, b) >= 1)
    && (forall b: BufId :: b !in t.bufs ==> Holds(t.nbrs, b) == 0)
    && (forall b: BufId :: b < t.nextBuf <==> b in t.bufs || b in t.frees)
    && (forall b: BufId :: b in t.frees ==> b !in t.bufs)
    && Distinct(t.frees)
  }

  ghost predicate Inv(t: Transport) {
    QueuesOk(t) && RefsOk(t)
  }

  // ---------------------------------------------------------------- counting holders

  lemma {:induction false} HoldsInAppend(q: seq<Packet>, p: Packet, b: BufId)
    ensures HoldsIn(q + [p], b) == HoldsIn(q, b) + if p.buf == b then 1 else 0
  {
    if q == [] {
      assert q + [p] == [p] && [p][1..] == [];
    } else {
      assert (q + [p])[1..] == q[1..] + [p];
      HoldsInAppend(q[1..], p, b);
    }
  }

  lemma {:induction false} HoldsInSame(q: seq<Packet>, r: seq<Packet>, b: BufId)
    requires |q| == |r| && forall i :: 0 <= i < |q| ==> q[i].buf == r[i].buf
    ensures HoldsIn(q, b) == HoldsIn(r, b)
  {
    if q != [] { HoldsInSame(q[1..], r[1..], b); }
  }

  /** Replacing one queue changes the total by the difference. */
  lemma {:induction false} HoldsReplace(nbrs: seq<Neighbour>, n: nat, x: Neighbour, b: BufId)
    requires n < |nbrs|
    ensures Holds(nbrs[n := x], b) + HoldsIn(nbrs[n].queue, b) == Holds(nbrs, b) + HoldsIn(x.queue, b)
  {
    if n == 0 {
      assert nbrs[0 := x][1..] == nbrs[1..];
    } else {
      assert nbrs[n := x][1..] == nbrs[1..][n - 1 := x];
      HoldsReplace(nbrs[1..], n - 1, x, b);
    }
  }

  lemma {:induction false} HoldsGrow(nbrs: seq<Neighbour>, x: Neighbour, b: BufId)
    ensures Holds(nbrs + [x], b) == Holds(nbrs, b) + HoldsIn(x.queue, b)
  {
    if nbrs == [] {
      assert nbrs + [x] == [x] && [x][1..] == [];
    } else {
      assert (nbrs + [x])[1..] == nbrs[1..] + [x];
      HoldsGrow(nbrs[1..], x, b);
    }
  }

  /** Every hold recorded in a queue is part of the total. */
  lemma {:induction false} HoldsAtLeast(nbrs: seq<Neighbour>, n: nat, b: BufId)
    requires n < |nbrs|
    ensures HoldsIn(nbrs[n].queue, b) <= Holds(nbrs, b)
  {
    if n > 0 { HoldsAtLeast(nbrs[1..], n - 1, b); }
  }

  lemma {:induction false} HoldsInPositive(q: seq<Packet>, i: nat)
    requires i < |q|
    ensures HoldsIn(q, q[i].buf) >= 1
  {
    if i > 0 { HoldsInPositive(q[1..], i - 1); }
  }

  /** A queued packet's buffer is live. */
  lemma QueuedIsLive(t: Transport, n: nat, i: nat)
    requires RefsOk(t) && n < |t.nbrs| && i < |t.nbrs[n].queue|
    ensures t.nbrs[n].queue[i].buf in t.bufs
  {
    HoldsInPositive(t.nbrs[n].queue, i);
    HoldsAtLeast(t.nbrs, n, t.nbrs[n].queue[i].buf);
  }

  // ---------------------------------------------------------------- the steps

  lemma SendKeeps(t: Transport, n: NbrId, i: nat)
    requires RefsOk(t) && n < |t.nbrs| && i < |t.nbrs[n].queue|
    ensures RefsOk(Send(t, n, i))
  {
    var r := Send(t, n, i);
    SameHolders(t, n, r.nbrs[n].queue);
  }

  /** Changing counters and timers of queued packets leaves the holders alone. */
  lemma SameHolders(t: Transport, n: NbrId, q: seq<Packet>)
    requires RefsOk(t) && n < |t.nbrs| && |q| == |t.nbrs[n].queue|
    requires forall i :: 0 <= i < |q| ==> q[i].buf == t.nbrs[n].queue[i].buf
    ensures RefsOk(t.(nbrs := SetQueue(t.nbrs, n, q)))
  {
    forall b: BufId ensures Holds(SetQueue(t.nbrs, n, q), b) == Holds(t.nbrs, b) {
      HoldsReplace(t.nbrs, n, t.nbrs[n].(queue := q), b);
      HoldsInSame(q, t.nbrs[n].queue, b);
    }
  }

  lemma DequeueKeeps(t: Transport, n: NbrId)
    requires RefsOk(t) && n < |t.nbrs| && t.nbrs[n].queue != []
    ensures RefsOk(Dequeue(t, n))
  {
    var q := t.nbrs[n].queue;
    var r := Dequeue(t, n);
    QueuedIsLive(t, n, 0);
    forall b: BufId ensures Holds(r.nbrs, b) == Holds(t.nbrs, b) - if b == q[0].buf then 1 else 0 {
      HoldsReplace(t.nbrs, n, t.nbrs[n].(queue := q[1..]), b);
    }
    if t.bufs[q[0].buf].refcnt <= 1 { DistinctAppend(t.frees, q[0].buf); }
  }

  lemma SendUcastKeeps(t: Transport, n: NbrId, payload: Payload)
    requires Inv(t) && Live(t, n)
    ensures Inv(SendUcast(t, n, payload))
  {
    var r := SendUcast(t, n, payload);
    var p := r.nbrs[n].queue[|t.nbrs[n].queue|];
    assert t.nextBuf !in t.bufs;
    forall b: BufId ensures Holds(r.nbrs, b) == Holds(t.nbrs, b) + if b == t.nextBuf then 1 else 0 {
      HoldsReplace(t.nbrs, n, r.nbrs[n], b);
      HoldsInAppend(t.nbrs[n].queue, p, b);
    }
  }

  lemma {:induction false} AppendAt(nbrs: seq<Neighbour>, link: seq<NbrId>, p: Packet, k: nat, n: nat)
    requires k <= |link| && Distinct(link) && OnLink(link, |nbrs|) && n < |nbrs|
    ensures Append(nbrs, link, p, k)[n] == nbrs[n].(queue := nbrs[n].queue + if n in link[..k] then [p] else [])
  {
    if k > 0 {
      AppendAt(nbrs, link, p, k - 1, n);
      assert link[..k] == link[..k - 1] + [link[k - 1]];
    }
  }

  lemma {:induction false} AppendHolds(nbrs: seq<Neighbour>, link: seq<NbrId>, p: Packet, k: nat, b: BufId)
    requires k <= |link| && OnLink(link, |nbrs|)
    ensures Holds(Append(nbrs, link, p, k), b) == Holds(nbrs, b) + if p.buf == b then k else 0
  {
    if k > 0 {
      AppendHolds(nbrs, link, p, k - 1, b);
      var before, n := Append(nbrs, link, p, k - 1), link[k - 1];
      HoldsReplace(before, n, before[n].(queue := before[n].queue + [p]), b);
      HoldsInAppend(before[n].queue, p, b);
    }
  }

  lemma McastRefs(t: Transport, link: seq<NbrId>, payload: Payload)
    requires RefsOk(t) && OnLink(link, |t.nbrs|)
    ensures RefsOk(SendMcast(t, link, payload))
  {
    hide Append, Others, Busy, NonEmpty, Holds;
    var r := SendMcast(t, link, payload);
    if Others(t.nbrs, link, |link|) > 0 {
      OthersBound(t.nbrs, link, |link|);
      forall b: BufId ensures Holds(r.nbrs, b) == Holds(t.nbrs, b) + if b == t.nextBuf then |link| else 0 {
        AppendHolds(t.nbrs, link, Packet(t.seqNum, t.nextBuf, 1, false, 0), |link|, b);
      }
    }
  }

  lemma {:induction false} OthersBound(nbrs: seq<Neighbour>, link: seq<NbrId>, k: nat)
    requires k <= |link| && OnLink(link, |nbrs|)
    ensures Others(nbrs, link, k) <= k
  {
    if k > 0 { OthersBound(nbrs, link, k - 1); }
  }

  lemma SendMcastKeeps(t: Transport, link: seq<NbrId>, payload: Payload)
    requires Inv(t) && Enabled(t, EvMcast(link, payload))
    ensures Inv(SendMcast(t, link, payload))
  {
    hide Append, Others, Busy, NonEmpty, RefsOk;
    McastRefs(t, link, payload);
    var r := SendMcast(t, link, payload);
    if Others(t.nbrs, link, |link|) > 0 {
      forall n | 0 <= n < |r.nbrs| ensures QueueOk(r.nbrs[n].queue) && (!r.nbrs[n].alive ==> r.nbrs[n].queue == []) {
        AppendAt(t.nbrs, link, Packet(t.seqNum, t.nextBuf, 1, false, 0), |link|, n);
        assert link[..|link|] == link;
      }
    }
  }

  lemma ProcessAckKeeps(t: Transport, n: NbrId, ack: uint32)
    requires Inv(t) && Live(t, n)
    ensures Inv(ProcessAck(t, n, ack))
  {
    hide RefsOk;
    var q := t.nbrs[n].queue;
    if q != [] && q[0].seqNum == ack {
      DequeueKeeps(t, n);
      var d := Dequeue(t, n);
      if d.nbrs[n].queue != [] { SendKeeps(d, n, 0); }
    }
  }

  lemma {:induction false} DrainKeeps(t: Transport, n: NbrId)
    requires RefsOk(t) && n < |t.nbrs|
    ensures RefsOk(Drain(t, n)) && |Drain(t, n).nbrs| == |t.nbrs| && Drain(t, n).wire == t.wire
    ensures forall m :: 0 <= m < |t.nbrs| && m != n ==> Drain(t, n).nbrs[m] == t.nbrs[m]
    ensures Drain(t, n).nbrs[n] == t.nbrs[n].(queue := [])
    decreases |t.nbrs[n].queue|
  {
    if t.nbrs[n].queue != [] {
      DequeueKeeps(t, n);
      DrainKeeps(Dequeue(t, n), n);
    }
  }

  lemma NbrDelKeeps(t: Transport, n: NbrId)
    requires Inv(t) && n < |t.nbrs|
    ensures Inv(NbrDel(t, n)) && NbrDel(t, n).wire == t.wire && |NbrDel(t, n).nbrs| == |t.nbrs|
    ensures forall m :: 0 <= m < |t.nbrs| && m != n ==> NbrDel(t, n).nbrs[m] == t.nbrs[m]
    ensures NbrDel(t, n).nbrs[n] == t.nbrs[n].(queue := [], alive := false)
  {
    DrainKeeps(t, n);
    var d := Drain(t, n);
    forall b: BufId ensures Holds(NbrDel(t, n).nbrs, b) == Holds(d.nbrs, b) {
      HoldsReplace(d.nbrs, n, d.nbrs[n].(alive := false), b);
    }
  }

  lemma TimeoutKeeps(t: Transport, n: NbrId, i: nat)
    requires Inv(t) && Enabled(t, EvTimeout(n, i))
    ensures Inv(Timeout(t, n, i)) && i == 0
  {
    hide RefsOk, Drain;
    var p := t.nbrs[n].queue[i];
    if p.attempts + 1 > MAX_ATTEMPTS {
      NbrDelKeeps(t, n);
    } else {
      var q := t.nbrs[n].queue[i := p.(attempts := p.attempts + 1, timer := false)];
      SameHolders(t, n, q);
      SendKeeps(t.(nbrs := SetQueue(t.nbrs, n, q)), n, i);
    }
  }

  lemma NbrNewKeeps(t: Transport, self: bool)
    requires Inv(t)
    ensures Inv(NbrNew(t, self))
  {
    forall b: BufId ensures Holds(NbrNew(t, self).nbrs, b) == Holds(t.nbrs, b) {
      HoldsGrow(t.nbrs, Neighbour(true, self, []), b);
    }
  }

  lemma NextKeeps(t: Transport, e: Event)
    requires Inv(t) && Enabled(t, e)
    ensures Inv(Next(t, e))
  {
    match e
    case EvUcast(n, payload) => SendUcastKeeps(t, n, payload);
    case EvMcast(link, payload) => SendMcastKeeps(t, link, payload);
    case EvAck(n, ack) => ProcessAckKeeps(t, n, ack);
    case EvTimeout(n, i) => TimeoutKeeps(t, n, i);
    case EvNbrDel(n) => NbrDelKeeps(t, n);
    case EvNbrNew(self) => NbrNewKeeps(t, self);
  }

  ghost predicate Init(t: Transport) {
    t.seqNum != 0 && t.nbrs == [] && t.bufs == map[] && t.nextBuf == 0 && t.frees == [] && t.wire == []
  }

  ghost predicate Run(states: seq<Transport>, events: seq<Event>) {
    && |states| == |events| + 1 && Init(states[0])
    && forall i :: 0 <= i < |events| ==> Enabled(states[i], events[i]) && states[i + 1] == Next(states[i], events[i])
  }

  /** In every run of sends, acknowledgements, timeouts and neighbour changes:
      only the head of a queue has a timer, no packet is unicast more than
      sixteen times, reference counts are exact and buffers are freed once. */
  lemma {:induction false} RunKeepsInv(states: seq<Transport>, events: seq<Event>, k: nat)
    requires Run(states, events) && k < |states|
    ensures Inv(states[k])
  {
    if k > 0 {
      RunKeepsInv(states, events, k - 1);
      NextKeeps(states[k - 1], events[k - 1]);
    }
  }

  lemma RunSafety(states: seq<Transport>, events: seq<Event>, k: nat, n: NbrId, i: nat)
    requires Run(states, events) && k < |states| && n < |states[k].nbrs| && i < |states[k].nbrs[n].queue|
    ensures var t := states[k]; var p := t.nbrs[n].queue[i];
            p.sent <= MAX_ATTEMPTS && (p.timer ==> i == 0) && p.buf in t.bufs && t.bufs[p.buf].refcnt == Holds(t.nbrs, p.buf)
  {
    RunKeepsInv(states, events, k);
    QueuedIsLive(states[k], n, i);
  }
}
