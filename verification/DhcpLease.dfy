/** The lease state machine of the DHCP client engine: one interface, its
    retransmission timer, and the messages it sends to the main process. */
module DhcpLease {
  import opened Prelude

  type Addr = uint32

  const NO_ADDR: Addr := 0
  const START_BACKOFF := 1
  const MAX_BACKOFF_SLOW := 64
  const MAX_BACKOFF_FAST := 2
  const MIN_V6ONLY_WAIT := 300

  datatype IfState = Down | Init | Requesting | Bound | Renewing | Rebinding | Rebooting | Ipv6Only

  /** What leaves the engine. Requests carry the fields of table 4 in section
      4.3.6 of RFC 2131. */
  datatype Msg =
    | Configure(addr: Addr)
    | Deconfigure(addr: Addr)
    | Discover
    | Request(unicast: Addr, serverId: Addr, requestedIp: Addr, ciaddr: Addr)

  /** `timo` is the timeout in seconds, -1 for none; `log` is everything sent. */
  datatype Iface = Iface(state: IfState, timo: int, armed: bool, requestedIp: Addr, serverId: Addr,
                         lease: uint32, t1: uint32, t2: uint32, v6Time: uint32, log: seq<Msg>)

  /** `Fatal` is the daemon's exit on an invalid transition. */
  datatype Outcome = Live(iface: Iface) | Fatal

  /** A reply that passed the parser; `v6Time` is 0 when the option is absent. */
  datatype Reply =
    | Offer(serverId: Addr, yiaddr: Addr, v6Time: uint32)
    | Ack(serverId: Addr, yiaddr: Addr, v6Time: uint32, lease: uint32, mask: Addr, t1: uint32, t2: uint32)
    | Nak

  /** Clock readings enter as the whole seconds since the last acknowledgement,
      the stored lease file as the address it yields. */
  datatype Event =
    | Refresh(up: bool, fileIp: Addr, elapsed: nat)
    | Timeout(elapsed: nat)
    | RebootRequest
    | Receive(reply: Reply, preferV6: bool)

  const FRESH := Iface(Down, 0, false, NO_ADDR, NO_ADDR, 0, 0, 0, 0, [])

  function Sub32(a: uint32, b: uint32): uint32 {
    if a >= b then a - b else a - b + UINT32_MAX + 1
  }

  // ---------------------------------------------------------------- the operations

  function SendDeconfigure(i: Iface): Iface {
    if i.requestedIp == NO_ADDR then i
    else i.(log := i.log + [Deconfigure(i.requestedIp)], serverId := NO_ADDR, requestedIp := NO_ADDR)
  }

  /** The request for the state the interface has just entered. */
  function SendRequest(i: Iface): Iface {
    match i.state
    case Rebooting => i.(log := i.log + [Request(NO_ADDR, NO_ADDR, i.requestedIp, NO_ADDR)])
    case Requesting => i.(log := i.log + [Request(NO_ADDR, i.serverId, i.requestedIp, NO_ADDR)])
    case Renewing => i.(log := i.log + [Request(i.serverId, NO_ADDR, NO_ADDR, i.requestedIp)])
    case _ => i.(log := i.log + [Request(NO_ADDR, NO_ADDR, NO_ADDR, i.requestedIp)])
  }

  /** Arm the timer, or stop it when there is nothing to wait for. */
  function Arm(i: Iface): Iface {
    i.(armed := i.timo != -1)
  }

  function ToDown(i: Iface, prev: IfState, elapsed: nat): Iface {
    if i.requestedIp == NO_ADDR then i.(timo := -1)
    else if prev == Down then SendDeconfigure(i).(timo := -1)
    else i.(timo := if i.lease - elapsed < 0 then 0 else i.lease - elapsed)
  }

  function ToInit(i: Iface, prev: IfState): Outcome {
    match prev
    case Init => Live(WithDiscover(if i.timo < MAX_BACKOFF_SLOW then i.(timo := i.timo * 2) else i))
    case Bound => Fatal
    case Down => Live(WithDiscover(i.(timo := START_BACKOFF)))
    case Ipv6Only => Live(WithDiscover(i.(timo := START_BACKOFF)))
    case _ => Live(WithDiscover(SendDeconfigure(i).(timo := START_BACKOFF)))
  }

  function WithDiscover(i: Iface): Iface {
    i.(log := i.log + [Discover])
  }

  function ToBound(i: Iface, prev: IfState): Iface {
    var j := i.(timo := i.t1);
    if prev == Requesting || prev == Rebooting then j.(log := j.log + [Configure(j.requestedIp)]) else j
  }

  function ToRenewing(i: Iface, prev: IfState): Iface {
    var timo := if prev == Bound then Sub32(i.t2, i.t1) / 2 else i.timo / 2;
    SendRequest(i.(timo := Max(timo, 60)))
  }

  function ToRebinding(i: Iface, prev: IfState): Iface {
    SendRequest(i.(timo := if prev == Renewing then Sub32(i.lease, i.t2) / 2 else i.timo / 2))
  }

  function ToIpv6Only(i: Iface, prev: IfState): Outcome {
    match prev
    case Bound => Fatal
    case Init => Live(i.(timo := i.v6Time))
    case Down => Live(i.(timo := i.v6Time))
    case Ipv6Only => Live(i.(timo := i.v6Time))
    case _ => Live(SendDeconfigure(i).(timo := i.v6Time))
  }

  function Backoff(i: Iface, prev: IfState): Iface {
    SendRequest(i.(timo := if prev == i.state then i.timo * 2 else START_BACKOFF))
  }

  function Transition(before: Iface, to: IfState, elapsed: nat): Outcome {
    var i := before.(state := to);
    var o := match to
      case Down => Live(ToDown(i, before.state, elapsed))
      case Init => ToInit(i, before.state)
      case Rebooting => Live(Backoff(i, before.state))
      case Requesting => Live(Backoff(i, before.state))
      case Bound => Live(ToBound(i, before.state))
      case Renewing => Live(ToRenewing(i, before.state))
      case Rebinding => Live(ToRebinding(i, before.state))
      case Ipv6Only => ToIpv6Only(i, before.state);
    if o.Fatal? then o else Live(Arm(o.iface))
  }

  function TimeoutTarget(i: Iface, elapsed: nat): IfState {
    match i.state
    case Down => Down
    case Init => Init
    case Rebooting => if i.timo >= MAX_BACKOFF_FAST then Init else Rebooting
    case Requesting => if i.timo >= MAX_BACKOFF_SLOW then Init else Requesting
    case Bound => Renewing
    case Renewing => if elapsed >= i.t2 then Rebinding else Renewing
    case Rebinding => if elapsed > i.lease then Init else Rebinding
    case Ipv6Only => Requesting
  }

  function OnRefresh(i: Iface, up: bool, fileIp: Addr, elapsed: nat): Outcome {
    if !up then Transition(i, Down, elapsed)
    else
      var j := if i.requestedIp == NO_ADDR then i.(requestedIp := fileIp) else i;
      Transition(j, if j.requestedIp == NO_ADDR then Init else Rebooting, elapsed)
  }

  function OnRebootRequest(i: Iface): Outcome {
    match i.state
    case Down => Live(i)
    case Init => Transition(i, Init, 0)
    case Requesting => Transition(i, Requesting, 0)
    case _ => Transition(i, Rebooting, 0)
  }

  function DefaultT2(lease: uint32): uint32 {
    lease - lease / 8
  }

  /** Fill in absent times, then replace both when they are out of order. */
  function Times(lease: uint32, t1: uint32, t2: uint32): (uint32, uint32) {
    var a, b := if t1 == 0 then lease / 2 else t1, if t2 == 0 then DefaultT2(lease) else t2;
    if a >= b || b >= lease then (lease / 2, DefaultT2(lease)) else (a, b)
  }

  predicate Awaiting(s: IfState) {
    s == Requesting || s == Renewing || s == Rebinding || s == Rebooting
  }

  /** The acknowledgements that are acted upon. */
  predicate Accepted(i: Iface, r: Reply) {
    r.Ack? && Awaiting(i.state) && !(r.serverId == NO_ADDR && r.yiaddr == NO_ADDR) && r.lease != 0 && r.mask != NO_ADDR
  }

  function OnAck(i: Iface, r: Reply, preferV6: bool): Outcome
    requires r.Ack?
  {
    if !Accepted(i, r) then Live(i)
    else
      var times := Times(r.lease, r.t1, r.t2);
      var j := i.(serverId := r.serverId, requestedIp := r.yiaddr, lease := r.lease, t1 := times.0, t2 := times.1);
      if preferV6 && r.v6Time > 0 then Transition(j.(v6Time := r.v6Time), Ipv6Only, 0)
      else Transition(j, Bound, 0)
  }

  function OnOffer(i: Iface, r: Reply, preferV6: bool): Outcome
    requires r.Offer?
  {
    if i.state != Init || (r.serverId == NO_ADDR && r.yiaddr == NO_ADDR) then Live(i)
    else if preferV6 && r.v6Time > 0 then Transition(i.(v6Time := r.v6Time), Ipv6Only, 0)
    else Transition(i.(serverId := r.serverId, requestedIp := r.yiaddr), Requesting, 0)
  }

  function OnReply(i: Iface, r: Reply, preferV6: bool): Outcome {
    match r
    case Offer(_, _, _) => OnOffer(i, r, preferV6)
    case Ack(_, _, _, _, _, _, _) => OnAck(i, r, preferV6)
    case Nak => if Awaiting(i.state) then Transition(i, Init, 0) else Live(i)
  }

  predicate V6Ok(v6Time: uint32) {
    v6Time == 0 || v6Time >= MIN_V6ONLY_WAIT
  }

  /** A timer fires only while armed; the parser raises short IPv6-only times. */
  predicate Enabled(i: Iface, e: Event) {
    match e
    case Timeout(_) => i.armed
    case Receive(r, _) => !r.Nak? ==> V6Ok(r.v6Time)
    case _ => true
  }

  function Next(i: Iface, e: Event): Outcome {
    match e
    case Refresh(up, fileIp, elapsed) => OnRefresh(i, up, fileIp, elapsed)
    case Timeout(elapsed) => Transition(i.(armed := false), TimeoutTarget(i, elapsed), elapsed)
    case RebootRequest => OnRebootRequest(i)
    case Receive(r, preferV6) => OnReply(i, r, preferV6)
  }

  /** The interface disappears. */
  function Removed(i: Iface): Iface {
    SendDeconfigure(i)
  }

  // ---------------------------------------------------------------- T1 and T2

  predicate TimesOk(lease: uint32, t1: uint32, t2: uint32) {
    t1 < t2 <= lease && (lease >= 8 ==> t2 < lease)
  }

  /** Whatever the server supplied, the stored times are ordered; a valid pair
      is kept, and so is a single valid time next to the default of the other. */
  lemma TimesSanitised(lease: uint32, t1: uint32, t2: uint32)
    requires lease > 0
    ensures TimesOk(lease, Times(lease, t1, t2).0, Times(lease, t1, t2).1)
    ensures 0 < t1 < t2 < lease ==> Times(lease, t1, t2) == (t1, t2)
    ensures 0 < t1 < DefaultT2(lease) < lease ==> Times(lease, t1, 0) == (t1, DefaultT2(lease))
    ensures lease / 2 < t2 < lease ==> Times(lease, 0, t2) == (lease / 2, t2)
    ensures t1 >= t2 > 0 || t2 >= lease ==> Times(lease, t1, t2) == (lease / 2, DefaultT2(lease))
  {
    assert lease / 2 < lease - lease / 8;
  }

  // ---------------------------------------------------------------- what holds in all runs

  predicate PowerOfTwoTo64(n: int) {
    n in {1, 2, 4, 8, 16, 32, 64}
  }

  predicate Leased(s: IfState) {
    s == Bound || s == Renewing || s == Rebinding
  }

  predicate Steady(i: Iface) {
    && (i.state == Init || i.state == Ipv6Only ==> i.requestedIp == NO_ADDR)
    && (i.state == Init ==> PowerOfTwoTo64(i.timo))
    && (i.state == Ipv6Only ==> i.timo >= MIN_V6ONLY_WAIT)
    && (i.state != Down ==> i.armed)
    && (i.armed ==> i.timo >= 0)
    && (i.state == Requesting || i.state == Rebooting ==> i.timo >= 1)
    && (Leased(i.state) ==> TimesOk(i.lease, i.t1, i.t2))
  }

  /** The one way out of `Bound` that ends the daemon. */
  predicate DiesOn(i: Iface, e: Event) {
    i.state == Bound && i.requestedIp == NO_ADDR && e.Refresh? && e.up && e.fileIp == NO_ADDR
  }

  lemma TransitionSteady(i: Iface, to: IfState, elapsed: nat)
    requires i.state == Init ==> PowerOfTwoTo64(i.timo)
    requires to == Init ==> i.state != Bound && (Awaiting(i.state) || i.requestedIp == NO_ADDR)
    requires to == Ipv6Only ==> i.state != Bound && (Awaiting(i.state) || i.requestedIp == NO_ADDR)
    requires to == Ipv6Only ==> i.v6Time >= MIN_V6ONLY_WAIT
    requires to == i.state && (to == Requesting || to == Rebooting) ==> i.timo >= 1
    requires to == Rebinding && i.state != Renewing ==> i.timo >= 0
    requires Leased(to) ==> TimesOk(i.lease, i.t1, i.t2)
    ensures Transition(i, to, elapsed).Live? && Steady(Transition(i, to, elapsed).iface)
    ensures Transition(i, to, elapsed).iface.state == to
  {}

  lemma ReplySteady(i: Iface, r: Reply, preferV6: bool)
    requires Steady(i) && (!r.Nak? ==> V6Ok(r.v6Time))
    ensures OnReply(i, r, preferV6).Live? && Steady(OnReply(i, r, preferV6).iface)
  {
    hide Transition, Times;
    match r
    case Offer(server, yiaddr, v6) =>
      if i.state == Init {
        TransitionSteady(i.(v6Time := v6), if v6 >= MIN_V6ONLY_WAIT then Ipv6Only else Requesting, 0);
        TransitionSteady(i.(serverId := server, requestedIp := yiaddr), Requesting, 0);
      }
    case Ack(server, yiaddr, v6, lease, _, t1, t2) =>
      if Accepted(i, r) {
        TimesSanitised(lease, t1, t2);
        var times := Times(lease, t1, t2);
        var j := i.(serverId := server, requestedIp := yiaddr, lease := lease, t1 := times.0, t2 := times.1);
        TransitionSteady(j.(v6Time := v6), if v6 >= MIN_V6ONLY_WAIT then Ipv6Only else Bound, 0);
        TransitionSteady(j, Bound, 0);
      }
    case Nak =>
      if Awaiting(i.state) { TransitionSteady(i, Init, 0); }
  }

  lemma RefreshSteady(i: Iface, up: bool, fileIp: Addr, elapsed: nat)
    requires Steady(i)
    ensures OnRefresh(i, up, fileIp, elapsed).Fatal? <==> DiesOn(i, Refresh(up, fileIp, elapsed))
    ensures OnRefresh(i, up, fileIp, elapsed).Live? ==> Steady(OnRefresh(i, up, fileIp, elapsed).iface)
  {
    if !up {
      hide Transition;
      TransitionSteady(i, Down, elapsed);
    } else if !DiesOn(i, Refresh(up, fileIp, elapsed)) {
      hide Transition;
      var j := if i.requestedIp == NO_ADDR then i.(requestedIp := fileIp) else i;
      TransitionSteady(j, if j.requestedIp == NO_ADDR then Init else Rebooting, elapsed);
    }
  }

  lemma TimeoutSteady(i: Iface, elapsed: nat)
    requires Steady(i) && i.armed
    ensures Next(i, Timeout(elapsed)).Live? && Steady(Next(i, Timeout(elapsed)).iface)
  {
    hide Transition;
    TransitionSteady(i.(armed := false), TimeoutTarget(i, elapsed), elapsed);
  }

  lemma RebootSteady(i: Iface)
    requires Steady(i)
    ensures OnRebootRequest(i).Live? && Steady(OnRebootRequest(i).iface)
  {
    hide Transition;
    if i.state == Init || i.state == Requesting {
      TransitionSteady(i, i.state, 0);
    } else {
      TransitionSteady(i, Rebooting, 0);
    }
  }

  /** Every step keeps the interface steady, unless it is the fatal one, and
      which step is fatal is known exactly beforehand. */
  lemma NextSteady(i: Iface, e: Event)
    requires Steady(i) && Enabled(i, e)
    ensures Next(i, e).Fatal? <==> DiesOn(i, e)
    ensures Next(i, e).Live? ==> Steady(Next(i, e).iface)
  {
    hide Transition, OnReply, OnRefresh, OnRebootRequest;
    match e
    case Refresh(up, fileIp, elapsed) => RefreshSteady(i, up, fileIp, elapsed);
    case Timeout(elapsed) => TimeoutSteady(i, elapsed);
    case RebootRequest => RebootSteady(i);
    case Receive(r, preferV6) => ReplySteady(i, r, preferV6);
  }

  ghost predicate Run(states: seq<Iface>, events: seq<Event>) {
    && |states| == |events| + 1 && states[0] == FRESH
    && forall k :: 0 <= k < |events| ==> Enabled(states[k], events[k]) && Next(states[k], events[k]) == Live(states[k + 1])
  }

  lemma {:induction false} RunSteady(states: seq<Iface>, events: seq<Event>, k: nat)
    requires Run(states, events) && k < |states|
    ensures Steady(states[k])
  {
    hide Next, Steady;
    if k == 0 {
      FreshSteady();
    } else {
      RunSteady(states, events, k - 1);
      NextSteady(states[k - 1], events[k - 1]);
    }
  }

  lemma FreshSteady()
    ensures Steady(FRESH)
  {}

  /** In no reachable state do the unsigned subtractions for the renewing and
      rebinding timers wrap. */
  lemma NoUnderflow(states: seq<Iface>, events: seq<Event>, k: nat)
    requires Run(states, events) && k < |states| && Leased(states[k].state)
    ensures Sub32(states[k].t2, states[k].t1) == states[k].t2 - states[k].t1
    ensures Sub32(states[k].lease, states[k].t2) == states[k].lease - states[k].t2
  {
    RunSteady(states, events, k);
  }

  // ---------------------------------------------------------------- configured addresses

  function Apply(held: set<Addr>, m: Msg): set<Addr> {
    match m
    case Configure(a) => held + {a}
    case Deconfigure(a) => held - {a}
    case _ => held
  }

  /** The addresses the main process holds after replaying the log. */
  function Configured(log: seq<Msg>): set<Addr> {
    if log == [] then {} else Apply(Configured(log[..|log| - 1]), log[|log| - 1])
  }

  lemma Replay(log: seq<Msg>, m: Msg)
    ensures Configured(log + [m]) == Apply(Configured(log), m)
  {
    assert (log + [m])[..|log|] == log;
  }

  /** At most the requested address is configured, and none while the client has
      no lease to speak of. */
  predicate Safe(i: Iface) {
    && Configured(i.log) <= {i.requestedIp}
    && (i.state == Init || i.state == Ipv6Only ==> Configured(i.log) == {})
  }

  /** What keeps it so. */
  predicate Good(i: Iface) {
    && Steady(i)
    && Configured(i.log) <= {i.requestedIp} && NO_ADDR !in Configured(i.log)
    && (i.state == Requesting ==> Configured(i.log) == {})
    && (Leased(i.state) ==> Configured(i.log) == {i.requestedIp})
  }

  predicate GoesIpv6Only(r: Reply, preferV6: bool)
    requires r.Ack?
  {
    preferV6 && r.v6Time > 0
  }

  /** An acknowledgement that re-acknowledges whatever is configured, with a
      real address unless the client gives up on IPv4 anyway. */
  predicate Harmless(i: Iface, e: Event) {
    e.Receive? && Accepted(i, e.reply) ==>
      && Configured(i.log) <= {e.reply.yiaddr}
      && (e.reply.yiaddr != NO_ADDR || GoesIpv6Only(e.reply, e.preferV6))
  }

  lemma GoodIsSafe(i: Iface)
    requires Good(i)
    ensures Safe(i)
  {}

  lemma SentRequest(i: Iface)
    ensures Configured(SendRequest(i).log) == Configured(i.log)
    ensures SendRequest(i).requestedIp == i.requestedIp && SendRequest(i).state == i.state
  {
    Replay(i.log, SendRequest(i).log[|i.log|]);
  }

  lemma SentDeconfigure(i: Iface)
    requires Configured(i.log) <= {i.requestedIp} && NO_ADDR !in Configured(i.log)
    ensures Configured(SendDeconfigure(i).log) == {} && SendDeconfigure(i).requestedIp == NO_ADDR
    ensures SendDeconfigure(i).state == i.state
  {
    if i.requestedIp != NO_ADDR { Replay(i.log, Deconfigure(i.requestedIp)); }
  }

  lemma SentDiscover(i: Iface)
    ensures Configured(WithDiscover(i).log) == Configured(i.log)
  {
    Replay(i.log, Discover);
  }

  /** Transitions other than an acknowledgement's keep the address discipline. */
  lemma MovesGood(i: Iface, to: IfState, elapsed: nat)
    requires Configured(i.log) <= {i.requestedIp} && NO_ADDR !in Configured(i.log)
    requires to == Requesting ==> Configured(i.log) == {}
    requires Leased(to) ==> to != Bound && Configured(i.log) == {i.requestedIp}
    requires Transition(i, to, elapsed).Live? && Steady(Transition(i, to, elapsed).iface)
    ensures Good(Transition(i, to, elapsed).iface)
  {
    hide Configured, Steady;
    var j := i.(state := to);
    SentDeconfigure(j);
    if to == Init {
      SentDiscover(SendDeconfigure(j).(timo := START_BACKOFF));
      SentDiscover(j.(timo := START_BACKOFF));
      SentDiscover(if j.timo < MAX_BACKOFF_SLOW then j.(timo := j.timo * 2) else j);
    } else if to != Down && to != Ipv6Only {
      var r := Transition(i, to, elapsed).iface;
      SentRequest(r.(log := i.log));
      assert r.log == SendRequest(r.(log := i.log)).log;
    }
  }

  lemma RefreshGood(i: Iface, up: bool, fileIp: Addr, elapsed: nat)
    requires Good(i)
    ensures OnRefresh(i, up, fileIp, elapsed).Live? && Good(OnRefresh(i, up, fileIp, elapsed).iface)
  {
    hide Transition, Configured;
    RefreshSteady(i, up, fileIp, elapsed);
    var j := if i.requestedIp == NO_ADDR then i.(requestedIp := fileIp) else i;
    assert i.requestedIp == NO_ADDR ==> Configured(i.log) == {};
    MovesGood(if up then j else i, if !up then Down else if j.requestedIp == NO_ADDR then Init else Rebooting, elapsed);
  }

  lemma TimeoutGood(i: Iface, elapsed: nat)
    requires Good(i) && i.armed
    ensures Next(i, Timeout(elapsed)).Live? && Good(Next(i, Timeout(elapsed)).iface)
  {
    hide Transition, Configured;
    TimeoutSteady(i, elapsed);
    assert i.state == Ipv6Only ==> Configured(i.log) == {};
    MovesGood(i.(armed := false), TimeoutTarget(i, elapsed), elapsed);
  }

  lemma RebootGood(i: Iface)
    requires Good(i)
    ensures OnRebootRequest(i).Live? && Good(OnRebootRequest(i).iface)
  {
    hide Transition, Configured;
    RebootSteady(i);
    if i.state == Init || i.state == Requesting {
      MovesGood(i, i.state, 0);
    } else if i.state != Down {
      MovesGood(i, Rebooting, 0);
    }
  }

  lemma OfferGood(i: Iface, r: Reply, preferV6: bool)
    requires Good(i) && r.Offer? && V6Ok(r.v6Time)
    ensures OnOffer(i, r, preferV6).Live? && Good(OnOffer(i, r, preferV6).iface)
  {
    hide Transition, Configured;
    ReplySteady(i, r, preferV6);
    if i.state == Init {
      assert Configured(i.log) == {};
      if preferV6 && r.v6Time > 0 {
        if !(r.serverId == NO_ADDR && r.yiaddr == NO_ADDR) { MovesGood(i.(v6Time := r.v6Time), Ipv6Only, 0); }
      } else if !(r.serverId == NO_ADDR && r.yiaddr == NO_ADDR) {
        MovesGood(i.(serverId := r.serverId, requestedIp := r.yiaddr), Requesting, 0);
      }
    }
  }

  /** The interface right before the transition an acknowledgement causes. */
  function Acked(i: Iface, r: Reply): Iface
    requires r.Ack?
  {
    var times := Times(r.lease, r.t1, r.t2);
    i.(serverId := r.serverId, requestedIp := r.yiaddr, lease := r.lease, t1 := times.0, t2 := times.1)
  }

  /** An accepted acknowledgement keeps the discipline exactly when harmless. */
  lemma AckGood(i: Iface, r: Reply, preferV6: bool)
    requires Good(i) && Accepted(i, r) && V6Ok(r.v6Time)
    ensures OnAck(i, r, preferV6).Live?
    ensures Good(OnAck(i, r, preferV6).iface) <==> Harmless(i, Receive(r, preferV6))
  {
    hide Configured, Times;
    ReplySteady(i, r, preferV6);
    var j := Acked(i, r);
    if GoesIpv6Only(r, preferV6) {
      var v := j.(v6Time := r.v6Time, state := Ipv6Only);
      var held := Configured(i.log);
      Replay(v.log, Deconfigure(v.requestedIp));
      assert held - {v.requestedIp} == {} <==> held <= {v.requestedIp};
      assert held <= {NO_ADDR} <==> held == {};
    } else {
      Replay(j.log, Configure(j.requestedIp));
    }
  }

  lemma NakGood(i: Iface, preferV6: bool)
    requires Good(i)
    ensures OnReply(i, Nak, preferV6).Live? && Good(OnReply(i, Nak, preferV6).iface)
  {
    hide Transition, Configured;
    ReplySteady(i, Nak, preferV6);
    if Awaiting(i.state) { MovesGood(i, Init, 0); }
  }

  /** One step keeps the discipline if and only if it is harmless. */
  lemma NextGood(i: Iface, e: Event)
    requires Good(i) && Enabled(i, e)
    ensures Next(i, e).Live?
    ensures Good(Next(i, e).iface) <==> Harmless(i, e)
  {
    hide Good, OnAck, OnOffer, OnRefresh, OnRebootRequest, Transition, Configured;
    match e
    case Refresh(up, fileIp, elapsed) => RefreshGood(i, up, fileIp, elapsed);
    case Timeout(elapsed) => TimeoutGood(i, elapsed);
    case RebootRequest => RebootGood(i);
    case Receive(r, preferV6) =>
      match r {
        case Offer(_, _, _) => OfferGood(i, r, preferV6);
        case Ack(_, _, _, _, _, _, _) =>
          if Accepted(i, r) { AckGood(i, r, preferV6); } else { assert OnAck(i, r, preferV6) == Live(i) by { Ignored(i, r, preferV6); } }
        case Nak => NakGood(i, preferV6);
      }
  }

  lemma Ignored(i: Iface, r: Reply, preferV6: bool)
    requires r.Ack? && !Accepted(i, r)
    ensures OnAck(i, r, preferV6) == Live(i)
  {}

  ghost predicate HarmlessRun(states: seq<Iface>, events: seq<Event>) {
    Run(states, events) && forall k :: 0 <= k < |events| ==> Harmless(states[k], events[k])
  }

  /** If every acknowledgement re-acknowledges what is configured, then after any
      events at most the requested address is configured, none in `Init` or
      `Ipv6Only`, and the daemon never dies on a transition out of `Bound`. */
  lemma {:induction false} RunSafe(states: seq<Iface>, events: seq<Event>, k: nat)
    requires HarmlessRun(states, events) && k < |states|
    ensures Good(states[k]) && Safe(states[k])
    ensures forall e :: Enabled(states[k], e) ==> Next(states[k], e).Live?
  {
    hide Next, Good, Safe, Harmless, Steady, Enabled;
    if k == 0 {
      FreshGood();
    } else {
      RunSafe(states, events, k - 1);
      assert Harmless(states[k - 1], events[k - 1]);
      NextGood(states[k - 1], events[k - 1]);
    }
    GoodIsSafe(states[k]);
    forall e | Enabled(states[k], e) ensures Next(states[k], e).Live? {
      NextGood(states[k], e);
    }
  }

  lemma FreshGood()
    ensures Good(FRESH)
  {}

  lemma RemovalClears(i: Iface)
    requires Good(i)
    ensures Configured(Removed(i).log) == {}
  {
    SentDeconfigure(i);
  }

  /** The next timeout and a refusal leave an address behind. */
  predicate StrandsLater(i: Iface) {
    && i.armed && Next(i, Timeout(0)).Live?
    && Next(Next(i, Timeout(0)).iface, Receive(Nak, false)).Live?
    && !Safe(Next(Next(i, Timeout(0)).iface, Receive(Nak, false)).iface)
  }

  /** A harmful acknowledgement strands an address: either at once, or when the
      server then refuses the renewal. */
  lemma HarmfulStrands(i: Iface, e: Event)
    requires Good(i) && Enabled(i, e) && !Harmless(i, e)
    ensures Next(i, e).Live? && (!Safe(Next(i, e).iface) || StrandsLater(Next(i, e).iface))
  {
    hide Times;
    AckGood(i, e.reply, e.preferV6);
    var j := Next(i, e).iface;
    if Safe(j) {
      ZeroStays(j);
    }
  }

  const FIRST_ACK := Ack(9, 1, 0, 100, 1, 0, 0)
  const OTHER_ACK := Ack(9, 2, 0, 100, 1, 0, 0)

  /** A client bound to address 1 renews, and the server acknowledges address 2:
      address 1 stays configured and nobody remembers it. */
  lemma HarmfulReachable() returns (states: seq<Iface>, events: seq<Event>)
    ensures Run(states, events) && |events| == 5 && events[4] == Receive(OTHER_ACK, false)
    ensures Safe(states[4]) && !Safe(states[5]) && 1 in Configured(states[5].log) && states[5].requestedIp == 2
  {
    hide Configured;
    var asked := Request(NO_ADDR, 9, 1, NO_ADDR);
    var renewed := Request(9, NO_ADDR, NO_ADDR, 1);
    var log1 := [Discover];
    var log2 := log1 + [asked];
    NothingConfigured(asked);
    var log3 := log2 + [Configure(1)];
    var log4 := log3 + [renewed];
    var s1 := Iface(Init, 1, true, NO_ADDR, NO_ADDR, 0, 0, 0, 0, log1);
    var s2 := Iface(Requesting, 1, true, 1, 9, 0, 0, 0, 0, log2);
    var s3 := Iface(Bound, 50, true, 1, 9, 100, 50, 88, 0, log3);
    var s4 := Iface(Renewing, 60, true, 1, 9, 100, 50, 88, 0, log4);
    var s5 := Iface(Bound, 50, true, 2, 9, 100, 50, 88, 0, log4);
    states := [FRESH, s1, s2, s3, s4, s5];
    events := [Refresh(true, NO_ADDR, 0), Receive(Offer(9, 1, 0), false), Receive(FIRST_ACK, false), Timeout(50),
               Receive(OTHER_ACK, false)];
    assert Times(100, 0, 0) == (50, 88);
    ConfiguredOnce(log2, 1, renewed);
  }

  lemma NothingConfigured(m: Msg)
    requires m.Request?
    ensures Configured([Discover] + [m]) == {}
  {
    var log := [Discover] + [m];
    assert log[..1] == [Discover] && [Discover][..0] == [];
  }

  lemma ConfiguredOnce(log: seq<Msg>, a: Addr, m: Msg)
    requires m.Request? && Configured(log) == {}
    ensures Configured(log + [Configure(a)] + [m]) == {a}
  {
    var more := log + [Configure(a)];
    assert more[..|log|] == log && (more + [m])[..|more|] == more;
  }

  /** A client bound to the zero address never takes it back. */
  lemma ZeroStays(i: Iface)
    requires i.state == Bound && i.armed && i.requestedIp == NO_ADDR && NO_ADDR in Configured(i.log)
    ensures StrandsLater(i)
  {
    hide Configured;
    var j := Next(i, Timeout(0)).iface;
    SentRequest(j.(log := i.log));
    assert j.log == SendRequest(j.(log := i.log)).log;
    var k := j.(state := Init, timo := START_BACKOFF);
    SentDiscover(k);
  }

  // ---------------------------------------------------------------- the fatal transitions

  ghost predicate NonZeroRun(states: seq<Iface>, events: seq<Event>) {
    && Run(states, events)
    && forall k :: 0 <= k < |events| && events[k].Receive? && Accepted(states[k], events[k].reply)
         ==> events[k].reply.yiaddr != NO_ADDR
  }

  lemma LeaseNamed(i: Iface, e: Event)
    requires Steady(i) && Enabled(i, e) && (Leased(i.state) ==> i.requestedIp != NO_ADDR)
    requires e.Receive? && Accepted(i, e.reply) ==> e.reply.yiaddr != NO_ADDR
    ensures Next(i, e).Live?
    ensures Leased(Next(i, e).iface.state) ==> Next(i, e).iface.requestedIp != NO_ADDR
  {
    hide Times, TimesOk, PowerOfTwoTo64;
    NextSteady(i, e);
  }

  /** With non-zero addresses in all accepted acknowledgements no run reaches a
      state from which any event is fatal. */
  lemma {:induction false} NeverFatal(states: seq<Iface>, events: seq<Event>, k: nat)
    requires NonZeroRun(states, events) && k < |states|
    ensures Leased(states[k].state) ==> states[k].requestedIp != NO_ADDR
    ensures forall e :: Enabled(states[k], e) ==> Next(states[k], e).Live?
  {
    hide Next, Steady, Enabled, Accepted;
    RunSteady(states, events, k);
    if k > 0 {
      NeverFatal(states, events, k - 1);
      RunSteady(states, events, k - 1);
      LeaseNamed(states[k - 1], events[k - 1]);
    }
    forall e | Enabled(states[k], e) ensures Next(states[k], e).Live? {
      NextSteady(states[k], e);
    }
  }

  /** An accepted acknowledgement opens the fatal transition exactly when its
      address is zero and the client stays on IPv4. */
  lemma ZeroAckFatal(i: Iface, r: Reply, preferV6: bool)
    requires Steady(i) && Accepted(i, r) && V6Ok(r.v6Time)
    ensures OnAck(i, r, preferV6).Live?
    ensures Next(OnAck(i, r, preferV6).iface, Refresh(true, NO_ADDR, 0)).Fatal?
            <==> r.yiaddr == NO_ADDR && !GoesIpv6Only(r, preferV6)
  {
    hide Times;
    ReplySteady(i, r, preferV6);
    NextSteady(OnAck(i, r, preferV6).iface, Refresh(true, NO_ADDR, 0));
  }

  /** An offer of address 1 acknowledged with address 0: the next report that the
      link is up ends the daemon. */
  lemma ZeroAckReachable() returns (states: seq<Iface>, events: seq<Event>)
    ensures Run(states, events) && |events| == 3 && Next(states[3], Refresh(true, NO_ADDR, 0)).Fatal?
  {
    var log1 := [Discover];
    var log2 := log1 + [Request(NO_ADDR, 9, 1, NO_ADDR)];
    var s1 := Iface(Init, 1, true, NO_ADDR, NO_ADDR, 0, 0, 0, 0, log1);
    var s2 := Iface(Requesting, 1, true, 1, 9, 0, 0, 0, 0, log2);
    var s3 := Iface(Bound, 50, true, NO_ADDR, 9, 100, 50, 88, 0, log2 + [Configure(NO_ADDR)]);
    states := [FRESH, s1, s2, s3];
    events := [Refresh(true, NO_ADDR, 0), Receive(Offer(9, 1, 0), false), Receive(Ack(9, NO_ADDR, 0, 100, 1, 0, 0), false)];
    assert Times(100, 0, 0) == (50, 88);
  }

  /** A renewal names the configured address and nothing else, to the server
      alone while renewing and to everyone while rebinding. */
  lemma RenewalNamesLease(i: Iface, elapsed: nat)
    requires Good(i) && Leased(i.state) && TimeoutTarget(i, elapsed) != Init
    ensures var j := Next(i, Timeout(elapsed)).iface; var m := j.log[|j.log| - 1];
            Next(i, Timeout(elapsed)).Live? && |j.log| == |i.log| + 1 && m.Request? && m.serverId == NO_ADDR == m.requestedIp
            && Configured(j.log) == {m.ciaddr}
            && m.unicast == if j.state == Renewing then i.serverId else NO_ADDR
  {
    TimeoutGood(i, elapsed);
  }
}
