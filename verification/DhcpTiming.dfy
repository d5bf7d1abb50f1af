/** How long an address is used when nobody answers: the timers of one lease, from
    the acknowledgement to the moment the client gives the address up. */
module DhcpTiming {
  import opened Prelude
  import opened DhcpLease

  /** The interface and the second, counted from the acknowledgement, at which its
      timer was last armed. */
  datatype Timed = Timed(iface: Iface, armedAt: nat)

  function Deadline(t: Timed): int {
    t.armedAt + t.iface.timo
  }

  /** Timers are punctual to the second; one of no seconds takes up to a second. */
  predicate FiresAt(t: Timed, at: nat) {
    t.iface.armed && Deadline(t) <= at <= Deadline(t) + if t.iface.timo == 0 then 1 else 0
  }

  predicate Fires(t: Timed, at: nat, u: Timed) {
    FiresAt(t, at) && u.armedAt == at && Next(t.iface, Timeout(at)) == Live(u.iface)
  }

  /** Just acknowledged. */
  predicate Started(t: Timed) {
    t.iface.state == Bound && Steady(t.iface) && t.armedAt == 0 && t.iface.timo == t.iface.t1
  }

  ghost predicate Unanswered(states: seq<Timed>, times: seq<nat>) {
    && |states| == |times| + 1 && Started(states[0])
    && forall i :: 0 <= i < |times| ==> Fires(states[i], times[i], states[i + 1])
  }

  predicate SameLease(i: Iface, j: Iface) {
    i.lease == j.lease && i.t1 == j.t1 && i.t2 == j.t2
  }

  /** Where the timers of a lease stand while it is in use. */
  predicate OnTime(t: Timed) {
    var i := t.iface;
    && Steady(i)
    && (i.state == Bound ==> Deadline(t) <= i.t1)
    && (i.state == Renewing ==> i.timo >= 60 && Deadline(t) <= i.t2 + 60 && (i.timo > 60 ==> Deadline(t) + i.timo <= i.t2 + 1))
    && (i.state == Rebinding ==> Deadline(t) + i.timo <= i.lease + 60)
  }

  lemma StepOnTime(t: Timed, at: nat, u: Timed)
    requires OnTime(t) && Leased(t.iface.state) && Fires(t, at, u)
    ensures Leased(u.iface.state) ==> OnTime(u) && SameLease(t.iface, u.iface)
    ensures u.iface.state == Init || Leased(u.iface.state)
  {
    TimeoutSteady(t.iface, at);
  }

  /** As long as the lease is in use, its timer runs out no later than a minute
      after it expired. */
  lemma {:induction false} InUse(states: seq<Timed>, times: seq<nat>, k: nat)
    requires Unanswered(states, times) && k < |states|
    requires forall i :: 0 <= i <= k ==> Leased(states[i].iface.state)
    ensures OnTime(states[k]) && SameLease(states[0].iface, states[k].iface)
    ensures Deadline(states[k]) <= states[0].iface.lease + 60
  {
    if k > 0 {
      InUse(states, times, k - 1);
      assert Fires(states[k - 1], times[k - 1], states[k]);
      StepOnTime(states[k - 1], times[k - 1], states[k]);
    }
  }

  /** An unanswered lease is given up by a timeout in `Rebinding` after its end,
      and by no other. */
  lemma LeavesExactly(t: Timed, at: nat, u: Timed)
    requires OnTime(t) && Leased(t.iface.state) && Fires(t, at, u)
    ensures u.iface.state == Init <==> t.iface.state == Rebinding && at > t.iface.lease
  {
    TimeoutSteady(t.iface, at);
  }

  lemma {:induction false} StaysGood(states: seq<Timed>, times: seq<nat>, k: nat)
    requires Unanswered(states, times) && k < |states| && Good(states[0].iface)
    ensures Good(states[k].iface)
  {
    hide Good, Next;
    if k > 0 {
      StaysGood(states, times, k - 1);
      assert Fires(states[k - 1], times[k - 1], states[k]);
      TimeoutGood(states[k - 1].iface, times[k - 1]);
    }
  }

  /** Unanswered, an address is never given up by the end of its lease: the
      timeout that does it comes 1 to 61 seconds later, and leaves nothing
      configured. */
  lemma GivenUp(states: seq<Timed>, times: seq<nat>, k: nat)
    requires Unanswered(states, times) && k < |times| && Good(states[0].iface)
    requires forall i :: 0 <= i <= k ==> Leased(states[i].iface.state)
    ensures times[k] <= states[0].iface.lease + 61
    ensures states[k + 1].iface.state == Init <==> states[k].iface.state == Rebinding && times[k] > states[0].iface.lease
    ensures states[k + 1].iface.state != Init ==> Leased(states[k + 1].iface.state)
    ensures states[k + 1].iface.state == Init ==> Configured(states[k + 1].iface.log) == {}
  {
    hide Configured, Transition;
    InUse(states, times, k);
    assert Fires(states[k], times[k], states[k + 1]);
    LeavesExactly(states[k], times[k], states[k + 1]);
    StepOnTime(states[k], times[k], states[k + 1]);
    StaysGood(states, times, k + 1);
    GoodIsSafe(states[k + 1].iface);
  }

  /** Once the clock has passed the lease by more than 61 seconds, the address has
      been given up, at a timeout in that minute. */
  lemma {:induction false} Reached(states: seq<Timed>, times: seq<nat>, k: nat) returns (j: nat)
    requires Unanswered(states, times) && k < |times| && Good(states[0].iface)
    requires times[k] > states[0].iface.lease + 61
    ensures j < k && states[0].iface.lease < times[j] <= states[0].iface.lease + 61
    ensures states[j + 1].iface.state == Init && Configured(states[j + 1].iface.log) == {}
    ensures forall i :: 0 <= i <= j ==> Leased(states[i].iface.state)
  {
    hide Configured, Good, Fires, Leased;
    j := 0;
    assert Leased(states[0].iface.state) by { StartsLeased(states[0]); }
    while true
      invariant j <= k && forall i :: 0 <= i <= j ==> Leased(states[i].iface.state)
      decreases k - j
    {
      GivenUp(states, times, j);
      if states[j + 1].iface.state == Init { return; }
      j := j + 1;
    }
  }

  lemma StartsLeased(t: Timed)
    requires Started(t)
    ensures Leased(t.iface.state)
  {}

  // ---------------------------------------------------------------- renewing past the end

  /** The deadline of the last renewing timer, from one armed at `at`: renewals
      follow each other at half the time, at least a minute, until T2. */
  function LastRenewal(at: nat, timo: nat, t2: nat): (d: nat)
    requires timo >= 60
    ensures d >= at + timo && d >= t2
    decreases if at < t2 then t2 - at else 0
  {
    if at + timo >= t2 then at + timo else LastRenewal(at + timo, Max(timo / 2, 60), t2)
  }

  function FirstRenewal(t1: nat, t2: nat): (timo: nat)
    ensures timo >= 60
  {
    Max((t2 - t1) / 2, 60)
  }

  lemma RenewingStep(t: Timed, at: nat, u: Timed)
    requires OnTime(t) && Leased(t.iface.state) && t.iface.state != Rebinding && Fires(t, at, u)
    ensures t.iface.state == Bound ==> u.iface.state == Renewing && u.iface.timo == FirstRenewal(t.iface.t1, t.iface.t2)
    ensures t.iface.state == Renewing ==> at == Deadline(t) && u.iface.state == if at >= t.iface.t2 then Rebinding else Renewing
    ensures t.iface.state == Renewing && at < t.iface.t2 ==> u.iface.timo == Max(t.iface.timo / 2, 60)
    ensures u.armedAt == at
  {
    TimeoutSteady(t.iface, at);
  }

  /** While renewing, what the last renewal will be does not change. */
  lemma {:induction false} Schedule(states: seq<Timed>, times: seq<nat>, k: nat)
    requires Unanswered(states, times) && 1 <= k < |states|
    requires forall i :: 0 <= i <= k ==> Leased(states[i].iface.state)
    requires states[k].iface.state == Renewing
    ensures OnTime(states[k]) && SameLease(states[0].iface, states[k].iface)
    ensures forall i :: 1 <= i <= k ==> states[i].iface.state == Renewing && Deadline(states[i]) <= Deadline(states[k])
    ensures var i := states[0].iface;
            LastRenewal(states[k].armedAt, states[k].iface.timo, i.t2) == LastRenewal(times[0], FirstRenewal(i.t1, i.t2), i.t2)
  {
    hide Steady, Next;
    InUse(states, times, k);
    InUse(states, times, k - 1);
    assert Fires(states[k - 1], times[k - 1], states[k]);
    if k > 1 {
      NotRebinding(states, times, k - 1);
      Schedule(states, times, k - 1);
    }
    RenewingStep(states[k - 1], times[k - 1], states[k]);
  }

  /** A lease that is renewing was renewing, except at the start. */
  lemma NotRebinding(states: seq<Timed>, times: seq<nat>, k: nat)
    requires Unanswered(states, times) && 1 <= k < |times|
    requires forall i :: 0 <= i <= k + 1 ==> Leased(states[i].iface.state)
    requires states[k + 1].iface.state == Renewing
    ensures states[k].iface.state == Renewing
  {
    InUse(states, times, k);
    InUse(states, times, k - 1);
    assert Fires(states[k], times[k], states[k + 1]);
    assert Fires(states[k - 1], times[k - 1], states[k]);
    TimeoutSteady(states[k].iface, times[k]);
    TimeoutSteady(states[k - 1].iface, times[k - 1]);
  }

  /** Some renewing timer of the lease is armed past its end if and only if the
      last renewal, known from T1 and T2, falls there. */
  lemma OverrunExact(states: seq<Timed>, times: seq<nat>, k: nat)
    requires Unanswered(states, times) && 1 <= k < |times|
    requires forall i :: 0 <= i <= k ==> Leased(states[i].iface.state)
    requires states[k].iface.state == Renewing && states[k + 1].iface.state == Rebinding
    ensures var i := states[0].iface;
            (exists j :: 1 <= j <= k && Deadline(states[j]) > i.lease)
            <==> LastRenewal(times[0], FirstRenewal(i.t1, i.t2), i.t2) > i.lease
  {
    hide Steady, Next;
    Schedule(states, times, k);
    assert Fires(states[k], times[k], states[k + 1]);
    RenewingStep(states[k], times[k], states[k + 1]);
    assert Deadline(states[k]) == LastRenewal(states[k].armedAt, states[k].iface.timo, states[0].iface.t2);
  }

  /** A minute between T2 and the end keeps every renewing timer within the lease;
      less than a minute after T1 puts the first one past it. */
  lemma OverrunBounds(states: seq<Timed>, times: seq<nat>, k: nat)
    requires Unanswered(states, times) && 1 <= k < |states|
    requires forall i :: 0 <= i <= k ==> Leased(states[i].iface.state)
    requires states[k].iface.state == Renewing
    ensures states[0].iface.t2 + 60 <= states[0].iface.lease ==> Deadline(states[k]) <= states[0].iface.lease
    ensures states[0].iface.lease < states[0].iface.t1 + 60 ==> Deadline(states[k]) > states[0].iface.lease
  {
    hide Steady, Next;
    Schedule(states, times, k);
    Schedule(states, times, 1);
    InUse(states, times, 0);
    assert Fires(states[0], times[0], states[1]);
    RenewingStep(states[0], times[0], states[1]);
  }

  // ---------------------------------------------------------------- two runs

  /** Just bound to some address. */
  function Acknowledged(lease: uint32, t1: uint32, t2: uint32): Timed {
    var times := Times(lease, t1, t2);
    Timed(Iface(Bound, times.0, true, 1, 2, lease, times.0, times.1, 0, [Configure(1)]), 0)
  }

  function Fired(t: Timed, at: nat): Timed {
    match Next(t.iface, Timeout(at))
    case Live(i) => Timed(i, at)
    case Fatal => t
  }

  lemma FiredIs(t: Timed, at: nat)
    requires Steady(t.iface) && Leased(t.iface.state)
    ensures var i, u := t.iface, Fired(t, at);
            && u.armedAt == at && u.iface.armed && SameLease(i, u.iface)
            && (i.state == Bound ==> u.iface.state == Renewing && u.iface.timo == FirstRenewal(i.t1, i.t2))
            && (i.state == Renewing && at < i.t2 ==> u.iface.state == Renewing && u.iface.timo == Max(i.timo / 2, 60))
            && (i.state == Renewing && at >= i.t2 ==> u.iface.state == Rebinding && u.iface.timo == (i.lease - i.t2) / 2)
            && (i.state == Rebinding && at > i.lease ==> u.iface.state == Init)
  {
    TimeoutSteady(t.iface, at);
  }

  /** A run goes on. */
  lemma OneMore(states: seq<Timed>, times: seq<nat>, t: Timed, at: nat) returns (more: seq<Timed>, later: seq<nat>)
    requires Unanswered(states, times) && t == states[|times|] && Steady(t.iface) && FiresAt(t, at)
    ensures Unanswered(more, later) && more == states + [Fired(t, at)] && later == times + [at]
    ensures Steady(Fired(t, at).iface)
  {
    TimeoutSteady(t.iface, at);
    more, later := states + [Fired(t, at)], times + [at];
  }

  /** A lease of a thousand seconds with T1 500 and T2 999, both kept as supplied:
      its fifth renewing timer runs to second 1055. */
  lemma OverrunExample() returns (states: seq<Timed>, times: seq<nat>)
    ensures Unanswered(states, times) && times == [500, 749, 873, 935, 995]
    ensures states[5].iface.state == Renewing && Deadline(states[5]) == 1055 && states[5].iface.lease == 1000
  {
    hide Fired, Steady, Next;
    var t0 := Acknowledged(1000, 500, 999);
    StartedRun(1000, 500, 999);
    states, times := [t0], [];
    FiredIs(t0, 500);
    var t1 := Fired(t0, 500);
    states, times := OneMore(states, times, t0, 500);
    FiredIs(t1, 749);
    var t2 := Fired(t1, 749);
    states, times := OneMore(states, times, t1, 749);
    FiredIs(t2, 873);
    var t3 := Fired(t2, 873);
    states, times := OneMore(states, times, t2, 873);
    FiredIs(t3, 935);
    var t4 := Fired(t3, 935);
    states, times := OneMore(states, times, t3, 935);
    FiredIs(t4, 995);
    states, times := OneMore(states, times, t4, 995);
  }

  lemma StartedRun(lease: uint32, t1: uint32, t2: uint32)
    requires lease > 0
    ensures Unanswered([Acknowledged(lease, t1, t2)], []) && Steady(Acknowledged(lease, t1, t2).iface)
  {
    TimesSanitised(lease, t1, t2);
  }

  /** The bound of 61 seconds is met by a lease of one second. */
  lemma BoundIsMet() returns (states: seq<Timed>, times: seq<nat>)
    ensures Unanswered(states, times) && times == [1, 61, 62]
    ensures states[0].iface.lease == 1 && states[3].iface.state == Init
  {
    hide Fired, Steady, Next;
    var t0 := Acknowledged(1, 0, 0);
    StartedRun(1, 0, 0);
    states, times := [t0], [];
    FiredIs(t0, 1);
    var t1 := Fired(t0, 1);
    states, times := OneMore(states, times, t0, 1);
    FiredIs(t1, 61);
    var t2 := Fired(t1, 61);
    states, times := OneMore(states, times, t1, 61);
    FiredIs(t2, 62);
    states, times := OneMore(states, times, t2, 62);
  }
}
