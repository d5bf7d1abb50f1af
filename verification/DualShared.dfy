/** Two neighbours that announce the same next hop share a kernel route: exactly
    when an event makes it disappear, and a run in which it does. */
module DualShared {
  import opened Prelude
  import opened DualTypes
  import opened DualNode
  import opened DualInvariant
  import opened DualTopology
  import opened DualRuns
  import opened DualFib
  import opened DualKernel
  import opened DualPaths
  import K = KernelRoutes
  import Q = DualReplies
  import S = DualSuccessor

  // ---------------------------------------------------------------- exactly when

  lemma {:induction false} KeysConcat(c: Priorities, p: Prefix, ks: set<K.Key>, a: seq<Effect>, b: seq<Effect>)
    ensures KeysAfter(c, p, ks, a + b) == KeysAfter(c, p, KeysAfter(c, p, ks, a), b)
    decreases |b|
  {
    hide KeyApply;
    if b == [] {
      assert a + b == a;
    } else {
      KeysConcat(c, p, ks, a, b[..|b| - 1]);
      assert (a + b)[..|a + b| - 1] == a + b[..|b| - 1];
    }
  }

  lemma {:induction false} KeysSilent(c: Priorities, p: Prefix, ks: set<K.Key>, fx: seq<Effect>)
    requires KernelSilent(fx)
    ensures KeysAfter(c, p, ks, fx) == ks
    decreases |fx|
  {
    if fx != [] { KeysSilent(c, p, ks, fx[..|fx| - 1]); }
  }

  /** A passive prefix with something to choose ends with its table refreshed and
      says nothing else to the kernel. */
  lemma DecideSpeaks(c: Priorities, p: Prefix, env: Env, node: Node, e: DualEvent, oldFd: uint32, replyTo: Option<NbrId>, ks: set<K.Key>)
    requires Select(env, node).Some?
    ensures var d, u := Decide(env, node, e, oldFd, replyTo), UpdateFib(env, SetSuccessor(node, Select(env, node)));
            d.node == u.node && KeysAfter(c, p, ks, d.fx) == KeysAfter(c, p, ks, u.fx)
  {
    hide UpdateFib, Updates, KeysAfter, Select;
    var n := SetSuccessor(node, Select(env, node));
    var u, d := UpdateFib(env, n), Decide(env, node, e, oldFd, replyTo);
    PacketsSilent(env, n.succ.nbr, SuccessorAdvert(n), |env.ifaces|);
    var reply := if replyTo.Some? then [SendReply(replyTo.value, Capped(env, SuccessorAdvert(n)), false)] else [];
    var rest := reply + if n.succ.fdistance != oldFd then UpdateAll(env, n, SuccessorAdvert(n)) else [];
    assert d.fx == u.fx + rest;
    KeysConcat(c, p, ks, u.fx, rest);
    KeysSilent(c, p, KeysAfter(c, p, ks, u.fx), rest);
  }

  lemma DecideExact(c: Priorities, p: Prefix, env: Env, node: Node, e: DualEvent, oldFd: uint32, replyTo: Option<NbrId>, ks: set<K.Key>)
    requires Base(env, node) && node.state == Passive && AllChanged(node.routes)
    requires Select(env, node).Some? && !IsLocal(env, Select(env, node).value.nbr)
    requires ks <= KeysOf(c, p, InstalledSet(node.routes))
    ensures var d := Decide(env, node, e, oldFd, replyTo);
            && |d.node.routes| == |node.routes| && d.node.state == Passive
            && (KeysAfter(c, p, ks, d.fx) == KeysOf(c, p, InstalledSet(d.node.routes))
                <==> NoneShadowed(c, p, node.routes, d.node.routes))
  {
    hide FibMessages, KeysAfter, Select, Decide, KeysOf, NoneShadowed;
    DecideSpeaks(c, p, env, node, e, oldFd, replyTo, ks);
    PassExact(c, p, env, SetSuccessor(node, Select(env, node)), ks);
  }

  /** What an update leaves of prefix `p` when it only brings the table up to date. */
  lemma UpdateExact(c: Priorities, p: Prefix, env: Env, prev: Node, n: NbrId, info: Option<Info>, t: seq<Effect>)
    requires EnvOk(env) && n in env.nbrs && NodeOk(env, prev) && prev.state == Passive && AllChanged(prev.routes)
    requires KernelAfter({}, t) == InstalledSet(prev.routes)
    requires var a := Absorb(prev, n, info).node; Select(env, a).Some? && !IsLocal(env, Select(env, a).value.nbr)
    ensures var a, o := Absorb(prev, n, info).node, CheckUpdate(env, Some(prev), n, info);
            && o.node.Some? && |o.node.value.routes| == |a.routes|
            && (MirroredAfter(c, p, t + o.fx)
                <==> NoneShadowed(c, p, a.routes, o.node.value.routes))
  {
    hide KeysAfter, Select, Decide, KeysOf, NoneShadowed, KernelAfter, Absorb;
    var a := Absorb(prev, n, info);
    AbsorbOk(env, prev, n, info);
    AbsorbAll(prev, n, info);
    var d := Decide(env, a.node, Evt4, prev.succ.fdistance, None);
    DecideOk(env, a.node, Evt4, prev.succ.fdistance, None);
    var o := CheckUpdate(env, Some(prev), n, info);
    assert o == Outcome(Some(d.node), a.fx + d.fx);
    var ks := KeysAfter(c, p, {}, t + a.fx);
    ReplayConcat({}, [], t, a.fx);
    ReplayConcat({}, [], t + a.fx, d.fx);
    NoStaleKey(c, p, {}, {}, t + a.fx);
    assert t + (a.fx + d.fx) == (t + a.fx) + d.fx;
    KeysConcat(c, p, {}, t + a.fx, d.fx);
    DecideExact(c, p, env, a.node, Evt4, prev.succ.fdistance, None, ks);
  }

  lemma AbsorbAll(node: Node, n: NbrId, info: Option<Info>)
    requires AllChanged(node.routes)
    ensures var a := Absorb(node, n, info).node; AllChanged(a.routes) && a.state == node.state && a.rijk == node.rijk
  {
    var i := RouteIndex(node.routes, n);
    if i < |node.routes| { assert node.routes[i] in node.routes; }
  }

  /** In every run, after an update on a passive prefix that keeps a successor
      which is not an attached network: the kernel agrees with the prefix if and
      only if the update drops no route behind the last one that keeps its key. */
  lemma SharingExact(c: Priorities, rdes: seq<Rde>, inputs: seq<Event>, i: nat, states: seq<K.Fib>, events: seq<K.Event>)
    requires Run(rdes, inputs) && i < |inputs| && inputs[i].Update? && Enabled(rdes[i], inputs[i])
    requires inputs[i].p in rdes[i].topology && rdes[i].topology[inputs[i].p].state == Passive
    requires var a := Absorbed(rdes[i], inputs[i]); Select(rdes[i].env, a).Some? && !IsLocal(rdes[i].env, Select(rdes[i].env, a).value.nbr)
    requires Fed(c, rdes[i + 1], states, events)
    ensures var p := inputs[i].p; var a := Absorbed(rdes[i], inputs[i]);
            && p in rdes[i + 1].topology && |rdes[i + 1].topology[p].routes| == |a.routes|
            && (Agrees(c, rdes[i + 1], states[|events|], p)
                <==> NoneShadowed(c, p, a.routes, rdes[i + 1].topology[p].routes))
  {
    hide CheckUpdate, Interpret, NbrSide, Fed, Agrees, MirroredAfter, NoneShadowed, Select, Absorb, Traced, K.RealRun;
    var s, e := rdes[i], inputs[i];
    RunKeepsInv(rdes, inputs, i);
    AlwaysChanged(rdes, inputs, e.p, i);
    assert rdes[i + 1] == Next(s, e);
    var info := Interpret(s.env, e.n, e.advert);
    TracedAppend(s.log, e.p, CheckUpdate(s.env, Some(s.topology[e.p]), e.n, info).fx, e.p);
    UpdateExact(c, e.p, s.env, s.topology[e.p], e.n, info, Traced(s.log, e.p));
    KernelExact(c, rdes, inputs, i + 1, states, events, e.p);
  }

  /** The prefix of an update once what the neighbour says has been taken over. */
  function Absorbed(s: Rde, e: Event): Node
    requires Enabled(s, e) && e.Update? && e.p in s.topology
  {
    Absorb(s.topology[e.p], e.n, Interpret(s.env, e.n, e.advert)).node
  }

  // ---------------------------------------------------------------- a run that gets there

  const THIRD_PARTY: uint32 := 9
  const NEAR := S.DEMO_ADVERT.(nexthop := THIRD_PARTY)
  const FAR := Q.FAR_ADVERT.(nexthop := THIRD_PARTY)

  lemma Infos()
    ensures var i := Interpret(S.DemoEnv(), 2, NEAR);
            && i == Interpret(S.DemoEnv(), 3, NEAR) && i.Some? && i.value.rtype == Internal && i.value.nexthop == THIRD_PARTY
            && i.value.distance == 30_720 && i.value.rdistance == 28_160
    ensures var f := Interpret(S.DemoEnv(), 3, FAR); f.Some? && f.value.rdistance == 38_400 && f.value.distance == 40_960
  {
    S.DemoDistances(S.DemoEnv(), 2);
    Q.FarDistance();
  }

  /** One neighbour's route, then both, installed. */
  function One(i: Info): Node {
    SetSuccessor(NEW_NODE.(routes := [NewRoute(2, i).(installed := true)]), Some(NewRoute(2, i)))
  }

  function Both(i: Info): Node {
    One(i).(routes := One(i).routes + [NewRoute(3, i).(installed := true)])
  }

  /** Metrics of the demo route. */
  predicate Near(i: Info) {
    i.rtype == Internal && i.nexthop == THIRD_PARTY && i.distance == 30_720 && i.rdistance == 28_160
  }

  lemma OneInstalled(i: Info)
    requires Near(i)
    ensures CheckUpdate(S.DemoEnv(), None, 2, Some(i)).node == Some(One(i))
  {
    hide Select, Absorb, FibMessages, Updates, Queries;
    var env, r := S.DemoEnv(), NewRoute(2, i);
    var a := NEW_NODE.(routes := [r]);
    S.FirstAbsorbed(2, i);
    S.FirstChosen(env, 2, i, a);
    var bar := FibBar(env, i.distance);
    assert EligibleBefore(env, bar, [r], 0) == 0;
    assert FibRoutes(env, bar, [r]) == [r.(installed := true)];
  }

  /** With a second route that is no nearer, the first stays the successor. */
  lemma FirstStays(i: Info, second: Route)
    requires Near(i) && second.nbr == 3 && second.distance >= i.distance
    ensures var routes := One(i).routes + [second];
            Select(S.DemoEnv(), One(i).(routes := routes)) == Some(One(i).routes[0])
  {
    var env, first := S.DemoEnv(), One(i).routes[0];
    var routes := One(i).routes + [second];
    assert routes == [first, second];
    assert !IsLocal(env, 2) && !IsLocal(env, 3);
    assert FirstAttached(env, routes, 2) == None;
    assert Nearest(routes, i.distance, 0) == None;
    assert Candidate(routes, i.distance, first) && Nearest(routes, i.distance, 1) == Some(0);
    assert Nearest(routes, i.distance, 2) == Some(0);
  }

  /** What the pass over two routes leaves of them. */
  lemma PassOverTwo(i: Info, second: Route)
    requires Near(i) && second.nbr == 3
    ensures var env := S.DemoEnv(); var bar := FibBar(env, i.distance); var first := One(i).routes[0];
            FibRoutes(env, bar, [first, second])
            == [first, second.(installed := second.rdistance < i.distance && second.distance <= i.distance)]
  {
    var env := S.DemoEnv();
    var bar, first := FibBar(env, i.distance), One(i).routes[0];
    var routes := [first, second];
    assert EligibleBefore(env, bar, routes, 0) == 0 && EligibleBefore(env, bar, routes, 1) == 1;
    assert Chosen(env, bar, routes, 0);
    assert Chosen(env, bar, routes, 1) <==> second.rdistance < i.distance && second.distance <= i.distance;
  }

  /** An update that ends in the pass over two routes. */
  lemma TwoRoutes(i: Info, prev: Node, info: Info, second: Route)
    requires Near(i) && prev == One(i).(routes := prev.routes) && second.nbr == 3 && second.distance >= i.distance
    requires Absorb(prev, 3, Some(info)).node.routes == One(i).routes + [second]
    ensures CheckUpdate(S.DemoEnv(), Some(prev), 3, Some(info)).node
         == Some(One(i).(routes := One(i).routes
                                   + [second.(installed := second.rdistance < i.distance && second.distance <= i.distance)]))
  {
    hide Select, FibMessages, Updates, Queries, FibRoutes;
    var env, first := S.DemoEnv(), One(i).routes[0];
    assert One(i).routes + [second] == [first, second];
    FirstStays(i, second);
    PassOverTwo(i, second);
    var a := Absorb(prev, 3, Some(info)).node;
    assert a == One(i).(routes := One(i).routes + [second]) && SetSuccessor(a, Some(first)) == a;
    assert UpdateFib(env, a).node == a.(routes := FibRoutes(env, FibBar(env, i.distance), a.routes));
    var off := second.(installed := second.rdistance < i.distance && second.distance <= i.distance);
    assert [first, off] == One(i).routes + [off];
    assert Decide(env, a, Evt4, prev.succ.fdistance, None).node == UpdateFib(env, a).node;
  }

  lemma SecondInserted(i: Info)
    requires Near(i)
    ensures Absorb(One(i), 3, Some(i)).node.routes == One(i).routes + [NewRoute(3, i)]
  {
    var routes := One(i).routes;
    assert RouteIndex(routes, 3) == 1 by { assert RouteIndex(routes[1..], 3) == 0; }
    assert InsertIndex(routes, THIRD_PARTY) == 1 by { assert InsertIndex(routes[1..], THIRD_PARTY) == 0; }
  }

  lemma SecondRefreshed(i: Info, far: Info)
    requires Near(i)
    ensures Absorb(Both(i), 3, Some(far)).node.routes == One(i).routes + [Refresh(NewRoute(3, i).(installed := true), far)]
  {
    var routes := Both(i).routes;
    assert RouteIndex(routes, 3) == 1 by { assert RouteIndex(routes[1..], 3) == 0; }
  }

  lemma Shadowed(c: Priorities, p: Prefix, i: Info, far: Info)
    requires Near(i) && far.rdistance >= i.distance
    ensures var second := Refresh(NewRoute(3, i).(installed := true), far);
            !NoneShadowed(c, p, One(i).routes + [second], One(i).routes + [second.(installed := false)])
  {
    var second := Refresh(NewRoute(3, i).(installed := true), far);
    var before, after := One(i).routes + [second], One(i).routes + [second.(installed := false)];
    var k := RouteKey(c, p, before[1]);
    assert Kept(c, p, after, 0, k) && Dropped(c, p, before, after, 1, k);
    assert Shadows(c, p, before, after, 1);
  }

  const HEARD_2 := Update(2, S.DEMO_PREFIX, NEAR)
  const HEARD_3 := Update(3, S.DEMO_PREFIX, NEAR)
  const WORSE_3 := Update(3, S.DEMO_PREFIX, FAR)

  /** The first two updates. */
  lemma BothHeard()
    ensures var s0 := S.DemoStart(); Init(s0) && Enabled(s0, HEARD_2)
    ensures var s1 := Next(S.DemoStart(), HEARD_2); Enabled(s1, HEARD_3)
    ensures var s2 := Next(Next(S.DemoStart(), HEARD_2), HEARD_3); var i := Interpret(S.DemoEnv(), 2, NEAR);
            i.Some? && s2.env == S.DemoEnv() && Lookup(s2.topology, S.DEMO_PREFIX) == Some(Both(i.value)) && Enabled(s2, WORSE_3)
  {
    hide CheckUpdate, CheckQuery, LinkDown, Interpret, NbrSide, Targets, One, Both;
    Infos();
    var s0, i := S.DemoStart(), Interpret(S.DemoEnv(), 2, NEAR).value;
    OneInstalled(i);
    TalkTouchesOne(s0, HEARD_2, S.DEMO_PREFIX);
    var s1 := Next(s0, HEARD_2);
    assert Lookup(s1.topology, S.DEMO_PREFIX) == Some(One(i));
    SecondHeard(i);
    TalkTouchesOne(s1, HEARD_3, S.DEMO_PREFIX);
  }

  lemma SecondHeard(i: Info)
    requires Near(i)
    ensures CheckUpdate(S.DemoEnv(), Some(One(i)), 3, Some(i)).node == Some(Both(i))
  {
    hide CheckUpdate, Absorb;
    SecondInserted(i);
    TwoRoutes(i, One(i), i, NewRoute(3, i));
  }

  lemma SecondWorse(i: Info, far: Info)
    requires Near(i) && far.rdistance >= i.distance && far.distance >= i.distance
    ensures var second := Refresh(NewRoute(3, i).(installed := true), far);
            && CheckUpdate(S.DemoEnv(), Some(Both(i)), 3, Some(far)).node
               == Some(One(i).(routes := One(i).routes + [second.(installed := false)]))
            && Absorb(Both(i), 3, Some(far)).node.routes == One(i).routes + [second]
            && Select(S.DemoEnv(), Absorb(Both(i), 3, Some(far)).node) == Some(One(i).routes[0])
  {
    hide CheckUpdate, Select;
    var second := Refresh(NewRoute(3, i).(installed := true), far);
    SecondRefreshed(i, far);
    TwoRoutes(i, Both(i), far, second);
    FirstStays(i, second);
    assert Absorb(Both(i), 3, Some(far)).node == One(i).(routes := One(i).routes + [second]);
  }

  /** Two neighbours announce the same third party and the second then reports a
      worse metric: the kernel loses the route that the first still has installed. */
  lemma SharingReachable(c: Priorities)
    returns (rdes: seq<Rde>, inputs: seq<Event>, states: seq<K.Fib>, events: seq<K.Event>)
    requires PrioritiesOk(c)
    ensures Run(rdes, inputs) && inputs == [HEARD_2, HEARD_3, WORSE_3] && Fed(c, rdes[3], states, events)
    ensures states[|events|].coupled && !Agrees(c, rdes[3], states[|events|], S.DEMO_PREFIX)
  {
    hide CheckUpdate, CheckQuery, LinkDown, Interpret, NbrSide, Targets, One, Both, Fed, Agrees, Select, Absorb, NoneShadowed, Traced;
    Infos();
    BothHeard();
    var s0, i, far := S.DemoStart(), Interpret(S.DemoEnv(), 2, NEAR).value, Interpret(S.DemoEnv(), 3, FAR).value;
    var s1 := Next(s0, HEARD_2);
    var s2 := Next(s1, HEARD_3);
    var s3 := Next(s2, WORSE_3);
    rdes, inputs := [s0, s1, s2, s3], [HEARD_2, HEARD_3, WORSE_3];
    states, events := FedAlone(c, s3);
    SecondWorse(i, far);
    FirstShape(i);
    Shadowed(c, S.DEMO_PREFIX, i, far);
    TalkTouchesOne(s2, WORSE_3, S.DEMO_PREFIX);
    SharingExact(c, rdes, inputs, 2, states, events);
  }

  lemma FirstShape(i: Info)
    ensures One(i).routes[0].nbr == 2 && Both(i).state == Passive
  {}
}
