/** Whose name an active prefix remembers, and when that neighbour is gone. */
module DualSuccessor {
  import opened Prelude
  import opened EigrpMetric
  import opened DualTypes
  import opened DualNode
  import opened DualInvariant
  import opened DualProgress
  import opened DualTopology
  import opened DualRuns

  /** A prefix that is active afterwards still names the successor it had before, or none. */
  ghost predicate KeepsName(before: Option<Node>, after: Option<Node>) {
    IsActive(after) ==>
      after.value.succ.nbr == None || (before.Some? && after.value.succ.nbr == before.value.succ.nbr)
  }

  lemma QuietKeepsName(env: Env, s: Step, before: Option<Node>)
    requires EnvOk(env) && Base(env, s.node) && KeepsName(before, Some(s.node))
    ensures KeepsName(before, CloseIfQuiet(env, s).node)
  {
    if s.node.state != Passive && s.node.rijk == [] { LastReplyProgress(env, s.node); }
  }

  lemma UpdateKeepsName(env: Env, prev: Option<Node>, n: NbrId, info: Option<Info>)
    requires EnvOk(env) && n in env.nbrs && (prev.Some? ==> NodeOk(env, prev.value))
    ensures KeepsName(prev, CheckUpdate(env, prev, n, info).node)
  {
    if prev.Some? || info.Some? {
      var start := if prev.None? then NEW_NODE else prev.value;
      AbsorbOk(env, start, n, info);
      var a := Absorb(start, n, info);
      if start.state == Passive {
        DecideOk(env, a.node, Evt4, start.succ.fdistance, None);
        var d := Decide(env, a.node, Evt4, start.succ.fdistance, None);
        QuietKeepsName(env, Step(d.node, a.fx + d.fx), prev);
      } else {
        QuietKeepsName(env, Step(a.node, a.fx + []), prev);
      }
    }
  }

  lemma QueryKeepsName(env: Env, prev: Option<Node>, n: NbrId, asked: Advert, info: Option<Info>, sia: bool)
    requires EnvOk(env) && n in env.nbrs && (prev.Some? ==> NodeOk(env, prev.value))
    ensures KeepsName(prev, CheckQuery(env, prev, n, asked, info, sia).node)
  {
    if prev.Some? {
      AbsorbOk(env, prev.value, n, info);
      var a := Absorb(prev.value, n, info);
      ServeQueryOk(env, a.node, n, prev.value.succ.fdistance);
      if prev.value.state == Passive {
        DecideOk(env, a.node, Evt3, prev.value.succ.fdistance, Some(n));
      } else {
        ServeQueryProgress(env, a.node, n, prev.value.succ.fdistance);
      }
      var q := ServeQuery(env, a.node, n, prev.value.succ.fdistance);
      QuietKeepsName(env, Step(q.node, a.fx + q.fx), prev);
    }
  }

  lemma ReplyKeepsName(env: Env, prev: Node, n: NbrId, info: Option<Info>, sia: bool)
    requires EnvOk(env) && n in env.nbrs && Base(env, prev)
    ensures KeepsName(Some(prev), CheckReply(env, Some(prev), n, info, sia).node)
  {
    if Awaited(Some(prev), n) && !sia {
      AbsorbOk(env, prev, n, info);
      var a := Absorb(prev, n, info);
      RemoveFirstFacts(a.node.rijk, n);
      var rest := a.node.(rijk := RemoveFirst(a.node.rijk, n));
      if rest.rijk == [] { LastReplyProgress(env, rest); }
    }
  }

  lemma LoseLinkKeepsName(env: Env, node: Node, n: NbrId, oldFd: uint32)
    requires EnvOk(env) && Base(env, node) && (node.state == Passive ==> node.rijk == [])
    ensures KeepsName(Some(node), Some(LoseLink(env, node, n, oldFd).node))
  {
    hide UpdateFib, Updates, Queries;
    if node.state == Passive {
      DecideOk(env, node, Evt4, oldFd, None);
    } else {
      FsmOk(env, node, Evt9);
      FsmOk(env, node, Evt10);
    }
  }

  lemma LinkDownKeepsName(env: Env, node: Node, n: NbrId)
    requires EnvOk(env) && n in env.nbrs && NodeOk(env, node)
    ensures KeepsName(Some(node), LinkDown(env, node, n).node)
  {
    hide DropRoute, LoseLink, LastReply, Absorb;
    if HasRoute(node.routes, n) {
      DropRouteOk(env, node, n);
      DropRouteSame(node, n);
      var a := DropRoute(node, n);
      LoseLinkOk(env, a.node, n, node.succ.fdistance);
      LoseLinkKeepsName(env, a.node, n, node.succ.fdistance);
      ReplyKeepsName(env, LoseLink(env, a.node, n, node.succ.fdistance).node, n, None, false);
    }
  }

  // ---------------------------------------------------------------- living successors

  /** The recorded successor is a neighbour that exists. */
  ghost predicate Lives(env: Env, node: Option<Node>) {
    node.Some? && node.value.succ.nbr.Some? ==> node.value.succ.nbr.value in env.nbrs
  }

  ghost predicate AllLive(s: Rde) {
    forall p: Prefix :: Lives(s.env, Lookup(s.topology, p))
  }

  /** A passive prefix names one of its routes, an active one whom it named before. */
  lemma NameLives(env: Env, before: Option<Node>, after: Option<Node>)
    requires Lives(env, before) && KeepsName(before, after) && (after.Some? ==> NodeOk(env, after.value))
    ensures Lives(env, after)
  {
    if after.Some? && after.value.state == Passive {
      var v := after.value;
      var i :| 0 <= i < |v.routes| && DescribesRoute(v.succ, v.routes[i]);
      assert v.routes[i] in v.routes;
    }
  }

  lemma TalkKeepsLive(s: Rde, e: Event)
    requires Inv(s) && AllLive(s) && Enabled(s, e) && Talk(e)
    ensures AllLive(Next(s, e))
  {
    hide CheckUpdate, CheckQuery, CheckReply, Interpret, Next;
    var prev := Lookup(s.topology, e.p);
    var info := Interpret(s.env, e.n, e.advert);
    if e.Update? { UpdateKeepsName(s.env, prev, e.n, info); }
    else if e.Query? { QueryKeepsName(s.env, prev, e.n, e.advert, info, e.sia); }
    else if prev.Some? { ReplyKeepsName(s.env, prev.value, e.n, info, e.sia); }
    else { assert OutcomeOf(s, e).node == None by { NoReplyForUnknown(s.env, e.n, info, e.sia); } }
    NextKeeps(s, e);
    TalkTouchesOne(s, e, e.p);
    assert Lives(s.env, prev);
    NameLives(s.env, prev, Lookup(Next(s, e).topology, e.p));
    forall p: Prefix ensures Lives(Next(s, e).env, Lookup(Next(s, e).topology, p)) {
      TalkTouchesOne(s, e, p);
    }
  }

  lemma NoReplyForUnknown(env: Env, n: NbrId, info: Option<Info>, sia: bool)
    ensures CheckReply(env, None, n, info, sia).node == None
  {
  }

  lemma LinkDownLives(env: Env, node: Node, n: NbrId)
    requires EnvOk(env) && n in env.nbrs && NodeOk(env, node) && Lives(env, Some(node))
    ensures Lives(env, LinkDown(env, node, n).node)
    ensures HasRoute(node.routes, n) ==> var o := LinkDown(env, node, n).node; o.Some? ==> o.value.succ.nbr != Some(n)
    ensures !HasRoute(node.routes, n) ==> LinkDown(env, node, n).node == Some(node)
  {
    LinkDownOk(env, node, n);
    LinkDownKeepsName(env, node, n);
    NameLives(env, Some(node), LinkDown(env, node, n).node);
  }

  /** Removing a neighbour leaves `p` naming a neighbour that no longer exists
      exactly when `p` names it as successor but holds no route from it. */
  lemma RemovalDangles(s: Rde, n: NbrId, walk: seq<Prefix>, p: Prefix)
    requires Inv(s) && AllLive(s) && Enabled(s, NbrDown(n, walk))
    ensures var t := Next(s, NbrDown(n, walk));
            !Lives(t.env, Lookup(t.topology, p)) <==>
              p in s.topology && s.topology[p].succ.nbr == Some(n) && !HasRoute(s.topology[p].routes, n)
  {
    hide LinkDown, NodeOk, HasRoute;
    var t := LinkDownWalk(s, n, walk, |walk|);
    var ps := if n in t.owing then t.owing[n] else [];
    StrikeKeys(t.topology, n, ps);
    LinkDownWalkOk(s, n, walk, |walk|);
    if p in s.topology {
      assert Lives(s.env, Lookup(s.topology, p));
      WalkVisitsOnce(s, n, walk, |walk|, p);
      assert walk[..|walk|] == walk;
      LinkDownLives(s.env, s.topology[p], n);
      if p in t.topology { StrikeKeepsDistance(t.topology, n, ps, p); }
    }
  }

  // ---------------------------------------------------------------- a run that gets there

  const DEMO_IFACE := Iface(1, false, Link(10, 100_000, 1500))
  const DEMO_PREFIX := Prefix(0x0A00_0000, 8)
  const DEMO_ADVERT := Advert(Internal, 0, Metric(2560, 25_600, 1500, 0, 255, 1, 0, 0), NO_EMETRIC)
  const DEMO_WITHDRAWAL := Advert(Internal, 0, INFINITE, NO_EMETRIC)

  function DemoNbr(addr: uint32): Nbr {
    Nbr(false, false, false, addr, Some(DEMO_IFACE))
  }

  /** Two neighbours on one interface. */
  function DemoEnv(): Env {
    Env(KValues(1, 0, 1), 4, 1, 100, [DEMO_IFACE], map[2 := DemoNbr(2), 3 := DemoNbr(3)], [2, 3])
  }

  /** The demo route as any ordinary neighbour on the demo link hands it on. */
  lemma DemoDistances(env: Env, n: NbrId)
    requires env.k == KValues(1, 0, 1) && n in env.nbrs && !env.nbrs[n].self && env.nbrs[n].iface.Some?
    requires env.nbrs[n].iface.value.link == DEMO_IFACE.link
    ensures var i := Interpret(env, n, DEMO_ADVERT);
            i.Some? && i.value.rtype == Internal && i.value.distance == 30_720 && i.value.rdistance == 28_160
  {
    CompositeWithoutLoad(env.k, 10, 100_000, 1);
    CompositeWithoutLoad(env.k, 20, 100_000, 1);
    assert SafeMul(256, 100) == 25_600 && SafeMul(256, 10) == 2560 && SafeMul(256, 20) == 5120;
  }

  lemma FirstChosen(env: Env, n: NbrId, info: Info, a: Node)
    requires EnvOk(env) && n in env.nbrs && !IsLocal(env, n) && a == NEW_NODE.(routes := [NewRoute(n, info)])
    requires info.rtype == Internal && info.distance < INFINITE_METRIC && info.rdistance < INFINITE_METRIC
    ensures Select(env, a) == Some(NewRoute(n, info))
  {
    var r := NewRoute(n, info);
    assert FirstAttached(env, [r], 0) == None && FirstAttached(env, [r], 1) == None;
    assert Nearest([r], INFINITE_METRIC, 0) == None && Candidate([r], INFINITE_METRIC, r);
  }

  lemma FirstAbsorbed(n: NbrId, info: Info)
    ensures Absorb(NEW_NODE, n, Some(info)) == Step(NEW_NODE.(routes := [NewRoute(n, info)]), [])
  {
    var r := NewRoute(n, info);
    assert [] + [r] + [] == [r];
  }

  /** One finite route: the prefix is passive and names its neighbour. */
  lemma FirstRoute(env: Env, n: NbrId, info: Info)
    requires EnvOk(env) && n in env.nbrs && !IsLocal(env, n)
    requires info.rtype == Internal && info.distance < INFINITE_METRIC && info.rdistance < INFINITE_METRIC
    ensures var o := CheckUpdate(env, None, n, Some(info)).node;
            o.Some? && o.value.state == Passive && o.value.succ.nbr == Some(n) && RouteNbrs(o.value) == [n]
  {
    hide Select, Absorb, FibMessages, Updates, Queries;
    var a := NEW_NODE.(routes := [NewRoute(n, info)]);
    FirstAbsorbed(n, info);
    FirstChosen(env, n, info, a);
    var m := SetSuccessor(a, Some(NewRoute(n, info)));
    FibOnlyFlags(env, FibBar(env, m.succ.fdistance), m.routes);
  }

  function RouteNbrs(node: Node): seq<NbrId> {
    seq(|node.routes|, i requires 0 <= i < |node.routes| => node.routes[i].nbr)
  }

  /** The only neighbour with a route asks with infinite metric: everybody is queried, its own name is kept. */
  lemma OnlyRouteLost(env: Env, node: Node, n: NbrId, asked: Advert)
    requires EnvOk(env) && NodeOk(env, node) && node.state == Passive && RouteNbrs(node) == [n]
    requires |Targets(env, node.succ.nbr, |env.order|)| > 0
    ensures var o := CheckQuery(env, Some(node), n, asked, None, false).node;
            o.Some? && o.value.state == Active3 && o.value.routes == [] && o.value.succ.nbr == node.succ.nbr
  {
    assert |RouteNbrs(node)| == 1 && RouteNbrs(node)[0] == n;
    AbsorbOk(env, node, n, None);
    var a := Absorb(node, n, None);
    assert a.node.routes == [];
    assert Select(env, a.node) == None;
    DecideOk(env, a.node, Evt3, node.succ.fdistance, Some(n));
    var d := Decide(env, a.node, Evt3, node.succ.fdistance, Some(n));
    GoActiveOk(env, a.node, Evt3);
    assert d.node.rijk == Targets(env, node.succ.nbr, |env.order|);
    assert |d.node.routes| == 0;
  }

  function DemoStart(): Rde {
    Rde(DemoEnv(), map[], map[2 := [], 3 := []], [])
  }

  const DEMO_HEARD := Update(2, DEMO_PREFIX, DEMO_ADVERT)
  const DEMO_ASKED := Query(2, DEMO_PREFIX, DEMO_WITHDRAWAL, false)

  lemma DemoHeard()
    ensures Init(DemoStart()) && Inv(DemoStart()) && Enabled(DemoStart(), DEMO_HEARD)
    ensures var s := Next(DemoStart(), DEMO_HEARD); Inv(s) && AllLive(s) && s.env == DemoEnv()
    ensures var o := Lookup(Next(DemoStart(), DEMO_HEARD).topology, DEMO_PREFIX);
            o.Some? && o.value.state == Passive && o.value.succ.nbr == Some(2) && RouteNbrs(o.value) == [2]
  {
    hide CheckUpdate, CheckQuery, LinkDown, Interpret, NbrSide, Targets, RouteNbrs;
    var s := DemoStart();
    DemoDistances(DemoEnv(), 2);
    FirstRoute(DemoEnv(), 2, Interpret(DemoEnv(), 2, DEMO_ADVERT).value);
    assert Run([s], []);
    RunKeepsInv([s], [], 0);
    NextKeeps(s, DEMO_HEARD);
    TalkKeepsLive(s, DEMO_HEARD);
  }

  lemma DemoAsked(s: Rde)
    requires Inv(s) && AllLive(s) && s.env == DemoEnv()
    requires var o := Lookup(s.topology, DEMO_PREFIX);
             o.Some? && o.value.state == Passive && o.value.succ.nbr == Some(2) && RouteNbrs(o.value) == [2]
    ensures Enabled(s, DEMO_ASKED)
    ensures var t := Next(s, DEMO_ASKED); Inv(t) && AllLive(t) && t.env == DemoEnv() && t.topology.Keys == s.topology.Keys
    ensures var o := Lookup(Next(s, DEMO_ASKED).topology, DEMO_PREFIX);
            o.Some? && o.value.succ.nbr == Some(2) && o.value.routes == []
  {
    hide CheckUpdate, CheckQuery, LinkDown, NbrSide, Targets, RouteNbrs, AllLive;
    assert s.topology[DEMO_PREFIX].succ.nbr == Some(2);
    DemoTargets();
    OnlyRouteLost(DemoEnv(), s.topology[DEMO_PREFIX], 2, DEMO_WITHDRAWAL);
    NextKeeps(s, DEMO_ASKED);
    TalkKeepsLive(s, DEMO_ASKED);
  }

  /** A route, its withdrawal in a query, and the loss of the neighbour: the
      active prefix then names a neighbour that does not exist any more. */
  lemma DanglingIsReachable() returns (states: seq<Rde>, events: seq<Event>)
    ensures Run(states, events) && !AllLive(states[|events|])
  {
    hide CheckUpdate, CheckQuery, LinkDown, Interpret, NbrSide, Targets, RouteNbrs, Inv;
    DemoHeard();
    var s1 := Next(DemoStart(), DEMO_HEARD);
    DemoAsked(s1);
    var s2 := Next(s1, DEMO_ASKED);
    var e := NbrDown(2, [DEMO_PREFIX]);
    assert s2.topology.Keys == {DEMO_PREFIX};
    RemovalDangles(s2, 2, [DEMO_PREFIX], DEMO_PREFIX);
    states, events := [DemoStart(), s1, s2, Next(s2, e)], [DEMO_HEARD, DEMO_ASKED, e];
  }

  lemma DemoTargets()
    ensures |Targets(DemoEnv(), Some(2), |DemoEnv().order|)| > 0
  {
    TargetsFacts(DemoEnv(), Some(2), 2);
    assert DemoEnv().order[..2] == [2, 3];
    assert Queried(DemoEnv(), Some(2), 3);
    assert 3 in Targets(DemoEnv(), Some(2), 2);
  }
}
