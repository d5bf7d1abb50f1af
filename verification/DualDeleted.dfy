/** When handling an input deletes the prefix that the handler still uses. */
module DualDeleted {
  import opened Prelude
  import opened EigrpMetric
  import opened DualTypes
  import opened DualNode
  import opened DualInvariant
  import opened DualTopology
  import opened DualRuns
  import S = DualSuccessor

  /** No route can be chosen, even with the feasible distance forgotten. */
  predicate Stranded(env: Env, routes: seq<Route>) {
    forall r :: r in routes ==> !Attached(env, r) && !Candidate(routes, INFINITE_METRIC, r)
  }

  lemma NothingSelected(env: Env, node: Node)
    ensures Select(env, node).None? <==>
            forall r :: r in node.routes ==> !Attached(env, r) && !Candidate(node.routes, node.succ.fdistance, r)
  {
    var routes := node.routes;
    if Select(env, node).None? {
      forall r | r in routes ensures !Attached(env, r) && !Candidate(routes, node.succ.fdistance, r) {
        var i :| 0 <= i < |routes| && routes[i] == r;
      }
    }
  }

  lemma StrandedExact(env: Env, node: Node)
    ensures Select(env, Forget(node)).None? <==> Stranded(env, node.routes)
    ensures Stranded(env, node.routes) ==> Select(env, node).None?
  {
    NothingSelected(env, node);
    NothingSelected(env, Forget(node));
  }

  /** Being installed does not matter for being chosen. */
  lemma UninstalledStranded(env: Env, routes: seq<Route>)
    ensures Stranded(env, Uninstalled(routes)) <==> Stranded(env, routes)
  {
    var u := Uninstalled(routes);
    assert ExternalOnly(u) <==> ExternalOnly(routes) by {
      assert forall i :: 0 <= i < |routes| ==> u[i].rtype == routes[i].rtype;
    }
    if Stranded(env, routes) {
      forall r | r in u ensures !Attached(env, r) && !Candidate(u, INFINITE_METRIC, r) {
        var i :| 0 <= i < |u| && u[i] == r;
        assert routes[i] in routes;
      }
    }
    if Stranded(env, u) {
      forall r | r in routes ensures !Attached(env, r) && !Candidate(routes, INFINITE_METRIC, r) {
        var i :| 0 <= i < |routes| && routes[i] == r;
        assert u[i] in u;
      }
    }
  }

  /** The last reply deletes a stranded prefix unless its distance must still be met. */
  lemma LastReplyDeletes(env: Env, node: Node)
    requires node.state != Passive
    ensures LastReply(env, node).node.None? <==>
            (node.state == Active1 || node.state == Active3) && Stranded(env, node.routes)
  {
    hide Select, Updates, Queries, Targets, Stranded, FibMessages, FibRoutes;
    StrandedExact(env, node);
  }

  // ---------------------------------------------------------------- a lost link

  /** The prefix that loses the route from `n` is deleted on the way. */
  predicate LostWithLink(env: Env, node: Node, n: NbrId) {
    && Stranded(env, DropRoute(node, n).node.routes)
    && match node.state
       case Passive => Targets(env, node.succ.nbr, |env.order|) == [n]
       case Active1 => node.succ.nbr != Some(n) && node.rijk == [n]
       case Active3 => node.succ.nbr != Some(n) && node.rijk == [n]
       case _ => false
  }

  /** A reply counted for the lost neighbour: the prefix as it is then. */
  lemma ReplyDeletes(env: Env, node: Node, n: NbrId)
    requires !HasRoute(node.routes, n)
    ensures CheckReply(env, Some(node), n, None, false).node.None? <==>
            (node.state == Active1 || node.state == Active3) && node.rijk == [n] && Stranded(env, node.routes)
  {
    hide LastReply, Stranded;
    assert Absorb(node, n, None).node == node;
    if n in node.rijk {
      var rest := node.(rijk := RemoveFirst(node.rijk, n));
      RemoveFirstEmpty(node.rijk, n);
      if node.state != Passive { LastReplyDeletes(env, rest); }
    }
  }

  lemma RemoveFirstEmpty(s: seq<NbrId>, n: NbrId)
    requires n in s
    ensures RemoveFirst(s, n) == [] <==> s == [n]
  {
    assert s[0] == n ==> RemoveFirst(s, n) == s[1..];
  }

  /** What a stranded prefix looks like after `LoseLink`. */
  lemma LoseLinkShape(env: Env, node: Node, n: NbrId, oldFd: uint32)
    requires EnvOk(env) && Base(env, node) && (node.state == Passive ==> node.rijk == [])
    ensures var d := LoseLink(env, node, n, oldFd).node;
            && (node.state == Passive && Select(env, node).Some? ==> d.state == Passive)
            && (node.state == Passive && Select(env, node).None? ==>
                 d.state == Active1 && d.rijk == Targets(env, node.succ.nbr, |env.order|) && d.routes == Uninstalled(node.routes))
            && (node.state != Passive ==> d.routes == node.routes && d.rijk == node.rijk)
            && (node.state == Active1 ==> d.state == if node.succ.nbr == Some(n) then Active0 else Active1)
            && (node.state == Active3 ==> d.state == if node.succ.nbr == Some(n) then Active2 else Active3)
            && (node.state == Active0 || node.state == Active2 ==> d.state == node.state)
  {
    hide Select, Updates, Queries, Targets, FibMessages, FibRoutes;
    if node.state == Passive { DecideOk(env, node, Evt4, oldFd, None); }
  }

  /** Losing the link to `n` deletes the prefix exactly when nothing is left to
      choose and `n` alone was, or is now, asked; the walk over the prefixes then
      goes on to look at the successor of the deleted prefix. */
  lemma LinkDownDeletesExact(env: Env, node: Node, n: NbrId)
    requires EnvOk(env) && NodeOk(env, node)
    ensures LinkDownRoute(env, node, n).node.None? <==> LostWithLink(env, node, n)
  {
    hide LoseLink, CheckReply, Stranded, NodeOk, Targets, Base;
    assert Base(env, node) && (node.state == Passive ==> node.rijk == []) by { OkMeans(env, node); }
    var a := DropRoute(node, n);
    DropRouteOk(env, node, n);
    LoseLinkShape(env, a.node, n, node.succ.fdistance);
    var d := LoseLink(env, a.node, n, node.succ.fdistance).node;
    LoseLinkLacks(env, a.node, n, node.succ.fdistance);
    ReplyDeletes(env, d, n);
    UninstalledStranded(env, a.node.routes);
    StrandedExact(env, a.node);
  }

  lemma OkMeans(env: Env, node: Node)
    requires NodeOk(env, node)
    ensures Base(env, node) && (node.state == Passive ==> node.rijk == [])
  {}

  lemma LoseLinkLacks(env: Env, node: Node, n: NbrId, oldFd: uint32)
    requires !HasRoute(node.routes, n)
    ensures !HasRoute(LoseLink(env, node, n, oldFd).node.routes, n)
  {
    hide LoseLink;
    LoseLinkForgets(env, node, n, oldFd);
  }

  // ---------------------------------------------------------------- a query of a stuck neighbour

  /** The query of `n` deletes the prefix before its late reply is made up. */
  predicate LostWithQuery(env: Env, node: Node, n: NbrId, info: Option<Info>) {
    && Stranded(env, Absorb(node, n, info).node.routes)
    && match node.state
       case Passive => Targets(env, node.succ.nbr, |env.order|) == []
       case Active3 => node.succ.nbr == Some(n) && node.rijk == []
       case _ => false
  }

  lemma ServedThenClosed(env: Env, node: Node, n: NbrId, oldFd: uint32, fx: seq<Effect>)
    requires EnvOk(env) && Base(env, node) && (node.state == Passive ==> node.rijk == []) && !AnsweredAtOnce(env, node, n)
    ensures var q := ServeQuery(env, node, n, oldFd);
            CloseIfQuiet(env, Step(q.node, fx)).node.None? <==>
              Stranded(env, node.routes) && (if node.state == Passive then Targets(env, node.succ.nbr, |env.order|) == []
                                             else node.state == Active3 && node.rijk == [])
  {
    hide Select, Updates, Queries, Targets, FibMessages, FibRoutes, Stranded, LastReply;
    var q := ServeQuery(env, node, n, oldFd);
    if node.state == Passive {
      DecideOk(env, node, Evt3, oldFd, Some(n));
      UninstalledStranded(env, node.routes);
    }
    if q.node.state != Passive { LastReplyDeletes(env, q.node); }
  }

  /** A stuck-in-active query that is not answered at once deletes the prefix its
      late reply is taken from exactly in that case. */
  lemma QueryDeletesExact(env: Env, node: Node, n: NbrId, asked: Advert, info: Option<Info>)
    requires EnvOk(env) && n in env.nbrs && NodeOk(env, node)
    ensures !AnsweredAtOnce(env, Absorb(node, n, info).node, n) && CheckQuery(env, Some(node), n, asked, info, true).node.None?
            <==> LostWithQuery(env, node, n, info)
  {
    hide ServeQuery, CloseIfQuiet, Absorb, Stranded, Targets, Select, NodeOk, Base;
    OkMeans(env, node);
    AbsorbOk(env, node, n, info);
    AbsorbSame(node, n, info);
    var a := Absorb(node, n, info);
    StrandedExact(env, a.node);
    if !AnsweredAtOnce(env, a.node, n) {
      var q := ServeQuery(env, a.node, n, node.succ.fdistance);
      ServedThenClosed(env, a.node, n, node.succ.fdistance, a.fx + q.fx);
    }
  }

  lemma AbsorbSame(node: Node, n: NbrId, info: Option<Info>)
    ensures var a := Absorb(node, n, info).node; a.state == node.state && a.succ == node.succ && a.rijk == node.rijk
  {}

  // ---------------------------------------------------------------- where the mark is set

  ghost predicate Unmarked(fx: seq<Effect>) {
    UseDeleted !in fx
  }

  lemma {:induction false} PacketsUnmarked(env: Env, succ: Option<NbrId>, a: Advert, k: nat)
    requires k <= |env.ifaces|
    ensures Unmarked(Updates(env, succ, a, k)) && Unmarked(Queries(env, succ, a, k))
  {
    if k > 0 { PacketsUnmarked(env, succ, a, k - 1); }
  }

  lemma {:induction false} PassUnmarked(env: Env, bar: Bar, routes: seq<Route>, k: nat)
    requires k <= |routes|
    ensures Unmarked(FibMessages(env, bar, routes, k)) && Unmarked(KernelDeletes(routes, k))
  {
    if k > 0 { PassUnmarked(env, bar, routes, k - 1); }
  }

  lemma FsmUnmarked(env: Env, node: Node, e: DualEvent)
    ensures Unmarked(UpdateFib(env, node).fx) && Unmarked(Fsm(env, node, e).fx)
  {
    PassUnmarked(env, FibBar(env, node.succ.fdistance), node.routes, |node.routes|);
  }

  lemma GoActiveUnmarked(env: Env, node: Node, e: DualEvent)
    ensures Unmarked(GoActive(env, node, e).fx)
  {
    hide Fsm, Queries;
    PacketsUnmarked(env, node.succ.nbr, MarkActive(SuccessorAdvert(node)), |env.ifaces|);
    FsmUnmarked(env, QueryAll(env, node).node, e);
  }

  lemma DecideUnmarked(env: Env, node: Node, e: DualEvent, oldFd: uint32, replyTo: Option<NbrId>)
    ensures Unmarked(Decide(env, node, e, oldFd, replyTo).fx)
  {
    hide GoActive, UpdateFib, Updates, Select;
    GoActiveUnmarked(env, node, e);
    var n := SetSuccessor(node, Select(env, node));
    FsmUnmarked(env, n, e);
    PacketsUnmarked(env, n.succ.nbr, SuccessorAdvert(n), |env.ifaces|);
  }

  lemma SettledUnmarked(env: Env, node: Node, r: Option<Route>, e: DualEvent)
    ensures Unmarked(Settled(env, node, r, e).fx) && Unmarked(SettledWithReply(env, node, r, e).fx)
  {
    hide Fsm, Updates;
    var n := SetSuccessor(node, r);
    FsmUnmarked(env, n, e);
    PacketsUnmarked(env, n.succ.nbr, SuccessorAdvert(n), |env.ifaces|);
    PacketsUnmarked(env, n.succ.nbr, MarkActive(SuccessorAdvert(n)), |env.ifaces|);
  }

  lemma LastReplyUnmarked(env: Env, node: Node)
    ensures Unmarked(LastReply(env, node).fx)
  {
    hide Settled, SettledWithReply, GoActive, Select, Updates, Queries;
    var r, f := Select(env, node), Select(env, Forget(node));
    SettledUnmarked(env, node, r, Evt14);
    SettledUnmarked(env, node, r, Evt16);
    SettledUnmarked(env, node, f, Evt13);
    SettledUnmarked(env, node, f, Evt15);
    GoActiveUnmarked(env, node, Evt11);
    GoActiveUnmarked(env, node, Evt12);
    var s := LastReplyStep(env, node);
    assert Unmarked(s.fx);
    PassUnmarked(env, Bar(0, 0), s.node.routes, |s.node.routes|);
  }

  lemma QuietUnmarked(env: Env, s: Step)
    requires Unmarked(s.fx)
    ensures Unmarked(CloseIfQuiet(env, s).fx)
  {
    hide LastReply;
    LastReplyUnmarked(env, s.node);
  }

  lemma ServeQueryUnmarked(env: Env, node: Node, n: NbrId, oldFd: uint32)
    ensures Unmarked(ServeQuery(env, node, n, oldFd).fx)
  {
    hide Decide, Fsm;
    DecideUnmarked(env, node, Evt3, oldFd, Some(n));
    FsmUnmarked(env, node, Evt5);
    FsmUnmarked(env, node, Evt6);
  }

  lemma ReplyUnmarked(env: Env, prev: Option<Node>, n: NbrId, info: Option<Info>, sia: bool)
    ensures Unmarked(CheckReply(env, prev, n, info, sia).fx)
  {
    hide LastReply;
    if prev.Some? {
      var a := Absorb(prev.value, n, info);
      LastReplyUnmarked(env, a.node.(rijk := RemoveFirst(a.node.rijk, n)));
    }
  }

  lemma LoseLinkUnmarked(env: Env, node: Node, n: NbrId, oldFd: uint32)
    ensures Unmarked(LoseLink(env, node, n, oldFd).fx)
  {
    hide Decide, Fsm;
    DecideUnmarked(env, node, Evt4, oldFd, None);
    FsmUnmarked(env, node, Evt9);
    FsmUnmarked(env, node, Evt10);
  }

  /** A lost link makes the walk use a deleted prefix exactly in the case above. */
  lemma LinkDownMarksExact(env: Env, node: Node, n: NbrId)
    requires EnvOk(env) && NodeOk(env, node)
    ensures UseDeleted in LinkDown(env, node, n).fx <==> HasRoute(node.routes, n) && LostWithLink(env, node, n)
  {
    hide LoseLink, CheckReply, LostWithLink, NodeOk;
    LinkDownDeletesExact(env, node, n);
    var a := DropRoute(node, n);
    LoseLinkUnmarked(env, a.node, n, node.succ.fdistance);
    ReplyUnmarked(env, Some(LoseLink(env, a.node, n, node.succ.fdistance).node), n, None, false);
    var o := LinkDownRoute(env, node, n);
    assert Unmarked(o.fx);
    assert (o.fx + [UseDeleted])[|o.fx|] == UseDeleted;
  }

  /** A query makes its handler use a deleted prefix exactly when it is a
      stuck-in-active one in the case above. */
  lemma QueryMarksExact(env: Env, node: Node, n: NbrId, asked: Advert, info: Option<Info>, sia: bool)
    requires EnvOk(env) && n in env.nbrs && NodeOk(env, node)
    ensures UseDeleted in CheckQuery(env, Some(node), n, asked, info, sia).fx <==> sia && LostWithQuery(env, node, n, info)
  {
    hide ServeQuery, CloseIfQuiet, LostWithQuery, NodeOk, AnsweredAtOnce;
    QueryDeletesExact(env, node, n, asked, info);
    var a := Absorb(node, n, info);
    var q := ServeQuery(env, a.node, n, node.succ.fdistance);
    ServeQueryUnmarked(env, a.node, n, node.succ.fdistance);
    QuietUnmarked(env, Step(q.node, a.fx + q.fx));
    var o := CloseIfQuiet(env, Step(q.node, a.fx + q.fx));
    assert (o.fx + [UseDeleted])[|o.fx|] == UseDeleted;
  }

  // ---------------------------------------------------------------- both happen

  /** The walk over the prefixes deletes `p` while it is at it exactly then. */
  lemma WalkDeletesExact(s: Rde, n: NbrId, walk: seq<Prefix>, p: Prefix)
    requires Inv(s) && Enabled(s, LinkDownNbr(n, walk)) && p in s.topology
    ensures p !in Next(s, LinkDownNbr(n, walk)).topology <==>
            HasRoute(s.topology[p].routes, n) && LostWithLink(s.env, s.topology[p], n)
  {
    hide LinkDownRoute, LostWithLink, NodeOk;
    WalkVisitsOnce(s, n, walk, |walk|, p);
    assert walk[..|walk|] == walk;
    LinkDownDeletesExact(s.env, s.topology[p], n);
  }

  /** A router with one neighbour. */
  function LoneEnv(splitHorizon: bool): Env {
    var iface := S.DEMO_IFACE.(splitHorizon := splitHorizon);
    Env(KValues(1, 0, 1), 4, 1, 100, [iface], map[2 := Nbr(false, false, false, 2, Some(iface))], [2])
  }

  function LoneStart(splitHorizon: bool): Rde {
    Rde(LoneEnv(splitHorizon), map[], map[2 := []], [])
  }

  lemma LoneTargets(splitHorizon: bool)
    ensures Targets(LoneEnv(splitHorizon), Some(2), 1) == if splitHorizon then [] else [2]
  {
    var env := LoneEnv(splitHorizon);
    assert Targets(env, Some(2), 0) == [];
    assert Queried(env, Some(2), 2) <==> !splitHorizon;
  }

  /** It has heard of a route and nothing else. */
  lemma LoneHeard(splitHorizon: bool)
    ensures var s := LoneStart(splitHorizon); Init(s) && Enabled(s, S.DEMO_HEARD)
    ensures var t := Next(LoneStart(splitHorizon), S.DEMO_HEARD);
            Inv(t) && t.env == LoneEnv(splitHorizon) && t.topology.Keys == {S.DEMO_PREFIX}
    ensures var o := Lookup(Next(LoneStart(splitHorizon), S.DEMO_HEARD).topology, S.DEMO_PREFIX);
            o.Some? && o.value.state == Passive && o.value.succ.nbr == Some(2) && S.RouteNbrs(o.value) == [2]
  {
    hide CheckUpdate, CheckQuery, LinkDown, Interpret, NbrSide, Targets, S.RouteNbrs;
    var s := LoneStart(splitHorizon);
    S.DemoDistances(s.env, 2);
    S.FirstRoute(s.env, 2, Interpret(s.env, 2, S.DEMO_ADVERT).value);
    assert Run([s], []);
    RunKeepsInv([s], [], 0);
    NextKeeps(s, S.DEMO_HEARD);
  }

  lemma OnlyRouteGone(node: Node)
    requires S.RouteNbrs(node) == [2]
    ensures HasRoute(node.routes, 2) && DropRoute(node, 2).node.routes == []
  {
    assert |S.RouteNbrs(node)| == 1 && S.RouteNbrs(node)[0] == 2;
  }

  /** Without split horizon, a route and the loss of the link it came over. */
  lemma LinkDownDeletesReachable() returns (states: seq<Rde>, events: seq<Event>)
    ensures Run(states, events) && |events| == 2 && events[1].LinkDownNbr?
    ensures S.DEMO_PREFIX in states[1].topology && S.DEMO_PREFIX !in states[2].topology
    ensures HasRoute(states[1].topology[S.DEMO_PREFIX].routes, 2)
    ensures LostWithLink(states[1].env, states[1].topology[S.DEMO_PREFIX], 2)
  {
    hide CheckUpdate, CheckQuery, LinkDown, Interpret, NbrSide, Targets, S.RouteNbrs, Inv;
    LoneHeard(false);
    var s := Next(LoneStart(false), S.DEMO_HEARD);
    OnlyRouteGone(s.topology[S.DEMO_PREFIX]);
    LoneTargets(false);
    var e := LinkDownNbr(2, [S.DEMO_PREFIX]);
    WalkDeletesExact(s, 2, [S.DEMO_PREFIX], S.DEMO_PREFIX);
    states, events := [LoneStart(false), s, Next(s, e)], [S.DEMO_HEARD, e];
  }

  /** With split horizon, a route and its withdrawal in a stuck-in-active query. */
  lemma QueryDeletesReachable() returns (states: seq<Rde>, events: seq<Event>)
    ensures Run(states, events) && |events| == 2 && events[1].Query? && events[1].sia
    ensures S.DEMO_PREFIX in states[1].topology && S.DEMO_PREFIX !in states[2].topology
    ensures LostWithQuery(states[1].env, states[1].topology[S.DEMO_PREFIX], 2, None)
  {
    hide CheckUpdate, CheckQuery, LinkDown, NbrSide, Targets, S.RouteNbrs, Inv;
    LoneHeard(true);
    var s := Next(LoneStart(true), S.DEMO_HEARD);
    OnlyRouteGone(s.topology[S.DEMO_PREFIX]);
    LoneTargets(true);
    var e := Query(2, S.DEMO_PREFIX, S.DEMO_WITHDRAWAL, true);
    InvMeans(s, S.DEMO_PREFIX);
    QueryDeletesExact(s.env, s.topology[S.DEMO_PREFIX], 2, S.DEMO_WITHDRAWAL, None);
    states, events := [LoneStart(true), s, Next(s, e)], [S.DEMO_HEARD, e];
  }

  lemma InvMeans(s: Rde, p: Prefix)
    requires Inv(s) && p in s.topology
    ensures EnvOk(s.env) && NodeOk(s.env, s.topology[p])
  {}
}
