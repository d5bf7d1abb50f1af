/** What the engine chooses: the successor, and the routes it installs. */
module DualSelection {
  import opened Prelude
  import opened EigrpMetric
  import opened DualTypes
  import opened DualNode
  import opened DualInvariant

  // ---------------------------------------------------------------- the successor

  /** `r` at position `i` is the route the selection rule asks for: the first
      attached internal route if there is one; otherwise the first of the
      nearest feasible routes, external ones only when there is no other kind. */
  ghost predicate BestAt(env: Env, routes: seq<Route>, fd: uint32, i: nat)
    requires i < |routes|
  {
    if exists j :: 0 <= j < |routes| && Attached(env, routes[j]) then
      Attached(env, routes[i]) && forall j :: 0 <= j < i ==> !Attached(env, routes[j])
    else
      && Candidate(routes, fd, routes[i])
      && (forall j :: 0 <= j < |routes| && Candidate(routes, fd, routes[j]) ==> routes[i].distance <= routes[j].distance)
      && (forall j :: 0 <= j < i && Candidate(routes, fd, routes[j]) ==> routes[i].distance < routes[j].distance)
  }

  /** The selection returns exactly the best route, and nothing only when nothing is feasible. */
  lemma SelectionIsBest(env: Env, routes: seq<Route>, fd: uint32)
    ensures var s := SelectIndex(env, routes, fd);
            && (s.Some? ==> BestAt(env, routes, fd, s.value))
            && (s.None? <==> forall j :: 0 <= j < |routes| ==> !Attached(env, routes[j]) && !Candidate(routes, fd, routes[j]))
    ensures forall i :: 0 <= i < |routes| && BestAt(env, routes, fd, i) ==> SelectIndex(env, routes, fd) == Some(i)
  {
    var a := FirstAttached(env, routes, |routes|);
    var b := Nearest(routes, fd, |routes|);
    forall i | 0 <= i < |routes| && BestAt(env, routes, fd, i) ensures SelectIndex(env, routes, fd) == Some(i) {
      if a.Some? {
        assert Attached(env, routes[a.value]);
      } else {
        assert Candidate(routes, fd, routes[i]) && b.Some? && Candidate(routes, fd, routes[b.value]);
      }
    }
  }

  /** Choosing again after a choice that did not raise the feasible distance
      picks the same route, exactly when the route was reported from strictly
      closer (attached routes always). */
  lemma ReselectionIsFixpoint(env: Env, node: Node, r: Route)
    requires Select(env, node) == Some(r) && r.distance <= node.succ.fdistance
    ensures Select(env, SetSuccessor(node, Some(r))) == Some(r) <==> Attached(env, r) || r.rdistance < r.distance
  {
    var routes, fd := node.routes, node.succ.fdistance;
    var i := SelectIndex(env, routes, fd).value;
    SelectionIsBest(env, routes, fd);
    SelectionIsBest(env, routes, r.distance);
    if r.rdistance < r.distance || Attached(env, r) {
      assert BestAt(env, routes, r.distance, i);
    } else if SelectIndex(env, routes, r.distance).Some? {
      var j := SelectIndex(env, routes, r.distance).value;
      assert Candidate(routes, r.distance, routes[j]);
      assert routes[j] != r;
    }
  }

  /** So a received route of finite distance, once chosen without raising the
      feasible distance, stays the choice. */
  lemma ReceivedChoiceIsStable(env: Env, node: Node, r: Route, m: Metric, link: Link)
    requires Select(env, node) == Some(r) && r.distance <= node.succ.fdistance
    requires env.k.k2 == 0 && env.k.k3 > 0 && link.delay > 0 && WireBandwidth(m.bandwidth) && LinkOk(link)
    requires r.distance == Received(env.k, m, link).distance < INFINITE_METRIC
    requires r.rdistance == Received(env.k, m, link).rdistance
    ensures Select(env, SetSuccessor(node, Some(r))) == Some(r)
  {
    hide Select, SetSuccessor, Received;
    ReportedBelowDistance(env.k, m, link);
    ReselectionIsFixpoint(env, node, r);
  }

  // ---------------------------------------------------------------- the forwarding table

  /** The neighbours of the eligible routes, in list order. */
  function EligibleNbrs(env: Env, bar: Bar, routes: seq<Route>, k: nat): seq<NbrId>
    requires k <= |routes|
  {
    if k == 0 then []
    else EligibleNbrs(env, bar, routes, k - 1) + if Eligible(env, bar, routes[k - 1]) then [routes[k - 1].nbr] else []
  }

  /** The neighbours of the installed routes, in list order. */
  function InstalledNbrs(routes: seq<Route>, k: nat): seq<NbrId>
    requires k <= |routes|
  {
    if k == 0 then []
    else InstalledNbrs(routes, k - 1) + if routes[k - 1].installed then [routes[k - 1].nbr] else []
  }

  function Take<T>(s: seq<T>, n: nat): seq<T> {
    if n <= |s| then s[..n] else s
  }

  /** The installed routes are the first `maxPaths` that pass the feasibility
      and variance tests. */
  ghost predicate FibExact(env: Env, node: Node) {
    InstalledNbrs(node.routes, |node.routes|)
    == Take(EligibleNbrs(env, FibBar(env, node.succ.fdistance), node.routes, |node.routes|), env.maxPaths)
  }

  lemma {:induction false} FirstPaths(env: Env, bar: Bar, routes: seq<Route>, k: nat)
    requires k <= |routes| && KnownNbrs(env, routes)
    ensures |EligibleNbrs(env, bar, routes, k)| == EligibleBefore(env, bar, routes, k)
    ensures InstalledNbrs(FibRoutes(env, bar, routes), k) == Take(EligibleNbrs(env, bar, routes, k), env.maxPaths)
  {
    if k > 0 {
      FirstPaths(env, bar, routes, k - 1);
      assert routes[k - 1] in routes;
      assert FibRoutes(env, bar, routes)[k - 1] == FibRoute(env, bar, routes, k - 1);
    }
  }

  /** Eligibility does not look at the flags. */
  lemma {:induction false} EligibleSameButFlags(env: Env, bar: Bar, before: seq<Route>, after: seq<Route>, k: nat)
    requires k <= |before| && SameButFlags(before, after)
    ensures EligibleNbrs(env, bar, before, k) == EligibleNbrs(env, bar, after, k)
  {
    if k > 0 { EligibleSameButFlags(env, bar, before, after, k - 1); }
  }

  /** Running the table update on a passive prefix without attached successor makes it exact. */
  lemma UpdateFibExact(env: Env, node: Node)
    requires RoutesOk(env, node.routes) && node.state == Passive && !AttachedSuccessor(env, node)
    ensures FibExact(env, UpdateFib(env, node).node)
  {
    var bar := FibBar(env, node.succ.fdistance);
    FirstPaths(env, bar, node.routes, |node.routes|);
    FibOnlyFlags(env, bar, node.routes);
    EligibleSameButFlags(env, bar, node.routes, FibRoutes(env, bar, node.routes), |node.routes|);
  }

  /** The prefix is passive and its table was brought up to date last. */
  ghost predicate Synced(env: Env, node: Node) {
    node.state == Passive && !AttachedSuccessor(env, node) ==> FibExact(env, node)
  }

  lemma FsmSynced(env: Env, node: Node, e: DualEvent)
    requires RoutesOk(env, node.routes) && node.state != Passive
    ensures Synced(env, Fsm(env, node, e).node)
  {
    var t := NextState(node.state, e);
    if t == Some(Passive) && !AttachedSuccessor(env, node) {
      UpdateFibExact(env, node.(state := Passive));
    }
  }

  lemma DecideSynced(env: Env, node: Node, e: DualEvent, oldFd: uint32, replyTo: Option<NbrId>)
    requires EnvOk(env) && Base(env, node) && node.state == Passive && node.rijk == [] && (e == Evt3 || e == Evt4)
    ensures Synced(env, Decide(env, node, e, oldFd, replyTo).node)
  {
    var r := Select(env, node);
    DecideOk(env, node, e, oldFd, replyTo);
    if r.Some? {
      var n := SetSuccessor(node, r);
      if !AttachedSuccessor(env, n) { UpdateFibExact(env, n); }
    }
  }

  lemma LastReplySynced(env: Env, node: Node)
    requires EnvOk(env) && Base(env, node) && node.rijk == [] && node.state != Passive
    ensures var s := LastReplyStep(env, node); s.node.state == Passive ==> Synced(env, s.node)
  {
    var r := Select(env, node);
    var f := Select(env, Forget(node));
    match node.state
    case Active0 =>
      if r.Some? { FsmSynced(env, SetSuccessor(node, r), Evt14); } else { LastReplyActive0(env, node); }
    case Active1 => FsmSynced(env, SetSuccessor(node, f), Evt15);
    case Active2 =>
      if r.Some? { FsmSynced(env, SetSuccessor(node, r), Evt16); } else { LastReplyActive2(env, node); }
    case Active3 => FsmSynced(env, SetSuccessor(node, f), Evt13);
  }

  lemma CloseSynced(env: Env, s: Step)
    requires EnvOk(env) && Base(env, s.node) && Synced(env, s.node)
    ensures var o := CloseIfQuiet(env, s); o.node.Some? ==> Synced(env, o.node.value)
  {
    if s.node.state != Passive && s.node.rijk == [] { LastReplySynced(env, s.node); }
  }

  /** Whatever an update, a query about a known prefix, an accepted reply or a
      lost link does, if it leaves the prefix passive the table is exact. */
  lemma UpdateSyncs(env: Env, prev: Option<Node>, n: NbrId, info: Option<Info>)
    requires EnvOk(env) && n in env.nbrs && (prev.Some? ==> NodeOk(env, prev.value))
    ensures var o := CheckUpdate(env, prev, n, info); o.node.Some? ==> Synced(env, o.node.value)
  {
    if prev.Some? || info.Some? {
      var start := if prev.None? then NEW_NODE else prev.value;
      AbsorbOk(env, start, n, info);
      var a := Absorb(start, n, info);
      if start.state == Passive {
        DecideOk(env, a.node, Evt4, start.succ.fdistance, None);
        DecideSynced(env, a.node, Evt4, start.succ.fdistance, None);
        var d := Decide(env, a.node, Evt4, start.succ.fdistance, None);
        CloseSynced(env, Step(d.node, a.fx + d.fx));
      } else {
        CloseSynced(env, Step(a.node, a.fx + []));
      }
    }
  }

  lemma QuerySyncs(env: Env, prev: Node, n: NbrId, asked: Advert, info: Option<Info>, sia: bool)
    requires EnvOk(env) && n in env.nbrs && NodeOk(env, prev)
    ensures var o := CheckQuery(env, Some(prev), n, asked, info, sia); o.node.Some? ==> Synced(env, o.node.value)
  {
    AbsorbOk(env, prev, n, info);
    var a := Absorb(prev, n, info);
    ServeQueryOk(env, a.node, n, prev.succ.fdistance);
    var q := ServeQuery(env, a.node, n, prev.succ.fdistance);
    if prev.state == Passive {
      DecideSynced(env, a.node, Evt3, prev.succ.fdistance, Some(n));
    } else {
      FsmSynced(env, a.node, Evt5);
      FsmSynced(env, a.node, Evt6);
    }
    CloseSynced(env, Step(q.node, a.fx + q.fx));
  }

  lemma ReplySyncs(env: Env, prev: Node, n: NbrId, info: Option<Info>)
    requires EnvOk(env) && n in env.nbrs && Base(env, prev) && Awaited(Some(prev), n)
    ensures var o := CheckReply(env, Some(prev), n, info, false); o.node.Some? ==> Synced(env, o.node.value)
  {
    AbsorbOk(env, prev, n, info);
    var a := Absorb(prev, n, info);
    RemoveFirstFacts(a.node.rijk, n);
    var rest := a.node.(rijk := RemoveFirst(a.node.rijk, n));
    if rest.rijk == [] { LastReplySynced(env, rest); }
  }

  lemma LinkDownSyncs(env: Env, node: Node, n: NbrId)
    requires EnvOk(env) && n in env.nbrs && NodeOk(env, node)
    ensures var o := LinkDownRoute(env, node, n); o.node.Some? ==> Synced(env, o.node.value)
  {
    DropRouteOk(env, node, n);
    var a := DropRoute(node, n);
    LoseLinkOk(env, a.node, n, node.succ.fdistance);
    var d := LoseLink(env, a.node, n, node.succ.fdistance);
    if node.state == Passive {
      DecideSynced(env, a.node, Evt4, node.succ.fdistance, None);
    } else {
      FsmSynced(env, a.node, Evt9);
      FsmSynced(env, a.node, Evt10);
    }
    if Awaited(Some(d.node), n) { ReplySyncs(env, d.node, n, None); }
  }
}
