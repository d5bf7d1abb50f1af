/** What every prefix keeps, and how the effects of a step account for the
    change it makes: the kernel messages replay to the installed routes and the
    reply effects replay to the list of neighbours that owe a reply. */
module DualInvariant {
  import opened Prelude
  import opened DualTypes
  import opened DualNode

  // ---------------------------------------------------------------- invariants of one prefix

  ghost predicate DistinctNbrs(routes: seq<Route>) {
    forall i, j :: 0 <= i < j < |routes| ==> routes[i].nbr != routes[j].nbr
  }

  ghost predicate NexthopOrder(routes: seq<Route>) {
    forall i, j :: 0 <= i < j < |routes| ==> routes[i].nexthop <= routes[j].nexthop
  }

  ghost predicate KnownNbrs(env: Env, routes: seq<Route>) {
    forall r :: r in routes ==> r.nbr in env.nbrs && (r.installed ==> !IsRedist(env, r.nbr))
  }

  /** One route per known neighbour, in nexthop order; redistributed routes are never installed. */
  ghost predicate RoutesOk(env: Env, routes: seq<Route>) {
    DistinctNbrs(routes) && NexthopOrder(routes) && KnownNbrs(env, routes)
  }

  ghost predicate NoneInstalled(routes: seq<Route>) {
    forall r :: r in routes ==> !r.installed
  }

  /** Each neighbour owes at most one reply, and only real neighbours owe any. */
  ghost predicate RijkOk(env: Env, rijk: seq<NbrId>) {
    Distinct(rijk) && forall n :: n in rijk ==> n in env.nbrs && !env.nbrs[n].self
  }

  ghost predicate DescribesRoute(succ: Successor, r: Route) {
    && succ.nbr == Some(r.nbr) && succ.rtype == r.rtype
    && succ.fdistance == r.distance && succ.rdistance == r.rdistance
    && succ.metric == r.metric && succ.emetric == r.emetric
  }

  /** The recorded successor is a route on the list, with its present metrics. */
  ghost predicate SuccessorCurrent(node: Node) {
    exists i :: 0 <= i < |node.routes| && DescribesRoute(node.succ, node.routes[i])
  }

  ghost predicate Base(env: Env, node: Node) {
    RoutesOk(env, node.routes) && RijkOk(env, node.rijk) && (node.state != Passive ==> NoneInstalled(node.routes))
  }

  ghost predicate NodeOk(env: Env, node: Node) {
    Base(env, node) && (node.state == Passive ==> node.rijk == [] && SuccessorCurrent(node))
  }

  // ---------------------------------------------------------------- replaying effects

  function KernelApply(k: set<Path>, e: Effect): set<Path> {
    match e
    case KernelChange(path) => k + {path}
    case KernelDelete(path) => k - {path}
    case _ => k
  }

  /** The neighbours whose route for this prefix the kernel has after `fx`. */
  function KernelAfter(k: set<Path>, fx: seq<Effect>): set<Path> {
    if fx == [] then k else KernelApply(KernelAfter(k, fx[..|fx| - 1]), fx[|fx| - 1])
  }

  function OwedApply(o: seq<NbrId>, e: Effect): seq<NbrId> {
    match e
    case Owe(n) => o + [n]
    case Settle(n) => RemoveFirst(o, n)
    case _ => o
  }

  function OwedAfter(o: seq<NbrId>, fx: seq<Effect>): seq<NbrId> {
    if fx == [] then o else OwedApply(OwedAfter(o, fx[..|fx| - 1]), fx[|fx| - 1])
  }

  function InstalledSet(routes: seq<Route>): set<Path> {
    set i | 0 <= i < |routes| && routes[i].installed :: PathOf(routes[i])
  }

  /** The effects of a step account for its change. */
  ghost predicate Explains(before: Node, s: Step) {
    && KernelAfter(InstalledSet(before.routes), s.fx) == InstalledSet(s.node.routes)
    && OwedAfter(before.rijk, s.fx) == s.node.rijk
  }

  ghost predicate ExplainsOutcome(before: Option<Node>, o: Outcome) {
    && KernelAfter(InstalledIn(before), o.fx) == InstalledIn(o.node)
    && OwedAfter(OwedIn(before), o.fx) == OwedIn(o.node)
  }

  function InstalledIn(n: Option<Node>): set<Path> {
    if n.None? then {} else InstalledSet(n.value.routes)
  }

  function OwedIn(n: Option<Node>): seq<NbrId> {
    if n.None? then [] else n.value.rijk
  }

  lemma {:induction false} ReplayConcat(k: set<Path>, o: seq<NbrId>, a: seq<Effect>, b: seq<Effect>)
    ensures KernelAfter(k, a + b) == KernelAfter(KernelAfter(k, a), b)
    ensures OwedAfter(o, a + b) == OwedAfter(OwedAfter(o, a), b)
    decreases |b|
  {
    if b == [] {
      assert a + b == a;
    } else {
      var b' := b[..|b| - 1];
      assert (a + b)[..|a + b| - 1] == a + b';
      ReplayConcat(k, o, a, b');
    }
  }

  predicate KernelSilent(fx: seq<Effect>) {
    forall e :: e in fx ==> !e.KernelChange? && !e.KernelDelete?
  }

  predicate OwedSilent(fx: seq<Effect>) {
    forall e :: e in fx ==> !e.Owe? && !e.Settle?
  }

  lemma {:induction false} SilentReplay(k: set<Path>, o: seq<NbrId>, fx: seq<Effect>)
    ensures KernelSilent(fx) ==> KernelAfter(k, fx) == k
    ensures OwedSilent(fx) ==> OwedAfter(o, fx) == o
    decreases |fx|
  {
    if fx != [] {
      var fx' := fx[..|fx| - 1];
      assert fx == fx' + [fx[|fx| - 1]];
      SilentReplay(k, o, fx');
    }
  }

  /** Accounts compose. */
  lemma ExplainsThen(a: Node, s: Step, t: Step)
    requires Explains(a, s) && Explains(s.node, t)
    ensures Explains(a, Step(t.node, s.fx + t.fx))
  {
    ReplayConcat(InstalledSet(a.routes), a.rijk, s.fx, t.fx);
  }

  lemma ExplainsThenOutcome(a: Node, s: Step, o: Outcome)
    requires Explains(a, s) && ExplainsOutcome(Some(s.node), o)
    ensures ExplainsOutcome(Some(a), After(s.fx, o))
  {
    ReplayConcat(InstalledSet(a.routes), a.rijk, s.fx, o.fx);
  }

  /** Packets neither install routes nor change who owes a reply. */
  lemma ExplainsPackets(a: Node, s: Step, fx: seq<Effect>)
    requires Explains(a, s) && KernelSilent(fx) && OwedSilent(fx)
    ensures Explains(a, Step(s.node, s.fx + fx))
    ensures Explains(a, Step(s.node, fx + s.fx))
  {
    ReplayConcat(InstalledSet(a.routes), a.rijk, s.fx, fx);
    ReplayConcat(InstalledSet(a.routes), a.rijk, fx, s.fx);
    SilentReplay(InstalledSet(a.routes), a.rijk, fx);
    SilentReplay(InstalledSet(s.node.routes), s.node.rijk, fx);
  }

  lemma {:induction false} PacketsSilent(env: Env, succ: Option<NbrId>, a: Advert, k: nat)
    requires k <= |env.ifaces|
    ensures KernelSilent(Updates(env, succ, a, k)) && OwedSilent(Updates(env, succ, a, k))
    ensures KernelSilent(Queries(env, succ, a, k)) && OwedSilent(Queries(env, succ, a, k))
  {
    if k > 0 { PacketsSilent(env, succ, a, k - 1); }
  }

  // ---------------------------------------------------------------- installed routes

  /** `after` is `before` with other installed flags. */
  ghost predicate SameButFlags(before: seq<Route>, after: seq<Route>) {
    |before| == |after| && forall i :: 0 <= i < |before| ==> after[i] == before[i].(installed := after[i].installed)
  }

  lemma FlagFlip(routes: seq<Route>, k: nat, flag: bool)
    requires k < |routes| && DistinctNbrs(routes)
    ensures InstalledSet(routes[k := routes[k].(installed := flag)])
         == if flag then InstalledSet(routes) + {PathOf(routes[k])} else InstalledSet(routes) - {PathOf(routes[k])}
  {
    var r := routes[k := routes[k].(installed := flag)];
    var n := PathOf(routes[k]);
    forall x ensures x in InstalledSet(r) <==> (x == n && flag) || (x != n && x in InstalledSet(routes)) {
      if x in InstalledSet(r) {
        var i :| 0 <= i < |r| && r[i].installed && PathOf(r[i]) == x;
        if i != k { assert PathOf(routes[i]) == x && routes[i].installed; }
      }
      if x != n && x in InstalledSet(routes) {
        var i :| 0 <= i < |routes| && routes[i].installed && PathOf(routes[i]) == x;
        assert PathOf(r[i]) == x && r[i].installed;
      }
      if x == n && flag {
        assert PathOf(r[k]) == x && r[k].installed;
      }
    }
  }

  /** Messages sent while the first `k` routes have been brought to `after`. */
  lemma FlagStep(before: seq<Route>, after: seq<Route>, k: nat, fx: seq<Effect>, m: seq<Effect>)
    requires |before| == |after| && k < |before| && DistinctNbrs(before)
    requires SameButFlags(before, after)
    requires KernelAfter(InstalledSet(before), fx) == InstalledSet(after[..k] + before[k..])
    requires Switches(before[k], after[k], m)
    ensures KernelAfter(InstalledSet(before), fx + m) == InstalledSet(after[..k + 1] + before[k + 1..])
  {
    hide InstalledSet;
    var mixed := after[..k] + before[k..];
    assert mixed[k] == before[k] && |mixed| == |before|;
    FlagFlip(mixed, k, after[k].installed);
    assert after[..k + 1] + before[k + 1..] == mixed[k := mixed[k].(installed := after[k].installed)];
    if m == [] {
      assert fx + m == fx;
      assert mixed[k := mixed[k].(installed := after[k].installed)] == mixed;
    } else {
      assert (fx + m)[..|fx + m| - 1] == fx;
    }
  }

  lemma FibMessageMatches(env: Env, bar: Bar, routes: seq<Route>, i: nat)
    requires i < |routes|
    ensures var m, after := FibMessage(env, bar, routes, i), FibRoute(env, bar, routes, i);
            && after == routes[i].(installed := after.installed)
            && Switches(routes[i], after, m)
  {
  }

  lemma FibOnlyFlags(env: Env, bar: Bar, routes: seq<Route>)
    ensures SameButFlags(routes, FibRoutes(env, bar, routes))
    ensures forall i :: 0 <= i < |routes| ==> Switches(routes[i], FibRoutes(env, bar, routes)[i], FibMessage(env, bar, routes, i))
  {
    forall i | 0 <= i < |routes|
      ensures var r := FibRoutes(env, bar, routes)[i];
              r == routes[i].(installed := r.installed) && Switches(routes[i], r, FibMessage(env, bar, routes, i))
    {
      FibMessageMatches(env, bar, routes, i);
    }
  }

  /** Message `m` takes a route's flag from `before` to `after`. */
  ghost predicate Switches(before: Route, after: Route, m: seq<Effect>) {
    && (m == [] ==> after.installed == before.installed)
    && (m != [] ==> m == [if after.installed then KernelChange(PathOf(before)) else KernelDelete(PathOf(before))])
  }

  lemma {:induction false} FibReplay(env: Env, bar: Bar, routes: seq<Route>, after: seq<Route>, k: nat)
    requires k <= |routes| && DistinctNbrs(routes) && SameButFlags(routes, after)
    requires forall i :: 0 <= i < |routes| ==> Switches(routes[i], after[i], FibMessage(env, bar, routes, i))
    ensures KernelAfter(InstalledSet(routes), FibMessages(env, bar, routes, k)) == InstalledSet(after[..k] + routes[k..])
  {
    hide InstalledSet, FibMessage, Switches;
    if k == 0 {
      assert after[..0] + routes[0..] == routes;
    } else {
      FibReplay(env, bar, routes, after, k - 1);
      FlagStep(routes, after, k - 1, FibMessages(env, bar, routes, k - 1), FibMessage(env, bar, routes, k - 1));
    }
  }

  lemma {:induction false} DeleteReplay(routes: seq<Route>, k: nat)
    requires k <= |routes| && DistinctNbrs(routes)
    ensures KernelAfter(InstalledSet(routes), KernelDeletes(routes, k)) == InstalledSet(Uninstalled(routes)[..k] + routes[k..])
  {
    hide InstalledSet;
    if k == 0 {
      assert Uninstalled(routes)[..0] + routes[0..] == routes;
    } else {
      DeleteReplay(routes, k - 1);
      FlagStep(routes, Uninstalled(routes), k - 1, KernelDeletes(routes, k - 1),
               if routes[k - 1].installed then [KernelDelete(PathOf(routes[k - 1]))] else []);
    }
  }

  lemma {:induction false} FibMessagesOwedSilent(env: Env, bar: Bar, routes: seq<Route>, k: nat)
    requires k <= |routes|
    ensures OwedSilent(FibMessages(env, bar, routes, k))
  {
    if k > 0 { FibMessagesOwedSilent(env, bar, routes, k - 1); }
  }

  lemma {:induction false} KernelDeletesOwedSilent(routes: seq<Route>, k: nat)
    requires k <= |routes|
    ensures OwedSilent(KernelDeletes(routes, k))
  {
    if k > 0 { KernelDeletesOwedSilent(routes, k - 1); }
  }

  lemma FlagsKeepOrder(before: seq<Route>, after: seq<Route>)
    requires DistinctNbrs(before) && NexthopOrder(before) && SameButFlags(before, after)
    ensures DistinctNbrs(after) && NexthopOrder(after)
  {
  }

  lemma FlagsKeepSuccessor(node: Node, after: seq<Route>)
    requires SameButFlags(node.routes, after) && SuccessorCurrent(node)
    ensures SuccessorCurrent(node.(routes := after))
  {
    var i :| 0 <= i < |node.routes| && DescribesRoute(node.succ, node.routes[i]);
    assert DescribesRoute(node.succ, after[i]);
  }

  lemma UninstallOk(env: Env, node: Node)
    requires RoutesOk(env, node.routes)
    ensures var after := Uninstalled(node.routes);
            RoutesOk(env, after) && NoneInstalled(after) && SameButFlags(node.routes, after)
    ensures Explains(node, Step(node.(routes := Uninstalled(node.routes)), KernelDeletes(node.routes, |node.routes|)))
  {
    var after := Uninstalled(node.routes);
    FlagsKeepOrder(node.routes, after);
    DeleteReplay(node.routes, |node.routes|);
    assert after[..|after|] + node.routes[|node.routes|..] == after;
    KernelDeletesOwedSilent(node.routes, |node.routes|);
    SilentReplay({}, node.rijk, KernelDeletes(node.routes, |node.routes|));
  }

  lemma InstallOk(env: Env, node: Node, bar: Bar)
    requires RoutesOk(env, node.routes)
    ensures var after := FibRoutes(env, bar, node.routes);
            RoutesOk(env, after) && SameButFlags(node.routes, after)
    ensures Explains(node, Step(node.(routes := FibRoutes(env, bar, node.routes)),
                                FibMessages(env, bar, node.routes, |node.routes|)))
  {
    var after := FibRoutes(env, bar, node.routes);
    FibOnlyFlags(env, bar, node.routes);
    FlagsKeepOrder(node.routes, after);
    FibReplay(env, bar, node.routes, after, |node.routes|);
    assert after[..|after|] + node.routes[|node.routes|..] == after;
    FibMessagesOwedSilent(env, bar, node.routes, |node.routes|);
    SilentReplay({}, node.rijk, FibMessages(env, bar, node.routes, |node.routes|));
  }

  /** Bringing the forwarding table up to date keeps the prefix and accounts for itself. */
  lemma UpdateFibOk(env: Env, node: Node)
    requires RoutesOk(env, node.routes) && RijkOk(env, node.rijk)
    ensures Base(env, UpdateFib(env, node).node)
    ensures Explains(node, UpdateFib(env, node))
    ensures SuccessorCurrent(node) ==> SuccessorCurrent(UpdateFib(env, node).node)
  {
    if node.state != Passive {
      UninstallOk(env, node);
    } else if !AttachedSuccessor(env, node) {
      InstallOk(env, node, FibBar(env, node.succ.fdistance));
    }
    if SuccessorCurrent(node) {
      FlagsKeepSuccessor(node, UpdateFib(env, node).node.routes);
    }
  }

  // ---------------------------------------------------------------- absorbing a route

  lemma RemovalKeepsOrder(routes: seq<Route>, i: nat)
    requires i < |routes| && DistinctNbrs(routes) && NexthopOrder(routes)
    ensures var after := routes[..i] + routes[i + 1..];
            DistinctNbrs(after) && NexthopOrder(after) && !HasRoute(after, routes[i].nbr)
  {
    var after := routes[..i] + routes[i + 1..];
    assert forall j :: 0 <= j < |after| ==> after[j] == routes[if j < i then j else j + 1];
  }

  lemma DropRouteOk(env: Env, node: Node, n: NbrId)
    requires Base(env, node)
    ensures Base(env, DropRoute(node, n).node) && Explains(node, DropRoute(node, n))
    ensures !HasRoute(DropRoute(node, n).node.routes, n)
  {
    var i := RouteIndex(node.routes, n);
    if i < |node.routes| {
      RemovalKeepsOrder(node.routes, i);
      RemovalReplay(node.routes, i);
    }
  }

  lemma RemovalReplay(routes: seq<Route>, i: nat)
    requires i < |routes| && DistinctNbrs(routes)
    ensures var fx := if routes[i].installed then [KernelDelete(PathOf(routes[i]))] else [];
            KernelAfter(InstalledSet(routes), fx) == InstalledSet(routes[..i] + routes[i + 1..])
  {
    var off := routes[i := routes[i].(installed := false)];
    FlagFlip(routes, i, false);
    RemovedSameInstalled(off, i);
    assert off[..i] + off[i + 1..] == routes[..i] + routes[i + 1..];
    if !routes[i].installed {
      assert off == routes;
    } else {
      assert [KernelDelete(PathOf(routes[i]))][..0] == [];
    }
  }

  lemma RemovedSameInstalled(routes: seq<Route>, i: nat)
    requires i < |routes| && !routes[i].installed
    ensures InstalledSet(routes[..i] + routes[i + 1..]) == InstalledSet(routes)
  {
    var r := routes[..i] + routes[i + 1..];
    forall x ensures x in InstalledSet(r) <==> x in InstalledSet(routes) {
      if x in InstalledSet(routes) {
        var j :| 0 <= j < |routes| && routes[j].installed && PathOf(routes[j]) == x;
        assert r[if j < i then j else j - 1] == routes[j];
      }
      if x in InstalledSet(r) {
        var j :| 0 <= j < |r| && r[j].installed && PathOf(r[j]) == x;
        assert routes[if j < i then j else j + 1] == r[j];
      }
    }
  }

  lemma InsertOk(env: Env, routes: seq<Route>, r: Route)
    requires RoutesOk(env, routes) && r.nbr in env.nbrs && !r.installed
    requires forall i :: 0 <= i < |routes| ==> routes[i].nbr != r.nbr
    ensures RoutesOk(env, InsertRoute(routes, r))
    ensures InstalledSet(InsertRoute(routes, r)) == InstalledSet(routes)
    ensures NoneInstalled(routes) ==> NoneInstalled(InsertRoute(routes, r))
  {
    InsertSorted(routes, r);
    InsertDistinct(routes, InsertIndex(routes, r.nexthop), r);
    InsertMembers(routes, r);
  }

  lemma InsertMembers(routes: seq<Route>, r: Route)
    requires !r.installed
    ensures forall x :: x in InsertRoute(routes, r) <==> x == r || x in routes
    ensures InstalledSet(InsertRoute(routes, r)) == InstalledSet(routes)
  {
    var j := InsertIndex(routes, r.nexthop);
    var after := InsertRoute(routes, r);
    RemovedSameInstalled(after, j);
    assert after[..j] + after[j + 1..] == routes;
    assert routes == routes[..j] + routes[j..];
  }

  lemma InsertDistinct(routes: seq<Route>, j: nat, r: Route)
    requires j <= |routes| && DistinctNbrs(routes)
    requires forall i :: 0 <= i < |routes| ==> routes[i].nbr != r.nbr
    ensures DistinctNbrs(routes[..j] + [r] + routes[j..])
  {
    var after := routes[..j] + [r] + routes[j..];
    assert forall h :: 0 <= h < |after| ==>
      after[h] == if h < j then routes[h] else if h == j then r else routes[h - 1];
  }

  lemma InsertSorted(routes: seq<Route>, r: Route)
    requires NexthopOrder(routes)
    ensures NexthopOrder(InsertRoute(routes, r))
  {
    var j := InsertIndex(routes, r.nexthop);
    var after := InsertRoute(routes, r);
    forall h, g | 0 <= h < g < |after| ensures after[h].nexthop <= after[g].nexthop {
      if g < j {
      } else if h < j {
        assert g > j ==> after[g] == routes[g - 1];
      } else {
        assert after[g] == routes[g - 1];
        assert routes[j].nexthop <= routes[g - 1].nexthop;
      }
    }
  }

  lemma AbsorbOk(env: Env, node: Node, n: NbrId, info: Option<Info>)
    requires Base(env, node) && n in env.nbrs
    ensures Base(env, Absorb(node, n, info).node) && Explains(node, Absorb(node, n, info))
  {
    var i := RouteIndex(node.routes, n);
    if info.None? {
      DropRouteOk(env, node, n);
    } else if i < |node.routes| {
      RefreshSameInstalled(node.routes, i, info.value);
    } else {
      InsertOk(env, node.routes, NewRoute(n, info.value));
    }
  }

  lemma RefreshSameInstalled(routes: seq<Route>, i: nat, info: Info)
    requires i < |routes|
    ensures InstalledSet(routes[i := Refresh(routes[i], info)]) == InstalledSet(routes)
  {
    var r := routes[i := Refresh(routes[i], info)];
    forall x ensures x in InstalledSet(r) <==> x in InstalledSet(routes) {
      if x in InstalledSet(routes) {
        var j :| 0 <= j < |routes| && routes[j].installed && PathOf(routes[j]) == x;
        assert r[j].installed && PathOf(r[j]) == x;
      }
      if x in InstalledSet(r) {
        var j :| 0 <= j < |r| && r[j].installed && PathOf(r[j]) == x;
        assert routes[j].installed && PathOf(routes[j]) == x;
      }
    }
  }

  // ---------------------------------------------------------------- queries

  lemma {:induction false} TargetsFacts(env: Env, succ: Option<NbrId>, k: nat)
    requires EnvOk(env) && k <= |env.order|
    ensures Distinct(Targets(env, succ, k))
    ensures forall n :: n in Targets(env, succ, k) <==> n in env.order[..k] && Queried(env, succ, n)
  {
    if k > 0 {
      TargetsFacts(env, succ, k - 1);
      assert env.order[..k] == env.order[..k - 1] + [env.order[k - 1]];
      assert env.order[k - 1] !in env.order[..k - 1];
    }
  }

  lemma {:induction false} OwesReplay(o: seq<NbrId>, t: seq<NbrId>)
    ensures OwedAfter(o, Owes(t)) == o + t
    ensures KernelSilent(Owes(t))
    decreases |t|
  {
    if t == [] {
      assert o + t == o;
    } else {
      var t' := t[..|t| - 1];
      OwesReplay(o, t');
      assert Owes(t)[..|Owes(t)| - 1] == Owes(t');
      assert t == t' + [t[|t| - 1]];
    }
  }

  /** Everybody who may be asked: a set of real neighbours, each once. */
  lemma TargetsOk(env: Env, succ: Option<NbrId>)
    requires EnvOk(env)
    ensures RijkOk(env, Targets(env, succ, |env.order|))
  {
    TargetsFacts(env, succ, |env.order|);
  }

  lemma QueryReplay(k: set<Path>, q: seq<Effect>, t: seq<NbrId>)
    requires KernelSilent(q) && OwedSilent(q)
    ensures KernelAfter(k, q + Owes(t)) == k && OwedAfter([], q + Owes(t)) == t
  {
    ReplayConcat(k, [], q, Owes(t));
    SilentReplay(k, [], q);
    OwesReplay([], t);
    SilentReplay(k, [], Owes(t));
    assert [] + t == t;
  }

  lemma QueryAllOk(env: Env, node: Node)
    requires EnvOk(env) && node.rijk == []
    ensures RijkOk(env, QueryAll(env, node).node.rijk)
    ensures Explains(node, QueryAll(env, node))
    ensures QueryAll(env, node).node == node.(rijk := Targets(env, node.succ.nbr, |env.order|))
  {
    var t := Targets(env, node.succ.nbr, |env.order|);
    var a := MarkActive(SuccessorAdvert(node));
    assert [] + t == t;
    TargetsOk(env, node.succ.nbr);
    PacketsSilent(env, node.succ.nbr, a, |env.ifaces|);
    QueryReplay(InstalledSet(node.routes), Queries(env, node.succ.nbr, a, |env.ifaces|), t);
  }

  // ---------------------------------------------------------------- state changes

  lemma FsmOk(env: Env, node: Node, e: DualEvent)
    requires RoutesOk(env, node.routes) && RijkOk(env, node.rijk)
    requires node.state != Passive ==> NoneInstalled(node.routes)
    ensures Base(env, Fsm(env, node, e).node)
    ensures Explains(node, Fsm(env, node, e))
    ensures SuccessorCurrent(node) ==> SuccessorCurrent(Fsm(env, node, e).node)
    ensures Fsm(env, node, e).node.rijk == node.rijk && Fsm(env, node, e).node.succ == node.succ
    ensures Fsm(env, node, e).node.state == if NextState(node.state, e).Some? then NextState(node.state, e).value else node.state
  {
    var t := NextState(node.state, e);
    if t.Some? {
      var node' := node.(state := t.value);
      UpdateFibOk(env, node');
      if SuccessorCurrent(node) {
        var i :| 0 <= i < |node.routes| && DescribesRoute(node.succ, node.routes[i]);
        assert DescribesRoute(node'.succ, node'.routes[i]);
      }
    }
  }

  /** A prefix that is about to ask everybody ends up active, with the queried neighbours owing. */
  ghost predicate AsksEverybody(env: Env, before: Node, s: Step) {
    && Base(env, s.node) && Explains(before, s)
    && s.node.rijk == Targets(env, before.succ.nbr, |env.order|) && s.node.succ == before.succ
  }

  lemma AskThenMove(env: Env, node: Node, q: Step, f: Step)
    requires q.node == node.(rijk := Targets(env, node.succ.nbr, |env.order|)) && Explains(node, q)
    requires Base(env, f.node) && Explains(q.node, f) && f.node.rijk == q.node.rijk && f.node.succ == q.node.succ
    ensures AsksEverybody(env, node, Step(f.node, q.fx + f.fx))
  {
    ExplainsThen(node, q, f);
  }

  lemma GoActiveOk(env: Env, node: Node, e: DualEvent)
    requires EnvOk(env) && Base(env, node) && node.rijk == []
    ensures AsksEverybody(env, node, GoActive(env, node, e))
    ensures GoActive(env, node, e).node.state == if NextState(node.state, e).Some? then NextState(node.state, e).value else node.state
  {
    QueryAllOk(env, node);
    var q := QueryAll(env, node);
    FsmOk(env, q.node, e);
    AskThenMove(env, node, q, Fsm(env, q.node, e));
  }

  lemma SelectedIsCurrent(env: Env, node: Node, r: Option<Route>)
    requires r.Some? ==> r.value in node.routes
    ensures r.Some? ==> SuccessorCurrent(SetSuccessor(node, r))
  {
    if r.Some? {
      var i :| 0 <= i < |node.routes| && node.routes[i] == r.value;
      assert DescribesRoute(SetSuccessor(node, r).succ, SetSuccessor(node, r).routes[i]);
    }
  }

  /** Closing the computation: whatever is chosen, the prefix is passive and consistent. */
  lemma SettleCore(env: Env, node: Node, r: Option<Route>, e: DualEvent, fx: seq<Effect>)
    requires Base(env, node) && node.rijk == [] && NextState(node.state, e) == Some(Passive)
    requires r.Some? ==> r.value in node.routes
    requires KernelSilent(fx) && OwedSilent(fx)
    ensures var f := Fsm(env, SetSuccessor(node, r), e); ClosesPassive(env, node, r, Step(f.node, fx + f.fx))
  {
    var n := SetSuccessor(node, r);
    SelectedIsCurrent(env, node, r);
    FsmOk(env, n, e);
    var f := Fsm(env, n, e);
    assert Explains(node, f);
    ExplainsPackets(node, f, fx);
  }

  lemma SettledOk(env: Env, node: Node, r: Option<Route>, e: DualEvent)
    requires Base(env, node) && node.rijk == [] && NextState(node.state, e) == Some(Passive)
    requires r.Some? ==> r.value in node.routes
    ensures ClosesPassive(env, node, r, Settled(env, node, r, e))
  {
    var n := SetSuccessor(node, r);
    PacketsSilent(env, n.succ.nbr, SuccessorAdvert(n), |env.ifaces|);
    SettleCore(env, node, r, e, UpdateAll(env, n, SuccessorAdvert(n)));
  }

  lemma SettledWithReplyOk(env: Env, node: Node, r: Option<Route>, e: DualEvent)
    requires Base(env, node) && node.rijk == [] && NextState(node.state, e) == Some(Passive)
    requires r.Some? ==> r.value in node.routes
    ensures ClosesPassive(env, node, r, SettledWithReply(env, node, r, e))
  {
    var n := SetSuccessor(node, r);
    var a := MarkActive(SuccessorAdvert(n));
    PacketsSilent(env, n.succ.nbr, a, |env.ifaces|);
    var reply := if node.succ.nbr.Some? then [SendReply(node.succ.nbr.value, Capped(env, a), false)] else [];
    SettleCore(env, node, r, e, reply + UpdateAll(env, n, a));
  }

  ghost predicate ClosesPassive(env: Env, before: Node, r: Option<Route>, s: Step) {
    && Base(env, s.node) && Explains(before, s)
    && s.node.state == Passive && s.node.rijk == []
    && s.node.succ == SetSuccessor(before, r).succ
    && (r.Some? ==> SuccessorCurrent(s.node))
  }

  lemma SelectMember(env: Env, node: Node)
    ensures Select(env, node).Some? ==> Select(env, node).value in node.routes
  {
  }

  /** What the last reply leads to: a second round when a query from the
      successor found nothing feasible, a passive prefix otherwise. */
  ghost predicate LastReplyResult(env: Env, node: Node, s: Step) {
    if (node.state == Active0 || node.state == Active2) && Select(env, node).None?
    then AsksEverybody(env, node, s) && s.node.state == (if node.state == Active0 then Active1 else Active3)
    else ClosesPassive(env, node, if node.state == Active0 || node.state == Active2 then Select(env, node)
                                  else Select(env, Forget(node)), s)
  }

  lemma LastReplyForgets(env: Env, node: Node)
    requires EnvOk(env) && Base(env, node) && node.rijk == [] && (node.state == Active1 || node.state == Active3)
    ensures LastReplyResult(env, node, LastReplyStep(env, node))
  {
    hide Base, ClosesPassive, AsksEverybody, Settled, SettledWithReply, GoActive, Select;
    SelectMember(env, Forget(node));
    var r := Select(env, Forget(node));
    if node.state == Active1 { SettledOk(env, node, r, Evt15); } else { SettledWithReplyOk(env, node, r, Evt13); }
  }

  lemma LastReplyActive0(env: Env, node: Node)
    requires EnvOk(env) && Base(env, node) && node.rijk == [] && node.state == Active0
    ensures LastReplyResult(env, node, LastReplyStep(env, node))
  {
    hide Base, ClosesPassive, AsksEverybody, Settled, SettledWithReply, GoActive, Select;
    var r := Select(env, node);
    if r.None? {
      GoActiveOk(env, node, Evt11);
    } else {
      SelectMember(env, node);
      SettledOk(env, node, r, Evt14);
    }
  }

  lemma LastReplyActive2(env: Env, node: Node)
    requires EnvOk(env) && Base(env, node) && node.rijk == [] && node.state == Active2
    ensures LastReplyResult(env, node, LastReplyStep(env, node))
  {
    hide Base, ClosesPassive, AsksEverybody, Settled, SettledWithReply, GoActive, Select;
    var r := Select(env, node);
    if r.None? {
      GoActiveOk(env, node, Evt12);
    } else {
      SelectMember(env, node);
      SettledWithReplyOk(env, node, r, Evt16);
    }
  }

  lemma LastReplyStepOk(env: Env, node: Node)
    requires EnvOk(env) && Base(env, node) && node.rijk == [] && node.state != Passive
    ensures LastReplyResult(env, node, LastReplyStep(env, node))
  {
    match node.state
    case Active0 => LastReplyActive0(env, node);
    case Active2 => LastReplyActive2(env, node);
    case _ => LastReplyForgets(env, node);
  }

  ghost predicate OutcomeOk(env: Env, before: Option<Node>, o: Outcome) {
    (o.node.Some? ==> NodeOk(env, o.node.value)) && ExplainsOutcome(before, o)
  }

  lemma ReapOk(env: Env, before: Node, s: Step)
    requires Base(env, s.node) && Explains(before, s)
    requires s.node.state == Passive ==> s.node.rijk == [] && (s.node.succ.nbr.Some? ==> SuccessorCurrent(s.node))
    ensures OutcomeOk(env, Some(before), Reap(s))
  {
    if s.node.state == Passive && s.node.succ.nbr.None? {
      var routes := s.node.routes;
      DeleteReplay(routes, |routes|);
      KernelDeletesOwedSilent(routes, |routes|);
      var d := KernelDeletes(routes, |routes|);
      SilentReplay({}, [], d);
      assert InstalledSet(Uninstalled(routes)[..|routes|] + routes[|routes|..]) == {};
      assert s.fx + Settles([]) + d == s.fx + d;
      ReplayConcat(InstalledSet(before.routes), before.rijk, s.fx, d);
    }
  }

  lemma LastReplyOk(env: Env, node: Node)
    requires EnvOk(env) && Base(env, node) && node.rijk == [] && node.state != Passive
    ensures OutcomeOk(env, Some(node), LastReply(env, node))
  {
    LastReplyStepOk(env, node);
    ReapOk(env, node, LastReplyStep(env, node));
  }

  lemma CloseIfQuietOk(env: Env, before: Node, s: Step)
    requires EnvOk(env) && Base(env, s.node) && Explains(before, s)
    requires s.node.state == Passive ==> NodeOk(env, s.node)
    ensures OutcomeOk(env, Some(before), CloseIfQuiet(env, s))
  {
    if s.node.state != Passive && s.node.rijk == [] {
      LastReplyOk(env, s.node);
      ExplainsThenOutcome(before, s, LastReply(env, s.node));
    }
  }

  // ---------------------------------------------------------------- the inputs

  lemma DecideOk(env: Env, node: Node, e: DualEvent, oldFd: uint32, replyTo: Option<NbrId>)
    requires EnvOk(env) && Base(env, node) && node.state == Passive && node.rijk == []
    requires e == Evt3 || e == Evt4
    ensures var s := Decide(env, node, e, oldFd, replyTo);
            Base(env, s.node) && Explains(node, s) && (s.node.state == Passive ==> NodeOk(env, s.node))
    ensures var s := Decide(env, node, e, oldFd, replyTo);
            (s.node.state == Passive <==> Select(env, node).Some?) && (s.node.state != Passive ==> AsksEverybody(env, node, s))
  {
    var r := Select(env, node);
    if r.None? {
      GoActiveOk(env, node, e);
    } else {
      SelectMember(env, node);
      var n := SetSuccessor(node, r);
      SelectedIsCurrent(env, node, r);
      UpdateFibOk(env, n);
      var f := UpdateFib(env, n);
      assert Explains(node, f);
      var a := SuccessorAdvert(n);
      var reply := if replyTo.Some? then [SendReply(replyTo.value, Capped(env, a), false)] else [];
      ExplainsPackets(node, f, reply);
      var updates := if n.succ.fdistance != oldFd then UpdateAll(env, n, a) else [];
      PacketsSilent(env, n.succ.nbr, a, |env.ifaces|);
      ExplainsPackets(node, Step(f.node, f.fx + reply), updates);
    }
  }

  lemma CheckUpdateOk(env: Env, prev: Option<Node>, n: NbrId, info: Option<Info>)
    requires EnvOk(env) && n in env.nbrs && (prev.Some? ==> NodeOk(env, prev.value))
    ensures OutcomeOk(env, prev, CheckUpdate(env, prev, n, info))
  {
    if prev.Some? || info.Some? {
      var start := if prev.None? then NEW_NODE else prev.value;
      AbsorbOk(env, start, n, info);
      var a := Absorb(start, n, info);
      if a.node.state == Passive {
        DecideOk(env, a.node, Evt4, start.succ.fdistance, None);
        var d := Decide(env, a.node, Evt4, start.succ.fdistance, None);
        ExplainsThen(start, a, d);
        CloseIfQuietOk(env, start, Step(d.node, a.fx + d.fx));
      } else {
        assert a.fx + [] == a.fx;
        CloseIfQuietOk(env, start, a);
      }
      assert prev.None? ==> InstalledIn(None) == InstalledSet(NEW_NODE.routes);
    }
  }

  /** A step that leaves the prefix in order, save for closing it when it is quiet. */
  ghost predicate StepOk(env: Env, before: Node, s: Step) {
    Base(env, s.node) && Explains(before, s) && (s.node.state == Passive ==> NodeOk(env, s.node))
  }

  lemma AnswerActiveOk(env: Env, node: Node, n: NbrId)
    requires Base(env, node) && node.state != Passive
    ensures StepOk(env, node, AnswerActive(env, node, n))
  {
    FsmOk(env, node, Evt6);
    var f := Fsm(env, node, Evt6);
    ExplainsPackets(node, f, [SendReply(n, Capped(env, MarkActive(SuccessorAdvert(f.node))), false)]);
  }

  lemma ServeQueryOk(env: Env, node: Node, n: NbrId, oldFd: uint32)
    requires EnvOk(env) && Base(env, node) && (node.state == Passive ==> node.rijk == [])
    ensures StepOk(env, node, ServeQuery(env, node, n, oldFd))
  {
    if node.state == Passive {
      DecideOk(env, node, Evt3, oldFd, Some(n));
    } else if node.succ.nbr == Some(n) {
      FsmOk(env, node, Evt5);
    } else {
      AnswerActiveOk(env, node, n);
    }
  }

  lemma CheckQueryOk(env: Env, prev: Option<Node>, n: NbrId, asked: Advert, info: Option<Info>, sia: bool)
    requires EnvOk(env) && n in env.nbrs && (prev.Some? ==> NodeOk(env, prev.value))
    ensures OutcomeOk(env, prev, CheckQuery(env, prev, n, asked, info, sia))
  {
    if prev.None? {
      CheckQueryNewOk(env, n, asked, info, sia);
    } else {
      AbsorbOk(env, prev.value, n, info);
      var a := Absorb(prev.value, n, info);
      ServeQueryOk(env, a.node, n, prev.value.succ.fdistance);
      var q := ServeQuery(env, a.node, n, prev.value.succ.fdistance);
      ExplainsThen(prev.value, a, q);
      CloseIfQuietOk(env, prev.value, Step(q.node, a.fx + q.fx));
      var o := CloseIfQuiet(env, Step(q.node, a.fx + q.fx));
      if o.node.Some? {
        ExplainsPackets(prev.value, Step(o.node.value, o.fx),
                        [SendReply(n, Capped(env, MarkActive(SuccessorAdvert(o.node.value))), true)]);
      } else {
        DeletedExplained(prev, o);
      }
    }
  }

  /** The mark for the use of a deleted prefix changes no account. */
  lemma DeletedExplained(before: Option<Node>, o: Outcome)
    requires ExplainsOutcome(before, o)
    ensures ExplainsOutcome(before, Outcome(o.node, o.fx + [UseDeleted]))
  {
    ReplayConcat(InstalledIn(before), OwedIn(before), o.fx, [UseDeleted]);
    SilentReplay(KernelAfter(InstalledIn(before), o.fx), OwedAfter(OwedIn(before), o.fx), [UseDeleted]);
  }

  lemma CheckQueryNewOk(env: Env, n: NbrId, asked: Advert, info: Option<Info>, sia: bool)
    requires EnvOk(env) && n in env.nbrs
    ensures OutcomeOk(env, None, CheckQuery(env, None, n, asked, info, sia))
  {
    var o := CheckQuery(env, None, n, asked, info, sia);
    SilentReplay({}, [], o.fx);
    if info.Some? {
      var r := NewRoute(n, info.value);
      assert o.node.value.routes == [r];
      assert DescribesRoute(o.node.value.succ, o.node.value.routes[0]);
    }
  }

  lemma CheckReplyOk(env: Env, prev: Node, n: NbrId, info: Option<Info>, sia: bool)
    requires EnvOk(env) && n in env.nbrs && Base(env, prev) && (prev.state == Passive ==> NodeOk(env, prev))
    ensures OutcomeOk(env, Some(prev), CheckReply(env, Some(prev), n, info, sia))
  {
    if Awaited(Some(prev), n) && !sia {
      AbsorbOk(env, prev, n, info);
      var a := Absorb(prev, n, info);
      RemoveFirstFacts(a.node.rijk, n);
      var rest := a.node.(rijk := RemoveFirst(a.node.rijk, n));
      assert Explains(a.node, Step(rest, [Settle(n)])) by { assert [Settle(n)][..0] == []; }
      ExplainsThen(prev, a, Step(rest, [Settle(n)]));
      if rest.rijk == [] {
        LastReplyOk(env, rest);
        ExplainsThenOutcome(prev, Step(rest, a.fx + [Settle(n)]), LastReply(env, rest));
      }
    }
  }

  lemma LoseLinkOk(env: Env, node: Node, n: NbrId, oldFd: uint32)
    requires EnvOk(env) && Base(env, node) && (node.state == Passive ==> node.rijk == [])
    ensures StepOk(env, node, LoseLink(env, node, n, oldFd))
  {
    match node.state
    case Passive => DecideOk(env, node, Evt4, oldFd, None);
    case Active1 => FsmOk(env, node, Evt9);
    case Active3 => FsmOk(env, node, Evt10);
    case _ =>
  }

  lemma LinkDownRouteOk(env: Env, node: Node, n: NbrId)
    requires EnvOk(env) && n in env.nbrs && NodeOk(env, node)
    ensures OutcomeOk(env, Some(node), LinkDownRoute(env, node, n))
  {
    DropRouteOk(env, node, n);
    var a := DropRoute(node, n);
    LoseLinkOk(env, a.node, n, node.succ.fdistance);
    var d := LoseLink(env, a.node, n, node.succ.fdistance);
    CheckReplyOk(env, d.node, n, None, false);
    ExplainsThen(node, a, d);
    ExplainsThenOutcome(node, Step(d.node, a.fx + d.fx), CheckReply(env, Some(d.node), n, None, false));
  }
}
